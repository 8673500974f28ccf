/**
 * One load-balancer-service slot: the shared container that virtual servers are attached to,
 * created on demand and deleted when emptied when the slot is managed. Each operation runs
 * under the slot's lock in Go, so each is one sequential step here.
 */
module LbService {
  import opened Wrappers
  import Backend

  /** A backend call that changes remote state. */
  datatype Effect =
    | Create(clusterName: string)
    | Update(container: Backend.Container)
    | Delete(id: string)

  /** The errors of attach and detach: a backend error passed on unchanged, or the missing
      container of an unmanaged slot. */
  datatype ServiceError = BackendError(cause: Backend.Error) | NoMoreVirtualServers

  /** The slot id after an operation, the changing calls it made in order, and its error. */
  datatype Outcome = Outcome(lbServiceID: string, effects: seq<Effect>, err: Option<ServiceError>)

  /** The reply of an update or delete call, as the operation's error. */
  function Reply(e: Option<Backend.Error>): Option<ServiceError> {
    if e.Some? then Some(BackendError(e.value)) else None
  }

  /** `addVirtualServerToLoadBalancerService` on a slot with id `lbServiceID`. */
  function AttachOutcome(access: Backend.Access, lbServiceID: string, managed: bool,
                         clusterName: string, serverID: string): Outcome
  {
    match access.findLoadBalancerService(clusterName, lbServiceID)
    case Err(e) => Outcome(lbServiceID, [], Some(BackendError(e)))
    case Ok(Some(c)) =>
      var c' := c.(virtualServerIds := c.virtualServerIds + [serverID]);
      Outcome(lbServiceID, [Update(c')], Reply(access.updateLoadBalancerService(c')))
    case Ok(None) =>
      if !managed then Outcome(lbServiceID, [], Some(NoMoreVirtualServers))
      else match access.createLoadBalancerService(clusterName)
        case Err(e) => Outcome(lbServiceID, [Create(clusterName)], Some(BackendError(e)))
        case Ok(c) =>
          var c' := c.(virtualServerIds := c.virtualServerIds + [serverID]);
          Outcome(c.id, [Create(clusterName), Update(c')], Reply(access.updateLoadBalancerService(c')))
  }

  /** The member list without the first occurrence of `x`. */
  function RemoveFirst(ids: seq<string>, x: string): seq<string>
    decreases |ids|
  {
    if |ids| == 0 then []
    else if ids[0] == x then ids[1..]
    else [ids[0]] + RemoveFirst(ids[1..], x)
  }

  /** `removeVirtualServerFromLoadBalancerService`: detach never changes the slot id. */
  function DetachOutcome(access: Backend.Access, lbServiceID: string, managed: bool,
                         clusterName: string, serverID: string): Outcome
  {
    match access.findLoadBalancerServiceForVirtualServer(clusterName, serverID)
    case Err(e) => Outcome(lbServiceID, [], Some(BackendError(e)))
    case Ok(None) => Outcome(lbServiceID, [], None)
    case Ok(Some(c)) =>
      var c' := c.(virtualServerIds := RemoveFirst(c.virtualServerIds, serverID));
      if managed && |c'.virtualServerIds| == 0
      then Outcome(lbServiceID, [Delete(c.id)], Reply(access.deleteLoadBalancerService(c.id)))
      else Outcome(lbServiceID, [Update(c')], Reply(access.updateLoadBalancerService(c')))
  }

  /** `lbService`. The lock is not modelled: each method is one atomic step. */
  class LbService {
    const access: Backend.Access
    var lbServiceID: string
    const managed: bool

    /** `newLbService`: the slot is managed exactly when no container id is given. */
    constructor (access: Backend.Access, lbServiceID: string)
      ensures this.access == access && this.lbServiceID == lbServiceID
      ensures managed <==> lbServiceID == ""
    {
      this.access := access;
      this.lbServiceID := lbServiceID;
      managed := lbServiceID == "";
    }

    /** `addVirtualServerToLoadBalancerService`. */
    method AddVirtualServerToLoadBalancerService(clusterName: string, serverID: string)
      returns (effects: seq<Effect>, err: Option<ServiceError>)
      modifies this`lbServiceID
      ensures Outcome(lbServiceID, effects, err) == AttachOutcome(access, old(lbServiceID), managed, clusterName, serverID)
    {
      effects := [];
      var found := access.findLoadBalancerService(clusterName, lbServiceID);
      if found.Err? {
        return effects, Some(BackendError(found.error));
      }
      var lbService: Backend.Container;
      if found.value.None? {
        if managed {
          effects := effects + [Create(clusterName)];
          var created := access.createLoadBalancerService(clusterName);
          if created.Err? {
            return effects, Some(BackendError(created.error));
          }
          lbService := created.value;
          lbServiceID := lbService.id;
        } else {
          return effects, Some(NoMoreVirtualServers);
        }
      } else {
        lbService := found.value.value;
      }
      lbService := lbService.(virtualServerIds := lbService.virtualServerIds + [serverID]);
      effects := effects + [Update(lbService)];
      var updated := access.updateLoadBalancerService(lbService);
      if updated.Some? {
        return effects, Some(BackendError(updated.value));
      }
      return effects, None;
    }

    /** `removeVirtualServerFromLoadBalancerService`: reads the slot and changes nothing in it. */
    method RemoveVirtualServerFromLoadBalancerService(clusterName: string, serverID: string)
      returns (effects: seq<Effect>, err: Option<ServiceError>)
      ensures Outcome(lbServiceID, effects, err) == DetachOutcome(access, lbServiceID, managed, clusterName, serverID)
    {
      effects := [];
      var found := access.findLoadBalancerServiceForVirtualServer(clusterName, serverID);
      if found.Err? {
        return effects, Some(BackendError(found.error));
      }
      if found.value.Some? {
        var lbService := found.value.value;
        ghost var before := lbService.virtualServerIds;
        var ids := lbService.virtualServerIds;
        var i := 0;
        while i < |ids|
          invariant 0 <= i <= |ids| && ids == before
          invariant forall j :: 0 <= j < i ==> before[j] != serverID
        {
          if ids[i] == serverID {
            ids := ids[..i] + ids[i + 1..];
            RemoveFirstAt(before, serverID, i);
            break;
          }
          i := i + 1;
        }
        if ids == before {
          RemoveFirstAbsent(before, serverID);
        }
        lbService := lbService.(virtualServerIds := ids);
        if managed && |lbService.virtualServerIds| == 0 {
          effects := [Delete(lbService.id)];
          var deleted := access.deleteLoadBalancerService(lbService.id);
          if deleted.Some? {
            return effects, Some(BackendError(deleted.value));
          }
        } else {
          effects := [Update(lbService)];
          var updated := access.updateLoadBalancerService(lbService);
          if updated.Some? {
            return effects, Some(BackendError(updated.value));
          }
        }
      }
      return effects, None;
    }
  }

  /** Removing at the first occurrence splices out exactly that element. */
  lemma {:induction false} RemoveFirstAt(ids: seq<string>, x: string, i: nat)
    requires i < |ids| && ids[i] == x
    requires forall j :: 0 <= j < i ==> ids[j] != x
    ensures RemoveFirst(ids, x) == ids[..i] + ids[i + 1..]
    decreases i
  {
    if i > 0 {
      RemoveFirstAt(ids[1..], x, i - 1);
      assert ids[..i] == [ids[0]] + ids[1..][..i - 1];
      assert ids[i + 1..] == ids[1..][i..];
    }
  }

  /** Removing an absent id leaves the list as it was. */
  lemma {:induction false} RemoveFirstAbsent(ids: seq<string>, x: string)
    requires x !in ids
    ensures RemoveFirst(ids, x) == ids
    decreases |ids|
  {
    if |ids| > 0 {
      assert x !in ids[1..];
      RemoveFirstAbsent(ids[1..], x);
      assert ids == [ids[0]] + ids[1..];
    }
  }

  /** Exactly one occurrence of `x` goes, when there is one; the others stay. */
  lemma {:induction false} RemoveFirstCount(ids: seq<string>, x: string)
    ensures multiset(RemoveFirst(ids, x)) == multiset(ids) - multiset{x}
    decreases |ids|
  {
    if |ids| > 0 {
      assert ids == [ids[0]] + ids[1..];
      assert multiset(ids) == multiset{ids[0]} + multiset(ids[1..]);
      if ids[0] != x {
        RemoveFirstCount(ids[1..], x);
        assert RemoveFirst(ids, x) == [ids[0]] + RemoveFirst(ids[1..], x);
      }
    }
  }

  /** The list loses one entry exactly when it holds `x`. */
  lemma {:induction false} RemoveFirstLength(ids: seq<string>, x: string)
    ensures |RemoveFirst(ids, x)| == if x in ids then |ids| - 1 else |ids|
    decreases |ids|
  {
    if |ids| > 0 && ids[0] != x {
      RemoveFirstLength(ids[1..], x);
      assert x in ids <==> x in ids[1..];
    }
  }

  /** A failing find ends attach with that error, no change and the slot id kept. */
  lemma AttachFindFails(access: Backend.Access, id: string, managed: bool, clusterName: string, serverID: string)
    requires access.findLoadBalancerService(clusterName, id).Err?
    ensures AttachOutcome(access, id, managed, clusterName, serverID) ==
            Outcome(id, [], Some(BackendError(access.findLoadBalancerService(clusterName, id).error)))
  {
  }

  /** Attach creates a container exactly when none is found and the slot is managed; an
      unmanaged slot without a container fails with no change. */
  lemma AttachCreatesIff(access: Backend.Access, id: string, managed: bool, clusterName: string, serverID: string)
    ensures var o := AttachOutcome(access, id, managed, clusterName, serverID);
            (Create(clusterName) in o.effects <==> access.findLoadBalancerService(clusterName, id) == Ok(None) && managed)
    ensures var o := AttachOutcome(access, id, managed, clusterName, serverID);
            access.findLoadBalancerService(clusterName, id) == Ok(None) && !managed ==>
              o == Outcome(id, [], Some(NoMoreVirtualServers))
    ensures var o := AttachOutcome(access, id, managed, clusterName, serverID);
            o.lbServiceID != id ==>
              (&& managed && access.findLoadBalancerService(clusterName, id) == Ok(None)
               && access.createLoadBalancerService(clusterName).Ok?
               && o.lbServiceID == access.createLoadBalancerService(clusterName).value.id)
  {
  }

  /** A successful attach persists the container it found or created with `serverID`
      appended at the end, duplicates included. */
  lemma AttachAppends(access: Backend.Access, id: string, managed: bool, clusterName: string, serverID: string)
    requires AttachOutcome(access, id, managed, clusterName, serverID).err == None
    ensures var o := AttachOutcome(access, id, managed, clusterName, serverID);
            var found := access.findLoadBalancerService(clusterName, id);
            var c := if found.Ok? && found.value.Some? then found.value.value
                     else access.createLoadBalancerService(clusterName).value;
            && found.Ok?
            && (found.value.None? ==> managed && access.createLoadBalancerService(clusterName).Ok?)
            && |o.effects| > 0
            && o.effects[|o.effects| - 1] == Update(Backend.Container(c.id, c.virtualServerIds + [serverID]))
            && |o.effects[|o.effects| - 1].container.virtualServerIds| == |c.virtualServerIds| + 1
  {
  }

  /** Detach without a container holding `serverID` succeeds with no change. */
  lemma DetachNotFound(access: Backend.Access, id: string, managed: bool, clusterName: string, serverID: string)
    requires access.findLoadBalancerServiceForVirtualServer(clusterName, serverID) == Ok(None)
    ensures DetachOutcome(access, id, managed, clusterName, serverID) == Outcome(id, [], None)
  {
  }

  /** Detach from a found container deletes it exactly when the slot is managed and the list
      becomes empty, and otherwise persists the list without the first occurrence. */
  lemma DetachDeletesIff(access: Backend.Access, id: string, managed: bool, clusterName: string, serverID: string,
                         c: Backend.Container)
    requires access.findLoadBalancerServiceForVirtualServer(clusterName, serverID) == Ok(Some(c))
    ensures var o := DetachOutcome(access, id, managed, clusterName, serverID);
            && o.lbServiceID == id
            && (o.effects == [Delete(c.id)] <==> managed && RemoveFirst(c.virtualServerIds, serverID) == [])
            && (o.effects != [Delete(c.id)] ==>
                  o.effects == [Update(c.(virtualServerIds := RemoveFirst(c.virtualServerIds, serverID)))])
  {
  }

  /** Removing the only member of a managed container deletes it. */
  lemma DetachLastMember(access: Backend.Access, id: string, clusterName: string, serverID: string, c: Backend.Container)
    requires access.findLoadBalancerServiceForVirtualServer(clusterName, serverID) == Ok(Some(c))
    requires c.virtualServerIds == [serverID]
    ensures DetachOutcome(access, id, true, clusterName, serverID).effects == [Delete(c.id)]
  {
    assert RemoveFirst([serverID], serverID) == [];
  }

  /* A backend that holds at most one container for the cluster, `remote`, and gives the id
     `newID` to a container it creates; every call succeeds. Applying an operation's effects
     to it gives the backend seen by the next operation, so sequences of attaches and detaches
     can be followed step by step. */

  function SingleContainer(remote: Option<Backend.Container>, newID: string): Backend.Access {
    Backend.Access(
      _ => Ok(""),
      (_, _) => Ok(remote),
      _ => Ok(Backend.Container(newID, [])),
      _ => None,
      _ => None,
      (_, vs) => if remote.Some? && vs in remote.value.virtualServerIds then Ok(remote) else Ok(None))
  }

  function Apply(remote: Option<Backend.Container>, effects: seq<Effect>, newID: string): Option<Backend.Container>
    decreases |effects|
  {
    if |effects| == 0 then remote
    else
      var next := match effects[0]
        case Create(_) => Some(Backend.Container(newID, []))
        case Update(c) => Some(c)
        case Delete(_) => None;
      Apply(next, effects[1..], newID)
  }

  /** The backend and the slot id after attaching `servers` one after the other. */
  function AttachAll(remote: Option<Backend.Container>, id: string, managed: bool, newID: string,
                     clusterName: string, servers: seq<string>): (Option<Backend.Container>, string)
    decreases |servers|
  {
    if |servers| == 0 then (remote, id)
    else
      var o := AttachOutcome(SingleContainer(remote, newID), id, managed, clusterName, servers[0]);
      AttachAll(Apply(remote, o.effects, newID), o.lbServiceID, managed, newID, clusterName, servers[1..])
  }

  /** The backend after detaching `servers` one after the other. */
  function DetachAll(remote: Option<Backend.Container>, id: string, managed: bool, newID: string,
                     clusterName: string, servers: seq<string>): Option<Backend.Container>
    decreases |servers|
  {
    if |servers| == 0 then remote
    else
      var o := DetachOutcome(SingleContainer(remote, newID), id, managed, clusterName, servers[0]);
      DetachAll(Apply(remote, o.effects, newID), id, managed, newID, clusterName, servers[1..])
  }

  /** Serialized attaches to an existing container all land in it, in order, and never change
      the slot id. */
  lemma {:induction false} SerializedAttaches(c: Backend.Container, id: string, managed: bool, newID: string,
                                              clusterName: string, servers: seq<string>)
    ensures AttachAll(Some(c), id, managed, newID, clusterName, servers) ==
            (Some(c.(virtualServerIds := c.virtualServerIds + servers)), id)
    decreases |servers|
  {
    if |servers| == 0 {
      assert c.virtualServerIds + servers == c.virtualServerIds;
    } else {
      var c' := c.(virtualServerIds := c.virtualServerIds + [servers[0]]);
      var access := SingleContainer(Some(c), newID);
      assert access.findLoadBalancerService(clusterName, id) == Ok(Some(c));
      assert access.updateLoadBalancerService(c') == None;
      var o := AttachOutcome(access, id, managed, clusterName, servers[0]);
      assert o == Outcome(id, [Update(c')], None);
      assert Apply(Some(c), o.effects, newID) == Some(c');
      SerializedAttaches(c', id, managed, newID, clusterName, servers[1..]);
      assert c.virtualServerIds + [servers[0]] + servers[1..] == c.virtualServerIds + servers;
    }
  }

  /** On a managed slot without a container, the first attach creates one and records the
      new id; the later ones reuse it, so it ends with all the servers in order. */
  lemma ManagedSlotCreatesOnce(id: string, newID: string, clusterName: string, servers: seq<string>)
    requires |servers| > 0
    ensures AttachAll(None, id, true, newID, clusterName, servers) ==
            (Some(Backend.Container(newID, servers)), newID)
  {
    var c := Backend.Container(newID, [servers[0]]);
    var access := SingleContainer(None, newID);
    assert access.findLoadBalancerService(clusterName, id) == Ok(None);
    assert access.createLoadBalancerService(clusterName) == Ok(Backend.Container(newID, []));
    assert access.updateLoadBalancerService(c) == None;
    assert [] + [servers[0]] == [servers[0]];
    var o := AttachOutcome(access, id, true, clusterName, servers[0]);
    assert o == Outcome(newID, [Create(clusterName), Update(c)], None);
    assert Apply(None, o.effects, newID) == Apply(Some(Backend.Container(newID, [])), [Update(c)], newID);
    assert AttachAll(None, id, true, newID, clusterName, servers) ==
           AttachAll(Some(c), newID, true, newID, clusterName, servers[1..]);
    SerializedAttaches(c, newID, true, newID, clusterName, servers[1..]);
    assert [servers[0]] + servers[1..] == servers;
  }

  /** An unmanaged slot without a container rejects every attach and creates nothing. */
  lemma {:induction false} UnmanagedSlotNeverCreates(id: string, newID: string, clusterName: string, servers: seq<string>)
    ensures AttachAll(None, id, false, newID, clusterName, servers) == (None, id)
    decreases |servers|
  {
    if |servers| > 0 {
      UnmanagedSlotNeverCreates(id, newID, clusterName, servers[1..]);
    }
  }

  /** Detaching the first members in order leaves the rest; a managed container is deleted
      once it is emptied, an unmanaged one is kept empty. */
  lemma {:induction false} DetachInOrder(k: string, id: string, managed: bool, newID: string, clusterName: string,
                                         servers: seq<string>, rest: seq<string>)
    ensures DetachAll(Some(Backend.Container(k, servers + rest)), id, managed, newID, clusterName, servers) ==
            if managed && |servers| > 0 && rest == [] then None else Some(Backend.Container(k, rest))
    decreases |servers|
  {
    if |servers| == 0 {
      assert servers + rest == rest;
    } else {
      var tail := servers[1..];
      var c := Backend.Container(k, servers + rest);
      assert servers + rest == [servers[0]] + (tail + rest);
      assert RemoveFirst(servers + rest, servers[0]) == tail + rest;
      var c' := Backend.Container(k, tail + rest);
      var access := SingleContainer(Some(c), newID);
      assert access.findLoadBalancerServiceForVirtualServer(clusterName, servers[0]) == Ok(Some(c));
      assert access.updateLoadBalancerService(c') == None;
      assert access.deleteLoadBalancerService(k) == None;
      var o := DetachOutcome(access, id, managed, clusterName, servers[0]);
      if managed && tail + rest == [] {
        assert o.effects == [Delete(k)];
        assert Apply(Some(c), o.effects, newID) == None;
        assert tail == [];
      } else {
        assert o.effects == [Update(c')];
        assert Apply(Some(c), o.effects, newID) == Some(c');
        DetachInOrder(k, id, managed, newID, clusterName, tail, rest);
      }
    }
  }

  /** A managed slot's container lives exactly as long as it has members: attaching servers
      and detaching them in the same order leaves no container behind. */
  lemma ManagedLifecycle(id: string, newID: string, clusterName: string, servers: seq<string>)
    requires |servers| > 0
    ensures var (remote, id') := AttachAll(None, id, true, newID, clusterName, servers);
            id' == newID && DetachAll(remote, id', true, newID, clusterName, servers) == None
  {
    ManagedSlotCreatesOnce(id, newID, clusterName, servers);
    DetachInOrder(newID, newID, true, newID, clusterName, servers, []);
    assert servers + [] == servers;
  }
}
