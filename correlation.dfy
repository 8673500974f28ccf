/**
 * Correlation keys: the canonical tags for a cluster, a Service and a port mapping, and the
 * predicates that decide whether a remote virtual server, pool or TCP monitor belongs to a
 * port mapping.
 */
module Correlation {
  import opened Wrappers
  import opened TagAlgebra
  import Strings
  import Decimal
  import Helpers
  import opened PortMapping

  /** The tag scopes. Their definitions are not part of the modelled files; the model relies
      only on their being distinct. */
  const ScopeCluster: string := "cluster"
  const ScopeService: string := "service"
  const ScopePort: string := "port"
  const ScopeIPPoolID: string := "ippoolid"
  const ScopeLBClass: string := "lbclass"

  lemma ScopesDistinct()
    ensures |{ScopeCluster, ScopeService, ScopePort, ScopeIPPoolID, ScopeLBClass}| == 5
  {
  }

  /** `clusterTag`. */
  function ClusterTag(clusterName: string): Tag {
    Tag(ScopeCluster, clusterName)
  }

  /** `serviceTag`: the Service's "namespace/name". */
  function ServiceTag(objectName: Helpers.ObjectName): Tag {
    Tag(ScopeService, objectName.String())
  }

  /** `portTag`: "protocol/sourcePort". */
  function PortTag(mapping: Mapping): Tag {
    Tag(ScopePort, mapping.protocol + "/" + Decimal.FormatInt(mapping.sourcePort))
  }

  /** A cluster tag carries the cluster name under the cluster scope. */
  lemma ClusterTagValue(clusterName: string, tags: seq<Tag>)
    ensures CheckTags(tags, [ClusterTag(clusterName)]) <==>
            HasScope(tags, ScopeCluster) && GetTag(tags, ScopeCluster) == clusterName
  {
    CheckTagsIff(tags, [ClusterTag(clusterName)]);
  }

  /** The Service a remote object belongs to is recovered from its first service tag. */
  lemma ServiceTagRecovers(tags: seq<Tag>, o: Helpers.ObjectName)
    requires '/' !in o.namespace && '/' !in o.name
    requires CheckTags(tags, [ServiceTag(o)])
    ensures Helpers.ParseObjectName(GetTag(tags, ScopeService)) == Some(o)
  {
    CheckTagsIff(tags, [ServiceTag(o)]);
    assert [ServiceTag(o)][0] == ServiceTag(o);
    Helpers.ParseString(o);
  }

  /** The port tag identifies protocol and source port, as long as protocols hold no '/'. */
  lemma PortTagInjective(m1: Mapping, m2: Mapping)
    requires '/' !in m1.protocol && '/' !in m2.protocol
    requires PortTag(m1) == PortTag(m2)
    ensures m1.protocol == m2.protocol && m1.sourcePort == m2.sourcePort
  {
    var s1, s2 := Decimal.FormatInt(m1.sourcePort), Decimal.FormatInt(m2.sourcePort);
    NoCharInDecimal(m1.sourcePort, '/');
    NoCharInDecimal(m2.sourcePort, '/');
    assert m1.protocol + "/" + s1 == m1.protocol + ['/'] + s1;
    assert m2.protocol + "/" + s2 == m2.protocol + ['/'] + s2;
    Strings.SameAtFirst(m1.protocol, s1, m2.protocol, s2, '/');
    Decimal.FormatIntInjective(m1.sourcePort, m2.sourcePort);
  }

  /** NSX-T `LbVirtualServer`, reduced to the fields read here. */
  datatype LbVirtualServer = LbVirtualServer(port: string, ipProtocol: string, defaultPoolMemberPort: string)

  /** NSX-T `LbPool`, reduced to its tags. */
  datatype LbPool = LbPool(tags: seq<Tag>)

  /** NSX-T `LbTcpMonitor`, reduced to its tags. */
  datatype LbTcpMonitor = LbTcpMonitor(tags: seq<Tag>)

  /** `MatchVirtualServer`: listener port and protocol are the mapping's. */
  function MatchVirtualServer(m: Mapping, server: LbVirtualServer): bool {
    server.port == FormatPort(m.sourcePort) && server.ipProtocol == m.protocol
  }

  /** `MatchPool`: the pool passes the check against the mapping's port tag. */
  function MatchPool(m: Mapping, pool: LbPool): bool {
    CheckTags(pool.tags, [PortTag(m)])
  }

  /** `MatchTCPMonitor`: the monitor passes the check against the mapping's port tag. */
  function MatchTCPMonitor(m: Mapping, monitor: LbTcpMonitor): bool {
    CheckTags(monitor.tags, [PortTag(m)])
  }

  /** `MatchNodePort`: the default pool member port is the mapping's node port. */
  function MatchNodePort(m: Mapping, server: LbVirtualServer): bool {
    server.defaultPoolMemberPort == FormatPort(m.nodePort)
  }

  /** A virtual server matches at most one (source port, protocol) pair. */
  lemma MatchVirtualServerIdentifies(m1: Mapping, m2: Mapping, server: LbVirtualServer)
    requires MatchVirtualServer(m1, server) && MatchVirtualServer(m2, server)
    ensures m1.sourcePort == m2.sourcePort && m1.protocol == m2.protocol
  {
    FormatPortInjective(m1.sourcePort, m2.sourcePort);
  }

  /** `MatchNodePort` looks at the node port only, and a server's member port names at most one. */
  lemma MatchNodePortIdentifies(m1: Mapping, m2: Mapping, server: LbVirtualServer)
    requires MatchNodePort(m1, server) && MatchNodePort(m2, server)
    ensures m1.nodePort == m2.nodePort
    ensures forall p, proto :: MatchNodePort(Mapping(p, m1.nodePort, proto), server)
  {
    FormatPortInjective(m1.nodePort, m2.nodePort);
  }

  /** A pool matches exactly when its first port-scoped tag is the mapping's port tag. */
  lemma MatchPoolIff(m: Mapping, pool: LbPool)
    ensures MatchPool(m, pool) <==> HasScope(pool.tags, ScopePort) && GetTag(pool.tags, ScopePort) == PortTag(m).tag
  {
    CheckTagsIff(pool.tags, [PortTag(m)]);
  }

  /** A monitor matches exactly when its first port-scoped tag is the mapping's port tag. */
  lemma MatchTCPMonitorIff(m: Mapping, monitor: LbTcpMonitor)
    ensures MatchTCPMonitor(m, monitor) <==>
            HasScope(monitor.tags, ScopePort) && GetTag(monitor.tags, ScopePort) == PortTag(m).tag
  {
    CheckTagsIff(monitor.tags, [PortTag(m)]);
  }

  /** A pool matches at most one (source port, protocol) pair, for protocols without '/'. */
  lemma MatchPoolIdentifies(m1: Mapping, m2: Mapping, pool: LbPool)
    requires '/' !in m1.protocol && '/' !in m2.protocol
    requires MatchPool(m1, pool) && MatchPool(m2, pool)
    ensures m1.sourcePort == m2.sourcePort && m1.protocol == m2.protocol
  {
    MatchPoolIff(m1, pool);
    MatchPoolIff(m2, pool);
    PortTagInjective(m1, m2);
  }

  /** Tags other than port tags never change whether a pool matches. */
  lemma MatchPoolIgnoresOtherTags(m: Mapping, tags: seq<Tag>, extra: seq<Tag>)
    requires forall e :: e in extra ==> e.scope != ScopePort
    ensures MatchPool(m, LbPool(tags + extra)) == MatchPool(m, LbPool(tags))
  {
    CheckTagsAppendUnrelated(tags, extra, [PortTag(m)]);
  }

  /** In a normalized collection the first entry of a scope is the collection's entry for it. */
  lemma NormalizedLookup(t: Tags, s: string)
    ensures var n := Normalize(t);
            var i := IndexOfScope(n, s);
            && (s in t ==> i < |n| && n[i] == t[s])
            && (s !in t ==> i == |n|)
  {
    var n := Normalize(t);
    var i := IndexOfScope(n, s);
    if s in t {
      assert t[s] in n;
      var k :| 0 <= k < |n| && n[k] == t[s];
      assert n[k].scope == s && i <= k;
      if i < k {
        // two entries with one scope would break the strict order
        assert Strings.Less(n[i].scope, n[k].scope);
        Strings.LessIrreflexive(s);
      }
    }
  }

  /** Checking a normalized collection against one tag asks whether the collection holds it. */
  lemma CheckTagsNormalize(t: Tags, r: Tag)
    ensures CheckTags(Normalize(t), [r]) <==> r.scope in t && t[r.scope] == r
  {
    NormalizedLookup(t, r.scope);
    assert [r][1..] == [];
  }

  /** A pool created with the mapping's port tag added to any collection of tags, and written
      out normalized, is found again by `MatchPool`. */
  lemma CreatedPoolMatches(m: Mapping, base: Tags)
    ensures MatchPool(m, LbPool(Normalize(Add(base, [PortTag(m)]))))
  {
    var t := Add(base, [PortTag(m)]);
    AddEntries(base, [PortTag(m)]);
    assert PortTag(m) in [PortTag(m)];
    assert Scopes([PortTag(m)]) == {ScopePort};
    CheckTagsNormalize(t, PortTag(m));
  }
}
