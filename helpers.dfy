/**
 * Service identities ("namespace/name") and the address helpers used by the load balancer.
 */
module Helpers {
  import opened Wrappers
  import Strings

  /** A Kubernetes Service, reduced to the fields read here. */
  datatype Service = Service(namespace: string, name: string)

  /** A namespace/name pair identifying a Service. */
  datatype ObjectName = ObjectName(namespace: string, name: string) {
    /** `ObjectName.String()`: "namespace/name". */
    function String(): (s: string)
      ensures |s| == |namespace| + 1 + |name|
      ensures s[..|namespace|] == namespace && s[|namespace|] == '/' && s[|namespace| + 1..] == name
    {
      namespace + "/" + name
    }
  }

  /** `objectNameFromService`: the Service's namespace and name. */
  function ObjectNameFromService(service: Service): (o: ObjectName)
    ensures o.namespace == service.namespace && o.name == service.name
  {
    ObjectName(service.namespace, service.name)
  }

  /** `parseObjectName`: the first two pieces of `strings.Split(name, "/")`. Go indexes
      `parts[1]` unchecked; a name without '/' is that index fault, `None` here. */
  function ParseObjectName(name: string): Option<ObjectName> {
    var parts := Strings.Split(name, '/');
    if |parts| < 2 then None else Some(ObjectName(parts[0], parts[1]))
  }

  /** Parsing fails exactly when the name has no '/'. */
  lemma ParseNeedsSeparator(name: string)
    ensures ParseObjectName(name).None? <==> '/' !in name
  {
    var parts := Strings.Split(name, '/');
    if '/' !in name {
      Strings.SplitNoSeparator(name, '/');
    } else if |parts| == 1 {
      Strings.JoinSplit(name, '/');
    }
  }

  /** Printing then parsing gives the name back when neither part holds '/'. */
  lemma ParseString(o: ObjectName)
    requires '/' !in o.namespace && '/' !in o.name
    ensures ParseObjectName(o.String()) == Some(o)
  {
    Strings.SplitFirst(o.namespace, '/', o.name);
    Strings.SplitNoSeparator(o.name, '/');
    assert o.String() == o.namespace + ['/'] + o.name;
  }

  /** With more than one '/', the name is only the second piece; the rest is dropped. */
  lemma ParseExtraSegments(ns: string, name: string, more: string)
    requires '/' !in ns && '/' !in name
    ensures ParseObjectName(ns + "/" + name + "/" + more) == Some(ObjectName(ns, name))
  {
    Strings.SplitFirst(name, '/', more);
    Strings.SplitFirst(ns, '/', name + "/" + more);
    assert ns + "/" + name + "/" + more == ns + ['/'] + (name + ['/'] + more);
  }

  /** `stringsEquals`: element-wise equality of two string lists. */
  method StringsEquals(a: seq<string>, b: seq<string>) returns (r: bool)
    ensures r <==> a == b
  {
    if |a| != |b| {
      return false;
    }
    var i := 0;
    while i < |a|
      invariant 0 <= i <= |a|
      invariant a[..i] == b[..i]
    {
      if a[i] != b[i] {
        return false;
      }
      assert a[..i + 1] == a[..i] + [a[i]] && b[..i + 1] == b[..i] + [b[i]];
      i := i + 1;
    }
    assert a == a[..i] && b == b[..i];
    return true;
  }

  /** `corev1.NodeInternalIP`. */
  const NodeInternalIP: string := "InternalIP"

  datatype NodeAddress = NodeAddress(addressType: string, address: string)

  /** A Kubernetes Node, reduced to its name and its status addresses. */
  datatype Node = Node(name: string, addresses: seq<NodeAddress>)

  /** Index of the node's first address of type InternalIP, or the number of addresses. */
  function FirstInternalIPIndex(addrs: seq<NodeAddress>): (i: nat)
    ensures i <= |addrs|
    ensures i < |addrs| ==> addrs[i].addressType == NodeInternalIP
    ensures forall j :: 0 <= j < i ==> addrs[j].addressType != NodeInternalIP
    decreases |addrs|
  {
    if |addrs| == 0 then 0
    else if addrs[0].addressType == NodeInternalIP then 0
    else 1 + FirstInternalIPIndex(addrs[1..])
  }

  /** The node's first InternalIP address, if it has one. */
  function InternalIP(node: Node): Option<string> {
    var i := FirstInternalIPIndex(node.addresses);
    if i < |node.addresses| then Some(node.addresses[i].address) else None
  }

  /** Node `i` is the last of `nodes` whose first InternalIP address is `a`. */
  predicate LastWithAddress(nodes: seq<Node>, a: string, i: int) {
    0 <= i < |nodes| && InternalIP(nodes[i]) == Some(a) &&
    forall j :: i < j < |nodes| ==> InternalIP(nodes[j]) != Some(a)
  }

  /** The address map after visiting `nodes` in order: each node with an InternalIP address
      (re)binds its first such address to its name. */
  function AddressMap(nodes: seq<Node>): map<string, string>
    decreases |nodes|
  {
    if |nodes| == 0 then map[]
    else
      var last := nodes[|nodes| - 1];
      var m := AddressMap(nodes[..|nodes| - 1]);
      match InternalIP(last)
      case Some(a) => m[a := last.name]
      case None => m
  }

  /** `collectNodeInternalAddresses`: visits the nodes in order and records each node's first
      InternalIP address. */
  method CollectNodeInternalAddresses(nodes: seq<Node>) returns (addrs: map<string, string>)
    ensures addrs == AddressMap(nodes)
  {
    addrs := map[];
    var n := 0;
    while n < |nodes|
      invariant 0 <= n <= |nodes|
      invariant addrs == AddressMap(nodes[..n])
    {
      var node := nodes[n];
      var k := 0;
      while k < |node.addresses|
        invariant 0 <= k <= |node.addresses|
        invariant forall j :: 0 <= j < k ==> node.addresses[j].addressType != NodeInternalIP
      {
        if node.addresses[k].addressType == NodeInternalIP {
          break;
        }
        k := k + 1;
      }
      assert k == FirstInternalIPIndex(node.addresses);
      assert nodes[..n + 1][..n] == nodes[..n];
      if k < |node.addresses| {
        addrs := addrs[node.addresses[k].address := node.name];
      }
      n := n + 1;
    }
    assert nodes[..n] == nodes;
  }

  /** The keys are exactly the nodes' first InternalIP addresses. */
  lemma {:induction false} AddressMapKeys(nodes: seq<Node>, a: string)
    ensures a in AddressMap(nodes) <==> exists i :: 0 <= i < |nodes| && InternalIP(nodes[i]) == Some(a)
    decreases |nodes|
  {
    if |nodes| > 0 {
      var init := nodes[..|nodes| - 1];
      AddressMapKeys(init, a);
      assert forall i :: 0 <= i < |init| ==> init[i] == nodes[i];
      if exists i :: 0 <= i < |nodes| && InternalIP(nodes[i]) == Some(a) {
        var i :| 0 <= i < |nodes| && InternalIP(nodes[i]) == Some(a);
        if i < |init| {
          assert InternalIP(init[i]) == Some(a);
        }
      }
    }
  }

  /** Among nodes sharing an address, the map holds the name of the last one. */
  lemma {:induction false} AddressMapLastWins(nodes: seq<Node>, a: string, i: nat)
    requires LastWithAddress(nodes, a, i)
    ensures a in AddressMap(nodes) && AddressMap(nodes)[a] == nodes[i].name
    decreases |nodes|
  {
    var init := nodes[..|nodes| - 1];
    if i < |nodes| - 1 {
      assert init[i] == nodes[i];
      forall j | i < j < |init| ensures InternalIP(init[j]) != Some(a) {
        assert init[j] == nodes[j];
      }
      AddressMapLastWins(init, a, i);
    }
  }
}
