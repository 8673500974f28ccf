# Tag correlation and shared load-balancer services for vSphere/NSX-T

This project models the core of the NSX-T load-balancer support of the vSphere cloud provider
(`pkg/cloudprovider/vsphere/loadbalancer`) in Dafny and proves properties of that model. Remote
load-balancer objects (virtual servers, pools, TCP monitors) carry no ownership information of
their own. The provider attaches (scope, value) tags to them and later finds them again by
matching those tags. The project covers:

- **Tags** (`tag.dfy`, module `TagAlgebra`): `checkTags`, a superset match that compares only
  the first candidate of each required scope. `getTag`, a first-match lookup that returns ""
  when the scope is absent. The `Tags` collection, one tag per scope, with copy-on-write `Add`
  and `Normalize`, which lists the entries sorted by scope. `tag_test.dfy` (module `TagTest`)
  restates every assertion of `TestTagAdd` as a lemma.
- **Correlation keys and port mappings** (`correlation.dfy`, `mapping.dfy`, `decimal.dfy`):
  the cluster, service and port tags. `Mapping`, its text form and its four matchers.
  `formatPort`, modelled as base-10 formatting with its inverse.
- **Load-balancer classes** (`class.dfy`, module `LbClasses`): the class registry built by
  `setupClasses` from configuration, covering size validation, the default-class fallback and
  IP-pool resolution through the backend. `add`, `GetClass` and `newLBClass`.
- **Shared load-balancer service** (`lbservice.dfy`, module `LbService`): the slot that attaches
  and detaches virtual servers on a shared container. A managed slot creates the container on
  first use and deletes it when it becomes empty.
- **Helpers** (`helpers.dfy`): object names, `stringsEquals` and
  `collectNodeInternalAddresses`.

The backend (`Access`, `backend.dfy`) is a value of functions that answer each call. Each
operation of the slot records the calls it makes that change the remote state (create, update,
delete) as a list of effects, so its contract can name both the backend's replies and the
changes. `SingleContainer` is a backend holding one container. With it, lemmas follow
sequences of attaches and detaches step by step.

Three behaviours of the code that are easy to miss:

- **Pool lookup uses the class's own name.** When a class has no pool id, `add` looks up
  `classConfig.IPPoolName`, the class's own configured name, even when it inherited the name
  from the fallback (class.go:94). A class that names nothing, under a fallback that gives a
  name but no id, therefore looks up "". See `LbClasses.LookupUsesOwnName`.
- **The duplicate-class error cannot occur.** Class names come from the keys of a map, and
  the default class is registered before the loop only when it has no entry. So the error at
  class.go:69-71 never fires, and `SetupClasses` proves that it does not.
- **The fallback is inherited as configuration.** A class that names neither pool id nor pool
  name inherits the fallback's configured id and name, not the resolved id of the default
  class.

## Model

| member | source | states |
|---|---|---|
| TagAlgebra.CheckTags | pkg/cloudprovider/vsphere/loadbalancer/tag.go:39-53 | checkTags: each required tag is compared with the first candidate of its scope; its meaning is stated by CheckTagsIff |
| TagAlgebra.GetTag | pkg/cloudprovider/vsphere/loadbalancer/tag.go:55-62 | getTag: the first candidate's value for the scope, or ""; its meaning is stated by GetTagIsFirstMatch |
| TagAlgebra.IndexOfScope | pkg/cloudprovider/vsphere/loadbalancer/tag.go:42-49 | the index of the first candidate carrying the scope, or the length when none does |
| TagAlgebra.CheckTagsIff | pkg/cloudprovider/vsphere/loadbalancer/tag.go:39-53 | checkTags holds exactly when every required scope is present and its first value is the required one |
| TagAlgebra.CheckTagsFirstOnly | pkg/cloudprovider/vsphere/loadbalancer/tag.go:43-47 | a mismatching first candidate fails the check, whatever later candidates of that scope carry |
| TagAlgebra.CheckTagsMissingScope | pkg/cloudprovider/vsphere/loadbalancer/tag.go:50 | a required scope with no candidate fails the check |
| TagAlgebra.CheckTagsNoneRequired | pkg/cloudprovider/vsphere/loadbalancer/tag.go:52 | with nothing required every tag list passes |
| TagAlgebra.CheckTagsAppendUnrelated | pkg/cloudprovider/vsphere/loadbalancer/tag.go:39-53 | appending candidates of unrequired or already present scopes never changes the verdict |
| TagAlgebra.GetTagIsFirstMatch | pkg/cloudprovider/vsphere/loadbalancer/tag.go:55-62 | getTag returns the value of the first tag with the scope, and "" when the scope is absent |
| TagAlgebra.Add | pkg/cloudprovider/vsphere/loadbalancer/tag_test.go:66-79 | Tags.Add: a new collection with each tag stored under its scope, later tags winning; its contents are stated by AddEntries |
| TagAlgebra.AddEntries | pkg/cloudprovider/vsphere/loadbalancer/tag_test.go:66-79 | Add keeps the old scopes and adds the new ones; each new scope holds the last tag given for it, every other scope keeps its tag |
| TagAlgebra.AddConcat | pkg/cloudprovider/vsphere/loadbalancer/tag_test.go:84 | chained Add calls equal one Add of all the tags |
| TagAlgebra.AddReplace | pkg/cloudprovider/vsphere/loadbalancer/tag_test.go:73-75 | adding a tag of a present scope replaces that entry only, and the size stays the same |
| TagAlgebra.AddFreshScopes | pkg/cloudprovider/vsphere/loadbalancer/tag_test.go:77-79 | adding tags of new distinct scopes grows the collection by their number and keeps the old entries |
| TagAlgebra.AddOrderIrrelevant | pkg/cloudprovider/vsphere/loadbalancer/tag_test.go:84-85 | with distinct scopes the order of adding does not change the collection |
| TagAlgebra.Normalize | pkg/cloudprovider/vsphere/loadbalancer/tag_test.go:81-82 | the result lists every entry once, strictly ascending by scope, and nothing else |
| TagAlgebra.SortedUnique | pkg/cloudprovider/vsphere/loadbalancer/tag_test.go:84-85 | two scope-sorted lists holding the same tags are equal |
| TagAlgebra.NormalizeCanonical | pkg/cloudprovider/vsphere/loadbalancer/tag_test.go:81-85 | Normalize is the only scope-sorted listing of the entries, so it is independent of insertion order |
| Strings.Least | pkg/cloudprovider/vsphere/loadbalancer/tag_test.go:81-82 | the least scope under lexicographic order, which Normalize emits first |
| TagTest.SameTags | pkg/cloudprovider/vsphere/loadbalancer/tag_test.go:27-40 | _checkTags: as many entries as expected tags, each expected tag stored under its own scope |
| TagTest.SameNormTags | pkg/cloudprovider/vsphere/loadbalancer/tag_test.go:42-52 | _checkNormTags: the same length and the same tag at every position |
| TagTest.TestSimpleAdd | pkg/cloudprovider/vsphere/loadbalancer/tag_test.go:66-69 | adding t1, t2 leaves the empty receiver empty and gives exactly {t1, t2} |
| TagTest.TestReplace | pkg/cloudprovider/vsphere/loadbalancer/tag_test.go:73-75 | adding t1a keeps the receiver {t1, t2} and gives {t1a, t2} |
| TagTest.TestAddNew | pkg/cloudprovider/vsphere/loadbalancer/tag_test.go:77-79 | adding t3 keeps the receiver and gives {t1, t2, t3} |
| TagTest.TestNormalize | pkg/cloudprovider/vsphere/loadbalancer/tag_test.go:81-82 | normalizing {t1, t2, t3} gives [t1, t2, t3] |
| TagTest.TestNormalizeOtherOrder | pkg/cloudprovider/vsphere/loadbalancer/tag_test.go:84-85 | adding t3, then t2 and t1, and normalizing gives [t1, t2, t3] |
| Correlation.ClusterTag | pkg/cloudprovider/vsphere/loadbalancer/tag.go:27-29 | the cluster scope with the cluster name |
| Correlation.ServiceTag | pkg/cloudprovider/vsphere/loadbalancer/tag.go:31-33 | the service scope with the Service's "namespace/name" |
| Correlation.PortTag | pkg/cloudprovider/vsphere/loadbalancer/tag.go:35-37 | the port scope with "protocol/sourcePort" |
| Correlation.ClusterTagValue | pkg/cloudprovider/vsphere/loadbalancer/tag.go:27-29 | a tag list passes the cluster-tag check exactly when its first cluster-scoped value is the cluster name |
| Correlation.ServiceTagRecovers | pkg/cloudprovider/vsphere/loadbalancer/tag.go:31-33 | from tags passing the service-tag check, parsing the service-scoped value gives back the Service's name |
| Correlation.PortTagInjective | pkg/cloudprovider/vsphere/loadbalancer/tag.go:35-37 | equal port tags mean equal protocol and source port, for protocols without '/' |
| Correlation.NormalizedLookup | pkg/cloudprovider/vsphere/loadbalancer/tag.go:42-49 | in a normalized collection the first candidate of a scope is the collection's entry for it, and an absent scope has none |
| Correlation.CheckTagsNormalize | pkg/cloudprovider/vsphere/loadbalancer/tag.go:39-53 | checking a normalized collection against one tag holds exactly when the collection stores that tag |
| Correlation.CreatedPoolMatches | pkg/cloudprovider/vsphere/loadbalancer/mapping.go:56-58 | a pool tagged with the normalized collection plus the mapping's port tag matches that mapping |
| Correlation.MatchVirtualServer | pkg/cloudprovider/vsphere/loadbalancer/mapping.go:51-53 | the listener port is the formatted source port and the protocol is the mapping's |
| Correlation.MatchPool | pkg/cloudprovider/vsphere/loadbalancer/mapping.go:56-58 | the pool's tags pass checkTags against the port tag |
| Correlation.MatchTCPMonitor | pkg/cloudprovider/vsphere/loadbalancer/mapping.go:61-63 | the monitor's tags pass checkTags against the port tag |
| Correlation.MatchNodePort | pkg/cloudprovider/vsphere/loadbalancer/mapping.go:66-68 | the default pool member port is the formatted node port |
| Correlation.MatchVirtualServerIdentifies | pkg/cloudprovider/vsphere/loadbalancer/mapping.go:51-53 | two mappings matching one virtual server have the same source port and protocol |
| Correlation.MatchPoolIff | pkg/cloudprovider/vsphere/loadbalancer/mapping.go:56-58 | a pool matches exactly when its first port-scoped tag is the mapping's port tag |
| Correlation.MatchPoolIdentifies | pkg/cloudprovider/vsphere/loadbalancer/mapping.go:56-58 | two mappings matching one pool have the same source port and protocol |
| Correlation.MatchPoolIgnoresOtherTags | pkg/cloudprovider/vsphere/loadbalancer/mapping.go:56-58 | extra tags of other scopes never change whether a pool matches |
| Correlation.MatchTCPMonitorIff | pkg/cloudprovider/vsphere/loadbalancer/mapping.go:61-63 | a monitor matches exactly when its first port-scoped tag is the mapping's port tag |
| Correlation.MatchNodePortIdentifies | pkg/cloudprovider/vsphere/loadbalancer/mapping.go:66-68 | the node-port match depends on the node port alone and fixes it |
| PortMapping.NewMapping | pkg/cloudprovider/vsphere/loadbalancer/mapping.go:38-44 | the mapping copies port, node port and protocol; both ports lie in the int32 range |
| PortMapping.FormatPort | pkg/cloudprovider/vsphere/loadbalancer/mapping.go:70-72 | strconv.FormatInt in base 10; its inverse is stated by Decimal.ParseFormatInt |
| PortMapping.String | pkg/cloudprovider/vsphere/loadbalancer/mapping.go:46-48 | "protocol/sourcePort->nodePort"; StringInjective states that it identifies the mapping |
| PortMapping.StringInjective | pkg/cloudprovider/vsphere/loadbalancer/mapping.go:46-48 | the text form identifies the mapping, for protocols without '/' |
| PortMapping.FormatPortInjective | pkg/cloudprovider/vsphere/loadbalancer/mapping.go:70-72 | distinct ports format to distinct strings |
| Decimal.FormatInt | pkg/cloudprovider/vsphere/loadbalancer/mapping.go:70-72 | the text is non-empty, a possible leading '-' and then digits only |
| Decimal.ParseFormatInt | pkg/cloudprovider/vsphere/loadbalancer/mapping.go:70-72 | reading the formatted port back gives the port |
| LbClasses.NewLBClass | pkg/cloudprovider/vsphere/loadbalancer/class.go:103-114 | the class with its name, pool name, pool id and the tags [ippoolid, lbclass] |
| LbClasses.LoadBalancerClass.Tags | pkg/cloudprovider/vsphere/loadbalancer/class.go:116-118 | the class's tags, as NewLBClassTags and ResolvedClassTags state |
| LbClasses.DefaultConfig | pkg/cloudprovider/vsphere/loadbalancer/class.go:53-60 | the explicit default entry when it names a pool id or name, otherwise the top-level pool settings |
| LbClasses.ResolveClass | pkg/cloudprovider/vsphere/loadbalancer/class.go:85-101 | what add registers, or the lookup error; its cases are stated by ExplicitPoolID, InheritedPool and LookupUsesOwnName |
| LbClasses.NewLBClassTags | pkg/cloudprovider/vsphere/loadbalancer/class.go:103-114 | a new class carries the pool-id tag and then the class-name tag, and both are found by getTag |
| LbClasses.ResolvedClassTags | pkg/cloudprovider/vsphere/loadbalancer/class.go:99-118 | every registered class has the registered name and, from Tags(), its pool-id and class tags in that order |
| LbClasses.ExplicitPoolID | pkg/cloudprovider/vsphere/loadbalancer/class.go:93-99 | a class naming its pool id is registered with it, and the backend's answers do not matter |
| LbClasses.InheritedPool | pkg/cloudprovider/vsphere/loadbalancer/class.go:89-92 | a class naming neither id nor name takes the fallback's id and name |
| LbClasses.LookupUsesOwnName | pkg/cloudprovider/vsphere/loadbalancer/class.go:93-98 | without an id, the pool is looked up by the class's own configured name; a lookup error is returned |
| LbClasses.DefaultClassPool | pkg/cloudprovider/vsphere/loadbalancer/class.go:53-66 | the default class takes the pool id of its own entry when that gives one; with no entry or an empty one, the top-level pool id |
| LbClasses.LoadBalancerClasses.constructor | pkg/cloudprovider/vsphere/loadbalancer/class.go:47-51 | a registry with the size, the capacity and no classes |
| LbClasses.LoadBalancerClasses.GetClass | pkg/cloudprovider/vsphere/loadbalancer/class.go:81-83 | the registered class of that name, or none when the name is unknown |
| LbClasses.LoadBalancerClasses.Add | pkg/cloudprovider/vsphere/loadbalancer/class.go:85-101 | on success exactly the resolved class is stored under the name; on a lookup error the registry is unchanged |
| LbClasses.RegisteredStep | pkg/cloudprovider/vsphere/loadbalancer/class.go:68-76 | registering one more resolved class keeps every entry as resolution gives it |
| LbClasses.SetupClasses | pkg/cloudprovider/vsphere/loadbalancer/class.go:41-79 | an unknown size is an InvalidSize error; under a known size every error is an InvalidClass error naming a class that fails to resolve; setup succeeds exactly when every configured class and the default resolve; never a duplicate error; on success the registry holds exactly the configured classes and the default, each as resolved |
| Helpers.ObjectName.String | pkg/cloudprovider/vsphere/loadbalancer/helpers.go:39-41 | namespace, then '/', then name |
| Helpers.ObjectNameFromService | pkg/cloudprovider/vsphere/loadbalancer/helpers.go:35-37 | the Service's namespace and name |
| Helpers.ParseObjectName | pkg/cloudprovider/vsphere/loadbalancer/helpers.go:43-46 | the first two pieces of the name split at '/', or None where Go would index past the pieces |
| Strings.Split | pkg/cloudprovider/vsphere/loadbalancer/helpers.go:44 | strings.Split on one separator: at least one piece, and no piece holds the separator |
| Helpers.ParseNeedsSeparator | pkg/cloudprovider/vsphere/loadbalancer/helpers.go:43-46 | parsing fails exactly when the name holds no '/' |
| Helpers.ParseString | pkg/cloudprovider/vsphere/loadbalancer/helpers.go:43-46 | parsing the text form gives back the name, for parts without '/' |
| Helpers.ParseExtraSegments | pkg/cloudprovider/vsphere/loadbalancer/helpers.go:43-46 | with a second '/', everything after it is dropped |
| Strings.JoinSplit | pkg/cloudprovider/vsphere/loadbalancer/helpers.go:44 | joining the pieces with the separator gives the string back |
| Helpers.StringsEquals | pkg/cloudprovider/vsphere/loadbalancer/helpers.go:48-58 | true exactly when the two lists are equal |
| Helpers.FirstInternalIPIndex | pkg/cloudprovider/vsphere/loadbalancer/helpers.go:63-67 | the index of the node's first InternalIP address, or the count when it has none |
| Helpers.CollectNodeInternalAddresses | pkg/cloudprovider/vsphere/loadbalancer/helpers.go:60-71 | the result is the address map of the nodes in order |
| Helpers.AddressMapKeys | pkg/cloudprovider/vsphere/loadbalancer/helpers.go:60-71 | an address is a key exactly when it is some node's first InternalIP address |
| Helpers.AddressMapLastWins | pkg/cloudprovider/vsphere/loadbalancer/helpers.go:62-68 | among nodes sharing an address, the last one's name is stored |
| LbService.LbService.constructor | pkg/cloudprovider/vsphere/loadbalancer/lbservice.go:33-35 | the slot is managed exactly when no container id is given |
| LbService.LbService.AddVirtualServerToLoadBalancerService | pkg/cloudprovider/vsphere/loadbalancer/lbservice.go:37-63 | the new slot id, the effects and the error are those of the attach specification |
| LbService.LbService.RemoveVirtualServerFromLoadBalancerService | pkg/cloudprovider/vsphere/loadbalancer/lbservice.go:65-93 | the effects and the error are those of the detach specification; the slot is not changed |
| LbService.AttachOutcome | pkg/cloudprovider/vsphere/loadbalancer/lbservice.go:41-62 | the attach specification: find, create when managed and missing, append, update |
| LbService.RemoveFirst | pkg/cloudprovider/vsphere/loadbalancer/lbservice.go:74-79 | the member list without the first occurrence of the server |
| LbService.DetachOutcome | pkg/cloudprovider/vsphere/loadbalancer/lbservice.go:69-92 | the detach specification: find, remove, then delete when managed and empty, otherwise update |
| LbService.RemoveFirstAt | pkg/cloudprovider/vsphere/loadbalancer/lbservice.go:74-79 | removal splices out the first occurrence and keeps the order of the rest |
| LbService.RemoveFirstAbsent | pkg/cloudprovider/vsphere/loadbalancer/lbservice.go:74-79 | removing an absent id changes nothing |
| LbService.RemoveFirstCount | pkg/cloudprovider/vsphere/loadbalancer/lbservice.go:74-79 | exactly one occurrence goes when there is one, and the other entries stay |
| LbService.RemoveFirstLength | pkg/cloudprovider/vsphere/loadbalancer/lbservice.go:74-79 | the list shrinks by one exactly when it holds the server |
| LbService.AttachFindFails | pkg/cloudprovider/vsphere/loadbalancer/lbservice.go:41-44 | a failing find returns its error, with no change and the slot id kept |
| LbService.AttachCreatesIff | pkg/cloudprovider/vsphere/loadbalancer/lbservice.go:45-55 | a container is created exactly when none is found and the slot is managed; an unmanaged slot then fails; the slot id changes only to the created id |
| LbService.AttachAppends | pkg/cloudprovider/vsphere/loadbalancer/lbservice.go:56-62 | a successful attach ends by writing the container with the server appended at the end |
| LbService.DetachNotFound | pkg/cloudprovider/vsphere/loadbalancer/lbservice.go:69-73 | with no container holding the server, detach succeeds with no change |
| LbService.DetachDeletesIff | pkg/cloudprovider/vsphere/loadbalancer/lbservice.go:80-90 | the container is deleted exactly when the slot is managed and the list becomes empty; otherwise the shortened list is written |
| LbService.DetachLastMember | pkg/cloudprovider/vsphere/loadbalancer/lbservice.go:80-84 | removing the only member of a managed container deletes it |
| LbService.SerializedAttaches | pkg/cloudprovider/vsphere/loadbalancer/lbservice.go:37-63 | N members plus M serialized attaches give the N members and then the M servers in order, with the slot id kept |
| LbService.ManagedSlotCreatesOnce | pkg/cloudprovider/vsphere/loadbalancer/lbservice.go:45-56 | on an empty managed slot the first attach creates the container and records its id; later attaches reuse it |
| LbService.UnmanagedSlotNeverCreates | pkg/cloudprovider/vsphere/loadbalancer/lbservice.go:52-53 | an unmanaged slot without a container creates nothing, whatever is attached |
| LbService.DetachInOrder | pkg/cloudprovider/vsphere/loadbalancer/lbservice.go:65-93 | detaching the first members in order leaves the rest; a managed container is deleted once it is empty |
| LbService.ManagedLifecycle | pkg/cloudprovider/vsphere/loadbalancer/lbservice.go:37-93 | attaching servers to an empty managed slot and detaching them in the same order leaves no container |

## Left out

- The slot's mutex (lbservice.go:30, 38-39, 66-67): each attach and detach is one atomic step, and interleavings are modelled as sequences of such steps.
- The NSX-T client behind `Access` is not part of this model: each call is an arbitrary function of its arguments, and only the one-container backend `SingleContainer` gives them further meaning.
- `config.SizeToMaxVirtualServers` is defined outside these files: `SetupClasses` takes the size table as a parameter.
- The values of the scope constants and of `config.DefaultLoadBalancerClass` are defined outside these files. The model assumes the values "cluster", "service", "port", "ippoolid", "lbclass" and "default", and relies only on the scopes being distinct.
- The definitions of `Tags`, `Add` and `Normalize` are not part of these files. They are modelled from the behaviour tag_test.go asserts: one tag per scope, later tags win, and the entries come out in ascending scope order.
- Error message texts (`fmt.Errorf` and `errors.Wrapf`): errors are modelled by kind, with the class name and the backend's error.
- The iteration order of the Go configuration map in `setupClasses`: the model picks classes in an arbitrary order, and its postconditions hold for every order.
- Helpers.ParseObjectName: Go panics when the name has no '/' (helpers.go:45 indexes `parts[1]`). The model returns `None` in that case instead.
- Nil nodes and nil Service pointers: inputs are values and are never nil.
- Repeated backend calls: every reply is a function of the call's arguments, so the model assumes that `setupClasses`, which looks a pool name up once per class and often with the same name, gets the same answer each time.
- Go's `int` width: `Mapping` ports are unbounded integers. Only `NewMapping` bounds them, to the `int32` range of `ServicePort`.
- The Go pointers to the container and to classes: the container is a value that an update writes back, and aliasing between callers is not modelled.
- Remote-object fields other than those the matchers read (see `LbVirtualServer`, `LbPool` and `LbTcpMonitor`).
