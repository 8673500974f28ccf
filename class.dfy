/**
 * The load-balancer class registry: the configured size and its virtual-server limit, and
 * every class with its resolved IP pool and the tags stamped on its virtual servers.
 */
module LbClasses {
  import opened Wrappers
  import opened TagAlgebra
  import Correlation
  import Backend

  /** `config.DefaultLoadBalancerClass`. */
  const DefaultLoadBalancerClass: string := "default"

  /** `config.LoadBalancerClassConfig`. */
  datatype ClassConfig = ClassConfig(ipPoolName: string, ipPoolID: string)

  /** `config.LBConfig`, reduced to the fields read: the `LoadBalancer` section's size and
      IP pool settings, and the `LoadBalancerClasses` map. */
  datatype LBConfig = LBConfig(size: string, ipPoolName: string, ipPoolID: string, classes: map<string, ClassConfig>)

  /** `loadBalancerClass`. */
  datatype LoadBalancerClass = LoadBalancerClass(className: string, ipPoolName: string, ipPoolID: string, tags: seq<Tag>) {
    /** `Tags()`. */
    function Tags(): seq<Tag> {
      tags
    }
  }

  /** The errors of `setupClasses`; the Go messages are not modelled, their kinds and the
      names embedded in them are. */
  datatype SetupError =
    | InvalidSize(size: string)
    | DuplicateClass(name: string)
    | InvalidClass(name: string, cause: Backend.Error)

  /** `newLBClass`. */
  function NewLBClass(name: string, ipPoolID: string, ipPoolName: string): LoadBalancerClass {
    LoadBalancerClass(name, ipPoolName, ipPoolID, [Tag(Correlation.ScopeIPPoolID, ipPoolID), Tag(Correlation.ScopeLBClass, name)])
  }

  /** The tags of a class identify its IP pool and its name. */
  lemma NewLBClassTags(name: string, ipPoolID: string, ipPoolName: string)
    ensures var c := NewLBClass(name, ipPoolID, ipPoolName);
            && c.Tags() == [Tag(Correlation.ScopeIPPoolID, ipPoolID), Tag(Correlation.ScopeLBClass, name)]
            && GetTag(c.Tags(), Correlation.ScopeIPPoolID) == ipPoolID
            && GetTag(c.Tags(), Correlation.ScopeLBClass) == name
            && CheckTags(c.Tags(), [Tag(Correlation.ScopeLBClass, name)])
  {
    var c := NewLBClass(name, ipPoolID, ipPoolName);
    assert c.Tags()[1..] == [Tag(Correlation.ScopeLBClass, name)];
    assert IndexOfScope(c.Tags(), Correlation.ScopeLBClass) == 1;
  }

  /** The fallback configuration of `setupClasses`: the explicit default class when it names a
      pool, otherwise the top-level pool settings. */
  function DefaultConfig(cfg: LBConfig): ClassConfig {
    if DefaultLoadBalancerClass in cfg.classes
       && (cfg.classes[DefaultLoadBalancerClass].ipPoolID != "" || cfg.classes[DefaultLoadBalancerClass].ipPoolName != "")
    then cfg.classes[DefaultLoadBalancerClass]
    else ClassConfig(cfg.ipPoolName, cfg.ipPoolID)
  }

  /** The configuration a class is registered with: its own entry, or for a default class
      missing from the configuration, the fallback itself. */
  function ClassConfigOf(cfg: LBConfig, name: string): ClassConfig {
    if name in cfg.classes then cfg.classes[name] else DefaultConfig(cfg)
  }

  /** What `add` registers for a class, or the lookup error that stops it. A class naming
      neither pool id nor pool name inherits both from the fallback; when no id is known, the
      pool is looked up by the class's own configured name. */
  function ResolveClass(findIPPoolByName: string -> Result<string, Backend.Error>, name: string,
                        classConfig: ClassConfig, defaultConfig: ClassConfig): Result<LoadBalancerClass, Backend.Error>
  {
    var inherit := classConfig.ipPoolID == "" && classConfig.ipPoolName == "";
    var ipPoolName := if inherit then defaultConfig.ipPoolName else classConfig.ipPoolName;
    var ipPoolID := if inherit then defaultConfig.ipPoolID else classConfig.ipPoolID;
    if ipPoolID == "" then
      match findIPPoolByName(classConfig.ipPoolName)
      case Err(e) => Err(e)
      case Ok(id) => Ok(NewLBClass(name, id, ipPoolName))
    else Ok(NewLBClass(name, ipPoolID, ipPoolName))
  }

  /** A class giving its pool id is registered with that id and needs no lookup: the backend's
      answers do not matter. */
  lemma ExplicitPoolID(find1: string -> Result<string, Backend.Error>, find2: string -> Result<string, Backend.Error>,
                       name: string, classConfig: ClassConfig, defaultConfig: ClassConfig)
    requires classConfig.ipPoolID != ""
    ensures ResolveClass(find1, name, classConfig, defaultConfig) == ResolveClass(find2, name, classConfig, defaultConfig)
    ensures ResolveClass(find1, name, classConfig, defaultConfig).Ok?
    ensures var c := ResolveClass(find1, name, classConfig, defaultConfig).value;
            c.ipPoolID == classConfig.ipPoolID && c.ipPoolName == classConfig.ipPoolName && c.className == name
  {
  }

  /** A class naming neither id nor name inherits both from the fallback. */
  lemma InheritedPool(find: string -> Result<string, Backend.Error>, name: string, defaultConfig: ClassConfig)
    requires defaultConfig.ipPoolID != ""
    ensures ResolveClass(find, name, ClassConfig("", ""), defaultConfig)
            == Ok(NewLBClass(name, defaultConfig.ipPoolID, defaultConfig.ipPoolName))
  {
  }

  /** The lookup uses the class's own configured pool name even when the name was inherited:
      a class naming nothing, under a fallback with a name and no id, looks up "". */
  lemma LookupUsesOwnName(find: string -> Result<string, Backend.Error>, name: string,
                          classConfig: ClassConfig, defaultConfig: ClassConfig)
    requires classConfig.ipPoolID == ""
    requires classConfig.ipPoolName != "" || defaultConfig.ipPoolID == ""
    ensures var inherit := classConfig.ipPoolName == "";
            var poolName := if inherit then defaultConfig.ipPoolName else classConfig.ipPoolName;
            ResolveClass(find, name, classConfig, defaultConfig) ==
              match find(classConfig.ipPoolName)
              case Err(e) => Err(e)
              case Ok(id) => Ok(NewLBClass(name, id, poolName))
  {
  }

  /** Every registered class carries its pool id tag and its class tag, in that order. */
  lemma ResolvedClassTags(find: string -> Result<string, Backend.Error>, name: string,
                          classConfig: ClassConfig, defaultConfig: ClassConfig)
    requires ResolveClass(find, name, classConfig, defaultConfig).Ok?
    ensures var c := ResolveClass(find, name, classConfig, defaultConfig).value;
            && c.className == name
            && c.Tags() == [Tag(Correlation.ScopeIPPoolID, c.ipPoolID), Tag(Correlation.ScopeLBClass, name)]
  {
  }

  /** The pool of the default class: an explicit default entry naming a pool id wins; an
      explicit entry naming nothing, or no entry, falls back to the top-level pool id. */
  lemma DefaultClassPool(find: string -> Result<string, Backend.Error>, cfg: LBConfig)
    ensures var d := DefaultLoadBalancerClass;
            var r := ResolveClass(find, d, ClassConfigOf(cfg, d), DefaultConfig(cfg));
            && (d in cfg.classes && cfg.classes[d].ipPoolID != "" ==> r == Ok(NewLBClass(d, cfg.classes[d].ipPoolID, cfg.classes[d].ipPoolName)))
            && ((d !in cfg.classes || cfg.classes[d] == ClassConfig("", "")) && cfg.ipPoolID != "" ==>
                  r == Ok(NewLBClass(d, cfg.ipPoolID, cfg.ipPoolName)))
  {
  }

  /** `loadBalancerClasses`. */
  class LoadBalancerClasses {
    var size: string
    var maxVirtualServers: int
    var classes: map<string, LoadBalancerClass>

    constructor (size: string, maxVirtualServers: int)
      ensures this.size == size && this.maxVirtualServers == maxVirtualServers && classes == map[]
    {
      this.size := size;
      this.maxVirtualServers := maxVirtualServers;
      classes := map[];
    }

    /** `GetClass`: the class of that name, or `None` (Go's nil) when there is none. */
    function GetClass(name: string): (r: Option<LoadBalancerClass>)
      reads this
      ensures r.Some? <==> name in classes
      ensures r.Some? ==> r.value == classes[name]
    {
      if name in classes then Some(classes[name]) else None
    }

    /** `add`: resolves the class's pool and registers it under `name`; a lookup error leaves
        the registry as it was. */
    method Add(findIPPoolByName: string -> Result<string, Backend.Error>, name: string,
               classConfig: ClassConfig, defaultConfig: ClassConfig) returns (err: Option<Backend.Error>)
      modifies this`classes
      ensures match ResolveClass(findIPPoolByName, name, classConfig, defaultConfig)
              case Ok(c) => err == None && classes == old(classes)[name := c]
              case Err(e) => err == Some(e) && classes == old(classes)
    {
      var ipPoolName := classConfig.ipPoolName;
      var ipPoolID := classConfig.ipPoolID;
      if ipPoolID == "" && ipPoolName == "" {
        ipPoolID := defaultConfig.ipPoolID;
        ipPoolName := defaultConfig.ipPoolName;
      }
      if ipPoolID == "" {
        var found := findIPPoolByName(classConfig.ipPoolName);
        if found.Err? {
          return Some(found.error);
        }
        ipPoolID := found.value;
      }
      classes := classes[name := NewLBClass(name, ipPoolID, ipPoolName)];
      return None;
    }
  }

  /** Every class in `classes` is what `add` registers for it under `cfg`. */
  ghost predicate Registered(findIPPoolByName: string -> Result<string, Backend.Error>, cfg: LBConfig,
                             classes: map<string, LoadBalancerClass>)
  {
    forall n :: n in classes ==>
      ResolveClass(findIPPoolByName, n, ClassConfigOf(cfg, n), DefaultConfig(cfg)) == Ok(classes[n])
  }

  lemma RegisteredStep(findIPPoolByName: string -> Result<string, Backend.Error>, cfg: LBConfig,
                       classes: map<string, LoadBalancerClass>, name: string, c: LoadBalancerClass)
    requires Registered(findIPPoolByName, cfg, classes)
    requires ResolveClass(findIPPoolByName, name, ClassConfigOf(cfg, name), DefaultConfig(cfg)) == Ok(c)
    ensures Registered(findIPPoolByName, cfg, classes[name := c])
  {
  }

  /** `setupClasses` under this backend and size table succeeds: the size is known and every
      class, the default one included, resolves. */
  ghost predicate SetupSucceeds(findIPPoolByName: string -> Result<string, Backend.Error>,
                                sizeToMaxVirtualServers: map<string, int>, cfg: LBConfig)
  {
    && cfg.size in sizeToMaxVirtualServers
    && forall n :: n in cfg.classes.Keys + {DefaultLoadBalancerClass} ==>
         ResolveClass(findIPPoolByName, n, ClassConfigOf(cfg, n), DefaultConfig(cfg)).Ok?
  }

  /** `setupClasses`. Go visits the configured classes in an unspecified order; here the next
      class is any one not yet visited, so every postcondition holds for every order. */
  method SetupClasses(findIPPoolByName: string -> Result<string, Backend.Error>,
                      sizeToMaxVirtualServers: map<string, int>, cfg: LBConfig)
    returns (registry: LoadBalancerClasses?, err: Option<SetupError>)
    ensures registry != null <==> err == None
    ensures err == None <==> SetupSucceeds(findIPPoolByName, sizeToMaxVirtualServers, cfg)
    ensures cfg.size !in sizeToMaxVirtualServers ==> err == Some(InvalidSize(cfg.size))
    ensures err.Some? ==> !err.value.DuplicateClass?
    ensures err.Some? && cfg.size in sizeToMaxVirtualServers ==> err.value.InvalidClass?
    ensures err.Some? && err.value.InvalidClass? ==>
              var n := err.value.name;
              && n in cfg.classes.Keys + {DefaultLoadBalancerClass}
              && ResolveClass(findIPPoolByName, n, ClassConfigOf(cfg, n), DefaultConfig(cfg)) == Err(err.value.cause)
    ensures registry != null ==>
              && fresh(registry)
              && registry.size == cfg.size
              && registry.maxVirtualServers == sizeToMaxVirtualServers[cfg.size]
              && registry.classes.Keys == cfg.classes.Keys + {DefaultLoadBalancerClass}
              && Registered(findIPPoolByName, cfg, registry.classes)
  {
    if cfg.size !in sizeToMaxVirtualServers {
      return null, Some(InvalidSize(cfg.size));
    }
    var lbClasses := new LoadBalancerClasses(cfg.size, sizeToMaxVirtualServers[cfg.size]);
    var defaultConfig := ClassConfig(cfg.ipPoolName, cfg.ipPoolID);
    if DefaultLoadBalancerClass in cfg.classes {
      var defCfg := cfg.classes[DefaultLoadBalancerClass];
      if defCfg.ipPoolID != "" || defCfg.ipPoolName != "" {
        defaultConfig := defCfg;
      }
    } else {
      var e := lbClasses.Add(findIPPoolByName, DefaultLoadBalancerClass, defaultConfig, defaultConfig);
      if e.Some? {
        return null, Some(InvalidClass(DefaultLoadBalancerClass, e.value));
      }
      RegisteredStep(findIPPoolByName, cfg, map[], DefaultLoadBalancerClass, lbClasses.classes[DefaultLoadBalancerClass]);
    }
    assert defaultConfig == DefaultConfig(cfg);

    var remaining := cfg.classes.Keys;
    while remaining != {}
      invariant remaining <= cfg.classes.Keys
      invariant lbClasses.size == cfg.size && lbClasses.maxVirtualServers == sizeToMaxVirtualServers[cfg.size]
      invariant lbClasses.classes.Keys ==
                  (cfg.classes.Keys - remaining) + (if DefaultLoadBalancerClass in cfg.classes then {} else {DefaultLoadBalancerClass})
      invariant Registered(findIPPoolByName, cfg, lbClasses.classes)
      decreases remaining
    {
      var name :| name in remaining;
      if name in lbClasses.classes {
        // configured names are distinct map keys, and "default" was registered only when unconfigured
        assert false;
        return null, Some(DuplicateClass(name));
      }
      assert cfg.classes[name] == ClassConfigOf(cfg, name);
      ghost var before := lbClasses.classes;
      var e := lbClasses.Add(findIPPoolByName, name, cfg.classes[name], defaultConfig);
      if e.Some? {
        return null, Some(InvalidClass(name, e.value));
      }
      RegisteredStep(findIPPoolByName, cfg, before, name, lbClasses.classes[name]);
      remaining := remaining - {name};
    }
    assert DefaultLoadBalancerClass !in cfg.classes ==> ClassConfigOf(cfg, DefaultLoadBalancerClass) == defaultConfig;
    return lbClasses, None;
  }
}
