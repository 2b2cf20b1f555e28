/** The container itself: four stores, a dependency cache and a shared `resolving` set, all updated
    in place.  Every method is proved equal to the functions of modules Container and Singletons;
    in particular the cache changes nothing. */
module StdLibContainers {
  import opened Prelude
  import opened Container
  import opened Singletons

  const NoClasses: set<TypeId> := {}

  /** The mutable set of classes under construction, shared by one chain of `_resolve` calls. */
  class ResolvingSet {
    var classes: set<TypeId>

    constructor ()
      ensures classes == {}
    {
      classes := {};
    }
  }

  class StdLibContainer {
    const universe: map<TypeId, ClassInfo>
    var bindings: map<TypeId, TypeId>
    var instances: map<TypeId, Obj>
    var factories: map<TypeId, TypeId>
    var scopedRegistry: map<TypeId, TypeId>
    var resolutionCache: map<TypeId, seq<Param>>
    var nextId: nat
    ghost var log: seq<Resolved>

    constructor (universe: map<TypeId, ClassInfo>)
      ensures Valid() && this.universe == universe
      ensures bindings == map[] && scopedRegistry == map[] && Stores() == State(map[], map[], 0, [])
    {
      this.universe := universe;
      bindings, instances, factories, scopedRegistry, resolutionCache := map[], map[], map[], map[], map[];
      nextId := 0;
      log := [];
    }

    /** The cache holds the parameters of fully annotated classes. */
    ghost predicate Valid()
      reads this
    {
      forall c :: c in resolutionCache ==>
        c in universe && resolutionCache[c] == universe[c].params && FullyAnnotated(resolutionCache[c])
    }

    ghost function Wiring(): Config
      reads this
    {
      Config(universe, bindings)
    }

    ghost function Stores(): State
      reads this
    {
      State(instances, factories, nextId, log)
    }

    method Bind(abs: TypeId, concrete: TypeId)
      requires Valid()
      modifies `bindings
      ensures Valid() && bindings == old(bindings)[abs := concrete]
    {
      bindings := bindings[abs := concrete];
    }

    /** `singleton` given a class. */
    method SingletonClass(abs: TypeId, cls: TypeId)
      requires Valid()
      modifies `factories
      ensures Valid() && factories == old(factories)[abs := cls]
    {
      factories := factories[abs := cls];
    }

    /** `singleton` given an instance. */
    method SingletonInstance(abs: TypeId, instance: Obj)
      requires Valid()
      modifies `instances
      ensures Valid() && instances == old(instances)[abs := instance]
    {
      instances := instances[abs := instance];
    }

    /** `registrations`: four loops, later stores overwriting earlier ones. */
    method Registered() returns (found: Registry)
      ensures IsRegistrations(found, bindings, scopedRegistry, Stores())
      ensures forall a :: a in found <==> a in scopedRegistry || a in instances || a in factories || a in bindings
      ensures forall a :: a in found ==>
        if a in scopedRegistry then found[a] == Registration(Some(scopedRegistry[a]), Scoped, false)
        else if a in instances then found[a] == Registration(Some(instances[a].cls), Singleton, true)
        else if a in factories then found[a] == Registration(None, Singleton, false)
        else found[a] == Registration(Some(bindings[a]), Transient, false)
    {
      var bound, ready, scoped := bindings, instances, scopedRegistry;
      found := Overwrite(map[], bound.Keys, a requires a in bound => Registration(Some(bound[a]), Transient, false));
      found := Overwrite(found, factories.Keys, _ => Registration(None, Singleton, false));
      found := Overwrite(found, ready.Keys, a requires a in ready => Registration(Some(ready[a].cls), Singleton, true));
      found := Overwrite(found, scoped.Keys, a requires a in scoped => Registration(Some(scoped[a]), Scoped, false));
    }

    /** One of the loops of `registrations`. */
    static method Overwrite(found: Registry, keys: set<TypeId>, entry: TypeId --> Registration)
      returns (all: Registry)
      requires forall a :: a in keys ==> entry.requires(a)
      ensures forall a :: a in all <==> a in found || a in keys
      ensures forall a :: a in all ==> all[a] == if a in keys then entry(a) else found[a]
    {
      all := found;
      var todo := keys;
      while todo != {}
        invariant todo <= keys
        invariant forall a :: a in all <==> a in found || a in keys - todo
        invariant forall a :: a in all ==> all[a] == if a in keys - todo then entry(a) else found[a]
      {
        var a :| a in todo;
        all := all[a := entry(a)];
        todo := todo - {a};
      }
    }

    /** `resolve` with no active scope. */
    method ResolveTop(a: TypeId) returns (r: Result<Obj>)
      requires Valid()
      modifies `instances, `factories, `resolutionCache, `nextId, `log
      ensures Valid()
      ensures Outcome(r, Stores()) == Resolve(Wiring(), a, {}, old(Stores()))
    {
      var resolving := new ResolvingSet();
      r := ResolveIn(a, resolving);
    }

    /** `_resolve`: whatever happens, `resolving` is handed back as it came. */
    method ResolveIn(a: TypeId, resolving: ResolvingSet) returns (r: Result<Obj>)
      requires Valid()
      modifies `instances, `factories, `resolutionCache, `nextId, `log, resolving
      ensures Valid()
      ensures Outcome(r, Stores()) == Resolve(Wiring(), a, old(resolving.classes), old(Stores()))
      ensures resolving.classes == old(resolving.classes)
      decreases factories.Keys, universe.Keys - resolving.classes, 2
    {
      if a in instances {
        log := log + [Resolved(a, instances[a])];
        return Ok(instances[a]);
      }
      if a in factories {
        r := LazyFactory(a, factories[a]);
        if r.Ok? {
          instances := instances[a := r.value];
          log := log + [Resolved(a, r.value)];
        }
        return;
      }
      var concrete := if a in bindings then bindings[a] else a;
      if concrete in resolving.classes { return Err(Circular(concrete)); }
      if concrete !in universe { return Err(NotAClass(a)); }
      if universe[concrete].isAbstract { return Err(AbstractClass(concrete)); }
      r := Construct(a, concrete, resolving);
    }

    /** The construction part of `_resolve`, between `resolving.add` and its `finally`. */
    method Construct(a: TypeId, concrete: TypeId, resolving: ResolvingSet) returns (r: Result<Obj>)
      requires Valid() && a !in instances && a !in factories && concrete == ConcreteOf(Wiring(), a)
      requires concrete !in resolving.classes && concrete in universe && !universe[concrete].isAbstract
      modifies `instances, `factories, `resolutionCache, `nextId, `log, resolving
      ensures Valid()
      ensures Outcome(r, Stores()) == Resolve(Wiring(), a, old(resolving.classes), old(Stores()))
      ensures resolving.classes == old(resolving.classes)
      decreases factories.Keys, universe.Keys - resolving.classes, 1
    {
      ghost var before, classes := Stores(), resolving.classes;
      resolving.classes := resolving.classes + {concrete};
      var deps := CachedDependencies(concrete);
      if deps.Err? {
        resolving.classes := resolving.classes - {concrete};
        return Err(deps.error);
      }
      var args := BuildArguments(concrete, deps.value, resolving);
      assert Outcome(args, Stores()) ==
             ResolveParams(Wiring(), concrete, universe[concrete].params, classes + {concrete}, before, []);
      if args.Ok? {
        var obj := Obj(nextId, concrete, args.value);
        nextId := nextId + 1;
        log := log + [Resolved(a, obj)];
        r := Ok(obj);
      } else {
        r := Err(args.error);
      }
      resolving.classes := resolving.classes - {concrete};
      assert resolving.classes == classes;
    }

    /** The parameter list of a class, from the cache when it is there. */
    method CachedDependencies(concrete: TypeId) returns (r: Result<seq<Param>>)
      requires Valid() && concrete in universe
      modifies `resolutionCache
      ensures Valid()
      ensures r == if FullyAnnotated(universe[concrete].params) then Ok(universe[concrete].params)
                   else Err(MissingHint(FirstUnannotated(universe[concrete].params), concrete))
    {
      if concrete !in resolutionCache {
        if !FullyAnnotated(universe[concrete].params) {
          return Err(MissingHint(FirstUnannotated(universe[concrete].params), concrete));
        }
        resolutionCache := resolutionCache[concrete := universe[concrete].params];
      }
      r := Ok(resolutionCache[concrete]);
    }

    /** The lazy factory of a class singleton: it removes itself, and puts itself back on failure. */
    method LazyFactory(abs: TypeId, cls: TypeId) returns (r: Result<Obj>)
      requires Valid() && abs in factories && factories[abs] == cls
      modifies `instances, `factories, `resolutionCache, `nextId, `log
      ensures Valid()
      ensures var o := Resolve(Wiring(), cls, {}, old(Stores()).(factories := old(factories) - {abs}));
              && r == o.result
              && Stores() == if r.Ok? then o.state else o.state.(factories := o.state.factories[abs := cls])
      decreases factories.Keys, NoClasses, 1
    {
      factories := factories - {abs};
      var resolving := new ResolvingSet();
      r := ResolveIn(cls, resolving);
      if r.Err? {
        factories := factories[abs := cls];
      }
    }

    /** The argument loop. */
    method BuildArguments(owner: TypeId, params: seq<Param>, resolving: ResolvingSet) returns (r: Result<seq<Arg>>)
      requires Valid() && FullyAnnotated(params)
      modifies `instances, `factories, `resolutionCache, `nextId, `log, resolving
      ensures Valid()
      ensures Outcome(r, Stores()) == ResolveParams(Wiring(), owner, params, old(resolving.classes), old(Stores()), [])
      ensures resolving.classes == old(resolving.classes)
      decreases factories.Keys, universe.Keys - resolving.classes, 3
    {
      ghost var all := ResolveParams(Wiring(), owner, params, resolving.classes, Stores(), []);
      var args: seq<Arg> := [];
      var i := 0;
      while i < |params|
        invariant 0 <= i <= |params| && Valid() && resolving.classes == old(resolving.classes)
        invariant Evolves(old(Stores()), Stores())
        invariant all == ResolveParams(Wiring(), owner, params[i..], resolving.classes, Stores(), args)
      {
        assert params[i..][1..] == params[i + 1..];
        var r' := ResolveIn(params[i].annotation.value, resolving);
        if r'.Ok? {
          args := args + [Injected(r'.value)];
        } else if params[i].hasDefault {
          args := args + [DefaultValue];
        } else {
          return Err(Unresolved(params[i].name, owner, r'.error));
        }
        i := i + 1;
      }
      r := Ok(args);
    }
  }
}
