/** A class singleton whose own class asks for it, however deep: exactly when it is still one object.

    While the lazy factory runs it has removed itself, so a request for the abstract from inside is
    answered by plain construction. */
module SelfDependence {
  import opened Prelude
  import opened Container
  import opened Constructible
  import opened Singletons

  /** Everyone who got `a` got the same object. */
  ghost predicate HandsOutOne(a: TypeId, log: seq<Resolved>) {
    forall r, r' :: r in log && r' in log && r.abs == a && r'.abs == a ==> r.obj == r'.obj
  }

  /** Resolving `x` outside `resolving`, by plain construction, resolves `a` on the way: it is `a` itself
      and can be constructed, or its class gets to a parameter that does. */
  ghost predicate HandsOut(cfg: Config, ready: set<TypeId>, resolving: set<TypeId>, x: TypeId, a: TypeId)
    decreases cfg.classes.Keys - resolving, 2
  {
    || (x == a && IsConstructible(cfg, ready, resolving, a))
    || (x !in ready && ClassHandsOut(cfg, ready, resolving, ConcreteOf(cfg, x), a))
  }

  ghost predicate ClassHandsOut(cfg: Config, ready: set<TypeId>, resolving: set<TypeId>, c: TypeId, a: TypeId)
    decreases cfg.classes.Keys - resolving, 1
  {
    Instantiable(cfg, resolving, c) && ParamsHandOut(cfg, ready, resolving + {c}, cfg.classes[c].params, a)
  }

  /** Some parameter hands `a` out, and the argument loop gets there: all before it have a default or can
      be constructed. */
  ghost predicate ParamsHandOut(cfg: Config, ready: set<TypeId>, resolving: set<TypeId>, params: seq<Param>, a: TypeId)
    requires FullyAnnotated(params)
    decreases cfg.classes.Keys - resolving, 3, |params|
  {
    params != []
    && (HandsOut(cfg, ready, resolving, params[0].annotation.value, a)
        || ((params[0].hasDefault || IsConstructible(cfg, ready, resolving, params[0].annotation.value))
            && ParamsHandOut(cfg, ready, resolving, params[1..], a)))
  }

  /** `a` was handed out between two states, as an object built between them. */
  ghost predicate WasBuilt(a: TypeId, before: State, after: State) {
    exists obj :: Resolved(a, obj) in after.log && before.nextId <= obj.id < after.nextId
  }

  ghost predicate NoneHandedOut(a: TypeId, before: State, after: State) {
    forall r :: r in after.log ==> r in before.log || r.abs != a
  }

  ghost predicate HandedOutIff(cond: bool, a: TypeId, before: State, after: State) {
    (cond ==> WasBuilt(a, before, after)) && (!cond ==> NoneHandedOut(a, before, after))
  }

  lemma WasBuiltStays(a: TypeId, st0: State, st1: State, st2: State, st3: State)
    requires WasBuilt(a, st1, st2) && Evolves(st0, st1) && Evolves(st2, st3)
    ensures WasBuilt(a, st0, st3)
  {
    var obj :| Resolved(a, obj) in st2.log && st1.nextId <= obj.id < st2.nextId;
    assert Resolved(a, obj) in st3.log;
  }

  /** `HandsOut` is exactly what happens: then a new object is handed out for `a`, whether the resolution
      succeeds or not, and otherwise none is. */
  lemma {:induction false} ResolveHandsOutIff(cfg: Config, a: TypeId, x: TypeId, resolving: set<TypeId>, st: State)
    requires st.factories == map[] && a !in st.instances
    ensures HandedOutIff(HandsOut(cfg, st.instances.Keys, resolving, x, a), a, st, Resolve(cfg, x, resolving, st).state)
    decreases cfg.classes.Keys - resolving, 0
  {
    var ready, c := st.instances.Keys, ConcreteOf(cfg, x);
    ResolveDecides(cfg, x, resolving, st);
    ConstructibleUnfolds(cfg, ready, resolving, x);
    if x !in ready && Instantiable(cfg, resolving, c) {
      var o := ResolveParams(cfg, c, cfg.classes[c].params, resolving + {c}, st, []);
      ParamsHandOutIff(cfg, a, c, cfg.classes[c].params, resolving + {c}, st, []);
      if ClassHandsOut(cfg, ready, resolving, c, a) {
        WasBuiltStays(a, st, st, o.state, Resolve(cfg, x, resolving, st).state);
      } else if x == a && o.result.Ok? {
        assert Resolved(a, Obj(o.state.nextId, c, o.result.value)) in Resolve(cfg, x, resolving, st).state.log;
      }
    } else {
      assert !ClassHandsOut(cfg, ready, resolving, c, a) || x in ready;
      assert !HandsOut(cfg, ready, resolving, x, a);
    }
  }

  lemma {:induction false} ParamsHandOutIff(cfg: Config, a: TypeId, owner: TypeId, params: seq<Param>,
                                            resolving: set<TypeId>, st: State, args: seq<Arg>)
    requires st.factories == map[] && a !in st.instances && FullyAnnotated(params)
    ensures HandedOutIff(ParamsHandOut(cfg, st.instances.Keys, resolving, params, a), a, st,
                         ResolveParams(cfg, owner, params, resolving, st, args).state)
    decreases cfg.classes.Keys - resolving, |params|
  {
    if params != [] {
      var x := params[0].annotation.value;
      var r := Resolve(cfg, x, resolving, st);
      ResolveHandsOutIff(cfg, a, x, resolving, st);
      ResolveDecides(cfg, x, resolving, st);
      var after := ResolveParams(cfg, owner, params, resolving, st, args).state;
      if r.result.Ok? || params[0].hasDefault {
        var args' := args + [if r.result.Ok? then Injected(r.result.value) else DefaultValue];
        ParamsHandOutIff(cfg, a, owner, params[1..], resolving, r.state, args');
        if ParamsHandOut(cfg, st.instances.Keys, resolving, params[1..], a) {
          WasBuiltStays(a, st, r.state, after, after);
        }
      }
      if HandsOut(cfg, st.instances.Keys, resolving, x, a) { WasBuiltStays(a, st, st, r.state, after); }
    }
  }

  /** While the factory of `a` runs, building its class resolves `a` again. */
  ghost predicate AsksForItself(cfg: Config, ready: set<TypeId>, cls: TypeId, a: TypeId) {
    cls !in ready && ClassHandsOut(cfg, ready, {}, ConcreteOf(cfg, cls), a)
  }

  function Popped(st: State, a: TypeId): State { st.(factories := st.factories - {a}) }

  /** If it does not, the factory hands out at most the object it returns. */
  lemma FactoryHandsOutOne(cfg: Config, a: TypeId, cls: TypeId, st: State)
    requires st.factories == map[a := cls] && a !in st.instances
    requires !AsksForItself(cfg, st.instances.Keys, cls, a)
    ensures var o := Resolve(cfg, cls, {}, Popped(st, a));
      && o.state.instances == st.instances && o.state.factories == map[]
      && forall r :: r in o.state.log && r.abs == a ==> r in st.log || (o.result.Ok? && r.obj == o.result.value)
  {
    var popped, c := Popped(st, a), ConcreteOf(cfg, cls);
    assert popped.factories == map[];
    ResolveDecides(cfg, cls, {}, popped);
    if cls !in st.instances && Instantiable(cfg, {}, c) {
      ParamsHandOutIff(cfg, a, c, cfg.classes[c].params, {} + {c}, popped, []);
    }
  }

  /** The only class singleton is `a`, waiting or stored, and whoever asked for it got the stored object. */
  ghost predicate IsSingle(a: TypeId, cls: TypeId, ready: set<TypeId>, st: State) {
    && OneObject(a, st)
    && (if a in st.instances then st.factories == map[]
        else st.factories == map[a := cls] && st.instances.Keys == ready)
  }

  lemma {:induction false} ResolveKeepsSingle(cfg: Config, a: TypeId, cls: TypeId, ready: set<TypeId>,
                                              x: TypeId, resolving: set<TypeId>, st: State)
    requires IsSingle(a, cls, ready, st) && !AsksForItself(cfg, ready, cls, a)
    ensures IsSingle(a, cls, ready, Resolve(cfg, x, resolving, st).state)
    decreases st.factories.Keys, cfg.classes.Keys - resolving, 0
  {
    if x in st.instances {
    } else if x in st.factories {
      FactoryHandsOutOne(cfg, a, cls, st);
    } else {
      var c := ConcreteOf(cfg, x);
      if Instantiable(cfg, resolving, c) {
        ParamsKeepSingle(cfg, a, cls, ready, c, cfg.classes[c].params, resolving + {c}, st, []);
      }
    }
  }

  lemma {:induction false} ParamsKeepSingle(cfg: Config, a: TypeId, cls: TypeId, ready: set<TypeId>, owner: TypeId,
                                            params: seq<Param>, resolving: set<TypeId>, st: State, args: seq<Arg>)
    requires IsSingle(a, cls, ready, st) && !AsksForItself(cfg, ready, cls, a)
    requires FullyAnnotated(params)
    ensures IsSingle(a, cls, ready, ResolveParams(cfg, owner, params, resolving, st, args).state)
    decreases st.factories.Keys, cfg.classes.Keys - resolving, |params|
  {
    if params != [] {
      var r := Resolve(cfg, params[0].annotation.value, resolving, st);
      ResolveKeepsSingle(cfg, a, cls, ready, params[0].annotation.value, resolving, st);
      if r.result.Ok? {
        ParamsKeepSingle(cfg, a, cls, ready, owner, params[1..], resolving, r.state, args + [Injected(r.result.value)]);
      } else if params[0].hasDefault {
        ParamsKeepSingle(cfg, a, cls, ready, owner, params[1..], resolving, r.state, args + [DefaultValue]);
      }
    }
  }

  lemma {:induction false} RunKeepsSingle(calls: seq<Call>, a: TypeId, cls: TypeId, ready: set<TypeId>, st: State)
    requires IsSingle(a, cls, ready, st)
    requires forall k :: k in calls ==> !AsksForItself(k.cfg, ready, cls, a)
    ensures IsSingle(a, cls, ready, ResolveAll(calls, st))
  {
    if calls != [] {
      var k := calls[0];
      ResolveKeepsSingle(k.cfg, a, cls, ready, k.abs, {}, st);
      RunKeepsSingle(calls[1..], a, cls, ready, Resolve(k.cfg, k.abs, {}, st).state);
    }
  }

  ghost predicate IsOneObjectInEveryRun(cfg: Config, a: TypeId, st: State) {
    forall abstracts: seq<TypeId> :: HandsOutOne(a, ResolveAll(CallsOf(cfg, abstracts), st).log)
  }

  function CallsOf(cfg: Config, abstracts: seq<TypeId>): seq<Call> {
    seq(|abstracts|, i requires 0 <= i < |abstracts| => Call(cfg, abstracts[i]))
  }

  /** If it does, each run of the factory hands out an object it does not return: a successful one
      returns a newer object, and a failed one leaves everything as before but for the log and the
      identities used. */
  lemma FactoryHandsOutAnother(cfg: Config, a: TypeId, cls: TypeId, st: State)
    requires st.factories == map[a := cls] && a !in st.instances && AsksForItself(cfg, st.instances.Keys, cls, a)
    ensures var o := Resolve(cfg, a, {}, st);
      && WasBuilt(a, st, o.state)
      && (o.result.Ok? ==> !HandsOutOne(a, o.state.log))
      && (o.result.Err? ==> o.state.factories == st.factories && o.state.instances == st.instances)
  {
    var popped, c := Popped(st, a), ConcreteOf(cfg, cls);
    assert popped.factories == map[];
    ResolveDecides(cfg, cls, {}, popped);
    var o := ResolveParams(cfg, c, cfg.classes[c].params, {} + {c}, popped, []);
    ParamsHandOutIff(cfg, a, c, cfg.classes[c].params, {} + {c}, popped, []);
    var inner :| Resolved(a, inner) in o.state.log && st.nextId <= inner.id < o.state.nextId;
    var built, after := Resolve(cfg, cls, {}, popped), Resolve(cfg, a, {}, st).state;
    assert Resolved(a, inner) in built.state.log && o.state.nextId <= built.state.nextId;
    assert Resolved(a, inner) in after.log && after.nextId == built.state.nextId;
    if built.result.Ok? {
      assert built.result.value.id == o.state.nextId && Resolved(a, built.result.value) in after.log;
    }
  }

  lemma TwoBuiltAreTwo(a: TypeId, st: State, mid: State, after: State)
    requires WasBuilt(a, st, mid) && WasBuilt(a, mid, after) && Evolves(mid, after)
    ensures !HandsOutOne(a, after.log)
  {
    var first :| Resolved(a, first) in mid.log && st.nextId <= first.id < mid.nextId;
    var second :| Resolved(a, second) in after.log && mid.nextId <= second.id < after.nextId;
    assert Resolved(a, first) in after.log;
  }

  /** The only class singleton waiting is one object over every run of resolutions if and only if building
      its class does not resolve the singleton itself. */
  lemma SingletonIsOneObjectIff(cfg: Config, a: TypeId, cls: TypeId, st: State)
    requires st.factories == map[a := cls] && a !in st.instances && st.log == []
    ensures IsOneObjectInEveryRun(cfg, a, st) <==> !AsksForItself(cfg, st.instances.Keys, cls, a)
  {
    if !AsksForItself(cfg, st.instances.Keys, cls, a) {
      forall abstracts: seq<TypeId> ensures HandsOutOne(a, ResolveAll(CallsOf(cfg, abstracts), st).log) {
        RunKeepsSingle(CallsOf(cfg, abstracts), a, cls, st.instances.Keys, st);
      }
    } else {
      var once := Resolve(cfg, a, {}, st);
      FactoryHandsOutAnother(cfg, a, cls, st);
      ResolvedTwice(cfg, a, st);
      if once.result.Err? {
        FactoryHandsOutAnother(cfg, a, cls, once.state);
        TwoBuiltAreTwo(a, st, once.state, Resolve(cfg, a, {}, once.state).state);
      }
    }
  }

  lemma ResolvedTwice(cfg: Config, a: TypeId, st: State)
    ensures ResolveAll(CallsOf(cfg, [a]), st) == Resolve(cfg, a, {}, st).state
    ensures ResolveAll(CallsOf(cfg, [a, a]), st) == Resolve(cfg, a, {}, Resolve(cfg, a, {}, st).state).state
  {
    var once, twice := CallsOf(cfg, [a]), CallsOf(cfg, [a, a]);
    assert once == [Call(cfg, a)] && once[1..] == [];
    assert twice == [Call(cfg, a), Call(cfg, a)] && twice[1..] == once;
    var mid := Resolve(cfg, a, {}, st).state;
    assert ResolveAll([], mid) == mid && ResolveAll(once, st) == mid;
    assert ResolveAll(once, mid) == ResolveAll([], Resolve(cfg, a, {}, mid).state);
  }

  // What the condition comes to

  lemma BlockedStaysBlocked(cfg: Config, ready: set<TypeId>, blocked: set<TypeId>, c: TypeId, a: TypeId)
    requires !IsConstructible(cfg, ready, blocked, a)
    ensures !IsConstructible(cfg, ready, blocked + {c}, a)
  {
    if n: nat :| BuildableIn(cfg, ready, blocked + {c}, n, a) {
      BlockingIsMonotone(cfg, ready, blocked, c, n, a);
    }
  }

  /** Only what can be constructed there is handed out. */
  lemma {:induction false} HandedOutIsConstructible(cfg: Config, ready: set<TypeId>, resolving: set<TypeId>,
                                                    x: TypeId, a: TypeId)
    requires HandsOut(cfg, ready, resolving, x, a)
    ensures IsConstructible(cfg, ready, resolving, a)
    decreases cfg.classes.Keys - resolving, 0
  {
    if !IsConstructible(cfg, ready, resolving, a) {
      var c := ConcreteOf(cfg, x);
      BlockedStaysBlocked(cfg, ready, resolving, c, a);
      ParamsHandOutConstructible(cfg, ready, resolving + {c}, cfg.classes[c].params, a);
    }
  }

  lemma {:induction false} ParamsHandOutConstructible(cfg: Config, ready: set<TypeId>, resolving: set<TypeId>,
                                                      params: seq<Param>, a: TypeId)
    requires FullyAnnotated(params) && ParamsHandOut(cfg, ready, resolving, params, a)
    ensures IsConstructible(cfg, ready, resolving, a)
    decreases cfg.classes.Keys - resolving, 1, |params|
  {
    if HandsOut(cfg, ready, resolving, params[0].annotation.value, a) {
      HandedOutIsConstructible(cfg, ready, resolving, params[0].annotation.value, a);
    } else {
      ParamsHandOutConstructible(cfg, ready, resolving, params[1..], a);
    }
  }

  lemma {:induction false} ReachedParamHandsOut(cfg: Config, ready: set<TypeId>, resolving: set<TypeId>,
                                                params: seq<Param>, i: nat, a: TypeId)
    requires FullyAnnotated(params) && i < |params| && params[i].annotation == Some(a)
    requires IsConstructible(cfg, ready, resolving, a) && AllConstructible(cfg, ready, resolving, params[..i])
    ensures ParamsHandOut(cfg, ready, resolving, params, a)
  {
    if i > 0 {
      assert params[..i][0] == params[0] && params[1..][..i - 1] == params[..i][1..];
      ReachedParamHandsOut(cfg, ready, resolving, params[1..], i - 1, a);
    }
  }

  /** For a class that asks for its singleton in a parameter of its own, with nothing missing before it,
      it comes to this: plain construction without the class can answer. */
  lemma DirectRequestIff(cfg: Config, ready: set<TypeId>, cls: TypeId, i: nat, a: TypeId)
    requires cls !in ready && Instantiable(cfg, {}, ConcreteOf(cfg, cls))
    requires var c := ConcreteOf(cfg, cls);
             var params := cfg.classes[c].params;
             i < |params| && params[i].annotation == Some(a) && AllConstructible(cfg, ready, {c}, params[..i])
    ensures AsksForItself(cfg, ready, cls, a) <==> IsConstructible(cfg, ready, {ConcreteOf(cfg, cls)}, a)
  {
    var c := ConcreteOf(cfg, cls);
    assert {} + {c} == {c};
    if IsConstructible(cfg, ready, {c}, a) { ReachedParamHandsOut(cfg, ready, {c}, cfg.classes[c].params, i, a); }
    if AsksForItself(cfg, ready, cls, a) { ParamsHandOutConstructible(cfg, ready, {c}, cfg.classes[c].params, a); }
  }
}
