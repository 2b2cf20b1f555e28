/** When a resolution succeeds while class singletons wait in their factories, and that it does not depend on
    what was resolved before unless a singleton depends on itself. */
module Availability {
  import opened Prelude
  import opened Container
  import opened Constructible
  import opened Singletons
  import opened Injection

  /** `x` can be resolved outside `resolving` when `ready` are the instances and `waiting` the lazy factories,
      judged from the registrations alone: a waiting singleton by its class, without itself and with nothing
      under construction, anything else by its own class. */
  ghost predicate CanResolve(cfg: Config, ready: set<TypeId>, waiting: map<TypeId, TypeId>, resolving: set<TypeId>,
                             x: TypeId)
    decreases waiting.Keys, cfg.classes.Keys - resolving
  {
    x in ready ||
    if x in waiting then CanResolve(cfg, ready, waiting - {x}, {}, waiting[x])
    else
      var c := ConcreteOf(cfg, x);
      Instantiable(cfg, resolving, c) &&
      forall p :: p in cfg.classes[c].params && !p.hasDefault ==>
        CanResolve(cfg, ready, waiting, resolving + {c}, p.annotation.value)
  }

  /** With nothing waiting that is the least fixed point. */
  lemma {:induction false} NothingWaiting(cfg: Config, ready: set<TypeId>, resolving: set<TypeId>, x: TypeId)
    ensures CanResolve(cfg, ready, map[], resolving, x) <==> IsConstructible(cfg, ready, resolving, x)
    decreases cfg.classes.Keys - resolving
  {
    var c := ConcreteOf(cfg, x);
    ConstructibleUnfolds(cfg, ready, resolving, x);
    if x !in ready && Instantiable(cfg, resolving, c) {
      OwnClassIsNotNeeded(cfg, ready, resolving, c);
      forall p | p in cfg.classes[c].params && !p.hasDefault
        ensures CanResolve(cfg, ready, map[], resolving + {c}, p.annotation.value)
                <==> IsConstructible(cfg, ready, resolving + {c}, p.annotation.value)
      {
        NothingWaiting(cfg, ready, resolving + {c}, p.annotation.value);
      }
    }
  }

  /** Storing singletons takes nothing away. */
  lemma {:induction false} StoringKeepsResolvable(cfg: Config, ready: set<TypeId>, waiting: map<TypeId, TypeId>,
                                                  moved: set<TypeId>, resolving: set<TypeId>, x: TypeId)
    requires CanResolve(cfg, ready, waiting, resolving, x)
    ensures CanResolve(cfg, ready + moved, waiting - moved, resolving, x)
    decreases waiting.Keys, cfg.classes.Keys - resolving
  {
    if x !in ready && x !in moved {
      if x in waiting {
        assert waiting - moved - {x} == waiting - {x} - moved;
        StoringKeepsResolvable(cfg, ready, waiting - {x}, moved, {}, waiting[x]);
      } else {
        var c := ConcreteOf(cfg, x);
        forall p | p in cfg.classes[c].params && !p.hasDefault
          ensures CanResolve(cfg, ready + moved, waiting - moved, resolving + {c}, p.annotation.value)
        {
          StoringKeepsResolvable(cfg, ready, waiting, moved, resolving + {c}, p.annotation.value);
        }
      }
    }
  }

  ghost predicate Available(cfg: Config, st: State, resolving: set<TypeId>, x: TypeId) {
    CanResolve(cfg, st.instances.Keys, st.factories, resolving, x)
  }

  lemma AvailableStays(cfg: Config, st: State, st': State, resolving: set<TypeId>, x: TypeId)
    requires Evolves(st, st') && Available(cfg, st, resolving, x)
    ensures Available(cfg, st', resolving, x)
  {
    EvolvingMoves(st, st');
    StoringKeepsResolvable(cfg, st.instances.Keys, st.factories, Moved(st, st'), resolving, x);
  }

  /** What can be resolved is, whatever waits: an annotation that can be resolved gives an object and never
      the default. */
  lemma {:induction false} AvailableSucceeds(cfg: Config, x: TypeId, resolving: set<TypeId>, st: State)
    requires Available(cfg, st, resolving, x)
    ensures Resolve(cfg, x, resolving, st).result.Ok?
    decreases st.factories.Keys, cfg.classes.Keys - resolving, 0
  {
    if x in st.instances {
    } else if x in st.factories {
      AvailableSucceeds(cfg, st.factories[x], {}, st.(factories := st.factories - {x}));
    } else {
      var c := ConcreteOf(cfg, x);
      AvailableParamsSucceed(cfg, c, cfg.classes[c].params, resolving + {c}, st, []);
    }
  }

  lemma {:induction false} AvailableParamsSucceed(cfg: Config, owner: TypeId, params: seq<Param>,
                                                  resolving: set<TypeId>, st: State, args: seq<Arg>)
    requires FullyAnnotated(params)
    requires forall p :: p in params && !p.hasDefault ==> Available(cfg, st, resolving, p.annotation.value)
    ensures ResolveParams(cfg, owner, params, resolving, st, args).result.Ok?
    decreases st.factories.Keys, cfg.classes.Keys - resolving, |params|
  {
    if params != [] {
      var r := Resolve(cfg, params[0].annotation.value, resolving, st);
      if !params[0].hasDefault {
        assert params[0] in params;
        AvailableSucceeds(cfg, params[0].annotation.value, resolving, st);
      }
      forall p | p in params[1..] && !p.hasDefault ensures Available(cfg, r.state, resolving, p.annotation.value) {
        AvailableStays(cfg, st, r.state, resolving, p.annotation.value);
      }
      var arg := if r.result.Ok? then Injected(r.result.value) else DefaultValue;
      AvailableParamsSucceed(cfg, owner, params[1..], resolving, r.state, args + [arg]);
    }
  }

  // The other direction

  /** No waiting singleton depends on itself. */
  ghost predicate NoneSelfDependent(cfg: Config, factories: map<TypeId, TypeId>) {
    forall b :: b in factories ==> exists s: iset<TypeId> :: SelfFree(cfg, factories, s, b)
  }

  lemma FewerStaySelfFree(cfg: Config, factories: map<TypeId, TypeId>, gone: set<TypeId>)
    requires NoneSelfDependent(cfg, factories)
    ensures NoneSelfDependent(cfg, factories - gone)
  {
    forall b | b in factories - gone ensures exists s: iset<TypeId> :: SelfFree(cfg, factories - gone, s, b) {
      var s: iset<TypeId> :| SelfFree(cfg, factories, s, b);
      assert SelfFree(cfg, factories - gone, s, b);
    }
  }

  /** Two sets of stores that agree on `s`. */
  ghost predicate AgreeOn(s: iset<TypeId>, ready: set<TypeId>, waiting: map<TypeId, TypeId>, ready': set<TypeId>,
                          waiting': map<TypeId, TypeId>)
  {
    forall k :: k in s ==>
      && (k in ready <==> k in ready') && (k in waiting <==> k in waiting')
      && (k in waiting && k in waiting' ==> waiting[k] == waiting'[k])
  }

  /** Only what a resolution can use matters to it. */
  lemma {:induction false} OnlyUsesMatter(cfg: Config, s: iset<TypeId>, ready: set<TypeId>,
                                          waiting: map<TypeId, TypeId>, ready': set<TypeId>,
                                          waiting': map<TypeId, TypeId>, resolving: set<TypeId>, x: TypeId)
    requires ClosedUnderUse(cfg, waiting, s) && AgreeOn(s, ready, waiting, ready', waiting') && x in s
    requires CanResolve(cfg, ready, waiting, resolving, x)
    ensures CanResolve(cfg, ready', waiting', resolving, x)
    decreases waiting.Keys, cfg.classes.Keys - resolving
  {
    if x !in ready {
      if x in waiting {
        OnlyUsesMatter(cfg, s, ready, waiting - {x}, ready', waiting' - {x}, {}, waiting[x]);
      } else {
        var c := ConcreteOf(cfg, x);
        forall p | p in cfg.classes[c].params && !p.hasDefault
          ensures CanResolve(cfg, ready', waiting', resolving + {c}, p.annotation.value)
        {
          OnlyUsesMatter(cfg, s, ready, waiting, ready', waiting', resolving + {c}, p.annotation.value);
        }
      }
    }
  }

  /** All of `moved` could be resolved while they waited. */
  ghost predicate AllWereAvailable(cfg: Config, ready: set<TypeId>, waiting: map<TypeId, TypeId>, moved: set<TypeId>) {
    forall m :: m in moved ==> m in waiting && CanResolve(cfg, ready, waiting, {}, m)
  }

  /** If no singleton depends on itself, what can be resolved once `moved` are stored could be before. */
  lemma {:induction false} StoringAddsNothing(cfg: Config, ready: set<TypeId>, waiting: map<TypeId, TypeId>,
                                              moved: set<TypeId>, resolving: set<TypeId>, x: TypeId)
    requires NoneSelfDependent(cfg, waiting) && AllWereAvailable(cfg, ready, waiting, moved)
    requires CanResolve(cfg, ready + moved, waiting - moved, resolving, x)
    ensures CanResolve(cfg, ready, waiting, resolving, x)
    decreases waiting.Keys, cfg.classes.Keys - resolving, 1
  {
    if x !in ready && x !in moved {
      if x in waiting {
        var s: iset<TypeId> :| SelfFree(cfg, waiting, s, x);
        assert waiting - moved - {x} == waiting - {x} - moved;
        if waiting[x] != x {
          StoringAddsNothingWithin(cfg, s, ready, waiting, moved, x, {}, waiting[x]);
        } else {
          var c := ConcreteOf(cfg, x);
          forall p | p in cfg.classes[c].params && !p.hasDefault
            ensures CanResolve(cfg, ready, waiting - {x}, {} + {c}, p.annotation.value)
          {
            StoringAddsNothingWithin(cfg, s, ready, waiting, moved, x, {} + {c}, p.annotation.value);
          }
        }
      } else {
        var c := ConcreteOf(cfg, x);
        forall p | p in cfg.classes[c].params && !p.hasDefault
          ensures CanResolve(cfg, ready, waiting, resolving + {c}, p.annotation.value)
        {
          StoringAddsNothing(cfg, ready, waiting, moved, resolving + {c}, p.annotation.value);
        }
      }
    }
  }

  /** The same while the factory of `a` runs, for what it can use: only those of `moved` matter that it can
      use, and they do not need `a`. */
  lemma {:induction false} StoringAddsNothingWithin(cfg: Config, s: iset<TypeId>, ready: set<TypeId>,
                                                    waiting: map<TypeId, TypeId>, moved: set<TypeId>, a: TypeId,
                                                    resolving: set<TypeId>, y: TypeId)
    requires NoneSelfDependent(cfg, waiting) && AllWereAvailable(cfg, ready, waiting, moved)
    requires a in waiting && a !in s && ClosedUnderUse(cfg, waiting, s) && y in s
    requires CanResolve(cfg, ready + moved, waiting - {a} - moved, resolving, y)
    ensures CanResolve(cfg, ready, waiting - {a}, resolving, y)
    decreases (waiting - {a}).Keys, cfg.classes.Keys - resolving, 2
  {
    var rest := waiting - {a};
    var used := set m | m in moved && m in s;
    FewerStaySelfFree(cfg, waiting, {a});
    OnlyUsesMatter(cfg, s, ready + moved, rest - moved, ready + used, rest - used, resolving, y);
    forall m | m in used ensures m in rest && CanResolve(cfg, ready, rest, {}, m) {
      OnlyUsesMatter(cfg, s, ready, waiting, ready, rest, {}, m);
    }
    StoringAddsNothing(cfg, ready, rest, used, resolving, y);
  }

  /** What a resolution has stored could be resolved before. */
  ghost predicate StoredWereAvailable(cfg: Config, st: State, st': State) {
    AllWereAvailable(cfg, st.instances.Keys, st.factories, Moved(st, st'))
  }

  lemma WasAvailable(cfg: Config, st: State, st': State, resolving: set<TypeId>, x: TypeId)
    requires NoneSelfDependent(cfg, st.factories) && Evolves(st, st') && StoredWereAvailable(cfg, st, st')
    requires Available(cfg, st', resolving, x)
    ensures Available(cfg, st, resolving, x)
  {
    EvolvingMoves(st, st');
    StoringAddsNothing(cfg, st.instances.Keys, st.factories, Moved(st, st'), resolving, x);
  }

  lemma StoredInTurn(cfg: Config, st: State, mid: State, st': State)
    requires NoneSelfDependent(cfg, st.factories) && Evolves(st, mid) && Evolves(mid, st')
    requires StoredWereAvailable(cfg, st, mid) && StoredWereAvailable(cfg, mid, st')
    ensures StoredWereAvailable(cfg, st, st')
  {
    forall m | m in Moved(st, st') ensures m in st.factories && Available(cfg, st, {}, m) {
      if m !in Moved(st, mid) {
        assert m in Moved(mid, st');
        WasAvailable(cfg, st, mid, {}, m);
      }
    }
  }

  lemma {:induction false} SuccessWasAvailable(cfg: Config, x: TypeId, resolving: set<TypeId>, st: State)
    requires NoneSelfDependent(cfg, st.factories)
    ensures var o := Resolve(cfg, x, resolving, st);
            (o.result.Ok? ==> Available(cfg, st, resolving, x)) && StoredWereAvailable(cfg, st, o.state)
    decreases st.factories.Keys, cfg.classes.Keys - resolving, 0
  {
    var o := Resolve(cfg, x, resolving, st);
    if x in st.instances {
    } else if x in st.factories {
      var popped := st.(factories := st.factories - {x});
      FewerStaySelfFree(cfg, st.factories, {x});
      SuccessWasAvailable(cfg, st.factories[x], {}, popped);
      forall m | m in Moved(st, o.state) ensures m in st.factories && Available(cfg, st, {}, m) {
        if m != x { StoredOnTheWay(cfg, x, st, m); }
      }
    } else {
      var c := ConcreteOf(cfg, x);
      if Instantiable(cfg, resolving, c) {
        ParamsWereAvailable(cfg, c, cfg.classes[c].params, resolving + {c}, st, []);
      }
    }
  }

  /** What the factory of `x` stores on its way does not need `x`. */
  lemma StoredOnTheWay(cfg: Config, x: TypeId, st: State, m: TypeId)
    requires NoneSelfDependent(cfg, st.factories) && x in st.factories && x !in st.instances && m != x
    requires var popped := st.(factories := st.factories - {x});
      && m in Moved(popped, Resolve(cfg, st.factories[x], {}, popped).state)
      && Available(cfg, popped, {}, m)
    ensures Available(cfg, st, {}, m)
  {
    var popped := st.(factories := st.factories - {x});
    var s: iset<TypeId> :| SelfFree(cfg, st.factories, s, x);
    StoredIsUsed(cfg, s, x, st, m);
    OnlyUsesMatter(cfg, s, st.instances.Keys, popped.factories, st.instances.Keys, st.factories, {}, m);
  }

  lemma StoredIsUsed(cfg: Config, s: iset<TypeId>, x: TypeId, st: State, m: TypeId)
    requires x in st.factories && SelfFree(cfg, st.factories, s, x) && x !in st.instances && m != x
    requires var popped := st.(factories := st.factories - {x});
             m in Moved(popped, Resolve(cfg, st.factories[x], {}, popped).state)
    ensures m in s
  {
    var popped := st.(factories := st.factories - {x});
    if st.factories[x] != x {
      StaysWithin(cfg, st.factories, s, st.factories[x], {}, popped);
    } else {
      var c := ConcreteOf(cfg, x);
      if Instantiable(cfg, {}, c) {
        ParamsStayWithin(cfg, st.factories, s, c, cfg.classes[c].params, {} + {c}, popped, []);
      }
    }
  }

  lemma {:induction false} ParamsWereAvailable(cfg: Config, owner: TypeId, params: seq<Param>, resolving: set<TypeId>,
                                               st: State, args: seq<Arg>)
    requires NoneSelfDependent(cfg, st.factories) && FullyAnnotated(params)
    ensures var o := ResolveParams(cfg, owner, params, resolving, st, args);
      && StoredWereAvailable(cfg, st, o.state)
      && (o.result.Ok? ==>
            forall p :: p in params && !p.hasDefault ==> Available(cfg, st, resolving, p.annotation.value))
    decreases st.factories.Keys, cfg.classes.Keys - resolving, |params|
  {
    if params != [] {
      var r := Resolve(cfg, params[0].annotation.value, resolving, st);
      SuccessWasAvailable(cfg, params[0].annotation.value, resolving, st);
      if r.result.Ok? || params[0].hasDefault {
        var args' := args + [if r.result.Ok? then Injected(r.result.value) else DefaultValue];
        var o := ResolveParams(cfg, owner, params[1..], resolving, r.state, args');
        EvolvingMoves(st, r.state);
        FewerStaySelfFree(cfg, st.factories, Moved(st, r.state));
        ParamsWereAvailable(cfg, owner, params[1..], resolving, r.state, args');
        StoredInTurn(cfg, st, r.state, o.state);
        if o.result.Ok? {
          forall p | p in params && !p.hasDefault ensures Available(cfg, st, resolving, p.annotation.value) {
            if p != params[0] {
              assert p in params[1..];
              WasAvailable(cfg, st, r.state, resolving, p.annotation.value);
            }
          }
        }
      }
    }
  }

  /** If no waiting singleton depends on itself, `_resolve` succeeds exactly on what the registrations say can
      be resolved. */
  lemma ResolveSucceedsIff(cfg: Config, x: TypeId, resolving: set<TypeId>, st: State)
    requires NoneSelfDependent(cfg, st.factories)
    ensures Resolve(cfg, x, resolving, st).result.Ok? <==> Available(cfg, st, resolving, x)
  {
    SuccessWasAvailable(cfg, x, resolving, st);
    if Available(cfg, st, resolving, x) { AvailableSucceeds(cfg, x, resolving, st); }
  }

  lemma {:induction false} RunStoresAvailable(cfg: Config, calls: seq<Call>, st: State)
    requires NoneSelfDependent(cfg, st.factories) && forall k :: k in calls ==> k.cfg == cfg
    ensures StoredWereAvailable(cfg, st, ResolveAll(calls, st))
  {
    if calls != [] {
      var mid := Resolve(cfg, calls[0].abs, {}, st).state;
      SuccessWasAvailable(cfg, calls[0].abs, {}, st);
      EvolvingMoves(st, mid);
      FewerStaySelfFree(cfg, st.factories, Moved(st, mid));
      RunStoresAvailable(cfg, calls[1..], mid);
      StoredInTurn(cfg, st, mid, ResolveAll(calls, st));
    }
  }

  /** Then history does not matter: whatever was resolved before, successfully or not, the same abstracts
      resolve. */
  lemma HistoryDoesNotMatter(cfg: Config, x: TypeId, calls: seq<Call>, st: State)
    requires NoneSelfDependent(cfg, st.factories) && forall k :: k in calls ==> k.cfg == cfg
    ensures Resolve(cfg, x, {}, ResolveAll(calls, st)).result.Ok? <==> Resolve(cfg, x, {}, st).result.Ok?
  {
    var later := ResolveAll(calls, st);
    RunStoresAvailable(cfg, calls, st);
    EvolvingMoves(st, later);
    FewerStaySelfFree(cfg, st.factories, Moved(st, later));
    ResolveSucceedsIff(cfg, x, {}, st);
    ResolveSucceedsIff(cfg, x, {}, later);
    if Available(cfg, later, {}, x) { WasAvailable(cfg, st, later, {}, x); }
    if Available(cfg, st, {}, x) { AvailableStays(cfg, st, later, {}, x); }
  }

  // Without that proviso history can matter

  /** Singleton 1 is class 2, which requires singleton 3 and something unknown; singleton 3 is class 4, which
      requires 1.  Class 1 itself can be built. */
  const Entangled: Config := Config(map[1 := ClassInfo(false, false, []),
                                        2 := ClassInfo(false, false, [Needs(3), Needs(9)]),
                                        4 := ClassInfo(false, false, [Needs(1)])], map[])
  const BothWaiting: State := State(map[], map[1 := 2, 3 := 4], 0, [])

  function Needs(a: TypeId): Param { Param("needed", Some(a), false) }

  /** 3 cannot be resolved at first, but it can after a failed attempt to resolve 1: meanwhile the factory of 1
      was gone, and class 4 got a plain object of class 1. */
  lemma HistoryCanMatter()
    ensures Resolve(Entangled, 3, {}, BothWaiting).result.Err?
    ensures Resolve(Entangled, 1, {}, BothWaiting).result.Err?
    ensures Resolve(Entangled, 3, {}, Resolve(Entangled, 1, {}, BothWaiting).state).result.Ok?
  {
    ThreeFailsAtFirst();
    ThreeIsStoredMeanwhile();
  }

  lemma OneNeed(cfg: Config, owner: TypeId, a: TypeId, resolving: set<TypeId>, st: State, args: seq<Arg>)
    ensures var o, r := ResolveParams(cfg, owner, [Needs(a)], resolving, st, args), Resolve(cfg, a, resolving, st);
            o.state == r.state && (o.result.Ok? <==> r.result.Ok?)
  {
    assert [Needs(a)][1..] == [];
  }

  lemma ThreeFailsAtFirst()
    ensures Resolve(Entangled, 3, {}, BothWaiting).result.Err?
  {
    var st1 := BothWaiting.(factories := BothWaiting.factories - {3});
    var st2 := st1.(factories := st1.factories - {1});
    assert st1.factories == map[1 := 2] && st2.factories == map[];
    assert Resolve(Entangled, 3, {} + {2}, st2).result.Err?;
    assert Resolve(Entangled, 2, {}, st2).result.Err?;
    assert Resolve(Entangled, 1, {} + {4}, st1).result.Err?;
    OneNeed(Entangled, 4, 1, {} + {4}, st1, []);
    assert Resolve(Entangled, 4, {}, st1).result.Err?;
  }

  lemma ThreeSucceedsWithoutOne(st: State)
    requires st.instances == map[] && st.factories == map[3 := 4]
    ensures var o := Resolve(Entangled, 3, {} + {2}, st); o.result.Ok? && 3 in o.state.instances
  {
    var popped := st.(factories := st.factories - {3});
    assert popped.factories == map[];
    assert Resolve(Entangled, 1, {} + {4}, popped).result.Ok?;
    OneNeed(Entangled, 4, 1, {} + {4}, popped, []);
  }

  lemma TwoFailsWithoutOne(st: State)
    requires st.instances == map[] && st.factories == map[3 := 4]
    ensures var o := Resolve(Entangled, 2, {}, st); o.result.Err? && 3 in o.state.instances
  {
    var third := Resolve(Entangled, 3, {} + {2}, st);
    ThreeSucceedsWithoutOne(st);
    var args := [Injected(third.result.value)];
    assert Resolve(Entangled, 9, {} + {2}, third.state) == Outcome(Err(NotAClass(9)), third.state);
    OneNeed(Entangled, 2, 9, {} + {2}, third.state, args);
    assert [Needs(3), Needs(9)][1..] == [Needs(9)] && [] + args == args;
    assert ResolveParams(Entangled, 2, [Needs(3), Needs(9)], {} + {2}, st, [])
           == ResolveParams(Entangled, 2, [Needs(9)], {} + {2}, third.state, args);
  }

  lemma ThreeIsStoredMeanwhile()
    ensures var o := Resolve(Entangled, 1, {}, BothWaiting); o.result.Err? && 3 in o.state.instances
  {
    var popped := BothWaiting.(factories := BothWaiting.factories - {1});
    assert popped.factories == map[3 := 4];
    TwoFailsWithoutOne(popped);
  }
}
