/** Registrations and class singletons over any run of resolutions. */
module Singletons {
  import opened Prelude
  import opened Container

  datatype Lifetime = Transient | Singleton | Scoped
  datatype Registration = Registration(concrete: Option<TypeId>, lifetime: Lifetime, instantiated: bool)

  type Registry = map<TypeId, Registration>

  /** What `registrations()` reports for one abstract: the scope registry takes precedence, then ready
      instances, lazy factories and bindings. */
  function RegistrationOf(bindings: map<TypeId, TypeId>, scoped: map<TypeId, TypeId>, st: State, k: TypeId)
    : Option<Registration>
  {
    if k in scoped then Some(Registration(Some(scoped[k]), Scoped, false))
    else if k in st.instances then Some(Registration(Some(st.instances[k].cls), Singleton, true))
    else if k in st.factories then Some(Registration(None, Singleton, false))
    else if k in bindings then Some(Registration(Some(bindings[k]), Transient, false))
    else None
  }

  function Lookup(regs: Registry, k: TypeId): Option<Registration> {
    if k in regs then Some(regs[k]) else None
  }

  /** `regs` is the whole dictionary. */
  ghost predicate IsRegistrations(regs: Registry, bindings: map<TypeId, TypeId>, scoped: map<TypeId, TypeId>,
                                  st: State)
  {
    forall k :: RegistrationOf(bindings, scoped, st, k) == if k in regs then Some(regs[k]) else None
  }

  /** The same lifetime, and if anything differs it has become instantiated. */
  ghost predicate OnlyInstantiates(before: Option<Registration>, after: Option<Registration>) {
    && (before.None? <==> after.None?)
    && (before.Some? ==>
          && after.value.lifetime == before.value.lifetime
          && (after != before ==> !before.value.instantiated && after.value.instantiated))
  }

  lemma EvolvingKeepsRegistration(bindings: map<TypeId, TypeId>, scoped: map<TypeId, TypeId>,
                                  st: State, st': State, k: TypeId)
    requires Evolves(st, st')
    ensures OnlyInstantiates(RegistrationOf(bindings, scoped, st, k), RegistrationOf(bindings, scoped, st', k))
  {
    assert k in st'.instances <==> k in st.instances || (k in st.factories && k !in st'.factories);
  }

  /** Every run of resolutions, successful or not, keeps every registered abstract and its lifetime,
      and `instantiated` only ever turns true. */
  lemma ResolvingKeepsRegistrations(bindings: map<TypeId, TypeId>, scoped: map<TypeId, TypeId>, calls: seq<Call>,
                                    st: State,
                                    before: Registry, after: Registry)
    requires IsRegistrations(before, bindings, scoped, st)
    requires IsRegistrations(after, bindings, scoped, ResolveAll(calls, st))
    ensures forall k :: OnlyInstantiates(Lookup(before, k), Lookup(after, k))
  {
    forall k ensures OnlyInstantiates(Lookup(before, k), Lookup(after, k)) {
      EvolvingKeepsRegistration(bindings, scoped, st, ResolveAll(calls, st), k);
      assert Lookup(before, k) == RegistrationOf(bindings, scoped, st, k);
    }
  }

  /** `s` contains every abstract that resolving a member of `s` can lead to: the class of its lazy
      factory, and every annotated parameter of its bound class, defaulted ones included. */
  ghost predicate ClosedUnderUse(cfg: Config, factories: map<TypeId, TypeId>, s: iset<TypeId>) {
    forall x :: x in s ==>
      && (x in factories ==> factories[x] in s)
      && ParamsWithin(cfg, ConcreteOf(cfg, x), s)
  }

  ghost predicate ParamsWithin(cfg: Config, c: TypeId, s: iset<TypeId>) {
    c in cfg.classes ==>
      forall p :: p in cfg.classes[c].params && p.annotation.Some? ==> p.annotation.value in s
  }

  /** Building the singleton `a` only uses members of `s`, and `a` is not one of them: it does not
      depend on itself. */
  ghost predicate SelfFree(cfg: Config, factories: map<TypeId, TypeId>, s: iset<TypeId>, a: TypeId) {
    && a in factories && a !in s
    && ClosedUnderUse(cfg, factories, s)
    && (if factories[a] == a then ParamsWithin(cfg, ConcreteOf(cfg, a), s) else factories[a] in s)
  }

  ghost predicate FactoriesFrom(st: State, factories: map<TypeId, TypeId>) {
    forall k :: k in st.factories ==> k in factories && st.factories[k] == factories[k]
  }

  /** Resolving a member of a closed set resolves only members of it, and stores no other singleton. */
  lemma {:induction false} StaysWithin(cfg: Config, factories: map<TypeId, TypeId>, s: iset<TypeId>,
                                       x: TypeId, resolving: set<TypeId>, st: State)
    requires FactoriesFrom(st, factories) && ClosedUnderUse(cfg, factories, s) && x in s
    ensures forall r :: r in Resolve(cfg, x, resolving, st).state.log ==> r in st.log || r.abs in s
    ensures forall m :: m in st.factories && m !in Resolve(cfg, x, resolving, st).state.factories ==> m in s
    decreases st.factories.Keys, cfg.classes.Keys - resolving, 0
  {
    if x in st.instances {
    } else if x in st.factories {
      StaysWithin(cfg, factories, s, st.factories[x], {}, st.(factories := st.factories - {x}));
    } else {
      var c := ConcreteOf(cfg, x);
      if c !in resolving && c in cfg.classes && FullyAnnotated(cfg.classes[c].params) {
        ParamsStayWithin(cfg, factories, s, c, cfg.classes[c].params, resolving + {c}, st, []);
      }
    }
  }

  lemma {:induction false} ParamsStayWithin(cfg: Config, factories: map<TypeId, TypeId>, s: iset<TypeId>,
                                            owner: TypeId, params: seq<Param>, resolving: set<TypeId>,
                                            st: State, args: seq<Arg>)
    requires FactoriesFrom(st, factories) && ClosedUnderUse(cfg, factories, s) && FullyAnnotated(params)
    requires forall p :: p in params ==> p.annotation.value in s
    ensures forall r :: r in ResolveParams(cfg, owner, params, resolving, st, args).state.log ==>
              r in st.log || r.abs in s
    ensures var st' := ResolveParams(cfg, owner, params, resolving, st, args).state;
            forall m :: m in st.factories && m !in st'.factories ==> m in s
    decreases st.factories.Keys, cfg.classes.Keys - resolving, |params|
  {
    if params != [] {
      var r := Resolve(cfg, params[0].annotation.value, resolving, st);
      StaysWithin(cfg, factories, s, params[0].annotation.value, resolving, st);
      if r.result.Ok? {
        ParamsStayWithin(cfg, factories, s, owner, params[1..], resolving, r.state, args + [Injected(r.result.value)]);
      } else if params[0].hasDefault {
        ParamsStayWithin(cfg, factories, s, owner, params[1..], resolving, r.state, args + [DefaultValue]);
      }
    }
  }

  /** `a` is waiting in its factory or stored, and whoever asked for it so far got the stored object. */
  ghost predicate OneObject(a: TypeId, st: State) {
    && (a in st.factories || a in st.instances)
    && forall r :: r in st.log && r.abs == a ==> a in st.instances && r.obj == st.instances[a]
  }

  /** The factory of `a` hands out `a` itself only when `a` is its own class, and then that object. */
  lemma OwnFactoryStaysWithin(cfg: Config, factories: map<TypeId, TypeId>, s: iset<TypeId>, a: TypeId, st: State)
    requires FactoriesFrom(st, factories) && SelfFree(cfg, factories, s, a)
    requires a in st.factories && a !in st.instances
    ensures var o := Resolve(cfg, st.factories[a], {}, st.(factories := st.factories - {a}));
            forall r :: r in o.state.log && r.abs == a ==>
              r in st.log || (o.result.Ok? && r.obj == o.result.value)
  {
    var popped := st.(factories := st.factories - {a});
    if st.factories[a] != a {
      StaysWithin(cfg, factories, s, st.factories[a], {}, popped);
    } else {
      var c := ConcreteOf(cfg, a);
      if c in cfg.classes && FullyAnnotated(cfg.classes[c].params) {
        ParamsStayWithin(cfg, factories, s, c, cfg.classes[c].params, {} + {c}, popped, []);
      }
    }
  }

  lemma {:induction false} ResolveKeepsOneObject(cfg: Config, factories: map<TypeId, TypeId>, s: iset<TypeId>,
                                                 a: TypeId, x: TypeId, resolving: set<TypeId>, st: State)
    requires FactoriesFrom(st, factories) && SelfFree(cfg, factories, s, a) && OneObject(a, st)
    ensures OneObject(a, Resolve(cfg, x, resolving, st).state)
    decreases st.factories.Keys, cfg.classes.Keys - resolving, 0
  {
    if x in st.instances {
    } else if x in st.factories {
      if x != a {
        ResolveKeepsOneObject(cfg, factories, s, a, st.factories[x], {}, st.(factories := st.factories - {x}));
      } else {
        OwnFactoryStaysWithin(cfg, factories, s, a, st);
      }
    } else {
      var c := ConcreteOf(cfg, x);
      if c !in resolving && c in cfg.classes && FullyAnnotated(cfg.classes[c].params) {
        ParamsKeepOneObject(cfg, factories, s, a, c, cfg.classes[c].params, resolving + {c}, st, []);
      }
    }
  }

  lemma {:induction false} ParamsKeepOneObject(cfg: Config, factories: map<TypeId, TypeId>, s: iset<TypeId>,
                                               a: TypeId, owner: TypeId, params: seq<Param>,
                                               resolving: set<TypeId>, st: State, args: seq<Arg>)
    requires FactoriesFrom(st, factories) && SelfFree(cfg, factories, s, a) && OneObject(a, st)
    requires FullyAnnotated(params)
    ensures OneObject(a, ResolveParams(cfg, owner, params, resolving, st, args).state)
    decreases st.factories.Keys, cfg.classes.Keys - resolving, |params|
  {
    if params != [] {
      var r := Resolve(cfg, params[0].annotation.value, resolving, st);
      ResolveKeepsOneObject(cfg, factories, s, a, params[0].annotation.value, resolving, st);
      if r.result.Ok? {
        var args' := args + [Injected(r.result.value)];
        ParamsKeepOneObject(cfg, factories, s, a, owner, params[1..], resolving, r.state, args');
      } else if params[0].hasDefault {
        ParamsKeepOneObject(cfg, factories, s, a, owner, params[1..], resolving, r.state, args + [DefaultValue]);
      }
    }
  }

  /** A top-level `resolve`, with the bindings in force when it is called. */
  datatype Call = Call(cfg: Config, abs: TypeId)

  function ResolveAll(calls: seq<Call>, st: State): (st': State)
    ensures Evolves(st, st')
  {
    if calls == [] then st
    else ResolveAll(calls[1..], Resolve(calls[0].cfg, calls[0].abs, {}, st).state)
  }

  lemma {:induction false} RunKeepsOneObject(calls: seq<Call>, factories: map<TypeId, TypeId>,
                                             s: iset<TypeId>, a: TypeId, st: State)
    requires FactoriesFrom(st, factories) && OneObject(a, st)
    requires forall c :: c in calls ==> SelfFree(c.cfg, factories, s, a)
    ensures OneObject(a, ResolveAll(calls, st))
  {
    if calls != [] {
      var c := calls[0];
      ResolveKeepsOneObject(c.cfg, factories, s, a, c.abs, {}, st);
      RunKeepsOneObject(calls[1..], factories, s, a, Resolve(c.cfg, c.abs, {}, st).state);
    }
  }

  /** A class singleton that does not depend on itself is one object: over any run of resolutions,
      failed ones and rebindings included, everyone who gets it, directly or as an argument, gets
      the same object. */
  lemma SingletonIsOneObject(calls: seq<Call>, s: iset<TypeId>, a: TypeId, st: State, r: Resolved, r': Resolved)
    requires st.log == [] && a in st.factories && a !in st.instances
    requires forall c :: c in calls ==> SelfFree(c.cfg, st.factories, s, a)
    requires r in ResolveAll(calls, st).log && r' in ResolveAll(calls, st).log
    requires r.abs == a && r'.abs == a
    ensures r.obj == r'.obj
  {
    RunKeepsOneObject(calls, st.factories, s, a, st);
  }

  /** `rank` falls along every edge of the constructor graph, so the graph has no cycle. */
  ghost predicate Ranked(cfg: Config, factories: map<TypeId, TypeId>, rank: TypeId -> nat) {
    forall x: TypeId ::
      && (x in factories && factories[x] != x ==> rank(factories[x]) < rank(x))
      && (var c := ConcreteOf(cfg, x);
          c in cfg.classes ==> forall p :: p in cfg.classes[c].params && p.annotation.Some? ==>
            rank(p.annotation.value) < rank(x))
  }

  /** On an acyclic constructor graph no singleton depends on itself, so all of them are single. */
  lemma AcyclicSingletonsAreSingle(calls: seq<Call>, rank: TypeId -> nat, a: TypeId, st: State, r: Resolved,
                                   r': Resolved)
    requires st.log == [] && a in st.factories && a !in st.instances
    requires forall c :: c in calls ==> Ranked(c.cfg, st.factories, rank)
    requires r in ResolveAll(calls, st).log && r' in ResolveAll(calls, st).log
    requires r.abs == a && r'.abs == a
    ensures r.obj == r'.obj
  {
    var s := iset x: TypeId | rank(x) < rank(a);
    forall c | c in calls ensures SelfFree(c.cfg, st.factories, s, a) {
      assert Ranked(c.cfg, st.factories, rank);
      forall x | x in s
        ensures (x in st.factories ==> st.factories[x] in s) && ParamsWithin(c.cfg, ConcreteOf(c.cfg, x), s) {}
      assert ClosedUnderUse(c.cfg, st.factories, s);
    }
    SingletonIsOneObject(calls, s, a, st, r, r');
  }

  /** What `registrations()` reports is what a resolution does: an instance is handed out, a waiting singleton
      becomes one, and anything else is built anew of the class reported, or of itself. */
  lemma RegistrationTellsResolution(cfg: Config, a: TypeId, st: State)
    requires Resolve(cfg, a, {}, st).result.Ok?
    ensures var obj, st' := Resolve(cfg, a, {}, st).result.value, Resolve(cfg, a, {}, st).state;
            var after := RegistrationOf(cfg.bindings, map[], st', a);
            match RegistrationOf(cfg.bindings, map[], st, a)
            case Some(Registration(concrete, Singleton, true)) =>
              concrete == Some(obj.cls) && st' == st.(log := st.log + [Resolved(a, obj)]) && obj == st.instances[a]
            case Some(Registration(_, Singleton, false)) =>
              after == Some(Registration(Some(obj.cls), Singleton, true)) && st'.instances[a] == obj
            case Some(Registration(concrete, _, _)) => concrete == Some(obj.cls) && st.nextId <= obj.id < st'.nextId
            case None => obj.cls == a && st.nextId <= obj.id < st'.nextId
  {}
}
