/** Which registrations can be built: the least fixed point, and the proof that the recursive
    solver with its `resolving` set decides it.

    Everything here is about transient bindings and ready instances: no class singleton is
    waiting (`factories == map[]`). */
module Constructible {
  import opened Prelude
  import opened Container

  /** `a` can be built by a construction at most `n` deep that uses no class in `blocked`. */
  ghost predicate BuildableIn(cfg: Config, ready: set<TypeId>, blocked: set<TypeId>, n: nat, a: TypeId)
    decreases n, 1
  {
    a in ready || ClassBuildableIn(cfg, ready, blocked, n, ConcreteOf(cfg, a))
  }

  ghost predicate ClassBuildableIn(cfg: Config, ready: set<TypeId>, blocked: set<TypeId>, n: nat, c: TypeId)
    decreases n, 0
  {
    && n > 0
    && Instantiable(cfg, blocked, c)
    && forall p :: p in cfg.classes[c].params && !p.hasDefault ==>
         BuildableIn(cfg, ready, blocked, n - 1, p.annotation.value)
  }

  /** A non-abstract, fully annotated class outside `blocked`. */
  ghost predicate Instantiable(cfg: Config, blocked: set<TypeId>, c: TypeId) {
    && c in cfg.classes && c !in blocked
    && !cfg.classes[c].isAbstract && FullyAnnotated(cfg.classes[c].params)
  }

  ghost predicate IsConstructible(cfg: Config, ready: set<TypeId>, blocked: set<TypeId>, a: TypeId) {
    exists n: nat :: BuildableIn(cfg, ready, blocked, n, a)
  }

  /** Every required parameter satisfies `IsConstructible`. */
  ghost predicate AllConstructible(cfg: Config, ready: set<TypeId>, blocked: set<TypeId>, params: seq<Param>)
    requires FullyAnnotated(params)
  {
    forall p :: p in params && !p.hasDefault ==> IsConstructible(cfg, ready, blocked, p.annotation.value)
  }

  lemma {:induction false} DeeperStillBuilds(cfg: Config, ready: set<TypeId>, blocked: set<TypeId>,
                                             m: nat, n: nat, a: TypeId)
    requires m <= n && BuildableIn(cfg, ready, blocked, m, a)
    ensures BuildableIn(cfg, ready, blocked, n, a)
    decreases m
  {
    if a !in ready {
      var c := ConcreteOf(cfg, a);
      forall p | p in cfg.classes[c].params && !p.hasDefault
        ensures BuildableIn(cfg, ready, blocked, n - 1, p.annotation.value)
      {
        DeeperStillBuilds(cfg, ready, blocked, m - 1, n - 1, p.annotation.value);
      }
    }
  }

  /** One depth serves all the parameters of a class. */
  lemma {:induction false} CommonDepth(cfg: Config, ready: set<TypeId>, blocked: set<TypeId>, params: seq<Param>)
    returns (n: nat)
    requires FullyAnnotated(params) && AllConstructible(cfg, ready, blocked, params)
    ensures forall p :: p in params && !p.hasDefault ==> BuildableIn(cfg, ready, blocked, n, p.annotation.value)
  {
    if params == [] {
      n := 0;
    } else {
      var rest := CommonDepth(cfg, ready, blocked, params[1..]);
      var first: nat := 0;
      if !params[0].hasDefault {
        assert params[0] in params;
        first :| BuildableIn(cfg, ready, blocked, first, params[0].annotation.value);
      }
      n := if first > rest then first else rest;
      forall p | p in params && !p.hasDefault ensures BuildableIn(cfg, ready, blocked, n, p.annotation.value) {
        if p == params[0] {
          DeeperStillBuilds(cfg, ready, blocked, first, n, p.annotation.value);
        } else {
          assert p in params[1..];
          DeeperStillBuilds(cfg, ready, blocked, rest, n, p.annotation.value);
        }
      }
    }
  }

  /** `IsConstructible` is a fixed point of the rule. */
  lemma ConstructibleUnfolds(cfg: Config, ready: set<TypeId>, blocked: set<TypeId>, a: TypeId)
    ensures IsConstructible(cfg, ready, blocked, a) <==>
            a in ready || var c := ConcreteOf(cfg, a);
                          Instantiable(cfg, blocked, c) && AllConstructible(cfg, ready, blocked, cfg.classes[c].params)
  {
    var c := ConcreteOf(cfg, a);
    if a in ready {
      assert BuildableIn(cfg, ready, blocked, 0, a);
    } else if IsConstructible(cfg, ready, blocked, a) {
      var n: nat :| BuildableIn(cfg, ready, blocked, n, a);
      assert ClassBuildableIn(cfg, ready, blocked, n, c);
    } else if Instantiable(cfg, blocked, c) && AllConstructible(cfg, ready, blocked, cfg.classes[c].params) {
      var n := CommonDepth(cfg, ready, blocked, cfg.classes[c].params);
      assert BuildableIn(cfg, ready, blocked, n + 1, a);
    }
  }

  /** A set closed under the rule. */
  ghost predicate ClosedUnderRule(cfg: Config, ready: set<TypeId>, blocked: set<TypeId>, s: iset<TypeId>) {
    forall a: TypeId ::
      (a in ready || (var c := ConcreteOf(cfg, a);
                      Instantiable(cfg, blocked, c) &&
                      forall p :: p in cfg.classes[c].params && !p.hasDefault ==> p.annotation.value in s))
      ==> a in s
  }

  /** `IsConstructible` is the least such set. */
  lemma {:induction false} ConstructibleIsLeast(cfg: Config, ready: set<TypeId>, blocked: set<TypeId>,
                                                s: iset<TypeId>, n: nat, a: TypeId)
    requires ClosedUnderRule(cfg, ready, blocked, s)
    requires BuildableIn(cfg, ready, blocked, n, a)
    ensures a in s
    decreases n
  {
    if a !in ready {
      var c := ConcreteOf(cfg, a);
      forall p | p in cfg.classes[c].params && !p.hasDefault ensures p.annotation.value in s {
        ConstructibleIsLeast(cfg, ready, blocked, s, n - 1, p.annotation.value);
      }
    }
  }

  /** Blocking more classes never makes more constructible. */
  lemma {:induction false} BlockingIsMonotone(cfg: Config, ready: set<TypeId>, blocked: set<TypeId>,
                                              c: TypeId, n: nat, a: TypeId)
    requires BuildableIn(cfg, ready, blocked + {c}, n, a)
    ensures BuildableIn(cfg, ready, blocked, n, a)
    decreases n
  {
    if a !in ready {
      var d := ConcreteOf(cfg, a);
      forall p | p in cfg.classes[d].params && !p.hasDefault
        ensures BuildableIn(cfg, ready, blocked, n - 1, p.annotation.value)
      {
        BlockingIsMonotone(cfg, ready, blocked, c, n - 1, p.annotation.value);
      }
    }
  }

  /** A class that cannot be built in `n` levels is not used by anything that can. */
  lemma {:induction false} BlockingTooDeepIsHarmless(cfg: Config, ready: set<TypeId>, blocked: set<TypeId>,
                                                     c: TypeId, n: nat, a: TypeId)
    requires !ClassBuildableIn(cfg, ready, blocked, n, c)
    requires BuildableIn(cfg, ready, blocked, n, a)
    ensures BuildableIn(cfg, ready, blocked + {c}, n, a)
    decreases n
  {
    if a !in ready {
      var d := ConcreteOf(cfg, a);
      forall p | p in cfg.classes[d].params && !p.hasDefault
        ensures BuildableIn(cfg, ready, blocked + {c}, n - 1, p.annotation.value)
      {
        if ClassBuildableIn(cfg, ready, blocked, n - 1, c) {
          ClassDeeper(cfg, ready, blocked, n - 1, c);
        }
        BlockingTooDeepIsHarmless(cfg, ready, blocked, c, n - 1, p.annotation.value);
      }
    }
  }

  lemma ClassDeeper(cfg: Config, ready: set<TypeId>, blocked: set<TypeId>, n: nat, c: TypeId)
    requires ClassBuildableIn(cfg, ready, blocked, n, c)
    ensures ClassBuildableIn(cfg, ready, blocked, n + 1, c)
  {
    forall p | p in cfg.classes[c].params && !p.hasDefault
      ensures BuildableIn(cfg, ready, blocked, n, p.annotation.value)
    {
      DeeperStillBuilds(cfg, ready, blocked, n - 1, n, p.annotation.value);
    }
  }

  /** The shallowest depth at which a class can be built. */
  lemma {:induction false} Shallowest(cfg: Config, ready: set<TypeId>, blocked: set<TypeId>, n: nat, c: TypeId)
    returns (m: nat)
    requires ClassBuildableIn(cfg, ready, blocked, n, c)
    ensures 0 < m && ClassBuildableIn(cfg, ready, blocked, m, c) && !ClassBuildableIn(cfg, ready, blocked, m - 1, c)
  {
    if ClassBuildableIn(cfg, ready, blocked, n - 1, c) {
      m := Shallowest(cfg, ready, blocked, n - 1, c);
    } else {
      m := n;
    }
  }

  /** Adding the class under construction to `resolving` loses nothing its own parameters need:
      the parameters of `c` are constructible exactly when they are without `c` itself. */
  lemma OwnClassIsNotNeeded(cfg: Config, ready: set<TypeId>, blocked: set<TypeId>, c: TypeId)
    requires Instantiable(cfg, blocked, c)
    ensures AllConstructible(cfg, ready, blocked, cfg.classes[c].params) <==>
            AllConstructible(cfg, ready, blocked + {c}, cfg.classes[c].params)
  {
    var params := cfg.classes[c].params;
    if AllConstructible(cfg, ready, blocked, params) {
      var n := CommonDepth(cfg, ready, blocked, params);
      var m := Shallowest(cfg, ready, blocked, n + 1, c);
      forall p | p in params && !p.hasDefault
        ensures IsConstructible(cfg, ready, blocked + {c}, p.annotation.value)
      {
        BlockingTooDeepIsHarmless(cfg, ready, blocked, c, m - 1, p.annotation.value);
      }
    }
    if AllConstructible(cfg, ready, blocked + {c}, params) {
      forall p | p in params && !p.hasDefault
        ensures IsConstructible(cfg, ready, blocked, p.annotation.value)
      {
        var n: nat :| BuildableIn(cfg, ready, blocked + {c}, n, p.annotation.value);
        BlockingIsMonotone(cfg, ready, blocked, c, n, p.annotation.value);
      }
    }
  }

  /** The solver decides the least fixed point, at the top level and inside any construction:
      `_resolve` with a `resolving` set succeeds exactly on what can be built without the classes
      in it, and leaves the instances as they were. */
  lemma {:induction false} ResolveDecides(cfg: Config, a: TypeId, resolving: set<TypeId>, st: State)
    requires st.factories == map[]
    ensures var o := Resolve(cfg, a, resolving, st);
            && (o.result.Ok? <==> IsConstructible(cfg, st.instances.Keys, resolving, a))
            && o.state.instances == st.instances && o.state.factories == map[]
    decreases cfg.classes.Keys - resolving, 0
  {
    var ready := st.instances.Keys;
    var c := ConcreteOf(cfg, a);
    ConstructibleUnfolds(cfg, ready, resolving, a);
    if a !in ready && Instantiable(cfg, resolving, c) {
      OwnClassIsNotNeeded(cfg, ready, resolving, c);
      ParamsDecide(cfg, c, cfg.classes[c].params, resolving + {c}, st, []);
    }
  }

  lemma {:induction false} ParamsDecide(cfg: Config, owner: TypeId, params: seq<Param>, resolving: set<TypeId>,
                                        st: State, args: seq<Arg>)
    requires st.factories == map[] && FullyAnnotated(params)
    ensures var o := ResolveParams(cfg, owner, params, resolving, st, args);
            && (o.result.Ok? <==> AllConstructible(cfg, st.instances.Keys, resolving, params))
            && o.state.instances == st.instances && o.state.factories == map[]
    decreases cfg.classes.Keys - resolving, |params|
  {
    if params != [] {
      var r := Resolve(cfg, params[0].annotation.value, resolving, st);
      ResolveDecides(cfg, params[0].annotation.value, resolving, st);
      assert forall p :: p in params <==> p == params[0] || p in params[1..];
      if r.result.Ok? {
        ParamsDecide(cfg, owner, params[1..], resolving, r.state, args + [Injected(r.result.value)]);
      } else if params[0].hasDefault {
        ParamsDecide(cfg, owner, params[1..], resolving, r.state, args + [DefaultValue]);
      }
    }
  }

  /** `obj` is what the registrations say `a` is: the ready instance, or an object of the bound class
      whose arguments are wired the same way.  A default stands only where the parameter has one and
      could not be built. */
  ghost predicate Wired(cfg: Config, ready: map<TypeId, Obj>, resolving: set<TypeId>, a: TypeId, obj: Obj)
    decreases obj
  {
    if a in ready then obj == ready[a]
    else
      var c := ConcreteOf(cfg, a);
      && Instantiable(cfg, resolving, c) && obj.cls == c
      && |obj.args| == |cfg.classes[c].params|
      && forall i :: 0 <= i < |obj.args| ==>
           ArgWired(cfg, ready, resolving + {c}, cfg.classes[c].params[i], obj.args[i])
  }

  ghost predicate ArgWired(cfg: Config, ready: map<TypeId, Obj>, resolving: set<TypeId>, p: Param, arg: Arg)
    requires p.annotation.Some?
    decreases arg
  {
    match arg
    case Injected(x) => Wired(cfg, ready, resolving, p.annotation.value, x)
    case DefaultValue => p.hasDefault && !IsConstructible(cfg, ready.Keys, resolving, p.annotation.value)
  }

  /** What a successful resolution returns. */
  lemma {:induction false} ResolveWires(cfg: Config, a: TypeId, resolving: set<TypeId>, st: State)
    requires st.factories == map[] && Resolve(cfg, a, resolving, st).result.Ok?
    ensures Wired(cfg, st.instances, resolving, a, Resolve(cfg, a, resolving, st).result.value)
    decreases cfg.classes.Keys - resolving, 0
  {
    if a !in st.instances {
      var c := ConcreteOf(cfg, a);
      ParamsWire(cfg, c, cfg.classes[c].params, 0, resolving + {c}, st, []);
    }
  }

  lemma {:induction false} ParamsWire(cfg: Config, owner: TypeId, params: seq<Param>, done: nat,
                                      resolving: set<TypeId>, st: State, args: seq<Arg>)
    requires st.factories == map[] && FullyAnnotated(params) && done == |args| <= |params|
    requires forall i :: 0 <= i < done ==> ArgWired(cfg, st.instances, resolving, params[i], args[i])
    ensures var o := ResolveParams(cfg, owner, params[done..], resolving, st, args);
            o.result.Ok? ==>
              && |o.result.value| == |params|
              && forall i :: 0 <= i < |params| ==> ArgWired(cfg, st.instances, resolving, params[i], o.result.value[i])
    decreases cfg.classes.Keys - resolving, |params| - done
  {
    if done < |params| {
      var p := params[done];
      var r := Resolve(cfg, p.annotation.value, resolving, st);
      ResolveDecides(cfg, p.annotation.value, resolving, st);
      assert params[done..][1..] == params[done + 1..];
      if r.result.Ok? {
        ResolveWires(cfg, p.annotation.value, resolving, st);
        ParamsWire(cfg, owner, params, done + 1, resolving, r.state, args + [Injected(r.result.value)]);
      } else if p.hasDefault {
        ParamsWire(cfg, owner, params, done + 1, resolving, r.state, args + [DefaultValue]);
      }
    }
  }
}
