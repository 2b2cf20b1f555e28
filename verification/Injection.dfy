/** What constructors receive, for every state of the stores: with class singletons waiting, being built
    and stored. */
module Injection {
  import opened Prelude
  import opened Container
  import opened Constructible
  import opened Singletons

  /** The stores before each parameter that the argument loop tries, and after the last: `stages[i + 1]` is
      what resolving the annotation of parameter `i` leaves of `stages[i]`. */
  ghost predicate InTurn(cfg: Config, params: seq<Param>, resolving: set<TypeId>, stages: seq<State>)
    requires FullyAnnotated(params)
  {
    && 1 <= |stages| <= |params| + 1
    && forall i :: 0 <= i < |stages| - 1 ==>
         stages[i + 1] == Resolve(cfg, params[i].annotation.value, resolving, stages[i]).state
  }

  /** What a parameter gets: the object its annotation resolves to there, or its default if that fails. */
  ghost predicate IsArgument(cfg: Config, p: Param, resolving: set<TypeId>, st: State, arg: Arg)
    requires p.annotation.Some?
  {
    match Resolve(cfg, p.annotation.value, resolving, st).result
    case Ok(obj) => arg == Injected(obj)
    case Err(_) => p.hasDefault && arg == DefaultValue
  }

  /** The loop stopped at the last stage but one, on the first parameter that can neither be resolved nor
      has a default, and names it. */
  ghost predicate StoppedWith(cfg: Config, owner: TypeId, params: seq<Param>, resolving: set<TypeId>,
                              stages: seq<State>, e: Error)
    requires FullyAnnotated(params) && |stages| <= |params| + 1
  {
    var i := |stages| - 2;
    && i >= 0 && !params[i].hasDefault
    && (forall j :: 0 <= j < i ==>
          params[j].hasDefault || Resolve(cfg, params[j].annotation.value, resolving, stages[j]).result.Ok?)
    && var r := Resolve(cfg, params[i].annotation.value, resolving, stages[i]).result;
       r.Err? && e == Unresolved(params[i].name, owner, r.error)
  }

  /** The arguments found so far, each at its stage. */
  ghost predicate AreArguments(cfg: Config, params: seq<Param>, resolving: set<TypeId>, stages: seq<State>,
                               args: seq<Arg>)
    requires FullyAnnotated(params)
  {
    && InTurn(cfg, params, resolving, stages) && |stages| == |args| + 1
    && forall i :: 0 <= i < |args| ==> IsArgument(cfg, params[i], resolving, stages[i], args[i])
  }

  lemma OneMoreArgument(cfg: Config, params: seq<Param>, resolving: set<TypeId>, stages: seq<State>, args: seq<Arg>,
                        arg: Arg)
    requires FullyAnnotated(params) && AreArguments(cfg, params, resolving, stages, args) && |args| < |params|
    requires IsArgument(cfg, params[|args|], resolving, stages[|args|], arg)
    ensures var p := params[|args|];
            var next := Resolve(cfg, p.annotation.value, resolving, stages[|args|]).state;
            AreArguments(cfg, params, resolving, stages + [next], args + [arg])
  {}

  /** How the loop ends: with an argument for every parameter, or stopped. */
  ghost predicate IsLoop(cfg: Config, owner: TypeId, params: seq<Param>, resolving: set<TypeId>, stages: seq<State>,
                         o: Outcome<seq<Arg>>)
    requires FullyAnnotated(params)
  {
    && InTurn(cfg, params, resolving, stages) && o.state == stages[|stages| - 1]
    && match o.result
       case Ok(args) => |args| == |params| && AreArguments(cfg, params, resolving, stages, args)
       case Err(e) => StoppedWith(cfg, owner, params, resolving, stages, e)
  }

  lemma StopsThere(cfg: Config, owner: TypeId, params: seq<Param>, resolving: set<TypeId>, stages: seq<State>,
                   args: seq<Arg>)
    requires FullyAnnotated(params) && AreArguments(cfg, params, resolving, stages, args) && |args| < |params|
    requires !params[|args|].hasDefault
    requires Resolve(cfg, params[|args|].annotation.value, resolving, stages[|args|]).result.Err?
    ensures var p := params[|args|];
            var r := Resolve(cfg, p.annotation.value, resolving, stages[|args|]);
            IsLoop(cfg, owner, params, resolving, stages + [r.state],
                   Outcome(Err(Unresolved(p.name, owner, r.result.error)), r.state))
  {
    assert forall j :: 0 <= j < |args| ==> IsArgument(cfg, params[j], resolving, stages[j], args[j]);
  }

  /** The argument loop takes the parameters in order, each in the state the one before has left. */
  lemma {:induction false} ArgumentsInTurn(cfg: Config, owner: TypeId, params: seq<Param>, resolving: set<TypeId>,
                                           before: seq<State>, args: seq<Arg>)
    returns (stages: seq<State>)
    requires FullyAnnotated(params) && AreArguments(cfg, params, resolving, before, args)
    ensures before <= stages
    ensures IsLoop(cfg, owner, params, resolving, stages,
                   ResolveParams(cfg, owner, params[|args|..], resolving, before[|args|], args))
    decreases |params| - |args|
  {
    stages := before;
    if |args| < |params| {
      var p := params[|args|];
      var r := Resolve(cfg, p.annotation.value, resolving, before[|args|]);
      assert params[|args|..][1..] == params[|args| + 1..];
      if r.result.Ok? || p.hasDefault {
        var arg := if r.result.Ok? then Injected(r.result.value) else DefaultValue;
        OneMoreArgument(cfg, params, resolving, before, args, arg);
        stages := ArgumentsInTurn(cfg, owner, params, resolving, before + [r.state], args + [arg]);
      } else {
        StopsThere(cfg, owner, params, resolving, before, args);
        stages := before + [r.state];
      }
    }
  }

  lemma {:induction false} StagesEvolve(cfg: Config, params: seq<Param>, resolving: set<TypeId>, stages: seq<State>,
                                        i: nat, j: nat)
    requires FullyAnnotated(params) && InTurn(cfg, params, resolving, stages) && i <= j < |stages|
    ensures Evolves(stages[i], stages[j])
    decreases j
  {
    if i < j { StagesEvolve(cfg, params, resolving, stages, i, j - 1); }
  }

  /** What a constructor receives.  The object built is of the bound class, with a new identity and one
      argument for each parameter: what its annotation resolved to in its turn, and its default only when
      that failed.  The argument for a singleton, waiting or stored, is the object stored in the end. */
  lemma ConstructorReceives(cfg: Config, a: TypeId, resolving: set<TypeId>, st: State) returns (stages: seq<State>)
    requires a !in st.instances && a !in st.factories && Resolve(cfg, a, resolving, st).result.Ok?
    ensures Instantiable(cfg, resolving, ConcreteOf(cfg, a))
    ensures var c := ConcreteOf(cfg, a);
            var o, params := Resolve(cfg, a, resolving, st), cfg.classes[c].params;
            var obj := o.result.value;
      && obj.cls == c && st.nextId <= obj.id < o.state.nextId && |obj.args| == |params|
      && stages != [] && stages[0] == st && AreArguments(cfg, params, resolving + {c}, stages, obj.args)
      && forall i :: 0 <= i < |params| && obj.args[i].Injected? ==>
           IsStored(params[i].annotation.value, obj.args[i].obj, st, o.state)
  {
    var c := ConcreteOf(cfg, a);
    var params, o := cfg.classes[c].params, Resolve(cfg, a, resolving, st);
    var r := ResolveParams(cfg, c, params, resolving + {c}, st, []);
    assert params[0..] == params && r.result == Ok(o.result.value.args);
    stages := ArgumentsInTurn(cfg, c, params, resolving + {c}, [st], []);
    forall i | 0 <= i < |params| && o.result.value.args[i].Injected?
      ensures IsStored(params[i].annotation.value, o.result.value.args[i].obj, st, o.state)
    {
      ArgumentIsStored(cfg, params, resolving + {c}, stages, r.result.value, i);
    }
  }

  /** If `b` is a singleton before, `x` is the object stored for it after. */
  ghost predicate IsStored(b: TypeId, x: Obj, before: State, after: State) {
    b in before.instances || b in before.factories ==> b in after.instances && after.instances[b] == x
  }

  lemma ArgumentIsStored(cfg: Config, params: seq<Param>, resolving: set<TypeId>, stages: seq<State>, args: seq<Arg>,
                         i: nat)
    requires FullyAnnotated(params) && AreArguments(cfg, params, resolving, stages, args)
    requires i < |args| && args[i].Injected?
    ensures IsStored(params[i].annotation.value, args[i].obj, stages[0], stages[|args|])
  {
    StagesEvolve(cfg, params, resolving, stages, 0, i);
    StagesEvolve(cfg, params, resolving, stages, i + 1, |args|);
    assert IsArgument(cfg, params[i], resolving, stages[i], args[i]);
  }

  // Whole runs

  /** `obj` was built for `a`: its class is the bound one, and each argument is an object that `earlier` says
      was handed out for the annotation, or a default the parameter has. */
  ghost predicate IsBuilt(cfg: Config, a: TypeId, obj: Obj, earlier: seq<Resolved>) {
    var c := ConcreteOf(cfg, a);
    && Instantiable(cfg, {}, c) && obj.cls == c && |obj.args| == |cfg.classes[c].params|
    && forall i :: 0 <= i < |obj.args| ==> HasSource(cfg.classes[c].params[i], obj.args[i], earlier)
  }

  ghost predicate HasSource(p: Param, arg: Arg, earlier: seq<Resolved>)
    requires p.annotation.Some?
  {
    match arg
    case Injected(x) => Resolved(p.annotation.value, x) in earlier
    case DefaultValue => p.hasDefault
  }

  /** Why the i-th object was handed out: it is the instance there was from the start, what the class of a
      waiting singleton had been resolved to, or it was built. */
  ghost predicate Explained(cfg: Config, start: State, log: seq<Resolved>, i: nat)
    requires i < |log|
  {
    var a, obj, earlier := log[i].abs, log[i].obj, log[..i];
    if a in start.instances then obj == start.instances[a]
    else (a in start.factories && Resolved(start.factories[a], obj) in earlier) || IsBuilt(cfg, a, obj, earlier)
  }

  /** Everything handed out or stored since `start` is explained. */
  ghost predicate AllExplained(cfg: Config, start: State, st: State) {
    && start.log <= st.log && FactoriesFrom(st, start.factories)
    && (forall k :: k in start.instances ==> k in st.instances && st.instances[k] == start.instances[k])
    && (forall k :: k in st.instances && k !in start.instances ==>
          k in start.factories && Resolved(start.factories[k], st.instances[k]) in st.log)
    && forall i :: |start.log| <= i < |st.log| ==> Explained(cfg, start, st.log, i)
  }

  /** One more explained entry keeps all explained. */
  lemma OneMoreExplained(cfg: Config, start: State, st: State, a: TypeId, obj: Obj)
    requires AllExplained(cfg, start, st)
    requires if a in start.instances then obj == start.instances[a]
             else (a in start.factories && Resolved(start.factories[a], obj) in st.log) || IsBuilt(cfg, a, obj, st.log)
    ensures AllExplained(cfg, start, st.(log := st.log + [Resolved(a, obj)]))
  {
    var log := st.log + [Resolved(a, obj)];
    assert log[..|st.log|] == st.log;
    forall i | |start.log| <= i < |log| ensures Explained(cfg, start, log, i) {
      if i < |st.log| {
        assert Explained(cfg, start, st.log, i) && log[i] == st.log[i] && log[..i] == st.log[..i];
      }
    }
  }

  lemma {:induction false} ResolveExplains(cfg: Config, start: State, a: TypeId, resolving: set<TypeId>, st: State)
    requires AllExplained(cfg, start, st)
    ensures AllExplained(cfg, start, Resolve(cfg, a, resolving, st).state)
    decreases st.factories.Keys, cfg.classes.Keys - resolving, 0
  {
    var after := Resolve(cfg, a, resolving, st).state;
    if a in st.instances {
      OneMoreExplained(cfg, start, st, a, st.instances[a]);
    } else if a in st.factories {
      var popped := st.(factories := st.factories - {a});
      var o := Resolve(cfg, st.factories[a], {}, popped);
      ResolveExplains(cfg, start, st.factories[a], {}, popped);
      if o.result.Ok? {
        OneMoreExplained(cfg, start, o.state.(instances := o.state.instances[a := o.result.value]), a, o.result.value);
      }
    } else {
      var c := ConcreteOf(cfg, a);
      if Instantiable(cfg, resolving, c) {
        var params := cfg.classes[c].params;
        assert params[0..] == params;
        ParamsExplain(cfg, start, c, params, 0, resolving + {c}, st, []);
        var o := ResolveParams(cfg, c, params, resolving + {c}, st, []);
        if o.result.Ok? {
          var obj := Obj(o.state.nextId, c, o.result.value);
          assert IsBuilt(cfg, a, obj, o.state.log);
          OneMoreExplained(cfg, start, o.state.(nextId := o.state.nextId + 1), a, obj);
        }
      }
    }
  }

  lemma {:induction false} ParamsExplain(cfg: Config, start: State, owner: TypeId, params: seq<Param>, done: nat,
                                         resolving: set<TypeId>, st: State, args: seq<Arg>)
    requires AllExplained(cfg, start, st) && FullyAnnotated(params) && done == |args| <= |params|
    requires forall i :: 0 <= i < done ==> HasSource(params[i], args[i], st.log)
    ensures var o := ResolveParams(cfg, owner, params[done..], resolving, st, args);
      && AllExplained(cfg, start, o.state)
      && (o.result.Ok? ==>
            && |o.result.value| == |params|
            && forall i :: 0 <= i < |params| ==> HasSource(params[i], o.result.value[i], o.state.log))
    decreases st.factories.Keys, cfg.classes.Keys - resolving, |params| - done
  {
    if done < |params| {
      var p := params[done];
      var r := Resolve(cfg, p.annotation.value, resolving, st);
      ResolveExplains(cfg, start, p.annotation.value, resolving, st);
      assert params[done..][1..] == params[done + 1..];
      if r.result.Ok? || p.hasDefault {
        var arg := if r.result.Ok? then Injected(r.result.value) else DefaultValue;
        assert HasSource(p, arg, r.state.log);
        ParamsExplain(cfg, start, owner, params, done + 1, resolving, r.state, args + [arg]);
      }
    }
  }

  /** Over a run of resolutions, failed ones included, every object handed out is explained, arguments of
      arguments included. */
  lemma {:induction false} EveryObjectIsExplained(cfg: Config, start: State, calls: seq<Call>, st: State)
    requires AllExplained(cfg, start, st) && forall k :: k in calls ==> k.cfg == cfg
    ensures AllExplained(cfg, start, ResolveAll(calls, st))
  {
    if calls != [] {
      ResolveExplains(cfg, start, calls[0].abs, {}, st);
      EveryObjectIsExplained(cfg, start, calls[1..], Resolve(cfg, calls[0].abs, {}, st).state);
    }
  }

  lemma NothingToExplain(cfg: Config, start: State)
    ensures AllExplained(cfg, start, start)
  {}

  // Errors

  /** `e` says truly why `x` cannot be resolved: each `Unresolved` names a required parameter of the class
      that stands for the abstract above it, and the innermost error is a real obstacle. */
  ghost predicate TrueError(cfg: Config, ready: set<TypeId>, waiting: map<TypeId, TypeId>, resolving: set<TypeId>,
                            x: TypeId, e: Error)
    decreases e, waiting.Keys
  {
    x !in ready &&
    if x in waiting then TrueError(cfg, ready, waiting - {x}, {}, waiting[x], e)
    else
      var c := ConcreteOf(cfg, x);
      match e
      case Circular(d) => d == c && c in resolving
      case NotAClass(y) => y == x && c !in cfg.classes
      case AbstractClass(d) => d == c && c in cfg.classes && cfg.classes[c].isAbstract
      case MissingHint(name, d) =>
        && d == c && c in cfg.classes
        && exists i :: 0 <= i < |cfg.classes[c].params| && cfg.classes[c].params[i].annotation.None?
                       && cfg.classes[c].params[i].name == name && FullyAnnotated(cfg.classes[c].params[..i])
      case Unresolved(name, d, cause) =>
        && d == c && Instantiable(cfg, resolving, c)
        && exists p :: p in cfg.classes[c].params && p.name == name && !p.hasDefault
                       && TrueError(cfg, ready, waiting, resolving + {c}, p.annotation.value, cause)
  }

  /** An error stays true of the state before: what has been stored since is not on its way. */
  lemma {:induction false} ErrorWasTrue(cfg: Config, ready: set<TypeId>, waiting: map<TypeId, TypeId>,
                                        moved: set<TypeId>, resolving: set<TypeId>, x: TypeId, e: Error)
    requires TrueError(cfg, ready + moved, waiting - moved, resolving, x, e)
    ensures TrueError(cfg, ready, waiting, resolving, x, e)
    decreases e, waiting.Keys
  {
    if x in waiting {
      assert waiting - moved - {x} == waiting - {x} - moved;
      ErrorWasTrue(cfg, ready, waiting - {x}, moved, {}, waiting[x], e);
    } else if e.Unresolved? {
      var c := ConcreteOf(cfg, x);
      var p :| p in cfg.classes[c].params && p.name == e.param && !p.hasDefault
               && TrueError(cfg, ready + moved, waiting - moved, resolving + {c}, p.annotation.value, e.cause);
      ErrorWasTrue(cfg, ready, waiting, moved, resolving + {c}, p.annotation.value, e.cause);
    }
  }

  /** What has been stored between two states. */
  ghost function Moved(st: State, st': State): set<TypeId> { st.factories.Keys - st'.factories.Keys }

  lemma EvolvingMoves(st: State, st': State)
    requires Evolves(st, st')
    ensures st'.instances.Keys == st.instances.Keys + Moved(st, st')
    ensures st'.factories == st.factories - Moved(st, st')
  {}

  lemma {:induction false} ErrorsAreTrue(cfg: Config, x: TypeId, resolving: set<TypeId>, st: State)
    ensures var r := Resolve(cfg, x, resolving, st).result;
            r.Err? ==> TrueError(cfg, st.instances.Keys, st.factories, resolving, x, r.error)
    decreases st.factories.Keys, cfg.classes.Keys - resolving, 0
  {
    if x in st.instances {
    } else if x in st.factories {
      ErrorsAreTrue(cfg, st.factories[x], {}, st.(factories := st.factories - {x}));
    } else {
      var c := ConcreteOf(cfg, x);
      if Instantiable(cfg, resolving, c) {
        ParamErrorsAreTrue(cfg, c, cfg.classes[c].params, resolving + {c}, st, []);
      }
    }
  }

  lemma {:induction false} ParamErrorsAreTrue(cfg: Config, owner: TypeId, params: seq<Param>, resolving: set<TypeId>,
                                              st: State, args: seq<Arg>)
    requires FullyAnnotated(params)
    ensures var r := ResolveParams(cfg, owner, params, resolving, st, args).result;
            r.Err? ==>
              && r.error.Unresolved? && r.error.cls == owner
              && exists p :: p in params && p.name == r.error.param && !p.hasDefault
                   && TrueError(cfg, st.instances.Keys, st.factories, resolving, p.annotation.value, r.error.cause)
    decreases st.factories.Keys, cfg.classes.Keys - resolving, |params|
  {
    if params != [] {
      var r := Resolve(cfg, params[0].annotation.value, resolving, st);
      ErrorsAreTrue(cfg, params[0].annotation.value, resolving, st);
      if r.result.Ok? || params[0].hasDefault {
        var args' := args + [if r.result.Ok? then Injected(r.result.value) else DefaultValue];
        var rest := ResolveParams(cfg, owner, params[1..], resolving, r.state, args').result;
        ParamErrorsAreTrue(cfg, owner, params[1..], resolving, r.state, args');
        if rest.Err? {
          EvolvingMoves(st, r.state);
          var p :| p in params[1..] && p.name == rest.error.param && !p.hasDefault
            && TrueError(cfg, r.state.instances.Keys, r.state.factories, resolving, p.annotation.value,
                         rest.error.cause);
          ErrorWasTrue(cfg, st.instances.Keys, st.factories, Moved(st, r.state), resolving, p.annotation.value,
                       rest.error.cause);
        }
      }
    }
  }
}
