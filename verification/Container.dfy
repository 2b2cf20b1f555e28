/** Constructor injection as the container performs it.

    `Resolve` is the meaning of one resolution: a function from the stores before to the outcome and
    the stores after.  The class StdLibContainer updates its stores in place and is proved equal to it;
    modules Constructible, Singletons and Agreement prove what it means. */
module Container {
  import opened Prelude

  /** The identity of a class, or of any other object used as an annotation. */
  type TypeId = nat

  /** A constructor parameter, without `self`, `args` and `kwargs`.  An `annotation` of None is a
      missing type hint. */
  datatype Param = Param(name: string, annotation: Option<TypeId>, hasDefault: bool)

  /** `isAbstract`: the class has abstract methods; `derivesAbc`: it is a subclass of `ABC`. */
  datatype ClassInfo = ClassInfo(isAbstract: bool, derivesAbc: bool, params: seq<Param>)

  /** What a resolution reads and never changes.  Identities outside `classes` are not classes. */
  datatype Config = Config(classes: map<TypeId, ClassInfo>, bindings: map<TypeId, TypeId>)

  /** An object with its identity, its class and the arguments its constructor received. */
  datatype Obj = Obj(id: nat, cls: TypeId, args: seq<Arg>)
  datatype Arg = Injected(obj: Obj) | DefaultValue

  datatype Error =
    | Circular(cls: TypeId)
    | NotAClass(abs: TypeId)
    | AbstractClass(cls: TypeId)
    | MissingHint(param: string, cls: TypeId)
    | Unresolved(param: string, cls: TypeId, cause: Error)

  datatype Result<+T> = Ok(value: T) | Err(error: Error)

  /** One successful `_resolve`, at the top level or for an argument. */
  datatype Resolved = Resolved(abs: TypeId, obj: Obj)

  /** The stores a resolution updates.  `factories` holds the lazy factories of class singletons;
      `log` records every successful `_resolve` in the order they return. */
  datatype State = State(instances: map<TypeId, Obj>, factories: map<TypeId, TypeId>,
                         nextId: nat, log: seq<Resolved>)

  datatype Outcome<+T> = Outcome(result: Result<T>, state: State)

  function ConcreteOf(cfg: Config, a: TypeId): TypeId {
    if a in cfg.bindings then cfg.bindings[a] else a
  }

  predicate FullyAnnotated(params: seq<Param>) {
    forall p :: p in params ==> p.annotation.Some?
  }

  function FirstUnannotated(params: seq<Param>): (name: string)
    requires !FullyAnnotated(params)
    ensures exists i :: 0 <= i < |params| && params[i].annotation.None? && params[i].name == name
                     && FullyAnnotated(params[..i])
  {
    if params[0].annotation.None? then
      assert FullyAnnotated(params[..0]);
      params[0].name
    else
      var name := FirstUnannotated(params[1..]);
      assert exists i :: 0 <= i < |params| && params[i].annotation.None? && params[i].name == name
                      && FullyAnnotated(params[..i]) by {
        var i :| 0 <= i < |params| - 1 && params[1..][i].annotation.None? && params[1..][i].name == name
              && FullyAnnotated(params[1..][..i]);
        assert params[..i + 1] == [params[0]] + params[1..][..i];
        assert params[i + 1] == params[1..][i];
      }
      name
  }

  /** How the stores may differ after a resolution: a factory can only have moved to the
      instances, and nothing already registered or built is lost or replaced. */
  ghost predicate Evolves(st: State, st': State) {
    && st'.factories.Keys <= st.factories.Keys
    && (forall k :: k in st'.factories ==> st'.factories[k] == st.factories[k])
    && (forall k :: k in st.instances ==> k in st'.instances && st'.instances[k] == st.instances[k])
    && (forall k :: k in st'.instances <==> k in st.instances || (k in st.factories && k !in st'.factories))
    && st.nextId <= st'.nextId
    && st.log <= st'.log
  }

  function Logged(a: TypeId, obj: Obj, st: State): Outcome<Obj> {
    Outcome(Ok(obj), st.(log := st.log + [Resolved(a, obj)]))
  }

  /** `_resolve`.  The measure is the termination argument: a lazy factory restarts with an empty
      `resolving` set but has removed itself, and every construction adds a class to `resolving`. */
  function Resolve(cfg: Config, a: TypeId, resolving: set<TypeId>, st: State): (o: Outcome<Obj>)
    ensures Evolves(st, o.state)
    ensures o.result.Ok? ==> Resolved(a, o.result.value) in o.state.log
    decreases st.factories.Keys, cfg.classes.Keys - resolving, 0
  {
    if a in st.instances then
      Logged(a, st.instances[a], st)
    else if a in st.factories then
      var o := Resolve(cfg, st.factories[a], {}, st.(factories := st.factories - {a}));
      match o.result {
        case Ok(obj) => Logged(a, obj, o.state.(instances := o.state.instances[a := obj]))
        case Err(e) => Outcome(Err(e), o.state.(factories := o.state.factories[a := st.factories[a]]))
      }
    else
      var c := ConcreteOf(cfg, a);
      if c in resolving then Outcome(Err(Circular(c)), st)
      else if c !in cfg.classes then Outcome(Err(NotAClass(a)), st)
      else if cfg.classes[c].isAbstract then Outcome(Err(AbstractClass(c)), st)
      else if !FullyAnnotated(cfg.classes[c].params) then
        Outcome(Err(MissingHint(FirstUnannotated(cfg.classes[c].params), c)), st)
      else
        var o := ResolveParams(cfg, c, cfg.classes[c].params, resolving + {c}, st, []);
        match o.result {
          case Ok(args) =>
            Logged(a, Obj(o.state.nextId, c, args), o.state.(nextId := o.state.nextId + 1))
          case Err(e) => Outcome(Err(e), o.state)
        }
  }

  /** The argument loop of `_resolve`: `args` are those already found for the owner. */
  function ResolveParams(cfg: Config, owner: TypeId, params: seq<Param>, resolving: set<TypeId>,
                         st: State, args: seq<Arg>): (o: Outcome<seq<Arg>>)
    requires FullyAnnotated(params)
    ensures Evolves(st, o.state)
    decreases st.factories.Keys, cfg.classes.Keys - resolving, |params|
  {
    if params == [] then Outcome(Ok(args), st)
    else
      var r := Resolve(cfg, params[0].annotation.value, resolving, st);
      match r.result {
        case Ok(obj) =>
          ResolveParams(cfg, owner, params[1..], resolving, r.state, args + [Injected(obj)])
        case Err(e) =>
          if params[0].hasDefault then
            ResolveParams(cfg, owner, params[1..], resolving, r.state, args + [DefaultValue])
          else
            Outcome(Err(Unresolved(params[0].name, owner, e)), r.state)
      }
  }
}
