/** What the inspector reports against what the container does. */
module Agreement {
  import opened Prelude
  import opened Container
  import opened Constructible
  import opened Singletons
  import opened Graphs
  import opened Inspector

  /** The bindings in force that no ready instance shadows name non-abstract, fully annotated classes. */
  ghost predicate BoundClassesAreSound(cfg: Config, st: State) {
    forall a :: a in cfg.bindings && a !in st.instances ==> Instantiable(cfg, {}, cfg.bindings[a])
  }

  ghost predicate EverythingResolves(cfg: Config, st: State) {
    forall a :: a in cfg.bindings || a in st.instances ==> Resolve(cfg, a, {}, st).result.Ok?
  }

  /** Bindings and ready instances only; every registered abstract is a class. */
  ghost predicate PlainContainer(cfg: Config, st: State) {
    && st.factories == map[]
    && forall a :: a in cfg.bindings || a in st.instances ==> a in cfg.classes
  }

  /** `regs` is what the container reports, and `edges` the graph the inspector makes of it. */
  ghost predicate Inspects(cfg: Config, st: State, regs: Registry, edges: Graph) {
    IsRegistrations(regs, cfg.bindings, map[], st) && IsWiringGraph(cfg.classes, regs, edges)
  }

  /** An edge of the wiring graph is a required dependency of the registered class, and the other way
      round for dependencies that are classes. */
  lemma RequiredIsEdge(classes: map<TypeId, ClassInfo>, regs: Registry, edges: Graph,
                       a: TypeId, d: Dependency)
    requires IsWiringGraph(classes, regs, edges) && a in regs && regs[a].concrete.Some?
    requires Requires(classes, regs[a].concrete.value, d) && d.annotation in classes
    ensures Edge(edges, a, d.annotation)
  {
    assert IsTargets(classes, regs[a].concrete.value, edges[a]);
  }

  lemma EdgeIsRequired(classes: map<TypeId, ClassInfo>, regs: Registry, edges: Graph,
                       a: TypeId, b: TypeId) returns (d: Dependency)
    requires IsWiringGraph(classes, regs, edges) && Edge(edges, a, b)
    ensures a in regs && regs[a].concrete.Some? && Requires(classes, regs[a].concrete.value, d) && d.annotation == b
  {
    assert IsTargets(classes, regs[a].concrete.value, edges[a]);
    d :| Requires(classes, regs[a].concrete.value, d) && d.annotation == b;
  }

  /** In a clean container a registered abstract that cannot be built needs a registered one that
      cannot either. */
  lemma UnbuildableNeedsUnbuildable(cfg: Config, st: State, regs: Registry, edges: Graph, a: TypeId) returns (b: TypeId)
    requires PlainContainer(cfg, st) && BoundClassesAreSound(cfg, st)
    requires Inspects(cfg, st, regs, edges) && Clean(cfg.classes, regs, edges)
    requires a in regs && !IsConstructible(cfg, st.instances.Keys, {}, a)
    ensures Edge(edges, a, b) && b in regs && !IsConstructible(cfg, st.instances.Keys, {}, b)
  {
    ConstructibleUnfolds(cfg, st.instances.Keys, {}, a);
    var c := cfg.bindings[a];
    var p :| p in cfg.classes[c].params && !p.hasDefault
             && !IsConstructible(cfg, st.instances.Keys, {}, p.annotation.value);
    b := p.annotation.value;
    var d := Dependency(p.name, b);
    assert p == Param(d.param, Some(d.annotation), false);
    var f := Unbound(CheckOf(cfg.classes, b), c, d);
    if b !in regs {
      assert IsUnbound(cfg.classes, regs.Keys, c, f);
      assert IsUnboundFinding(cfg.classes, regs, f);
    }
    RequiredIsEdge(cfg.classes, regs, edges, a, d);
  }

  lemma AcyclicWalkIsNew(edges: Graph, path: seq<TypeId>, a: TypeId)
    requires Acyclic(edges) && IsWalk(edges, path + [a])
    ensures a !in path
  {
    if i :| 0 <= i < |path| && path[i] == a {
      ReturnClosesWalk(edges, path, i, a);
    }
  }

  /** Following these needs in a finite clean container would close a cycle. */
  lemma {:induction false} RegisteredIsConstructible(cfg: Config, st: State, regs: Registry, edges: Graph,
                                                     path: seq<TypeId>, a: TypeId)
    requires PlainContainer(cfg, st) && BoundClassesAreSound(cfg, st)
    requires Inspects(cfg, st, regs, edges) && Clean(cfg.classes, regs, edges)
    requires IsWalk(edges, path + [a]) && Nodes(path) <= edges.Keys
    requires a in regs
    ensures IsConstructible(cfg, st.instances.Keys, {}, a)
    decreases edges.Keys - Nodes(path)
  {
    if !IsConstructible(cfg, st.instances.Keys, {}, a) {
      var b := UnbuildableNeedsUnbuildable(cfg, st, regs, edges, a);
      AcyclicWalkIsNew(edges, path, a);
      assert Nodes(path + [a]) == Nodes(path) + {a};
      StepExtendsWalk(edges, path + [a], b);
      RegisteredIsConstructible(cfg, st, regs, edges, path + [a], b);
    }
  }

  /** With no C1, C2 or C3 finding, every registered abstract resolves if and only if every bound
      class in force is non-abstract and fully annotated, which the three checks do not look at. */
  lemma CleanMeansResolvable(cfg: Config, st: State, regs: Registry, edges: Graph)
    requires PlainContainer(cfg, st)
    requires Inspects(cfg, st, regs, edges) && Clean(cfg.classes, regs, edges)
    ensures EverythingResolves(cfg, st) <==> BoundClassesAreSound(cfg, st)
  {
    if BoundClassesAreSound(cfg, st) {
      forall a | a in cfg.bindings || a in st.instances ensures Resolve(cfg, a, {}, st).result.Ok? {
        ResolveDecides(cfg, a, {}, st);
        assert [] + [a] == [a] && IsWalk(edges, [a]);
        RegisteredIsConstructible(cfg, st, regs, edges, [], a);
      }
    }
    if EverythingResolves(cfg, st) {
      forall a | a in cfg.bindings && a !in st.instances ensures Instantiable(cfg, {}, cfg.bindings[a]) {
        ResolveDecides(cfg, a, {}, st);
        ConstructibleUnfolds(cfg, st.instances.Keys, {}, a);
      }
    }
  }

  /** A C1 finding is an error the container will raise: nothing bound to its owner resolves. */
  lemma C1OwnerRaises(cfg: Config, st: State, regs: Registry, f: Finding, a: TypeId)
    requires PlainContainer(cfg, st)
    requires IsRegistrations(regs, cfg.bindings, map[], st) && IsUnboundFinding(cfg.classes, regs, f) && f.check == C1
    requires ConcreteOf(cfg, a) == f.owner && a !in st.instances
    ensures Resolve(cfg, a, {}, st).result.Err?
  {
    var needed := f.dependency.annotation;
    ResolveDecides(cfg, a, {}, st);
    ConstructibleUnfolds(cfg, st.instances.Keys, {}, a);
    ConstructibleUnfolds(cfg, st.instances.Keys, {}, needed);
    assert Param(f.dependency.param, Some(needed), false) in cfg.classes[f.owner].params;
  }

  /** A C3 finding is an error too: without a ready instance on it, nothing on the cycle resolves. */
  lemma C3CycleRaises(cfg: Config, st: State, regs: Registry, edges: Graph, cycle: seq<TypeId>, a: TypeId)
    requires PlainContainer(cfg, st) && Inspects(cfg, st, regs, edges)
    requires IsClosedWalk(edges, cycle) && a in cycle
    requires forall b :: b in cycle ==> b !in st.instances
    ensures Resolve(cfg, a, {}, st).result.Err?
  {
    ResolveDecides(cfg, a, {}, st);
    var i :| 0 <= i < |cycle| && cycle[i] == a;
    if IsConstructible(cfg, st.instances.Keys, {}, a) {
      var n: nat :| BuildableIn(cfg, st.instances.Keys, {}, n, a);
      CycleNeverBuilds(cfg, st, regs, edges, cycle, i, n);
    }
  }

  /** Along an edge from a transient registration the depth of construction falls. */
  lemma EdgeNeedsLess(cfg: Config, st: State, regs: Registry, edges: Graph, a: TypeId, b: TypeId, n: nat)
    requires PlainContainer(cfg, st) && Inspects(cfg, st, regs, edges)
    requires Edge(edges, a, b) && a !in st.instances && BuildableIn(cfg, st.instances.Keys, {}, n, a)
    ensures n > 0 && BuildableIn(cfg, st.instances.Keys, {}, n - 1, b)
  {
    var d := EdgeIsRequired(cfg.classes, regs, edges, a, b);
    assert ClassBuildableIn(cfg, st.instances.Keys, {}, n, cfg.bindings[a]);
  }

  lemma {:induction false} CycleNeverBuilds(cfg: Config, st: State, regs: Registry, edges: Graph,
                                            cycle: seq<TypeId>, i: nat, n: nat)
    requires PlainContainer(cfg, st) && Inspects(cfg, st, regs, edges)
    requires IsClosedWalk(edges, cycle) && i < |cycle|
    requires forall b :: b in cycle ==> b !in st.instances
    ensures !BuildableIn(cfg, st.instances.Keys, {}, n, cycle[i])
    decreases n
  {
    var j := if i == |cycle| - 1 then 0 else i;
    assert cycle[j] == cycle[i] && Edge(edges, cycle[j], cycle[j + 1]);
    if BuildableIn(cfg, st.instances.Keys, {}, n, cycle[j]) {
      EdgeNeedsLess(cfg, st, regs, edges, cycle[j], cycle[j + 1], n);
      CycleNeverBuilds(cfg, st, regs, edges, cycle, j + 1, n - 1);
    }
  }

  /** The exact statement: all of a reported cycle raises if and only if no ready instance is on it.  The
      inspector reports both kinds, because it also walks the classes of ready instances. */
  lemma CycleRaisesIffNoInstance(cfg: Config, st: State, regs: Registry, edges: Graph, cycle: seq<TypeId>)
    requires PlainContainer(cfg, st) && Inspects(cfg, st, regs, edges) && IsClosedWalk(edges, cycle)
    ensures (forall a :: a in cycle ==> Resolve(cfg, a, {}, st).result.Err?) <==>
            (forall b :: b in cycle ==> b !in st.instances)
  {
    if forall b :: b in cycle ==> b !in st.instances {
      forall a | a in cycle ensures Resolve(cfg, a, {}, st).result.Err? {
        C3CycleRaises(cfg, st, regs, edges, cycle, a);
      }
    }
  }
}
