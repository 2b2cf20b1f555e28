/** The container checks C1, C2 and C3 of the wiring inspector, and their agreement with what the
    container really does. */
module Inspector {
  import opened Prelude
  import opened Container
  import opened Singletons
  import opened Graphs

  /** C1: an unbound abstract dependency; C2: an unbound plain one. */
  datatype Check = C1 | C2

  /** From an abstract to the classes its constructor requires. */
  type Graph = map<TypeId, seq<TypeId>>

  datatype Dependency = Dependency(param: string, annotation: TypeId)

  datatype Finding =
    | Unbound(check: Check, owner: TypeId, dependency: Dependency)
    | CyclicDependency(cycle: seq<TypeId>)

  /** The constructor parameters a caller must supply: annotated and without a default. */
  ghost predicate Requires(classes: map<TypeId, ClassInfo>, c: TypeId, d: Dependency) {
    c in classes && Param(d.param, Some(d.annotation), false) in classes[c].params
  }

  method ConstructorDependencies(classes: map<TypeId, ClassInfo>, concrete: TypeId) returns (found: seq<Dependency>)
    ensures forall d :: d in found <==> Requires(classes, concrete, d)
  {
    found := [];
    if concrete in classes {
      var params := classes[concrete].params;
      for i := 0 to |params|
        invariant forall d :: d in found <==> Param(d.param, Some(d.annotation), false) in params[..i]
      {
        assert params[..i + 1] == params[..i] + [params[i]];
        if !params[i].hasDefault && params[i].annotation.Some? {
          found := found + [Dependency(params[i].name, params[i].annotation.value)];
        }
      }
      assert params[..|params|] == params;
    }
  }

  function CheckOf(classes: map<TypeId, ClassInfo>, annotation: TypeId): Check {
    if annotation in classes && classes[annotation].derivesAbc && classes[annotation].isAbstract then C1 else C2
  }

  /** `f` is the finding for a required dependency of `owner` that is not registered. */
  ghost predicate IsUnbound(classes: map<TypeId, ClassInfo>, registered: set<TypeId>, owner: TypeId, f: Finding) {
    && f.Unbound? && f.owner == owner
    && Requires(classes, owner, f.dependency) && f.dependency.annotation !in registered
    && var a := f.dependency.annotation;
       f.check == C1 <==> a in classes && classes[a].derivesAbc && classes[a].isAbstract
  }

  method UnbindableDependencies(classes: map<TypeId, ClassInfo>, owner: TypeId, registered: set<TypeId>)
    returns (findings: seq<Finding>)
    ensures forall f :: f in findings <==> IsUnbound(classes, registered, owner, f)
  {
    findings := [];
    var deps := ConstructorDependencies(classes, owner);
    for i := 0 to |deps|
      invariant forall f :: f in findings <==> IsUnbound(classes, registered, owner, f) && f.dependency in deps[..i]
    {
      assert deps[..i + 1] == deps[..i] + [deps[i]];
      if deps[i].annotation !in registered {
        findings := findings + [Unbound(CheckOf(classes, deps[i].annotation), owner, deps[i])];
      }
    }
    assert deps[..|deps|] == deps;
  }

  /** A cycle as reported: a closed walk along real edges that repeats no inner node. */
  ghost predicate IsCycle(edges: Graph, c: seq<TypeId>) {
    IsClosedWalk(edges, c) && Distinct(c[..|c| - 1])
  }

  /** Reported cycles are real, and no two have the same nodes; `keys` are their node sets. */
  ghost predicate Reported(edges: Graph, findings: seq<seq<TypeId>>, keys: set<set<TypeId>>) {
    && (forall i :: 0 <= i < |findings| ==> IsCycle(edges, findings[i]) && Nodes(findings[i]) in keys)
    && (forall k :: k in keys ==> exists i :: 0 <= i < |findings| && Nodes(findings[i]) == k)
    && (forall i, j :: 0 <= i < j < |findings| ==> Nodes(findings[i]) != Nodes(findings[j]))
  }

  /** While nothing has been found, the finished nodes are in an order with successors first. */
  ghost predicate Finished(edges: Graph, findings: seq<seq<TypeId>>, seen: set<TypeId>, order: seq<TypeId>) {
    findings == [] ==> SuccessorsFirst(edges, order) && Nodes(order) == seen
  }

  /** `_cycles`.  Despite the `seen` cut-off a finding is produced exactly when there is a cycle. */
  method Cycles(edges: Graph) returns (findings: seq<seq<TypeId>>)
    ensures findings == [] <==> Acyclic(edges)
    ensures forall c :: c in findings ==> IsCycle(edges, c)
    ensures forall i, j :: 0 <= i < j < |findings| ==> Nodes(findings[i]) != Nodes(findings[j])
  {
    findings := [];
    var seen: set<TypeId> := {};
    var seenCycles: set<set<TypeId>> := {};
    ghost var order: seq<TypeId> := [];
    var starts := edges.Keys;
    while starts != {}
      invariant starts <= edges.Keys
      invariant Reported(edges, findings, seenCycles) && Finished(edges, findings, seen, order)
      invariant findings == [] ==> edges.Keys - starts <= seen
    {
      var start :| start in starts;
      assert IsWalk(edges, [start]) && [] + [start] == [start];
      seen, seenCycles, findings, order := Walk(edges, start, [], seen, seenCycles, findings, order);
      starts := starts - {start};
    }
    if findings == [] {
      assert forall u :: u in edges ==> u in Nodes(order);
      OrderedIsAcyclic(edges, order);
    } else {
      assert IsCycle(edges, findings[0]);
    }
  }

  method Walk(edges: Graph, node: TypeId, path: seq<TypeId>,
              seen0: set<TypeId>, seenCycles0: set<set<TypeId>>, findings0: seq<seq<TypeId>>, ghost order0: seq<TypeId>)
    returns (seen: set<TypeId>, seenCycles: set<set<TypeId>>, findings: seq<seq<TypeId>>, ghost order: seq<TypeId>)
    requires Distinct(path) && IsWalk(edges, path + [node]) && Nodes(path) <= edges.Keys
    requires Reported(edges, findings0, seenCycles0) && Finished(edges, findings0, seen0, order0)
    ensures Reported(edges, findings, seenCycles) && Finished(edges, findings, seen, order)
    ensures findings0 <= findings
    ensures findings == [] ==> seen0 + {node} <= seen
    decreases edges.Keys - Nodes(path)
  {
    seen, seenCycles, findings, order := seen0, seenCycles0, findings0, order0;
    if node in path {
      var i := IndexOf(path, node);
      var cycle := path[i..] + [node];
      ReturnClosesWalk(edges, path, i, node);
      assert cycle[..|cycle| - 1] == path[i..];
      var key := set x | x in cycle;
      assert key == Nodes(cycle);
      if key !in seenCycles {
        seenCycles := seenCycles + {key};
        findings := findings + [cycle];
        ReportedGrows(edges, findings0, seenCycles0, cycle, key);
      }
      return;
    }
    if node in seen { return; }
    if node in edges {
      var path' := path + [node];
      assert node in Nodes(path') && node !in Nodes(path);
      for k := 0 to |edges[node]|
        invariant Reported(edges, findings, seenCycles) && Finished(edges, findings, seen, order)
        invariant findings0 <= findings
        invariant findings == [] ==> seen0 <= seen && forall v :: v in edges[node][..k] ==> v in seen
      {
        var next := edges[node][k];
        assert Edge(edges, node, next);
        StepExtendsWalk(edges, path', next);
        seen, seenCycles, findings, order := Walk(edges, next, path', seen, seenCycles, findings, order);
        assert edges[node][..k + 1] == edges[node][..k] + [next];
      }
      assert edges[node][..|edges[node]|] == edges[node];
    }
    assert findings == [] ==> forall v :: Edge(edges, node, v) ==> v in Nodes(order);
    order := order + [node];
    seen := seen + {node};
    assert Nodes(order) == Nodes(order[..|order| - 1]) + {node};
    assert findings == [] ==> SuccessorsFirst(edges, order);
  }

  lemma ReportedGrows(edges: Graph, findings: seq<seq<TypeId>>, keys: set<set<TypeId>>,
                      c: seq<TypeId>, key: set<TypeId>)
    requires Reported(edges, findings, keys) && IsCycle(edges, c) && key == Nodes(c) && key !in keys
    ensures Reported(edges, findings + [c], keys + {key})
  {
    var findings' := findings + [c];
    forall k | k in keys + {key} ensures exists i :: 0 <= i < |findings'| && Nodes(findings'[i]) == k {
      if k in keys {
        var i :| 0 <= i < |findings| && Nodes(findings[i]) == k;
        assert findings'[i] == findings[i];
      } else {
        assert findings'[|findings|] == c;
      }
    }
  }

  /** `path.index(node)`. */
  method IndexOf(path: seq<TypeId>, node: TypeId) returns (i: nat)
    requires node in path
    ensures i < |path| && path[i] == node && node !in path[..i]
  {
    i := 0;
    while path[i] != node
      invariant i < |path| && node !in path[..i]
      decreases |path| - i
    {
      assert path[..i + 1] == path[..i] + [path[i]];
      i := i + 1;
    }
  }

  /** The required dependencies of `c` that are classes themselves. */
  ghost predicate IsTargets(classes: map<TypeId, ClassInfo>, c: TypeId, targets: seq<TypeId>) {
    forall b :: b in targets <==> b in classes && exists d :: Requires(classes, c, d) && d.annotation == b
  }

  /** The graph `_cycles` walks: from each registered abstract to the required dependencies of its
      class that are classes themselves. */
  ghost predicate IsWiringGraph(classes: map<TypeId, ClassInfo>, regs: Registry,
                                edges: Graph)
  {
    && (forall a :: a in edges <==> a in regs && regs[a].concrete.Some?)
    && (forall a :: a in edges ==> IsTargets(classes, regs[a].concrete.value, edges[a]))
  }

  method WiringGraph(classes: map<TypeId, ClassInfo>, regs: Registry)
    returns (edges: Graph)
    ensures IsWiringGraph(classes, regs, edges)
  {
    edges := map[];
    var todo := regs.Keys;
    while todo != {}
      invariant todo <= regs.Keys
      invariant forall a :: a in edges <==> a in regs && a !in todo && regs[a].concrete.Some?
      invariant forall a :: a in edges ==> IsTargets(classes, regs[a].concrete.value, edges[a])
    {
      var a :| a in todo;
      if regs[a].concrete.Some? {
        var deps := ConstructorDependencies(classes, regs[a].concrete.value);
        var targets := ClassTargets(classes, deps);
        edges := edges[a := targets];
      }
      todo := todo - {a};
    }
  }

  method ClassTargets(classes: map<TypeId, ClassInfo>, deps: seq<Dependency>) returns (targets: seq<TypeId>)
    ensures forall b :: b in targets <==> b in classes && exists d :: d in deps && d.annotation == b
  {
    targets := [];
    for i := 0 to |deps|
      invariant forall b :: b in targets <==> b in classes && exists d :: d in deps[..i] && d.annotation == b
    {
      assert deps[..i + 1] == deps[..i] + [deps[i]];
      if deps[i].annotation in classes {
        targets := targets + [deps[i].annotation];
      }
    }
    assert deps[..|deps|] == deps;
  }

  /** `f` is a C1 or C2 finding about a transient (or scoped) registration. */
  ghost predicate IsUnboundFinding(classes: map<TypeId, ClassInfo>, regs: Registry, f: Finding) {
    exists a :: a in regs && regs[a].concrete.Some? && !regs[a].instantiated
             && IsUnbound(classes, regs.Keys, regs[a].concrete.value, f)
  }

  /** Nothing to report. */
  ghost predicate Clean(classes: map<TypeId, ClassInfo>, regs: Registry,
                        edges: Graph) {
    (forall f :: !IsUnboundFinding(classes, regs, f)) && Acyclic(edges)
  }

  /** `inspect_container`, with its registrations visited in any order. */
  method InspectContainer(classes: map<TypeId, ClassInfo>, regs: Registry)
    returns (findings: seq<Finding>, ghost edges: Graph)
    ensures IsWiringGraph(classes, regs, edges)
    ensures findings == [] <==> Clean(classes, regs, edges)
    ensures forall f :: f in findings && f.Unbound? <==> IsUnboundFinding(classes, regs, f)
    ensures forall f :: f in findings && f.CyclicDependency? ==> IsCycle(edges, f.cycle)
  {
    findings := [];
    var todo := regs.Keys;
    while todo != {}
      invariant todo <= regs.Keys
      invariant forall f :: f in findings <==>
                  exists a :: a in regs.Keys - todo && regs[a].concrete.Some? && !regs[a].instantiated
                           && IsUnbound(classes, regs.Keys, regs[a].concrete.value, f)
    {
      var a :| a in todo;
      if regs[a].concrete.Some? && !regs[a].instantiated {
        var found := UnbindableDependencies(classes, regs[a].concrete.value, regs.Keys);
        findings := findings + found;
      }
      todo := todo - {a};
    }
    assert forall f :: f in findings <==> IsUnboundFinding(classes, regs, f);
    ghost var unbound := findings;
    var graph := WiringGraph(classes, regs);
    var cycles := Cycles(graph);
    edges := graph;
    for i := 0 to |cycles|
      invariant |findings| == |unbound| + i
      invariant forall f :: f in findings <==>
                  f in unbound || (f.CyclicDependency? && f.cycle in cycles[..i])
    {
      assert cycles[..i + 1] == cycles[..i] + [cycles[i]];
      findings := findings + [CyclicDependency(cycles[i])];
    }
    assert cycles[..|cycles|] == cycles;
    assert forall f :: f in unbound ==> IsUnboundFinding(classes, regs, f) && f.Unbound?;
    if findings != [] && cycles == [] {
      assert IsUnboundFinding(classes, regs, findings[0]);
    }
    if findings == [] {
      forall f ensures !IsUnboundFinding(classes, regs, f) { assert f !in unbound; }
    }
  }
}
