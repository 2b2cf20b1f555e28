/** `_build_and_sort`: the depth-first topological sort of the enabled extensions, by priority. */
module ExtensionOrder {
  import opened Prelude
  import opened Graphs
  import opened StableSort

  /** An extension object, `id` its identity, and its descriptor. */
  datatype Extension = Extension(id: nat, name: string, deps: seq<string>, opts: seq<string>, priority: int,
                                 enabled: bool)

  datatype SortError = Circular(name: string) | Missing(name: string, dep: string)

  datatype SortResult = Sorted(order: seq<Extension>) | SortFailed(error: SortError)

  /** No two have the same name. */
  ghost predicate UniqueNames(exts: seq<Extension>) {
    forall i, j :: 0 <= i < j < |exts| ==> exts[i].name != exts[j].name
  }

  ghost function Names(exts: seq<Extension>): set<string> {
    set e | e in exts :: e.name
  }

  function Present(names: seq<string>, enabled: set<string>): (r: seq<string>)
    ensures forall d :: d in r <==> d in names && d in enabled
  {
    if names == [] then []
    else if names[0] in enabled then [names[0]] + Present(names[1..], enabled)
    else Present(names[1..], enabled)
  }

  /** The required and enabled-optional dependencies of each enabled extension. */
  ghost function Dependencies(byName: map<string, Extension>): (graph: map<string, seq<string>>)
    ensures forall n :: n in graph <==> n in byName
    ensures forall n :: n in byName ==> graph[n] == byName[n].deps + Present(byName[n].opts, byName.Keys)
  {
    DependenciesOf(byName, byName.Keys)
  }

  ghost function DependenciesOf(byName: map<string, Extension>, names: set<string>): (graph: map<string, seq<string>>)
    requires names <= byName.Keys
    ensures forall n :: n in graph <==> n in names
    ensures forall n :: n in names ==> graph[n] == byName[n].deps + Present(byName[n].opts, byName.Keys)
    decreases names
  {
    if names == {} then map[]
    else
      var n :| n in names;
      DependenciesOf(byName, names - {n})[n := byName[n].deps + Present(byName[n].opts, byName.Keys)]
  }

  ghost predicate NothingMissing(byName: map<string, Extension>) {
    forall n, d :: n in byName && d in byName[n].deps ==> d in byName
  }

  ghost function NameSeq(exts: seq<Extension>): (r: seq<string>)
    ensures |r| == |exts| && forall i :: 0 <= i < |r| ==> r[i] == exts[i].name
  {
    seq(|exts|, i requires 0 <= i < |exts| => exts[i].name)
  }

  /** `result` holds the visited extensions, each once and after everything it depends on. */
  ghost predicate Ordered(byName: map<string, Extension>, visited: set<string>, result: seq<Extension>) {
    && (forall e :: e in result ==> e.name in byName && byName[e.name] == e)
    && UniqueNames(result) && Nodes(NameSeq(result)) == visited
    && SuccessorsFirst(Dependencies(byName), NameSeq(result))
  }

  ghost predicate TrueError(byName: map<string, Extension>, err: SortError) {
    match err
    case Circular(_) => !Acyclic(Dependencies(byName))
    case Missing(n, d) => n in byName && d in byName[n].deps && d !in byName
  }

  /** What was appended to `before` is reachable from `name`. */
  ghost predicate GrewFrom(byName: map<string, Extension>, before: seq<Extension>, after: seq<Extension>,
                           name: string) {
    && before <= after
    && forall k :: |before| <= k < |after| ==> Reaches(Dependencies(byName), name, after[k].name)
  }

  lemma GrewThrough(byName: map<string, Extension>, r0: seq<Extension>, r1: seq<Extension>, r2: seq<Extension>,
                    name: string, dep: string)
    requires GrewFrom(byName, r0, r1, name) && GrewFrom(byName, r1, r2, dep)
    requires Edge(Dependencies(byName), name, dep)
    ensures GrewFrom(byName, r0, r2, name)
  {
    forall k | |r0| <= k < |r2| ensures Reaches(Dependencies(byName), name, r2[k].name) {
      if k < |r1| {
        assert r2[k] == r1[k];
      } else {
        ReachesAfterEdge(Dependencies(byName), name, dep, r2[k].name);
      }
    }
  }

  lemma VisitedStays(byName: map<string, Extension>, before: seq<Extension>, after: seq<Extension>)
    requires before <= after
    ensures Nodes(NameSeq(before)) <= Nodes(NameSeq(after))
  {
    forall n | n in Nodes(NameSeq(before)) ensures n in Nodes(NameSeq(after)) {
      var i :| 0 <= i < |before| && NameSeq(before)[i] == n;
      assert NameSeq(after)[i] == n;
    }
  }

  /** Appending an extension whose dependencies are all visited keeps the order. */
  lemma OrderedGrows(byName: map<string, Extension>, visited: set<string>, result: seq<Extension>, e: Extension)
    requires Ordered(byName, visited, result)
    requires e.name in byName && byName[e.name] == e && e.name !in visited
    requires forall d :: Edge(Dependencies(byName), e.name, d) ==> d in visited
    ensures Ordered(byName, visited + {e.name}, result + [e])
  {
    var old', new' := NameSeq(result), NameSeq(result + [e]);
    assert new' == old' + [e.name];
    forall i | 0 <= i < |result| ensures result[i].name != e.name {
      assert old'[i] in Nodes(old');
    }
    assert Nodes(new') == Nodes(old') + {e.name};
    forall i, v | 0 <= i < |new'| && Edge(Dependencies(byName), new'[i], v) ensures v in new'[..i] {
      if i == |old'| {
        assert v in Nodes(old') && new'[..i] == old';
      } else {
        assert new'[..i] == old'[..i];
      }
    }
  }

  /** The state between two dependencies of the extension at the end of `path`. */
  ghost predicate InsideVisit(byName: map<string, Extension>, path: seq<string>, visiting: set<string>,
                              visited: set<string>, result0: seq<Extension>, result: seq<Extension>)
    requires path != []
  {
    && visiting == Nodes(path) && visiting <= byName.Keys && visited !! visiting
    && IsWalk(Dependencies(byName), path)
    && Ordered(byName, visited, result) && GrewFrom(byName, result0, result, path[|path| - 1])
  }

  lemma DependencyEdge(byName: map<string, Extension>, n: string, d: string)
    requires n in byName
    ensures Edge(Dependencies(byName), n, d) <==> d in byName[n].deps || (d in byName[n].opts && d in byName)
  {}

  /** What the nested `dfs` needs: `path` is the chain of extensions being visited, whose names are
      the set `visiting`. */
  ghost predicate CanVisit(byName: map<string, Extension>, path: seq<string>, name: string, visiting: set<string>,
                           visited: set<string>, result: seq<Extension>)
  {
    && (forall n :: n in byName ==> byName[n].name == n)
    && visiting == Nodes(path) && visiting <= byName.Keys && visited !! visiting
    && IsWalk(Dependencies(byName), path + [name]) && Ordered(byName, visited, result)
  }

  /** What it achieves. */
  ghost predicate HasVisited(byName: map<string, Extension>, name: string, visiting: set<string>,
                             visited: set<string>, result0: seq<Extension>, result: seq<Extension>)
  {
    && visited !! visiting && Ordered(byName, visited, result) && GrewFrom(byName, result0, result, name)
    && (name in byName ==> name in visited)
  }

  /** The nested `dfs`, with the list and the set of visited names passed in and out; `visiting` is
      given back as it came. */
  method Visit(byName: map<string, Extension>, name: string, ghost path: seq<string>,
               visiting: set<string>, visited0: set<string>, result0: seq<Extension>)
    returns (err: Option<SortError>, visited: set<string>, result: seq<Extension>)
    requires CanVisit(byName, path, name, visiting, visited0, result0)
    ensures err.Some? ==> TrueError(byName, err.value)
    ensures err.None? ==> HasVisited(byName, name, visiting, visited, result0, result)
    decreases byName.Keys - visiting, 2
  {
    err, visited, result := None, visited0, result0;
    if name in visiting {
      ghost var i :| 0 <= i < |path| && path[i] == name;
      ReturnClosesWalk(Dependencies(byName), path, i, name);
      err := Some(Circular(name));
      return;
    }
    if name in visited || name !in byName { return; }
    var ext := byName[name];
    ghost var path' := path + [name];
    assert visiting + {name} == Nodes(path') && visiting + {name} > visiting;
    err, visited, result := VisitRequired(byName, ext, path', visiting + {name}, visited, result);
    if err.Some? { return; }
    err, visited, result := VisitOptional(byName, ext, path', visiting + {name}, visited, result0, result);
    if err.Some? { return; }
    forall d | Edge(Dependencies(byName), name, d) ensures d in visited { DependencyEdge(byName, name, d); }
    OrderedGrows(byName, visited, result, ext);
    ReachesSelf(Dependencies(byName), name);
    visited := visited + {name};
    result := result + [ext];
  }

  /** `ext` is the extension at the end of `path`. */
  ghost predicate IsVisiting(byName: map<string, Extension>, ext: Extension, path: seq<string>) {
    && (forall n :: n in byName ==> byName[n].name == n)
    && path != [] && path[|path| - 1] == ext.name && ext.name in byName && byName[ext.name] == ext
  }

  lemma CanVisitDependency(byName: map<string, Extension>, ext: Extension, path: seq<string>, dep: string,
                           visiting: set<string>, visited: set<string>, result0: seq<Extension>, result: seq<Extension>)
    requires IsVisiting(byName, ext, path) && InsideVisit(byName, path, visiting, visited, result0, result)
    requires dep in byName && (dep in ext.deps || dep in ext.opts)
    ensures CanVisit(byName, path, dep, visiting, visited, result)
  {
    DependencyEdge(byName, ext.name, dep);
    StepExtendsWalk(Dependencies(byName), path, dep);
  }

  lemma VisitedDependency(byName: map<string, Extension>, ext: Extension, path: seq<string>, dep: string,
                          visiting: set<string>, visited1: set<string>, visited2: set<string>,
                          r0: seq<Extension>, r1: seq<Extension>, r2: seq<Extension>)
    requires IsVisiting(byName, ext, path) && InsideVisit(byName, path, visiting, visited1, r0, r1)
    requires dep in byName && (dep in ext.deps || dep in ext.opts)
    requires HasVisited(byName, dep, visiting, visited2, r1, r2)
    ensures InsideVisit(byName, path, visiting, visited2, r0, r2) && visited1 + {dep} <= visited2
  {
    DependencyEdge(byName, ext.name, dep);
    GrewThrough(byName, r0, r1, r2, ext.name, dep);
    VisitedStays(byName, r1, r2);
  }

  ghost predicate PrefixIn(names: seq<string>, k: nat, enabled: set<string>, visited: set<string>)
    requires k <= |names|
  {
    forall i :: 0 <= i < k && names[i] in enabled ==> names[i] in visited
  }

  lemma PrefixGrows(names: seq<string>, k: nat, enabled: set<string>, visited1: set<string>, visited2: set<string>)
    requires k < |names| && PrefixIn(names, k, enabled, visited1) && visited1 <= visited2
    requires names[k] in enabled ==> names[k] in visited2
    ensures PrefixIn(names, k + 1, enabled, visited2)
  {}

  /** The required dependencies looked at so far are all visited. */
  ghost predicate PrefixVisited(names: seq<string>, k: nat, visited: set<string>)
    requires k <= |names|
  {
    forall i :: 0 <= i < k ==> names[i] in visited
  }

  lemma PrefixVisitedGrows(names: seq<string>, k: nat, visited1: set<string>, visited2: set<string>)
    requires k < |names| && PrefixVisited(names, k, visited1) && visited1 + {names[k]} <= visited2
    ensures PrefixVisited(names, k + 1, visited2)
  {}

  /** The loop over the required dependencies of the extension at the end of `path`. */
  method VisitRequired(byName: map<string, Extension>, ext: Extension, ghost path: seq<string>,
                       visiting: set<string>, visited0: set<string>, result0: seq<Extension>)
    returns (err: Option<SortError>, visited: set<string>, result: seq<Extension>)
    requires IsVisiting(byName, ext, path) && InsideVisit(byName, path, visiting, visited0, result0, result0)
    ensures err.Some? ==> TrueError(byName, err.value)
    ensures err.None? ==> InsideVisit(byName, path, visiting, visited, result0, result)
    ensures err.None? ==> forall d :: d in ext.deps ==> d in visited
    decreases byName.Keys - visiting, 3
  {
    err, visited, result := None, visited0, result0;
    for k := 0 to |ext.deps|
      invariant err.None? && InsideVisit(byName, path, visiting, visited, result0, result)
      invariant PrefixVisited(ext.deps, k, visited)
    {
      var dep := ext.deps[k];
      if dep !in byName {
        err := Some(Missing(ext.name, dep));
        return;
      }
      CanVisitDependency(byName, ext, path, dep, visiting, visited, result0, result);
      ghost var visited1, result1 := visited, result;
      err, visited, result := Visit(byName, dep, path, visiting, visited, result);
      if err.Some? { return; }
      VisitedDependency(byName, ext, path, dep, visiting, visited1, visited, result0, result1, result);
      PrefixVisitedGrows(ext.deps, k, visited1, visited);
    }
  }

  /** The loop over its optional dependencies, which skips those that are absent or disabled. */
  method VisitOptional(byName: map<string, Extension>, ext: Extension, ghost path: seq<string>,
                       visiting: set<string>, visited0: set<string>, ghost start: seq<Extension>,
                           result0: seq<Extension>)
    returns (err: Option<SortError>, visited: set<string>, result: seq<Extension>)
    requires IsVisiting(byName, ext, path) && InsideVisit(byName, path, visiting, visited0, start, result0)
    ensures err.Some? ==> TrueError(byName, err.value)
    ensures err.None? ==> InsideVisit(byName, path, visiting, visited, start, result) && visited0 <= visited
    ensures err.None? ==> forall d :: d in ext.opts && d in byName ==> d in visited
    decreases byName.Keys - visiting, 3
  {
    err, visited, result := None, visited0, result0;
    for k := 0 to |ext.opts|
      invariant err.None? && InsideVisit(byName, path, visiting, visited, start, result) && visited0 <= visited
      invariant PrefixIn(ext.opts, k, byName.Keys, visited)
    {
      var dep := ext.opts[k];
      ghost var visited1, result1 := visited, result;
      if dep in byName {
        CanVisitDependency(byName, ext, path, dep, visiting, visited, start, result);
        err, visited, result := Visit(byName, dep, path, visiting, visited, result);
        if err.Some? { return; }
        VisitedDependency(byName, ext, path, dep, visiting, visited1, visited, start, result1, result);
      }
      PrefixGrows(ext.opts, k, byName.Keys, visited1, visited);
    }
  }

  predicate IsEnabled(e: Extension) { e.enabled }

  predicate HigherPriority(x: Extension, y: Extension) { x.priority > y.priority }

  /** The enabled extensions in registration order. */
  function Enabled(registered: seq<Extension>): seq<Extension> {
    Filter(registered, IsEnabled)
  }

  /** The enabled extensions, higher priority first and otherwise in registration order. */
  function ByPriority(registered: seq<Extension>): seq<Extension> {
    Sort(Enabled(registered), HigherPriority)
  }

  /** The dictionary from name to enabled extension. */
  function Index(enabled: seq<Extension>): map<string, Extension> {
    if enabled == [] then map[]
    else Index(enabled[..|enabled| - 1])[enabled[|enabled| - 1].name := enabled[|enabled| - 1]]
  }

  ghost function DependencyGraph(registered: seq<Extension>): map<string, seq<string>> {
    Dependencies(Index(Enabled(registered)))
  }

  lemma DistinctMembersHaveUniqueNames(exts: seq<Extension>, s: seq<Extension>)
    requires UniqueNames(exts) && Distinct(s) && forall e :: e in s ==> e in exts
    ensures UniqueNames(s)
  {
    forall i, j | 0 <= i < j < |s| ensures s[i].name != s[j].name {
      assert s[i] in exts && s[j] in exts;
    }
  }

  lemma FilterKeepsUnique(exts: seq<Extension>, keep: Extension -> bool)
    requires UniqueNames(exts)
    ensures UniqueNames(Filter(exts, keep))
  {
    FilterKeepsDistinct(exts, keep);
    FilterIsSubsequence(exts, keep);
    DistinctMembersHaveUniqueNames(exts, Filter(exts, keep));
  }

  lemma {:induction false} IndexIsIndex(enabled: seq<Extension>)
    ensures forall e :: e in enabled ==> e.name in Index(enabled)
    ensures forall n :: n in Index(enabled) ==> Index(enabled)[n] in enabled && Index(enabled)[n].name == n
  {
    if enabled != [] {
      var front, last := enabled[..|enabled| - 1], enabled[|enabled| - 1];
      assert enabled == front + [last];
      IndexIsIndex(front);
    }
  }

  /** Of several with one name the last counts. */
  lemma {:induction false} IndexHoldsTheLast(enabled: seq<Extension>, i: nat)
    requires i < |enabled| && forall j :: i < j < |enabled| ==> enabled[j].name != enabled[i].name
    ensures enabled[i].name in Index(enabled) && Index(enabled)[enabled[i].name] == enabled[i]
  {
    if i < |enabled| - 1 { IndexHoldsTheLast(enabled[..|enabled| - 1], i); }
  }

  /** `e` is the extension its name stands for: the last one registered with it that is enabled. */
  ghost predicate InForce(registered: seq<Extension>, e: Extension) {
    e.name in Index(Enabled(registered)) && Index(Enabled(registered))[e.name] == e
  }

  /** With unique names, these are the enabled extensions. */
  lemma UniqueNamesAreInForce(registered: seq<Extension>, e: Extension)
    requires UniqueNames(registered)
    ensures InForce(registered, e) <==> e in registered && e.enabled
  {
    FilterIsSubsequence(registered, IsEnabled);
    FilterKeepsUnique(registered, IsEnabled);
    IndexIsIndex(Enabled(registered));
    if e in registered && e.enabled {
      var i :| 0 <= i < |Enabled(registered)| && Enabled(registered)[i] == e;
      IndexHoldsTheLast(Enabled(registered), i);
    }
  }

  /** `x` is reachable from one of the first `n` extensions of `order`. */
  ghost predicate FromFirst(graph: map<string, seq<string>>, order: seq<Extension>, n: nat, x: Extension)
    requires n <= |order|
  {
    exists j :: 0 <= j < n && Reaches(graph, order[j].name, x.name)
  }

  /** Up to the place of the m-th extension of `order`, the result holds only what the first `m` need. */
  ghost predicate Earned(graph: map<string, seq<string>>, order: seq<Extension>, n: nat, result: seq<Extension>)
    requires n <= |order|
  {
    && (forall p {:trigger FromFirst(graph, order, n, result[p])} :: 0 <= p < |result| ==>
          FromFirst(graph, order, n, result[p]))
    && (forall m, p, q {:trigger FromFirst(graph, order, m, result[p]), result[q]} ::
          0 < m <= n && 0 <= p <= q < |result| && result[q].name == order[m - 1].name ==>
          FromFirst(graph, order, m, result[p]))
  }

  lemma FromFirstGrows(graph: map<string, seq<string>>, order: seq<Extension>, m: nat, n: nat, x: Extension)
    requires m <= n <= |order| && FromFirst(graph, order, m, x)
    ensures FromFirst(graph, order, n, x)
  {
    var j :| 0 <= j < m && Reaches(graph, order[j].name, x.name);
  }

  lemma EarnedGrows(byName: map<string, Extension>, order: seq<Extension>, n: nat, r0: seq<Extension>,
                    r1: seq<Extension>)
    requires n < |order| && UniqueNames(r1)
    requires Earned(Dependencies(byName), order, n, r0) && GrewFrom(byName, r0, r1, order[n].name)
    requires forall m :: 0 <= m < n ==> order[m].name in NameSeq(r0)
    ensures Earned(Dependencies(byName), order, n + 1, r1)
  {
    var graph := Dependencies(byName);
    forall p | 0 <= p < |r1| ensures FromFirst(graph, order, n + 1, r1[p]) {
      if p < |r0| {
        assert r1[p] == r0[p] && FromFirst(graph, order, n, r0[p]);
        FromFirstGrows(graph, order, n, n + 1, r0[p]);
      } else {
        assert Reaches(graph, order[n].name, r1[p].name);
      }
    }
    forall m, p, q | 0 < m <= n && 0 <= p <= q < |r1| && r1[q].name == order[m - 1].name
      ensures FromFirst(graph, order, m, r1[p])
    {
      EarlierIsEarned(graph, order, n, r0, r1, m, p, q);
    }
  }

  lemma EarlierIsEarned(graph: map<string, seq<string>>, order: seq<Extension>, n: nat, r0: seq<Extension>,
                        r1: seq<Extension>, m: nat, p: nat, q: nat)
    requires n < |order| && UniqueNames(r1) && r0 <= r1 && Earned(graph, order, n, r0)
    requires 0 < m <= n && order[m - 1].name in NameSeq(r0) && p <= q < |r1| && r1[q].name == order[m - 1].name
    ensures FromFirst(graph, order, m, r1[p])
  {
    var k :| 0 <= k < |r0| && NameSeq(r0)[k] == order[m - 1].name;
    assert r1[k] == r0[k];
    assert k == q;
    assert r1[p] == r0[p];
    assert FromFirst(graph, order, m, r0[p]);
  }

  /** Some extension at or before place `a` of the order transitively depends on the one at `b`. */
  ghost predicate NeededBefore(graph: map<string, seq<string>>, order: seq<Extension>, a: nat, b: nat)
    requires a < |order| && b < |order|
  {
    exists j :: 0 <= j <= a && LeadsTo(graph, order[j].name, order[b].name)
  }

  /** The name at place `b` of the order occurs only after place `a`. */
  ghost predicate OnlyAfter(order: seq<Extension>, a: nat, b: nat)
    requires a < |order| && b < |order|
  {
    forall j :: 0 <= j <= a ==> order[j].name != order[b].name
  }

  /** Only a dependency overrides priority: the result puts B before A although A comes first by
      priority only when an extension at or before A in that order transitively depends on B. */
  ghost predicate OnlyDependencyOverrides(graph: map<string, seq<string>>, order: seq<Extension>,
                                          result: seq<Extension>) {
    forall a, b, p, q {:trigger NeededBefore(graph, order, a, b), result[p], result[q]} ::
      0 <= a < |order| && 0 <= b < |order| && 0 <= p < q < |result| && OnlyAfter(order, a, b)
      && result[p].name == order[b].name && result[q].name == order[a].name ==>
        NeededBefore(graph, order, a, b)
  }

  lemma EarnedMeansOnlyDependencyOverrides(graph: map<string, seq<string>>, order: seq<Extension>,
                                           result: seq<Extension>)
    requires Earned(graph, order, |order|, result)
    ensures OnlyDependencyOverrides(graph, order, result)
  {
    forall a, b, p, q | 0 <= a < |order| && 0 <= b < |order| && 0 <= p < q < |result| && OnlyAfter(order, a, b)
                        && result[p].name == order[b].name && result[q].name == order[a].name
      ensures NeededBefore(graph, order, a, b)
    {
      assert FromFirst(graph, order, a + 1, result[p]);
      var j :| 0 <= j < a + 1 && Reaches(graph, order[j].name, result[p].name);
      ReachingAnotherLeadsToIt(graph, order[j].name, order[b].name);
    }
  }

  /** `_build_and_sort`. */
  method BuildAndSort(registered: seq<Extension>) returns (r: SortResult)
    ensures r.Sorted? <==> NothingMissing(Index(Enabled(registered))) && Acyclic(DependencyGraph(registered))
    ensures r.SortFailed? ==> TrueError(Index(Enabled(registered)), r.error)
    ensures r.Sorted? ==>
      && (forall e :: e in r.order <==> InForce(registered, e)) && UniqueNames(r.order)
      && SuccessorsFirst(DependencyGraph(registered), NameSeq(r.order))
      && OnlyDependencyOverrides(DependencyGraph(registered), ByPriority(registered), r.order)
  {
    var byName := Index(Enabled(registered));
    var order := ByPriority(registered);
    OrderMatchesIndex(registered);
    r := VisitAll(byName, order);
    if r.Sorted? {
      EarnedMeansOnlyDependencyOverrides(Dependencies(byName), order, r.order);
    }
  }

  /** The outer loop over the extensions by priority. */
  method VisitAll(byName: map<string, Extension>, order: seq<Extension>) returns (r: SortResult)
    requires forall e :: e in order ==> e.name in byName
    requires forall n :: n in byName ==> byName[n] in order && byName[n].name == n
    ensures r.Sorted? <==> NothingMissing(byName) && Acyclic(Dependencies(byName))
    ensures r.SortFailed? ==> TrueError(byName, r.error)
    ensures r.Sorted? ==>
      && (forall e :: e in r.order <==> e.name in byName && byName[e.name] == e) && UniqueNames(r.order)
      && SuccessorsFirst(Dependencies(byName), NameSeq(r.order))
      && Earned(Dependencies(byName), order, |order|, r.order)
  {
    var err: Option<SortError>;
    var visited: set<string>, result: seq<Extension> := {}, [];
    for n := 0 to |order|
      invariant BetweenRoots(byName, order, n, visited, result)
    {
      ghost var visited0, before := visited, result;
      assert order[n] in order;
      CanVisitRoot(byName, order, n, visited, result);
      err, visited, result := Visit(byName, order[n].name, [], {}, visited, result);
      if err.Some? {
        ErrorsAreReal(byName, err.value);
        return SortFailed(err.value);
      }
      NextRoot(byName, order, n, visited0, visited, before, result);
    }
    AllOrderedSucceeds(byName, visited, result, order);
    r := Sorted(result);
  }

  /** The state of the outer loop after the first `n` extensions by priority. */
  ghost predicate BetweenRoots(byName: map<string, Extension>, order: seq<Extension>, n: nat,
                               visited: set<string>, result: seq<Extension>)
    requires n <= |order|
  {
    && Ordered(byName, visited, result) && Earned(Dependencies(byName), order, n, result)
    && forall m :: 0 <= m < n ==> order[m].name in NameSeq(result)
  }

  lemma CanVisitRoot(byName: map<string, Extension>, order: seq<Extension>, n: nat, visited: set<string>,
                     result: seq<Extension>)
    requires n < |order| && BetweenRoots(byName, order, n, visited, result)
    requires forall n :: n in byName ==> byName[n].name == n
    ensures CanVisit(byName, [], order[n].name, {}, visited, result)
  {
    assert [] + [order[n].name] == [order[n].name];
  }

  lemma NextRoot(byName: map<string, Extension>, order: seq<Extension>, n: nat, visited0: set<string>,
                 visited1: set<string>, r0: seq<Extension>, r1: seq<Extension>)
    requires n < |order| && BetweenRoots(byName, order, n, visited0, r0)
    requires Ordered(byName, visited1, r1) && GrewFrom(byName, r0, r1, order[n].name) && order[n].name in visited1
    ensures BetweenRoots(byName, order, n + 1, visited1, r1)
  {
    assert order[n].name in Nodes(NameSeq(r1));
    EarnedGrows(byName, order, n, r0, r1);
    VisitedStays(byName, r0, r1);
    forall m | 0 <= m < n ensures order[m].name in NameSeq(r1) {
      assert order[m].name in Nodes(NameSeq(r0));
    }
  }

  /** What the priority order is: descending priority, and registration order among equals. */
  lemma ByPriorityIsStable(registered: seq<Extension>, priority: int)
    ensures SortedBy(ByPriority(registered), HigherPriority)
    ensures var order := ByPriority(registered);
            forall i, j :: 0 <= i < j < |order| ==> order[i].priority >= order[j].priority
    ensures var same := (e: Extension) => e.priority == priority;
            Filter(ByPriority(registered), same) == Filter(Enabled(registered), same)
  {
    SortSorts(Enabled(registered), HigherPriority);
    SortStable(Enabled(registered), HigherPriority, (e: Extension) => e.priority == priority);
  }

  lemma OrderMatchesIndex(registered: seq<Extension>)
    ensures var order, byName := ByPriority(registered), Index(Enabled(registered));
            && (forall e :: e in order <==> e in registered && e.enabled)
            && (forall e :: e in order ==> e.name in byName)
            && (forall n :: n in byName ==> byName[n] in order && byName[n].name == n)
  {
    FilterIsSubsequence(registered, IsEnabled);
    IndexIsIndex(Enabled(registered));
    PermutationKeepsMembers(Enabled(registered), ByPriority(registered));
  }

  lemma ErrorsAreReal(byName: map<string, Extension>, err: SortError)
    requires TrueError(byName, err)
    ensures !NothingMissing(byName) || !Acyclic(Dependencies(byName))
  {}

  lemma AllOrderedSucceeds(byName: map<string, Extension>, visited: set<string>, result: seq<Extension>,
                           order: seq<Extension>)
    requires Ordered(byName, visited, result)
    requires forall n :: n in byName ==> byName[n] in order && byName[n].name == n
    requires forall m :: 0 <= m < |order| ==> order[m].name in NameSeq(result)
    ensures NothingMissing(byName) && Acyclic(Dependencies(byName))
    ensures forall e :: e in result <==> e.name in byName && byName[e.name] == e
  {
    var graph, names := Dependencies(byName), NameSeq(result);
    forall u | u in byName ensures u in names {
      var m :| 0 <= m < |order| && order[m] == byName[u];
    }
    forall e: Extension | e.name in byName && byName[e.name] == e ensures e in result {
      var i :| 0 <= i < |names| && names[i] == e.name;
      assert result[i] in result && byName[result[i].name] == result[i];
    }
    OrderedIsAcyclic(graph, names);
    forall n, d | n in byName && d in byName[n].deps ensures d in byName {
      DependencyEdge(byName, n, d);
      var i :| 0 <= i < |names| && names[i] == n;
      assert d in names[..i];
      var j :| 0 <= j < i && names[j] == d;
      assert result[j] in result;
    }
  }
}
