/** Walks and cycles in a finite directed graph given by successor lists. */
module Graphs {
  ghost predicate Edge<T>(edges: map<T, seq<T>>, u: T, v: T) {
    u in edges && v in edges[u]
  }

  /** Consecutive elements are joined by edges. */
  ghost predicate IsWalk<T>(edges: map<T, seq<T>>, p: seq<T>) {
    forall i, j :: 0 <= i < j < |p| && j == i + 1 ==> Edge(edges, p[i], p[j])
  }

  ghost predicate Distinct<T>(p: seq<T>) {
    forall i, j :: 0 <= i < j < |p| ==> p[i] != p[j]
  }

  ghost predicate IsClosedWalk<T>(edges: map<T, seq<T>>, p: seq<T>) {
    |p| >= 2 && p[0] == p[|p| - 1] && IsWalk(edges, p)
  }

  ghost predicate Acyclic<T(!new)>(edges: map<T, seq<T>>) {
    !exists p :: IsClosedWalk(edges, p)
  }

  ghost function Nodes<T>(p: seq<T>): set<T> {
    set x | x in p
  }

  /** Every successor of a listed node is listed before it. */
  ghost predicate SuccessorsFirst<T(!new)>(edges: map<T, seq<T>>, order: seq<T>) {
    forall i, v :: 0 <= i < |order| && Edge(edges, order[i], v) ==> v in order[..i]
  }

  ghost function FirstIndex<T>(s: seq<T>, x: T): (i: nat)
    requires x in s
    ensures i < |s| && s[i] == x && x !in s[..i]
  {
    if s[0] == x then 0 else 1 + FirstIndex(s[1..], x)
  }

  lemma {:induction false} FirstIndexLeast<T>(s: seq<T>, x: T, j: nat)
    requires j < |s| && s[j] == x
    ensures FirstIndex(s, x) <= j
  {
    if s[0] != x { FirstIndexLeast(s[1..], x, j - 1); }
  }

  /** Along a walk inside such an order the position falls. */
  lemma {:induction false} WalkDescends<T(!new)>(edges: map<T, seq<T>>, order: seq<T>, p: seq<T>)
    requires SuccessorsFirst(edges, order) && |p| >= 2 && IsWalk(edges, p) && p[0] in order
    ensures p[|p| - 1] in order && FirstIndex(order, p[|p| - 1]) < FirstIndex(order, p[0])
  {
    var i := FirstIndex(order, p[0]);
    assert Edge(edges, p[0], p[1]);
    assert p[1] in order[..i];
    FirstIndexLeast(order, p[1], FirstIndex(order[..i], p[1]));
    if |p| > 2 {
      assert forall k :: 0 <= k < |p| - 1 ==> p[1..][k] == p[k + 1];
      WalkDescends(edges, order, p[1..]);
    }
  }

  /** A graph whose nodes with successors can be so ordered has no cycle. */
  lemma OrderedIsAcyclic<T(!new)>(edges: map<T, seq<T>>, order: seq<T>)
    requires SuccessorsFirst(edges, order)
    requires forall u :: u in edges ==> u in order
    ensures Acyclic(edges)
  {
    forall p | IsClosedWalk(edges, p) ensures false {
      assert Edge(edges, p[0], p[1]);
      WalkDescends(edges, order, p);
    }
  }

  /** A walk that comes back to one of its own nodes contains a cycle. */
  lemma ReturnClosesWalk<T(!new)>(edges: map<T, seq<T>>, p: seq<T>, i: nat, v: T)
    requires i < |p| && p[i] == v && IsWalk(edges, p + [v])
    ensures IsClosedWalk(edges, p[i..] + [v])
  {
    var q := p + [v];
    assert forall k :: 0 <= k < |p| - i + 1 ==> (p[i..] + [v])[k] == q[k + i];
  }

  /** There is a walk, possibly of no edge, from `u` to `v`. */
  ghost predicate Reaches<T(!new)>(edges: map<T, seq<T>>, u: T, v: T) {
    exists p :: |p| >= 1 && p[0] == u && p[|p| - 1] == v && IsWalk(edges, p)
  }

  /** There is a walk of at least one edge from `u` to `v`. */
  ghost predicate LeadsTo<T(!new)>(edges: map<T, seq<T>>, u: T, v: T) {
    exists p :: |p| >= 2 && p[0] == u && p[|p| - 1] == v && IsWalk(edges, p)
  }

  lemma ReachesSelf<T(!new)>(edges: map<T, seq<T>>, u: T)
    ensures Reaches(edges, u, u)
  {
    assert |[u]| >= 1 && [u][0] == u && IsWalk(edges, [u]);
  }

  lemma ReachesAfterEdge<T(!new)>(edges: map<T, seq<T>>, u: T, v: T, w: T)
    requires Edge(edges, u, v) && Reaches(edges, v, w)
    ensures Reaches(edges, u, w)
  {
    var p :| |p| >= 1 && p[0] == v && p[|p| - 1] == w && IsWalk(edges, p);
    var q := [u] + p;
    forall i | 0 <= i < |q| - 1 ensures Edge(edges, q[i], q[i + 1]) {
      if i > 0 { assert q[i] == p[i - 1] && q[i + 1] == p[i]; }
    }
    assert |q| >= 1 && q[0] == u && q[|q| - 1] == w && IsWalk(edges, q);
  }

  lemma ReachingAnotherLeadsToIt<T(!new)>(edges: map<T, seq<T>>, u: T, v: T)
    requires Reaches(edges, u, v) && u != v
    ensures LeadsTo(edges, u, v)
  {
    var p :| |p| >= 1 && p[0] == u && p[|p| - 1] == v && IsWalk(edges, p);
    assert |p| >= 2;
  }

  lemma StepExtendsWalk<T>(edges: map<T, seq<T>>, p: seq<T>, v: T)
    requires |p| > 0 && IsWalk(edges, p) && Edge(edges, p[|p| - 1], v)
    ensures IsWalk(edges, p + [v])
  {
    assert forall i :: 0 <= i < |p| ==> (p + [v])[i] == p[i];
  }
}
