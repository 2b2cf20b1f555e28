/** The OpenTelemetry exporter: rebuilding parents from a flat group of closed spans, emitting them,
    and counting the begin markers without an end. */
module Otel {
  import opened Prelude
  import opened StableSort
  import opened Records

  /** The sort key of the sweep: start ascending, end descending. */
  predicate StartsFirst(x: Record, y: Record) {
    StartOf(x) < StartOf(y) || (StartOf(x) == StartOf(y) && x.t > y.t)
  }

  /** The order in which both the sweep and the emission visit a group. */
  function SweepOrder(group: seq<Record>): seq<Record> {
    Sort(group, StartsFirst)
  }

  ghost predicate SameInterval(p: Record, c: Record) { StartOf(p) == StartOf(c) && p.t == c.t }

  /** The interval of `p` strictly contains that of `c`. */
  ghost predicate Encloses(p: Record, c: Record) {
    StartOf(p) <= StartOf(c) && c.t <= p.t && !SameInterval(p, c)
  }

  ghost predicate Disjoint(p: Record, c: Record) { p.t <= StartOf(c) || c.t <= StartOf(p) }

  /** Distinct intervals of positive length, pairwise nested or disjoint. */
  ghost predicate Laminar(group: seq<Record>) {
    && (forall r :: r in group ==> r.dur > 0)
    && forall p, c :: p in group && c in group && p.uid != c.uid ==>
         !SameInterval(p, c) && (Encloses(p, c) || Encloses(c, p) || Disjoint(p, c))
  }

  /** `p` is the smallest span of the group that strictly encloses `r`; None if there is none. */
  ghost predicate IsInnermost(group: seq<Record>, r: Record, p: Option<Record>) {
    match p
    case None => forall q :: q in group ==> !Encloses(q, r)
    case Some(x) => x in group && Encloses(x, r)
                    && forall q :: q in group && Encloses(q, r) ==> q == x || Encloses(q, x)
  }

  /** It is unique. */
  lemma InnermostIsUnique(group: seq<Record>, r: Record, p: Option<Record>, q: Option<Record>)
    requires IsInnermost(group, r, p) && IsInnermost(group, r, q)
    ensures p == q
  {}

  /** `p` comes before place `i` of the order and is still open when the span there starts. */
  ghost predicate OpenBefore(order: seq<Record>, i: nat, p: Record)
    requires i < |order|
  {
    p in order[..i] && p.t > StartOf(order[i])
  }

  ghost predicate IsStack(order: seq<Record>, n: nat, stack: seq<Record>)
    requires n <= |order|
  {
    forall x :: x in stack ==> x in order[..n]
  }

  /** On a laminar group the stack is a chain of enclosing spans and holds everything still open at
      time `now`. */
  ghost predicate IsOpenChain(order: seq<Record>, n: nat, stack: seq<Record>, now: int)
    requires n <= |order|
  {
    && (forall a, b :: 0 <= a < b < |stack| ==> Encloses(stack[a], stack[b]))
    && forall x :: x in order[..n] && x.t > now ==> x in stack
  }

  /** What the sweep says about the first `n` spans: a parent comes earlier in the order and is open
      when its child starts; on a laminar group it is the innermost enclosing span. */
  ghost predicate Answered(group: seq<Record>, order: seq<Record>, n: nat, parentOf: map<nat, Option<Record>>)
    requires n <= |order|
  {
    forall i :: 0 <= i < n ==>
      && order[i].uid in parentOf
      && (parentOf[order[i].uid].Some? ==> OpenBefore(order, i, parentOf[order[i].uid].value))
      && (Laminar(group) ==> IsInnermost(group, order[i], parentOf[order[i].uid]))
  }

  /** `_parents_within_group`, keyed by record identity. */
  method ParentsWithinGroup(group: seq<Record>) returns (parentOf: map<nat, Option<Record>>)
    requires UniqueUids(group)
    ensures Answered(group, SweepOrder(group), |SweepOrder(group)|, parentOf)
    ensures forall r :: r in group ==> r.uid in parentOf
    ensures Laminar(group) ==> forall r :: r in group ==> IsInnermost(group, r, parentOf[r.uid])
  {
    SweepOrderIsSound(group);
    parentOf := Sweep(group, SweepOrder(group));
    forall r | r in group ensures r.uid in parentOf && (Laminar(group) ==> IsInnermost(group, r, parentOf[r.uid])) {
      assert r in SweepOrder(group);
    }
  }

  method Sweep(ghost group: seq<Record>, ordered: seq<Record>) returns (parentOf: map<nat, Option<Record>>)
    requires UniqueUids(ordered) && SortedBy(ordered, StartsFirst) && forall r :: r in ordered <==> r in group
    ensures Answered(group, ordered, |ordered|, parentOf)
  {
    var stack: seq<Record> := [];
    ghost var laminar := Laminar(group);
    parentOf := map[];
    for n := 0 to |ordered|
      invariant IsStack(ordered, n, stack) && Answered(group, ordered, n, parentOf)
      invariant laminar && n > 0 ==> IsOpenChain(ordered, n, stack, StartOf(ordered[n - 1]))
      invariant n == 0 ==> stack == []
    {
      var record := ordered[n];
      if n > 0 { assert !StartsFirst(record, ordered[n - 1]); }
      stack := PopClosed(ordered, n, stack, StartOf(record), laminar);
      var parent := if stack != [] then Some(stack[|stack| - 1]) else None;
      if laminar {
        TopIsInnermost(group, ordered, n, stack);
        PushKeepsChain(group, ordered, n, stack);
      }
      AnsweredGrows(group, ordered, n, parentOf, parent);
      parentOf := parentOf[record.uid := parent];
      assert ordered[..n + 1] == ordered[..n] + [record];
      stack := stack + [record];
    }
  }

  lemma AnsweredGrows(group: seq<Record>, order: seq<Record>, n: nat, parentOf: map<nat, Option<Record>>,
                      parent: Option<Record>)
    requires UniqueUids(order) && n < |order| && Answered(group, order, n, parentOf)
    requires parent.Some? ==> OpenBefore(order, n, parent.value)
    requires Laminar(group) ==> IsInnermost(group, order[n], parent)
    ensures Answered(group, order, n + 1, parentOf[order[n].uid := parent])
  {}

  /** The inner loop: pop what has ended by `start`. */
  method PopClosed(ghost order: seq<Record>, ghost n: nat, stack0: seq<Record>, start: int, ghost laminar: bool)
    returns (stack: seq<Record>)
    requires n <= |order| && IsStack(order, n, stack0)
    requires laminar ==> IsOpenChain(order, n, stack0, start)
    ensures IsStack(order, n, stack)
    ensures laminar ==> IsOpenChain(order, n, stack, start)
    ensures stack <= stack0 && (stack != [] ==> stack[|stack| - 1].t > start)
  {
    stack := stack0;
    while stack != [] && stack[|stack| - 1].t <= start
      invariant IsStack(order, n, stack) && stack <= stack0
      invariant laminar ==> IsOpenChain(order, n, stack, start)
      decreases |stack|
    {
      var popped := stack[..|stack| - 1];
      assert stack == popped + [stack[|stack| - 1]];
      stack := popped;
    }
  }

  lemma SweepOrderIsSound(group: seq<Record>)
    requires UniqueUids(group)
    ensures var order := SweepOrder(group);
            && UniqueUids(order) && SortedBy(order, StartsFirst)
            && |order| == |group| && forall r :: r in order <==> r in group
  {
    var order := SweepOrder(group);
    assert StrictWeakOrder(StartsFirst);
    SortSorts(group, StartsFirst);
    PermutationKeepsMembers(group, order);
    forall i, j | 0 <= i < j < |order| ensures order[i].uid != order[j].uid {
      assert order[i] in group && order[j] in group;
    }
  }

  /** After the pops, the top of the stack is the innermost span around the next one. */
  lemma TopIsInnermost(group: seq<Record>, order: seq<Record>, n: nat, stack: seq<Record>)
    requires Laminar(group) && UniqueUids(order) && SortedBy(order, StartsFirst) && n < |order|
    requires forall r :: r in order <==> r in group
    requires IsStack(order, n, stack) && IsOpenChain(order, n, stack, StartOf(order[n]))
    requires stack != [] ==> stack[|stack| - 1].t > StartOf(order[n])
    ensures IsInnermost(group, order[n], if stack != [] then Some(stack[|stack| - 1]) else None)
    ensures stack != [] ==> Encloses(stack[|stack| - 1], order[n])
  {
    var r := order[n];
    if stack != [] {
      var top := stack[|stack| - 1];
      var k :| 0 <= k < n && order[k] == top;
      assert top in group && r in group && !StartsFirst(r, top);
    }
    forall q | q in group && Encloses(q, r) ensures q in stack {
      var k :| 0 <= k < |order| && order[k] == q;
      assert r in group && StartsFirst(q, r);
      assert k < n;
      assert q in order[..n];
    }
  }

  lemma PushKeepsChain(group: seq<Record>, order: seq<Record>, n: nat, stack: seq<Record>)
    requires Laminar(group) && n < |order| && (forall r :: r in order <==> r in group)
    requires IsOpenChain(order, n, stack, StartOf(order[n]))
    requires stack != [] ==> Encloses(stack[|stack| - 1], order[n])
    ensures IsOpenChain(order, n + 1, stack + [order[n]], StartOf(order[n]))
  {
    var pushed := stack + [order[n]];
    assert order[..n + 1] == order[..n] + [order[n]];
    forall a, b | 0 <= a < b < |pushed| ensures Encloses(pushed[a], pushed[b]) {
      if b == |stack| && a < |stack| - 1 {
        assert Encloses(stack[a], stack[|stack| - 1]);
      }
    }
    forall x | x in order[..n + 1] && x.t > StartOf(order[n]) ensures x in pushed {
      if x in order[..n] { assert x in stack; }
    }
  }

  /** A span handed to the tracer.  `parent` is the place of its parent among the spans handed over
      before it. */
  datatype OtelSpan = OtelSpan(uid: nat, name: string, start: int, end: int, parent: Option<nat>)

  /** `_wall_ns`: monotonic offsets anchored to the wall clock. */
  function WallNs(epochWallNs: int, offset: int): int { epochWallNs + offset }

  /** Every span of the group is emitted once, in the shared order, with its wall-clock interval.  A parent
      comes before its child and is open when that starts; on a laminar group it is the innermost one. */
  ghost predicate EmitsGroup(epochWallNs: int, group: seq<Record>, spans: seq<OtelSpan>) {
    var order := SweepOrder(group);
    && |spans| == |order|
    && forall i :: 0 <= i < |order| ==> EmitsSpan(epochWallNs, group, order, i, spans[i])
  }

  ghost predicate EmitsSpan(epochWallNs: int, group: seq<Record>, order: seq<Record>, i: nat, s: OtelSpan)
    requires i < |order|
  {
    && s.uid == order[i].uid && s.name == order[i].name
    && s.end == epochWallNs + order[i].t && s.end - s.start == order[i].dur
    && (s.parent.Some? ==> s.parent.value < i && order[s.parent.value].t > StartOf(order[i]))
    && (Laminar(group) ==>
          IsInnermost(group, order[i], if s.parent.Some? then Some(order[s.parent.value]) else None))
  }

  /** `_emit_group`.  The lookup of a parent's span never fails, nested or not, and the spans end in
      reverse. */
  method EmitGroup(epochWallNs: int, group: seq<Record>) returns (spans: seq<OtelSpan>, ended: seq<nat>)
    requires UniqueUids(group)
    ensures EmitsGroup(epochWallNs, group, spans)
    ensures |ended| == |spans| && forall i :: 0 <= i < |ended| ==> ended[i] == |spans| - 1 - i
  {
    var parentOf := ParentsWithinGroup(group);
    var order := SweepOrder(group);
    SweepOrderIsSound(group);
    spans, ended := EmitSpans(epochWallNs, group, order, parentOf);
  }

  method EmitSpans(epochWallNs: int, ghost group: seq<Record>, order: seq<Record>, parentOf: map<nat, Option<Record>>)
    returns (spans: seq<OtelSpan>, ended: seq<nat>)
    requires UniqueUids(order) && Answered(group, order, |order|, parentOf)
    ensures |spans| == |order| == |ended|
    ensures forall i :: 0 <= i < |order| ==>
              IsEmitted(epochWallNs, order, i, parentOf, spans[i]) && ended[i] == |order| - 1 - i
  {
    spans := [];
    var otelSpans: map<nat, nat> := map[];
    for i := 0 to |order|
      invariant |spans| == i
      invariant forall k :: 0 <= k < i ==> order[k].uid in otelSpans && otelSpans[order[k].uid] == k
      invariant forall k :: 0 <= k < i ==> IsEmitted(epochWallNs, order, k, parentOf, spans[k])
    {
      var record := order[i];
      var context: Option<nat> := None;
      if parentOf[record.uid].Some? {
        var parent := parentOf[record.uid].value;
        assert OpenBefore(order, i, parent);
        ghost var k :| 0 <= k < i && order[k] == parent;
        assert otelSpans[order[k].uid] == k;
        context := Some(otelSpans[parent.uid]);
      }
      var end := WallNs(epochWallNs, record.t);
      otelSpans := otelSpans[record.uid := |spans|];
      spans := spans + [OtelSpan(record.uid, record.name, end - record.dur, end, context)];
    }
    ended := EndInReverse(order, otelSpans);
  }

  method EndInReverse(order: seq<Record>, otelSpans: map<nat, nat>) returns (ended: seq<nat>)
    requires forall k :: 0 <= k < |order| ==> order[k].uid in otelSpans && otelSpans[order[k].uid] == k
    ensures |ended| == |order| && forall k :: 0 <= k < |ended| ==> ended[k] == |order| - 1 - k
  {
    ended := [];
    for i := 0 to |order|
      invariant |ended| == i && forall k :: 0 <= k < i ==> ended[k] == |order| - 1 - k
    {
      ended := ended + [otelSpans[order[|order| - 1 - i].uid]];
    }
  }

  ghost predicate IsEmitted(epochWallNs: int, order: seq<Record>, k: nat, parentOf: map<nat, Option<Record>>,
                            s: OtelSpan)
    requires k < |order| && order[k].uid in parentOf
  {
    && s.uid == order[k].uid && s.name == order[k].name
    && s.end == epochWallNs + order[k].t && s.end - s.start == order[k].dur
    && match parentOf[order[k].uid]
       case None => s.parent == None
       case Some(p) => s.parent.Some? && s.parent.value < k && order[s.parent.value] == p
  }

  /** The closed spans with one correlation id, in the order of the records. */
  function ClosedSpans(records: seq<Record>, cid: nat): seq<Record> {
    Filter(records, (r: Record) => IsClosedSpan(r) && r.cid == cid)
  }

  /** The grouping of `replay_to_tracer_provider`. */
  method GroupByCid(records: seq<Record>) returns (grouped: map<nat, seq<Record>>)
    ensures forall c :: c in grouped <==> ClosedSpans(records, c) != []
    ensures forall c :: c in grouped ==> grouped[c] == ClosedSpans(records, c)
  {
    grouped := map[];
    for i := 0 to |records|
      invariant forall c :: c in grouped <==> ClosedSpans(records[..i], c) != []
      invariant forall c :: c in grouped ==> grouped[c] == ClosedSpans(records[..i], c)
    {
      var r := records[i];
      assert records[..i + 1] == records[..i] + [r];
      forall c
        ensures ClosedSpans(records[..i + 1], c) ==
                ClosedSpans(records[..i], c) + if IsClosedSpan(r) && r.cid == c then [r] else []
      {
        FilterAppend(records[..i], r, (x: Record) => IsClosedSpan(x) && x.cid == c);
      }
      if IsClosedSpan(r) {
        grouped := grouped[r.cid := (if r.cid in grouped then grouped[r.cid] else []) + [r]];
      }
    }
    assert records[..|records|] == records;
  }

  ghost function BeginOf(r: Record): multiset<Key> {
    if r.kind == Span && r.dur == 0 then multiset{KeyOf(r)} else multiset{}
  }

  ghost function EndOf(r: Record): multiset<Key> {
    if r.kind == Span && r.dur != 0 then multiset{KeyOf(r)} else multiset{}
  }

  ghost function Gather(records: seq<Record>, of: Record -> multiset<Key>): multiset<Key> {
    if records == [] then multiset{} else Gather(records[..|records| - 1], of) + of(records[|records| - 1])
  }

  /** The keys of the begin markers, and of the end markers, with multiplicity. */
  ghost function BeginKeys(records: seq<Record>): multiset<Key> { Gather(records, BeginOf) }

  ghost function EndKeys(records: seq<Record>): multiset<Key> { Gather(records, EndOf) }

  function CountIn(m: map<Key, nat>, k: Key): nat { if k in m then m[k] else 0 }

  ghost predicate Tallies(m: map<Key, nat>, keys: multiset<Key>) {
    forall k :: CountIn(m, k) == keys[k]
  }

  lemma TallyGrows(m: map<Key, nat>, keys: multiset<Key>, k: Key)
    requires Tallies(m, keys)
    ensures Tallies(m[k := CountIn(m, k) + 1], keys + multiset{k})
  {}

  /** `_count_unclosed`: key by key, the begin markers in excess of the end markers. */
  method CountUnclosed(records: seq<Record>) returns (count: nat)
    ensures count == |BeginKeys(records) - EndKeys(records)|
  {
    var begins: map<Key, nat>, ends: map<Key, nat> := map[], map[];
    for i := 0 to |records|
      invariant Tallies(begins, BeginKeys(records[..i])) && Tallies(ends, EndKeys(records[..i]))
    {
      var r := records[i];
      assert records[..i + 1][..i] == records[..i];
      if r.kind == Span {
        if r.dur == 0 {
          TallyGrows(begins, BeginKeys(records[..i]), KeyOf(r));
          begins := begins[KeyOf(r) := CountIn(begins, KeyOf(r)) + 1];
        } else {
          TallyGrows(ends, EndKeys(records[..i]), KeyOf(r));
          ends := ends[KeyOf(r) := CountIn(ends, KeyOf(r)) + 1];
        }
      }
    }
    assert records[..|records|] == records;
    count := SumExcess(begins, ends, BeginKeys(records), EndKeys(records));
  }

  /** The closing `sum(max(0, ...))`. */
  method SumExcess(begins: map<Key, nat>, ends: map<Key, nat>, ghost b: multiset<Key>, ghost e: multiset<Key>)
    returns (count: nat)
    requires Tallies(begins, b) && Tallies(ends, e)
    ensures count == |b - e|
  {
    ghost var counted: multiset<Key> := multiset{};
    count := 0;
    var todo := begins.Keys;
    while todo != {}
      invariant todo <= begins.Keys && count == |counted|
      invariant forall k :: counted[k] == if k in todo || k !in begins then 0 else (b - e)[k]
    {
      var k :| k in todo;
      var surplus := if begins[k] > CountIn(ends, k) then begins[k] - CountIn(ends, k) else 0;
      assert CountIn(begins, k) == b[k] && surplus == (b - e)[k];
      counted := counted[k := surplus];
      count := count + surplus;
      todo := todo - {k};
    }
    forall k ensures counted[k] == (b - e)[k] {
      if k !in begins { assert CountIn(begins, k) == 0; }
    }
    assert counted == b - e;
  }

  /** The spans open after `rows`, by key, when every end marker has a positive duration and closes an
      open span with its key; None when the rows are not such a recording.  Any number of threads may
      be interleaved. */
  ghost function OpenKeys(rows: seq<Record>): Option<multiset<Key>> {
    if rows == [] then Some(multiset{})
    else
      var r := rows[|rows| - 1];
      match OpenKeys(rows[..|rows| - 1])
      case None => None
      case Some(open) =>
        if r.kind == Instant then Some(open)
        else if r.dur == 0 then Some(open + multiset{KeyOf(r)})
        else if r.dur > 0 && KeyOf(r) in open then Some(open - multiset{KeyOf(r)})
        else None
  }

  lemma {:induction false} OpenKeysBalance(rows: seq<Record>, k: Key)
    requires OpenKeys(rows).Some?
    ensures BeginKeys(rows)[k] == EndKeys(rows)[k] + OpenKeys(rows).value[k]
  {
    if rows != [] { OpenKeysBalance(rows[..|rows| - 1], k); }
  }

  lemma {:induction false} OpenKeysPrefix(rows: seq<Record>, lo: nat)
    requires OpenKeys(rows).Some? && lo <= |rows|
    ensures OpenKeys(rows[..lo]).Some?
  {
    if lo == |rows| {
      assert rows[..lo] == rows;
    } else {
      OpenKeysPrefix(rows[..|rows| - 1], lo);
      assert rows[..|rows| - 1][..lo] == rows[..lo];
    }
  }

  lemma {:induction false} GatherSplits(a: seq<Record>, b: seq<Record>, of: Record -> multiset<Key>, k: Key)
    ensures Gather(a + b, of)[k] == Gather(a, of)[k] + Gather(b, of)[k]
  {
    if b == [] {
      assert a + b == a;
    } else {
      GatherSplits(a, b[..|b| - 1], of, k);
      assert (a + b)[..|a + b| - 1] == a + b[..|b| - 1];
    }
  }

  lemma SuffixCounts(rows: seq<Record>, lo: nat, of: Record -> multiset<Key>, k: Key)
    requires lo <= |rows|
    ensures Gather(rows, of)[k] == Gather(rows[..lo], of)[k] + Gather(rows[lo..], of)[k]
  {
    GatherSplits(rows[..lo], rows[lo..], of, k);
    assert rows[..lo] + rows[lo..] == rows;
  }

  /** In a suffix, a key's begin markers exceed its end markers by at most the spans open with it. */
  lemma ExcessIsOpen(rows: seq<Record>, lo: nat, k: Key)
    requires OpenKeys(rows).Some? && lo <= |rows|
    ensures BeginKeys(rows[lo..])[k] <= EndKeys(rows[lo..])[k] + OpenKeys(rows).value[k]
    ensures lo == 0 ==> BeginKeys(rows[lo..])[k] == EndKeys(rows[lo..])[k] + OpenKeys(rows).value[k]
  {
    OpenKeysBalance(rows, k);
    if lo == 0 {
      assert rows[lo..] == rows;
    } else {
      OpenKeysPrefix(rows, lo);
      OpenKeysBalance(rows[..lo], k);
      SuffixCounts(rows, lo, BeginOf, k);
      SuffixCounts(rows, lo, EndOf, k);
    }
  }

  /** On any suffix of a recording, which is what eviction and draining leave, the count of unclosed
      spans never exceeds the number truly open; on the whole recording it is exact. */
  lemma UnclosedNeverOverstated(rows: seq<Record>, lo: nat)
    requires OpenKeys(rows).Some? && lo <= |rows|
    ensures |BeginKeys(rows[lo..]) - EndKeys(rows[lo..])| <= |OpenKeys(rows).value|
    ensures lo == 0 ==> |BeginKeys(rows[lo..]) - EndKeys(rows[lo..])| == |OpenKeys(rows).value|
  {
    var open := OpenKeys(rows).value;
    var excess := BeginKeys(rows[lo..]) - EndKeys(rows[lo..]);
    forall k ensures excess[k] <= open[k] && (lo == 0 ==> excess[k] == open[k]) {
      ExcessIsOpen(rows, lo, k);
    }
    SmallerMultiset(excess, open);
    if lo == 0 { assert excess == open; }
  }

  lemma SmallerMultiset(a: multiset<Key>, b: multiset<Key>)
    requires forall k :: a[k] <= b[k]
    ensures |a| <= |b|
  {
    assert b == a + (b - a);
  }
}
