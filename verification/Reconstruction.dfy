/** From capture to export: the parents the exporter rebuilds are the true callers, whatever the ring
    buffer has evicted. */
module Reconstruction {
  import opened Prelude
  import opened StableSort
  import opened Records
  import opened CallRuns
  import opened Otel
  import opened Dispatching
  import opened CallTrees
  import opened Dispatchers
  import opened Recorder

  /** The end row of the caller of the span closed at `k`, if the caller has closed. */
  ghost function TrueParent(run: Run, k: nat): Option<Record>
    requires k < |run.closed|
  {
    if m: nat :| m < |run.closed| && run.closed[k].caller == Some(run.closed[m].serial) then Some(run.closed[m].end)
    else None
  }

  lemma TrueParentIs(run: Run, k: nat, m: nat)
    requires SerialsDistinct(run) && k < |run.closed| && m < |run.closed|
    requires run.closed[k].caller == Some(run.closed[m].serial)
    ensures TrueParent(run, k) == Some(run.closed[m].end)
  {}

  lemma SurvivorsAreUnique(rows: seq<Record>, lo: nat, cid: nat)
    requires lo <= |rows| && forall i :: 0 <= i < |rows| ==> rows[i].uid == i
    ensures UniqueUids(ClosedSpans(rows[lo..], cid))
  {
    var group := ClosedSpans(rows[lo..], cid);
    FilterIsSubsequence(rows[lo..], (r: Record) => IsClosedSpan(r) && r.cid == cid);
    FilterKeepsDistinct(rows[lo..], (r: Record) => IsClosedSpan(r) && r.cid == cid);
    forall i, j | 0 <= i < j < |group| ensures group[i].uid != group[j].uid {
      assert group[i] in group && group[j] in group;
      assert group[i] in rows && group[j] in rows;
    }
  }

  /** What survives of the group: the spans whose end row is at or after `lo`. */
  lemma SurvivingGroup(epoch: int, cid: nat, rows: seq<Record>, lo: nat)
    requires RunAfter(epoch, cid, rows).Some? && lo <= |rows|
    ensures var run, group := RunAfter(epoch, cid, rows).value, ClosedSpans(rows[lo..], cid);
      && UniqueUids(group)
      && (forall r :: r in group ==> exists k :: 0 <= k < |run.closed| && run.closed[k].end == r)
      && (forall k :: 0 <= k < |run.closed| && run.closed[k].end.uid >= lo ==> run.closed[k].end in group)
  {
    var run, group := RunAfter(epoch, cid, rows).value, ClosedSpans(rows[lo..], cid);
    ClosedAreTheEndRows(epoch, cid, rows);
    FilterIsSubsequence(rows[lo..], (r: Record) => IsClosedSpan(r) && r.cid == cid);
    SurvivorsAreUnique(rows, lo, cid);
    forall r | r in group ensures exists k :: 0 <= k < |run.closed| && run.closed[k].end == r {
      assert r in rows && IsClosedSpan(r) && r.cid == cid;
    }
    forall k | 0 <= k < |run.closed| && run.closed[k].end.uid >= lo ensures run.closed[k].end in group {
      var e := run.closed[k].end;
      assert e in rows && IsClosedSpan(e) && e.cid == cid;
      assert rows[e.uid] == e && rows[lo..][e.uid - lo] == e;
    }
  }

  lemma SurvivorsAreLaminar(epoch: int, cid: nat, rows: seq<Record>, lo: nat)
    requires RunAfter(epoch, cid, rows).Some? && lo <= |rows|
    ensures Laminar(ClosedSpans(rows[lo..], cid))
  {
    var run, group := RunAfter(epoch, cid, rows).value, ClosedSpans(rows[lo..], cid);
    RunIsSound(epoch, cid, rows);
    SurvivingGroup(epoch, cid, rows, lo);
    forall r | r in group ensures r.dur > 0 {
      var k :| 0 <= k < |run.closed| && run.closed[k].end == r;
    }
    forall p, c | p in group && c in group && p.uid != c.uid
      ensures !SameInterval(p, c) && (Encloses(p, c) || Encloses(c, p) || Disjoint(p, c))
    {
      var i :| 0 <= i < |run.closed| && run.closed[i].end == p;
      var j :| 0 <= j < |run.closed| && run.closed[j].end == c;
      assert i != j;
    }
  }

  /** The true caller, if it has closed, is the innermost surviving span around a surviving span; if
      it has not, no surviving span is around it. */
  lemma TrueCallerIsInnermost(epoch: int, cid: nat, rows: seq<Record>, lo: nat, k: nat)
    requires RunAfter(epoch, cid, rows).Some? && lo <= |rows|
    requires var run := RunAfter(epoch, cid, rows).value; k < |run.closed| && run.closed[k].end.uid >= lo
    ensures var run := RunAfter(epoch, cid, rows).value;
            IsInnermost(ClosedSpans(rows[lo..], cid), run.closed[k].end, TrueParent(run, k))
  {
    var run, group := RunAfter(epoch, cid, rows).value, ClosedSpans(rows[lo..], cid);
    RunIsSound(epoch, cid, rows);
    SurvivingGroup(epoch, cid, rows, lo);
    var e := run.closed[k].end;
    forall q | q in group && Encloses(q, e)
      ensures exists j :: k < j < |run.closed| && run.closed[j].end == q && StartOf(q) < StartOf(e)
    {
      var j :| 0 <= j < |run.closed| && run.closed[j].end == q;
      assert j != k;
    }
    assert Attributed(run, k);
    match run.closed[k].caller
    case None =>
    case Some(c) =>
      if CallerOpen(run, k, c) {
        var i :| 0 <= i < |run.stack| && run.stack[i].serial == c && OpenAround(run, k, i);
      } else {
        var m :| k < m < |run.closed| && run.closed[m].serial == c && ClosedAround(run, k, m);
        TrueParentIs(run, k, m);
        ClosedCallerIsInnermost(run, group, k, m);
      }
  }

  lemma ClosedCallerIsInnermost(run: Run, group: seq<Record>, k: nat, m: nat)
    requires Nesting(run) && k < m < |run.closed| && ClosedAround(run, k, m) && run.closed[m].end in group
    requires forall q :: q in group && Encloses(q, run.closed[k].end) ==>
      exists j :: k < j < |run.closed| && run.closed[j].end == q && StartOf(q) < StartOf(run.closed[k].end)
    ensures IsInnermost(group, run.closed[k].end, Some(run.closed[m].end))
  {
    var e, x := run.closed[k].end, run.closed[m].end;
    forall q | q in group && Encloses(q, e) && q != x ensures Encloses(q, x) {
      var j :| k < j < |run.closed| && run.closed[j].end == q && StartOf(q) < StartOf(e);
      assert j != m;
    }
  }

  /** The sweep over any surviving suffix of the capture history gives each surviving closed span its
      true caller if that caller has closed, and no parent otherwise.  Eviction changes nothing,
      because an inner end row precedes the outer one. */
  lemma SweepFindsTrueCallers(epoch: int, cid: nat, rows: seq<Record>, lo: nat, parentOf: map<nat, Option<Record>>)
    requires RunAfter(epoch, cid, rows).Some? && lo <= |rows|
    requires var group := ClosedSpans(rows[lo..], cid);
             forall r :: r in group ==> r.uid in parentOf && (Laminar(group) ==> IsInnermost(group, r, parentOf[r.uid]))
    ensures var run := RunAfter(epoch, cid, rows).value;
            forall k :: 0 <= k < |run.closed| && run.closed[k].end.uid >= lo ==>
              run.closed[k].end.uid in parentOf && parentOf[run.closed[k].end.uid] == TrueParent(run, k)
  {
    var run, group := RunAfter(epoch, cid, rows).value, ClosedSpans(rows[lo..], cid);
    SurvivingGroup(epoch, cid, rows, lo);
    SurvivorsAreLaminar(epoch, cid, rows, lo);
    forall k | 0 <= k < |run.closed| && run.closed[k].end.uid >= lo
      ensures run.closed[k].end.uid in parentOf && parentOf[run.closed[k].end.uid] == TrueParent(run, k)
    {
      TrueCallerIsInnermost(epoch, cid, rows, lo, k);
      InnermostIsUnique(group, run.closed[k].end, parentOf[run.closed[k].end.uid], TrueParent(run, k));
    }
  }

  /** The parent of the span closed at `k` in a dispatch: the total span, closed last, has none, and the
      parent of any other is the call of the frame just outside its own that called it. */
  ghost predicate ParentIsCaller(run: Run, frames: seq<Key>, k: nat, parent: Option<Record>)
    requires k < |run.closed|
  {
    if k == |run.closed| - 1 then parent == None
    else exists d, m :: 1 <= d < |frames| && k < m < |run.closed| && CalledBy(run, k, m)
                        && CallsFrame(run, None, frames, k, d) && CallsFrame(run, None, frames, m, d - 1)
                        && parent == Some(run.closed[m].end)
  }

  lemma TrueParentIsCaller(run: Run, frames: seq<Key>, k: nat)
    requires SerialsDistinct(run) && IsDispatchTree(run, frames) && k < |run.closed|
    ensures ParentIsCaller(run, frames, k, TrueParent(run, k))
  {
    if k < |run.closed| - 1 {
      assert CallsInner(run, None, frames, k, 1);
      var d :| 1 <= d < |frames| && CallsFrame(run, None, frames, k, d);
      var m :| k < m < |run.closed| && CalledBy(run, k, m) && CallsFrame(run, None, frames, m, d - 1);
      TrueParentIs(run, k, m);
    }
  }

  /** End to end: in a history of finished dispatches, whatever has been evicted, each surviving span of a
      dispatch gets as its parent the span that called it, the middleware outside it or the total span;
      the total span, and it alone, gets none. */
  lemma DispatchedSpansFindTheirCallers<W>(epoch: int, cid: nat, sys: System<W>, lo: nat,
                                           parentOf: map<nat, Option<Record>>)
    returns (frames: seq<Key>)
    requires AllDispatches(epoch, sys) && 1 <= cid <= sys.lastCid && lo <= |sys.rows|
    requires var group := ClosedSpans(sys.rows[lo..], cid);
             forall r :: r in group ==> r.uid in parentOf && (Laminar(group) ==> IsInnermost(group, r, parentOf[r.uid]))
    ensures Recorded(epoch, cid, sys) && IsDispatchFrames(frames, cid)
    ensures IsDispatchTree(RunOf(epoch, cid, sys), frames)
    ensures var run := RunOf(epoch, cid, sys);
            forall k :: 0 <= k < |run.closed| && run.closed[k].end.uid >= lo ==>
              && run.closed[k].end.uid in parentOf
              && ParentIsCaller(run, frames, k, parentOf[run.closed[k].end.uid])
  {
    assert Recorded(epoch, cid, sys) && HoldsDispatch(RunOf(epoch, cid, sys), cid);
    var run := RunOf(epoch, cid, sys);
    frames :| IsDispatchFrames(frames, cid) && IsDispatchTree(run, frames);
    SweepFindsTrueCallers(epoch, cid, sys.rows, lo, parentOf);
    RunIsSound(epoch, cid, sys.rows);
    forall k | 0 <= k < |run.closed| && run.closed[k].end.uid >= lo
      ensures ParentIsCaller(run, frames, k, parentOf[run.closed[k].end.uid])
    {
      TrueParentIsCaller(run, frames, k);
    }
  }

  /** The i-th emitted span is that of `e`, at its place on the wall clock, and its parent that of
      `parent`. */
  ghost predicate IsSpanOf(epochWallNs: int, spans: seq<OtelSpan>, i: nat, e: Record, parent: Option<Record>)
    requires i < |spans|
  {
    && spans[i].uid == e.uid && spans[i].name == e.name
    && spans[i].end == epochWallNs + e.t && spans[i].start == epochWallNs + StartOf(e)
    && match parent
       case None => spans[i].parent == None
       case Some(p) => spans[i].parent.Some? && spans[i].parent.value < i && spans[spans[i].parent.value].uid == p.uid
  }

  ghost predicate EmitsTrueCaller(epochWallNs: int, run: Run, k: nat, spans: seq<OtelSpan>)
    requires k < |run.closed|
  {
    exists i :: 0 <= i < |spans| && IsSpanOf(epochWallNs, spans, i, run.closed[k].end, TrueParent(run, k))
  }

  lemma EmittedSpansFindTrueCallers(epoch: int, cid: nat, rows: seq<Record>, lo: nat, epochWallNs: int,
                                    spans: seq<OtelSpan>)
    requires RunAfter(epoch, cid, rows).Some? && lo <= |rows|
    requires EmitsGroup(epochWallNs, ClosedSpans(rows[lo..], cid), spans)
    ensures var run := RunAfter(epoch, cid, rows).value;
            forall k :: 0 <= k < |run.closed| && run.closed[k].end.uid >= lo ==>
              EmitsTrueCaller(epochWallNs, run, k, spans)
  {
    var run, group := RunAfter(epoch, cid, rows).value, ClosedSpans(rows[lo..], cid);
    var order := SweepOrder(group);
    SurvivingGroup(epoch, cid, rows, lo);
    SurvivorsAreLaminar(epoch, cid, rows, lo);
    SweepOrderIsSound(group);
    forall k | 0 <= k < |run.closed| && run.closed[k].end.uid >= lo
      ensures EmitsTrueCaller(epochWallNs, run, k, spans)
    {
      var e := run.closed[k].end;
      var i :| 0 <= i < |order| && order[i] == e;
      assert EmitsSpan(epochWallNs, group, order, i, spans[i]);
      TrueCallerIsInnermost(epoch, cid, rows, lo, k);
      var rebuilt := if spans[i].parent.Some? then Some(order[spans[i].parent.value]) else None;
      InnermostIsUnique(group, e, rebuilt, TrueParent(run, k));
      if rebuilt.Some? {
        assert EmitsSpan(epochWallNs, group, order, spans[i].parent.value, spans[spans[i].parent.value]);
      }
      assert IsSpanOf(epochWallNs, spans, i, e, TrueParent(run, k));
    }
  }

  /** Replaying a live recorder: what its ring buffer has kept is grouped, swept and emitted.  Whatever
      it has evicted or drained, each surviving span of a chain of calls gets its true caller as parent if
      that has closed, and none otherwise; and the count of unclosed spans is never too high. */
  method ReplayRecorder(recorder: TraceRecorder, epochWallNs: int, ghost epoch: int)
    returns (emitted: map<nat, seq<OtelSpan>>, unclosed: nat)
    requires recorder.Valid()
    ensures forall cid: nat :: cid != 0 && RunAfter(epoch, cid, recorder.history).Some? ==>
              Replays(epochWallNs, epoch, cid, recorder.history, |recorder.gone|, emitted)
    ensures OpenKeys(recorder.history).Some? ==>
              && unclosed <= |OpenKeys(recorder.history).value|
              && (recorder.gone == [] ==> unclosed == |OpenKeys(recorder.history).value|)
  {
    var records := recorder.Snapshot();
    ghost var rows, lo := recorder.history, |recorder.gone|;
    unclosed := CountUnclosed(records);
    if OpenKeys(rows).Some? { UnclosedNeverOverstated(rows, lo); }
    var grouped := GroupByCid(records);
    emitted := EmitGroups(grouped, epochWallNs, rows, lo);
    forall cid: nat | cid != 0 && RunAfter(epoch, cid, rows).Some?
      ensures Replays(epochWallNs, epoch, cid, rows, lo, emitted)
    {
      SurvivingGroup(epoch, cid, rows, lo);
      if cid in grouped { EmittedSpansFindTrueCallers(epoch, cid, rows, lo, epochWallNs, emitted[cid]); }
    }
  }

  ghost predicate Replays(epochWallNs: int, epoch: int, cid: nat, rows: seq<Record>, lo: nat,
                          emitted: map<nat, seq<OtelSpan>>)
    requires RunAfter(epoch, cid, rows).Some?
  {
    var run := RunAfter(epoch, cid, rows).value;
    forall k :: 0 <= k < |run.closed| && run.closed[k].end.uid >= lo ==>
      cid in emitted && EmitsTrueCaller(epochWallNs, run, k, emitted[cid])
  }

  /** The span closed at `k` is emitted, with a parent as the call tree of its dispatch says. */
  ghost predicate EmitsItsCaller(epochWallNs: int, run: Run, frames: seq<Key>, k: nat, spans: seq<OtelSpan>)
    requires k < |run.closed|
  {
    exists i, parent :: 0 <= i < |spans| && ParentIsCaller(run, frames, k, parent)
                        && IsSpanOf(epochWallNs, spans, i, run.closed[k].end, parent)
  }

  /** The history holds one dispatch with this correlation id, and each of its spans from `lo` on is
      emitted under the span that called it; the total span, and it alone, without a parent. */
  ghost predicate ReplaysDispatch(epochWallNs: int, epoch: int, cid: nat, rows: seq<Record>, lo: nat,
                                  emitted: map<nat, seq<OtelSpan>>)
    requires RunAfter(epoch, cid, rows).Some?
  {
    var run := RunAfter(epoch, cid, rows).value;
    exists frames :: IsDispatchFrames(frames, cid) && IsDispatchTree(run, frames) &&
      forall k :: 0 <= k < |run.closed| && run.closed[k].end.uid >= lo ==>
        cid in emitted && EmitsItsCaller(epochWallNs, run, frames, k, emitted[cid])
  }

  /** From dispatch to export: replaying a recorder whose history is that of finished dispatches. */
  method ReplayDispatches<W>(recorder: TraceRecorder, epochWallNs: int, ghost epoch: int, ghost sys: System<W>)
    returns (emitted: map<nat, seq<OtelSpan>>, unclosed: nat)
    requires recorder.Valid() && recorder.history == sys.rows && AllDispatches(epoch, sys)
    ensures forall cid: nat :: 1 <= cid <= sys.lastCid ==>
              && Recorded(epoch, cid, sys)
              && ReplaysDispatch(epochWallNs, epoch, cid, sys.rows, |recorder.gone|, emitted)
  {
    emitted, unclosed := ReplayRecorder(recorder, epochWallNs, epoch);
    forall cid: nat | 1 <= cid <= sys.lastCid
      ensures Recorded(epoch, cid, sys) && ReplaysDispatch(epochWallNs, epoch, cid, sys.rows, |recorder.gone|, emitted)
    {
      assert Recorded(epoch, cid, sys) && HoldsDispatch(RunOf(epoch, cid, sys), cid);
      assert Replays(epochWallNs, epoch, cid, sys.rows, |recorder.gone|, emitted);
      ReplayedIsDispatched(epochWallNs, epoch, cid, sys.rows, |recorder.gone|, emitted);
    }
  }

  lemma ReplayedIsDispatched(epochWallNs: int, epoch: int, cid: nat, rows: seq<Record>, lo: nat,
                             emitted: map<nat, seq<OtelSpan>>)
    requires RunAfter(epoch, cid, rows).Some? && HoldsDispatch(RunAfter(epoch, cid, rows).value, cid)
    requires Replays(epochWallNs, epoch, cid, rows, lo, emitted)
    ensures ReplaysDispatch(epochWallNs, epoch, cid, rows, lo, emitted)
  {
    var run := RunAfter(epoch, cid, rows).value;
    var frames :| IsDispatchFrames(frames, cid) && IsDispatchTree(run, frames);
    RunIsSound(epoch, cid, rows);
    forall k | 0 <= k < |run.closed| && run.closed[k].end.uid >= lo
      ensures cid in emitted && EmitsItsCaller(epochWallNs, run, frames, k, emitted[cid])
    {
      TrueParentIsCaller(run, frames, k);
      var i :| 0 <= i < |emitted[cid]| && IsSpanOf(epochWallNs, emitted[cid], i, run.closed[k].end, TrueParent(run, k));
    }
  }

  /** The loop over the groups; group 0 is emitted by another path. */
  method EmitGroups(grouped: map<nat, seq<Record>>, epochWallNs: int, ghost rows: seq<Record>, ghost lo: nat)
    returns (emitted: map<nat, seq<OtelSpan>>)
    requires lo <= |rows| && forall i :: 0 <= i < |rows| ==> rows[i].uid == i
    requires forall cid :: cid in grouped ==> grouped[cid] == ClosedSpans(rows[lo..], cid)
    ensures forall cid :: cid in emitted <==> cid in grouped && cid != 0
    ensures forall cid :: cid in emitted ==> EmitsGroup(epochWallNs, grouped[cid], emitted[cid])
  {
    emitted := map[];
    var todo := grouped.Keys;
    while todo != {}
      invariant todo <= grouped.Keys
      invariant forall cid :: cid in emitted <==> cid in grouped && cid != 0 && cid !in todo
      invariant forall cid :: cid in emitted ==> EmitsGroup(epochWallNs, grouped[cid], emitted[cid])
    {
      var cid :| cid in todo;
      if cid != 0 {
        SurvivorsAreUnique(rows, lo, cid);
        var spans, _ := EmitGroup(epochWallNs, grouped[cid]);
        emitted := emitted[cid := spans];
      }
      todo := todo - {cid};
    }
  }
}
