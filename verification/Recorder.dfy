/** The ring-buffer recorder: captures, drains and snapshots, with nothing lost that is not counted. */
module Recorder {
  import opened Prelude
  import opened StableSort
  import opened Records

  type TapId = nat

  datatype Delivery = Delivery(tap: TapId, row: Record)

  /** The calls of the taps `taps` with one row, in order. */
  ghost function Deliveries(taps: seq<TapId>, row: Record): (calls: seq<Delivery>)
    ensures |calls| == |taps| && forall i :: 0 <= i < |taps| ==> calls[i] == Delivery(taps[i], row)
  {
    seq(|taps|, i requires 0 <= i < |taps| => Delivery(taps[i], row))
  }

  class TraceRecorder {
    const capacity: nat
    const epochNs: int
    /** Whether the callback of a tap raises on a row. */
    const raises: (TapId, Record) -> bool
    var buffer: seq<Record>
    var dropped: nat
    var nextCid: nat
    var taps: seq<TapId>
    var tapFailures: nat
    /** How many rows were captured: the identity of the next one. */
    var captured: nat
    /** Everything ever captured, what has left the buffer, how much of that was drained, and every
        call of a tap. */
    ghost var history: seq<Record>
    ghost var gone: seq<Record>
    ghost var drained: nat
    ghost var deliveries: seq<Delivery>

    constructor (capacity: nat, epochNs: int, raises: (TapId, Record) -> bool)
      ensures Valid() && this.capacity == capacity && this.epochNs == epochNs && this.raises == raises
      ensures history == [] && taps == [] && deliveries == [] && dropped == nextCid == 0
    {
      this.capacity, this.epochNs, this.raises := capacity, epochNs, raises;
      buffer, dropped, nextCid, taps, tapFailures, captured := [], 0, 0, [], 0, 0;
      history, gone, drained, deliveries := [], [], 0, [];
    }

    /** What has left, then the buffer, is exactly the capture history; what has left was either
        drained or is counted in `dropped`; and every contained failure of a tap is counted. */
    ghost predicate Valid()
      reads this
    {
      && gone + buffer == history && |buffer| <= capacity
      && |gone| == drained + dropped
      && captured == |history| && (forall i :: 0 <= i < |history| ==> history[i].uid == i)
      && FailuresCounted()
    }

    /** Every call of a tap that raised is counted, once. */
    ghost predicate FailuresCounted()
      reads this
    {
      tapFailures == |Filter(deliveries, (d: Delivery) => raises(d.tap, d.row))|
    }

    /** What one capture does: the row joins the history, every tap is called with it, and at most
        one row leaves, which is counted. */
    twostate predicate Captured(row: Record)
      reads this
    {
      && Valid() && history == old(history) + [row] && row.uid == |old(history)|
      && old(gone) <= gone && |gone| <= |old(gone)| + 1
      && dropped == old(dropped) + (|gone| - |old(gone)|) && drained == old(drained)
      && (dropped == old(dropped) <==> |old(buffer)| < capacity)
      && deliveries == old(deliveries) + Deliveries(taps, row)
    }

    /** The eviction check, the append to the bounded deque and the notification, common to all
        captures.  A full buffer loses its oldest row; with capacity 0 that is the new one. */
    method Append(t: int, kind: RecordKind, lane: Lane, name: string, cat: string, cid: nat, dur: int)
      requires Valid()
      modifies `buffer, `dropped, `tapFailures, `captured, `history, `gone, `deliveries
      ensures Captured(Record(|old(history)|, t, kind, lane, name, cat, cid, dur))
    {
      if |buffer| == capacity {
        dropped := dropped + 1;
      }
      var row := Record(captured, t, kind, lane, name, cat, cid, dur);
      captured := captured + 1;
      history := history + [row];
      buffer := buffer + [row];
      if |buffer| > capacity {
        gone := gone + [buffer[0]];
        buffer := buffer[1..];
      }
      if taps != [] {
        NotifyTaps(row);
      } else {
        assert deliveries + Deliveries(taps, row) == deliveries;
      }
    }

    /** `_notify_taps`: a raising tap is contained and counted, and the others still get the row. */
    method NotifyTaps(row: Record)
      requires FailuresCounted()
      modifies `tapFailures, `deliveries
      ensures FailuresCounted()
      ensures deliveries == old(deliveries) + Deliveries(taps, row)
    {
      for i := 0 to |taps|
        invariant FailuresCounted()
        invariant deliveries == old(deliveries) + Deliveries(taps[..i], row)
      {
        FilterAppend(deliveries, Delivery(taps[i], row), (d: Delivery) => raises(d.tap, d.row));
        deliveries := deliveries + [Delivery(taps[i], row)];
        assert Deliveries(taps[..i + 1], row) == Deliveries(taps[..i], row) + [Delivery(taps[i], row)];
        if raises(taps[i], row) {
          tapFailures := tapFailures + 1;
        }
      }
      assert taps[..|taps|] == taps;
    }

    method Instant(lane: Lane, name: string, cat: string, cid: nat, nowNs: int)
      requires Valid()
      modifies `buffer, `dropped, `tapFailures, `captured, `history, `gone, `deliveries
      ensures Captured(Record(|old(history)|, nowNs - epochNs, RecordKind.Instant, lane, name, cat, cid, 0))
    {
      Append(nowNs - epochNs, RecordKind.Instant, lane, name, cat, cid, 0);
    }

    method SpanBegin(lane: Lane, name: string, cat: string, cid: nat, nowNs: int) returns (started: int)
      requires Valid()
      modifies `buffer, `dropped, `tapFailures, `captured, `history, `gone, `deliveries
      ensures Captured(Record(|old(history)|, nowNs - epochNs, Span, lane, name, cat, cid, 0))
      ensures started == nowNs
    {
      started := nowNs;
      Append(started - epochNs, Span, lane, name, cat, cid, 0);
    }

    /** The duration written is measured from exactly what `SpanBegin` returned. */
    method SpanEnd(lane: Lane, name: string, started: int, cat: string, cid: nat, nowNs: int)
      requires Valid()
      modifies `buffer, `dropped, `tapFailures, `captured, `history, `gone, `deliveries
      ensures Captured(Record(|old(history)|, nowNs - epochNs, Span, lane, name, cat, cid, nowNs - started))
      ensures StartOf(history[|history| - 1]) == started - epochNs
    {
      Append(nowNs - epochNs, Span, lane, name, cat, cid, nowNs - started);
    }

    method NextCid() returns (cid: nat)
      requires Valid()
      modifies `nextCid
      ensures Valid() && cid == nextCid == old(nextCid) + 1
    {
      nextCid := nextCid + 1;
      cid := nextCid;
    }

    /** `drain` takes the oldest rows first, at most `limit` of them; what it returns is what left. */
    method Drain(limit: Option<int>) returns (rows: seq<Record>)
      requires Valid()
      modifies `buffer, `gone, `drained
      ensures Valid() && rows + buffer == old(buffer) && gone == old(gone) + rows
      ensures |rows| == if limit.None? || limit.value > |old(buffer)| then |old(buffer)|
                        else if limit.value < 0 then 0 else limit.value
    {
      var count := if limit.None? then |buffer| else if limit.value < |buffer| then limit.value else |buffer|;
      rows := [];
      var i := 0;
      while i < count
        invariant Valid() && rows + buffer == old(buffer) && gone == old(gone) + rows
        invariant |rows| == i && (i <= count || (i == 0 && count < 0))
      {
        rows := rows + [buffer[0]];
        gone, drained := gone + [buffer[0]], drained + 1;
        buffer := buffer[1..];
        i := i + 1;
      }
    }

    /** `snapshot` returns what is retained: the history without what has left. */
    method Snapshot() returns (rows: seq<Record>)
      requires Valid()
      ensures rows == buffer == history[|gone|..]
    {
      rows := buffer;
    }

    method AddTap(tap: TapId)
      requires Valid()
      modifies `taps
      ensures Valid() && tap in taps
      ensures taps == if tap in old(taps) then old(taps) else old(taps) + [tap]
    {
      if tap !in taps {
        taps := taps + [tap];
      }
    }
  }
}

/** Captures, drains and a client that attaches late, interleaved step by step.

    A capture is two steps, the append to the bounded deque with its eviction and the notification of
    the taps; a drain is any number of single `popleft` steps; between any two of them any thread may
    act.  Rows are named by their place in the capture history. */
module Interleavings {
  import opened Prelude

  datatype State = State(captured: nat, buffer: seq<nat>, removed: seq<nat>, dropped: nat, popped: nat,
                         notifying: set<nat>, delivered: set<nat>, tapped: bool, backlog: Option<Backlog>)

  /** What the client's `snapshot` returned, what had left the buffer by then, and whether the client
      had subscribed before. */
  datatype Backlog = Backlog(rows: seq<nat>, goneBefore: seq<nat>, tapFirst: bool)

  datatype Step =
    | Append                    // some thread appends the next row, evicting the oldest if full
    | Notify(row: nat)          // that thread calls the taps
    | PopLeft                   // some drain takes the oldest row
    | AddTap                    // the client subscribes
    | TakeSnapshot              // the client reads the backlog

  const Start := State(0, [], [], 0, 0, {}, {}, false, None)

  function Do(capacity: nat, s: State, step: Step): Option<State> {
    match step
    case Append =>
      var longer := s.buffer + [s.captured];
      var s' := s.(captured := s.captured + 1, notifying := s.notifying + {s.captured});
      if |s.buffer| == capacity then
        Some(s'.(dropped := s.dropped + 1, removed := s.removed + [longer[0]], buffer := longer[1..]))
      else Some(s'.(buffer := longer))
    case Notify(row) =>
      if row !in s.notifying then None
      else Some(s.(notifying := s.notifying - {row},
                   delivered := if s.tapped then s.delivered + {row} else s.delivered))
    case PopLeft =>
      if s.buffer == [] then None
      else Some(s.(popped := s.popped + 1, removed := s.removed + [s.buffer[0]], buffer := s.buffer[1..]))
    case AddTap => Some(s.(tapped := true))
    case TakeSnapshot =>
      if s.backlog.Some? then None else Some(s.(backlog := Some(Backlog(s.buffer, s.removed, s.tapped))))
  }

  /** The state after a run; None if a step was not possible. */
  function Run(capacity: nat, steps: seq<Step>): Option<State> {
    if steps == [] then Some(Start)
    else match Run(capacity, steps[..|steps| - 1])
         case None => None
         case Some(s) => Do(capacity, s, steps[|steps| - 1])
  }

  ghost function History(s: State): seq<nat> { seq(s.captured, i => i) }

  /** Removed rows followed by the buffer are exactly the history, and every removal is a drain or is
      counted as dropped. */
  ghost predicate Conserved(capacity: nat, s: State) {
    s.removed + s.buffer == History(s) && |s.removed| == s.popped + s.dropped && |s.buffer| <= capacity
  }

  /** Under every interleaving of captures and drains nothing is lost uncounted or reordered. */
  lemma {:induction false} EveryRunConserves(capacity: nat, steps: seq<Step>)
    requires Run(capacity, steps).Some?
    ensures Conserved(capacity, Run(capacity, steps).value)
  {
    if steps != [] {
      EveryRunConserves(capacity, steps[..|steps| - 1]);
      var s := Run(capacity, steps[..|steps| - 1]).value;
      var s' := Run(capacity, steps).value;
      if steps[|steps| - 1].Append? {
        assert History(s') == History(s) + [s.captured];
        assert s'.removed + s'.buffer == s.removed + (s.buffer + [s.captured]);
      }
    }
  }

  /** The client has the row, is about to be called with it, or the row had left before it read. */
  predicate Covered(s: State, row: nat)
    requires s.backlog.Some?
  {
    row in s.delivered || row in s.notifying || row in s.backlog.value.rows || row in s.backlog.value.goneBefore
  }

  ghost predicate ClientSound(s: State) {
    && (forall r :: r in s.notifying || r in s.delivered ==> r < s.captured && (s.tapped || r !in s.delivered))
    && (s.backlog.Some? && s.backlog.value.tapFirst ==> s.tapped && forall r :: 0 <= r < s.captured ==> Covered(s, r))
  }

  lemma {:induction false} RunsKeepClientSound(capacity: nat, steps: seq<Step>)
    requires Run(capacity, steps).Some?
    ensures ClientSound(Run(capacity, steps).value)
  {
    if steps != [] {
      var front := steps[..|steps| - 1];
      RunsKeepClientSound(capacity, front);
      EveryRunConserves(capacity, front);
      var s := Run(capacity, front).value;
      var s' := Run(capacity, steps).value;
      if steps[|steps| - 1].TakeSnapshot? {
        forall r | 0 <= r < s.captured ensures Covered(s', r) {
          assert (s.removed + s.buffer)[r] == r;
        }
      } else if s.backlog.Some? && s.backlog.value.tapFirst {
        forall r | 0 <= r < s'.captured ensures Covered(s', r) {
          if r < s.captured { assert Covered(s, r); }
        }
      }
    }
  }

  /** Tap first, then read the backlog: under every interleaving the client misses no row, other than
      those evicted or drained before it read. */
  lemma TapThenSnapshotMissesNothing(capacity: nat, steps: seq<Step>, row: nat)
    requires Run(capacity, steps).Some?
    requires var s := Run(capacity, steps).value; s.backlog.Some? && s.backlog.value.tapFirst && row < s.captured
    ensures Covered(Run(capacity, steps).value, row)
  {
    RunsKeepClientSound(capacity, steps);
  }

  /** The other order can miss one: whatever came before, a row captured and notified between the read
      and the subscription is lost to the client. */
  lemma SnapshotThenTapCanMiss(capacity: nat, steps: seq<Step>)
    requires Run(capacity, steps).Some?
    requires var s := Run(capacity, steps).value; !s.tapped && s.backlog.None?
    ensures var s := Run(capacity, steps).value;
            var late := steps + [TakeSnapshot, Append, Notify(s.captured), AddTap];
            && Run(capacity, late).Some? && Run(capacity, late).value.backlog.Some?
            && s.captured < Run(capacity, late).value.captured
            && !Covered(Run(capacity, late).value, s.captured)
  {
    RunsKeepClientSound(capacity, steps);
    EveryRunConserves(capacity, steps);
    var s := Run(capacity, steps).value;
    assert forall r :: r in s.removed || r in s.buffer ==> r in History(s);
    var l1 := steps + [TakeSnapshot];
    var l2 := l1 + [Append];
    var l3 := l2 + [Notify(s.captured)];
    var l4 := l3 + [AddTap];
    assert l4 == steps + [TakeSnapshot, Append, Notify(s.captured), AddTap];
    assert l1[..|steps|] == steps && l2[..|l1|] == l1 && l3[..|l2|] == l2 && l4[..|l3|] == l3;
    assert Run(capacity, l1) == Do(capacity, s, TakeSnapshot);
    assert Run(capacity, l2) == Do(capacity, Run(capacity, l1).value, Append);
    assert Run(capacity, l3) == Do(capacity, Run(capacity, l2).value, Notify(s.captured));
    assert Run(capacity, l4) == Do(capacity, Run(capacity, l3).value, AddTap);
  }
}
