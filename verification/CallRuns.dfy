/** What one synchronous chain of calls really did, read off the capture history: a stack of open
    spans, the closed ones, and for each the span that was innermost when it began. */
module CallRuns {
  import opened Prelude
  import opened Records

  /** A span still open.  `serial` is the place of its begin marker in the history. */
  datatype Open = Open(key: Key, start: int, serial: nat, caller: Option<nat>)

  /** A closed span: its end row, and the serials of itself and of its caller. */
  datatype Closed = Closed(end: Record, serial: nat, caller: Option<nat>)

  datatype Run = Run(clock: int, stack: seq<Open>, closed: seq<Closed>, size: nat)

  predicate Concerns(r: Record, cid: nat) { r.kind == Span && r.cid == cid }

  function TopSerial(stack: seq<Open>): Option<nat> {
    if stack == [] then None else Some(stack[|stack| - 1].serial)
  }

  /** The next row of the history, as seen by the chain with correlation id `cid`.  Rows of other
      chains and instants only take a place.  Clock readings of one chain strictly increase. */
  function Feed(run: Run, cid: nat, r: Record): Option<Run> {
    if r.uid != run.size then None
    else if !Concerns(r, cid) then Some(run.(size := run.size + 1))
    else if r.t <= run.clock then None
    else if r.dur == 0 then
      Some(Run(r.t, run.stack + [Open(KeyOf(r), r.t, r.uid, TopSerial(run.stack))], run.closed, run.size + 1))
    else if run.stack == [] then None
    else
      var top := run.stack[|run.stack| - 1];
      if KeyOf(r) == top.key && StartOf(r) == top.start then
        Some(Run(r.t, run.stack[..|run.stack| - 1], run.closed + [Closed(r, top.serial, top.caller)], run.size + 1))
      else None
  }

  /** The run after a whole history that starts when the clock reads `epoch`; None if the rows of
      `cid` are not properly nested calls. */
  function RunAfter(epoch: int, cid: nat, rows: seq<Record>): Option<Run> {
    if rows == [] then Some(Run(epoch, [], [], 0))
    else
      match RunAfter(epoch, cid, rows[..|rows| - 1])
      case None => None
      case Some(run) => Feed(run, cid, rows[|rows| - 1])
  }

  /** The stack holds nested spans, each the caller of the next. */
  ghost predicate StackSound(run: Run) {
    && (forall i :: 0 <= i < |run.stack| ==> run.stack[i].start <= run.clock && run.stack[i].serial < run.size)
    && (forall i, j :: 0 <= i < j < |run.stack| ==>
          run.stack[i].start < run.stack[j].start && run.stack[i].serial < run.stack[j].serial)
    && (run.stack != [] ==> run.stack[0].caller == None)
    && (forall i, j :: 0 <= i < j < |run.stack| && j == i + 1 ==> run.stack[j].caller == Some(run.stack[i].serial))
  }

  /** Closed spans end in order, have positive length, and nest properly among themselves and with
      the open ones. */
  ghost predicate ClosedSound(run: Run) {
    && (forall k :: 0 <= k < |run.closed| ==>
          var e := run.closed[k].end; e.dur > 0 && e.t <= run.clock && e.uid < run.size)
    && (forall j, k :: 0 <= j < k < |run.closed| ==>
          && run.closed[j].end.t < run.closed[k].end.t && run.closed[j].end.uid < run.closed[k].end.uid
          && (run.closed[j].end.t < StartOf(run.closed[k].end)
              || StartOf(run.closed[k].end) < StartOf(run.closed[j].end)))
    && (forall k, i :: 0 <= k < |run.closed| && 0 <= i < |run.stack| ==>
          run.stack[i].start < StartOf(run.closed[k].end) || run.closed[k].end.t < run.stack[i].start)
  }

  ghost predicate SerialsDistinct(run: Run) {
    && (forall k :: 0 <= k < |run.closed| ==> run.closed[k].serial < run.size)
    && (forall j, k :: 0 <= j < k < |run.closed| ==> run.closed[j].serial != run.closed[k].serial)
    && (forall k, i :: 0 <= k < |run.closed| && 0 <= i < |run.stack| ==> run.closed[k].serial != run.stack[i].serial)
  }

  /** No span closed after place `k` surrounds the span at `k`. */
  ghost predicate NoneAround(run: Run, k: nat)
    requires k < |run.closed|
  {
    forall j :: k < j < |run.closed| ==> StartOf(run.closed[k].end) < StartOf(run.closed[j].end)
  }

  /** The i-th open span surrounds the one at `k` and no other span does so more closely. */
  ghost predicate OpenAround(run: Run, k: nat, i: nat)
    requires k < |run.closed| && i < |run.stack|
  {
    && NoneAround(run, k)
    && run.stack[i].start < StartOf(run.closed[k].end)
    && forall j :: i < j < |run.stack| ==> StartOf(run.closed[k].end) < run.stack[j].start
  }

  /** `c` is still open and is the innermost span around the one at `k`. */
  ghost predicate CallerOpen(run: Run, k: nat, c: nat)
    requires k < |run.closed|
  {
    exists i :: 0 <= i < |run.stack| && run.stack[i].serial == c && OpenAround(run, k, i)
  }

  /** The span closed at `m` surrounds the one at `k`, and every other span around that one surrounds
      the span at `m` too. */
  ghost predicate ClosedAround(run: Run, k: nat, m: nat)
    requires k < m < |run.closed|
  {
    && StartOf(run.closed[m].end) < StartOf(run.closed[k].end)
    && (forall j :: k < j < |run.closed| && StartOf(run.closed[j].end) < StartOf(run.closed[k].end) && j != m ==>
          m < j && StartOf(run.closed[j].end) < StartOf(run.closed[m].end))
    && (forall i :: 0 <= i < |run.stack| && run.stack[i].start < StartOf(run.closed[k].end) ==>
          run.stack[i].start < StartOf(run.closed[m].end))
  }

  ghost predicate CallerClosed(run: Run, k: nat, c: nat)
    requires k < |run.closed|
  {
    exists m :: k < m < |run.closed| && run.closed[m].serial == c && ClosedAround(run, k, m)
  }

  /** The recorded caller of the span at `k` is the innermost span around it. */
  ghost predicate Attributed(run: Run, k: nat)
    requires k < |run.closed|
  {
    match run.closed[k].caller
    case None => NoneAround(run, k)
                 && forall i :: 0 <= i < |run.stack| ==> StartOf(run.closed[k].end) < run.stack[i].start
    case Some(c) => CallerOpen(run, k, c) || CallerClosed(run, k, c)
  }

  ghost predicate Nesting(run: Run) {
    StackSound(run) && ClosedSound(run) && SerialsDistinct(run)
  }

  ghost predicate AllAttributed(run: Run) {
    forall k :: 0 <= k < |run.closed| ==> Attributed(run, k)
  }

  /** The three things a row can do. */
  lemma FeedCases(run: Run, cid: nat, r: Record)
    requires Feed(run, cid, r).Some?
    ensures var run' := Feed(run, cid, r).value;
      if !Concerns(r, cid) then run' == run.(size := run.size + 1)
      else if r.dur == 0 then Began(run, run', r)
      else run.stack != [] && Ended(run, run', r)
  {}

  ghost predicate Began(run: Run, run': Run, r: Record) {
    && run'.clock == r.t > run.clock && r.uid == run.size && run'.size == run.size + 1 && run'.closed == run.closed
    && run'.stack == run.stack + [Open(KeyOf(r), r.t, r.uid, TopSerial(run.stack))]
  }

  ghost predicate Ended(run: Run, run': Run, r: Record)
    requires run.stack != []
  {
    var top := run.stack[|run.stack| - 1];
    && run'.clock == r.t > run.clock && r.uid == run.size && run'.size == run.size + 1
    && run'.stack == run.stack[..|run.stack| - 1] && top.start == StartOf(r)
    && run'.closed == run.closed + [Closed(r, top.serial, top.caller)]
  }

  lemma BeginKeepsNesting(run: Run, run': Run, r: Record)
    requires Nesting(run) && Began(run, run', r)
    ensures Nesting(run')
  {
    assert StackSound(run');
    assert ClosedSound(run');
    assert SerialsDistinct(run');
  }

  lemma EndKeepsNesting(run: Run, run': Run, r: Record)
    requires Nesting(run) && run.stack != [] && Ended(run, run', r)
    ensures Nesting(run')
  {
    EndKeepsClosedSound(run, run', r);
    assert StackSound(run') && SerialsDistinct(run');
  }

  lemma EndKeepsClosedSound(run: Run, run': Run, r: Record)
    requires StackSound(run) && ClosedSound(run) && run.stack != [] && Ended(run, run', r)
    ensures ClosedSound(run')
  {}

  lemma BeginKeepsAttributed(run: Run, run': Run, r: Record, k: nat)
    requires Nesting(run) && Began(run, run', r) && k < |run.closed| && Attributed(run, k)
    ensures Attributed(run', k)
  {
    match run.closed[k].caller
    case None =>
    case Some(c) =>
      if CallerOpen(run, k, c) {
        var i :| 0 <= i < |run.stack| && run.stack[i].serial == c && OpenAround(run, k, i);
        assert OpenAround(run', k, i) && run'.stack[i].serial == c;
      } else {
        var m :| k < m < |run.closed| && run.closed[m].serial == c && ClosedAround(run, k, m);
        LaterBeginIsNotAround(run, run', r, k, m);
      }
  }

  lemma LaterBeginIsNotAround(run: Run, run': Run, r: Record, k: nat, m: nat)
    requires Nesting(run) && Began(run, run', r) && k < m < |run.closed| && ClosedAround(run, k, m)
    ensures ClosedAround(run', k, m)
  {}

  lemma EndKeepsAttributed(run: Run, run': Run, r: Record, k: nat)
    requires Nesting(run) && run.stack != [] && Ended(run, run', r) && k < |run.closed| && Attributed(run, k)
    ensures Attributed(run', k)
  {
    var n := |run.closed|;
    assert run'.closed[k] == run.closed[k] && run'.closed[n].end == r;
    match run.closed[k].caller
    case None => assert NoneAround(run', k);
    case Some(c) =>
      if CallerOpen(run, k, c) {
        var i :| 0 <= i < |run.stack| && run.stack[i].serial == c && OpenAround(run, k, i);
        if i == |run.stack| - 1 {
          assert ClosedAround(run', k, n) && run'.closed[n].serial == c;
        } else {
          assert NoneAround(run', k);
          assert OpenAround(run', k, i) && run'.stack[i].serial == c;
        }
      } else {
        var m :| k < m < |run.closed| && run.closed[m].serial == c && ClosedAround(run, k, m);
        ClosedStaysAround(run, run', r, k, m);
      }
  }

  lemma ClosedStaysAround(run: Run, run': Run, r: Record, k: nat, m: nat)
    requires Nesting(run) && run.stack != [] && Ended(run, run', r) && k < m < |run.closed| && ClosedAround(run, k, m)
    ensures ClosedAround(run', k, m) && run'.closed[m] == run.closed[m]
  {
    assert forall j :: 0 <= j < |run.closed| ==> run'.closed[j] == run.closed[j];
    assert run'.closed[|run.closed|].end == r;
    assert run.stack[|run.stack| - 1].start == StartOf(r);
  }

  lemma EndAttributes(run: Run, run': Run, r: Record)
    requires Nesting(run) && run.stack != [] && Ended(run, run', r)
    ensures Attributed(run', |run.closed|)
  {
    var n := |run.closed|;
    assert NoneAround(run', n);
    if |run.stack| > 1 {
      var i := |run.stack| - 2;
      assert run'.stack[i] == run.stack[i] && run.stack[i + 1] == run.stack[|run.stack| - 1];
      assert OpenAround(run', n, i) && run'.closed[n].caller == Some(run'.stack[i].serial);
    }
  }

  lemma FeedKeepsSound(run: Run, cid: nat, r: Record)
    requires Nesting(run) && AllAttributed(run) && Feed(run, cid, r).Some?
    ensures Nesting(Feed(run, cid, r).value) && AllAttributed(Feed(run, cid, r).value)
  {
    var run' := Feed(run, cid, r).value;
    FeedCases(run, cid, r);
    if !Concerns(r, cid) {
      forall k | 0 <= k < |run'.closed| ensures Attributed(run', k) {
        GrowingKeepsAttributed(run, run', k);
      }
    } else if r.dur == 0 {
      BeginKeepsNesting(run, run', r);
      assert |run'.closed| == |run.closed|;
      forall k | 0 <= k < |run'.closed| ensures Attributed(run', k) {
        BeginKeepsAttributed(run, run', r, k);
      }
    } else {
      EndKeepsNesting(run, run', r);
      forall k | 0 <= k < |run'.closed| ensures Attributed(run', k) {
        if k < |run.closed| { EndKeepsAttributed(run, run', r, k); } else { EndAttributes(run, run', r); }
      }
    }
  }

  lemma GrowingKeepsAttributed(run: Run, run': Run, k: nat)
    requires run' == run.(size := run'.size) && k < |run.closed| && Attributed(run, k)
    ensures Attributed(run', k)
  {
    if run.closed[k].caller.Some? {
      var c := run.closed[k].caller.value;
      if CallerOpen(run, k, c) {
        var i :| 0 <= i < |run.stack| && run.stack[i].serial == c && OpenAround(run, k, i);
        assert OpenAround(run', k, i);
      } else {
        var m :| k < m < |run.closed| && run.closed[m].serial == c && ClosedAround(run, k, m);
        assert ClosedAround(run', k, m);
      }
    }
  }

  /** Every recorded history of properly nested calls is properly nested in time, and every closed span
      is attributed to the innermost span around it. */
  lemma {:induction false} RunIsSound(epoch: int, cid: nat, rows: seq<Record>)
    requires RunAfter(epoch, cid, rows).Some?
    ensures Nesting(RunAfter(epoch, cid, rows).value) && AllAttributed(RunAfter(epoch, cid, rows).value)
  {
    if rows != [] {
      RunIsSound(epoch, cid, rows[..|rows| - 1]);
      FeedKeepsSound(RunAfter(epoch, cid, rows[..|rows| - 1]).value, cid, rows[|rows| - 1]);
    }
  }

  ghost predicate HasClosed(run: Run, r: Record) {
    exists k :: 0 <= k < |run.closed| && run.closed[k].end == r
  }

  lemma FeedClosesEndRows(run: Run, cid: nat, row: Record, r: Record)
    requires Nesting(run) && Feed(run, cid, row).Some?
    ensures HasClosed(Feed(run, cid, row).value, r) <==>
              HasClosed(run, r) || (r == row && IsClosedSpan(row) && row.cid == cid)
  {
    var run' := Feed(run, cid, row).value;
    FeedCases(run, cid, row);
    if HasClosed(run, r) {
      var k :| 0 <= k < |run.closed| && run.closed[k].end == r;
      assert run'.closed[k].end == r;
    }
    if Concerns(row, cid) && row.dur != 0 {
      assert run'.closed[|run.closed|].end == row;
      assert run.stack[|run.stack| - 1].start <= run.clock;
    }
  }

  lemma {:induction false} RowsAreNumbered(epoch: int, cid: nat, rows: seq<Record>)
    requires RunAfter(epoch, cid, rows).Some?
    ensures RunAfter(epoch, cid, rows).value.size == |rows|
    ensures forall i :: 0 <= i < |rows| ==> rows[i].uid == i
  {
    if rows != [] { RowsAreNumbered(epoch, cid, rows[..|rows| - 1]); }
  }

  lemma {:induction false} ClosedIsAnEndRow(epoch: int, cid: nat, rows: seq<Record>, r: Record)
    requires RunAfter(epoch, cid, rows).Some?
    ensures HasClosed(RunAfter(epoch, cid, rows).value, r) <==> r in rows && IsClosedSpan(r) && r.cid == cid
  {
    if rows != [] {
      var front, last := rows[..|rows| - 1], rows[|rows| - 1];
      assert rows == front + [last];
      ClosedIsAnEndRow(epoch, cid, front, r);
      RunIsSound(epoch, cid, front);
      FeedClosesEndRows(RunAfter(epoch, cid, front).value, cid, last, r);
    }
  }

  /** The closed spans are exactly the rows with a positive duration. */
  lemma ClosedAreTheEndRows(epoch: int, cid: nat, rows: seq<Record>)
    requires RunAfter(epoch, cid, rows).Some?
    ensures var run := RunAfter(epoch, cid, rows).value;
      && run.size == |rows| && (forall i :: 0 <= i < |rows| ==> rows[i].uid == i)
      && (forall r :: (r in rows && IsClosedSpan(r) && r.cid == cid) <==> HasClosed(run, r))
  {
    RowsAreNumbered(epoch, cid, rows);
    forall r ensures HasClosed(RunAfter(epoch, cid, rows).value, r) <==> r in rows && IsClosedSpan(r) && r.cid == cid {
      ClosedIsAnEndRow(epoch, cid, rows, r);
    }
  }
}
