/** The call tree of a chain: which span calls which is decided by the nesting of the closures, however
    often a middleware calls on. */
module CallTrees {
  import opened Prelude
  import opened Records
  import opened CallRuns
  import opened Dispatching

  /** The spans around the handler of a chain, outermost first. */
  function Frames<W, V>(n: Next<W, V>): seq<Key> {
    match n
    case Handler(_) => []
    case Process(_, next) => Frames(next)
    case Spanned(lane, name, cat, cid, inner) => [Key(lane, name, cat, cid)] + Frames(inner)
  }

  /** The span closed at `k` is a call of frame `d`, called by a call of the frame outside it, and so on
      out to frame 0, which was called by `root`. */
  ghost predicate CallsFrame(run: Run, root: Option<nat>, frames: seq<Key>, k: nat, d: nat)
    requires k < |run.closed| && d < |frames|
    decreases d
  {
    && KeyOf(run.closed[k].end) == frames[d]
    && if d == 0 then run.closed[k].caller == root
       else exists m :: k < m < |run.closed| && CalledBy(run, k, m) && CallsFrame(run, root, frames, m, d - 1)
  }

  ghost predicate CalledBy(run: Run, k: nat, m: nat)
    requires k < |run.closed| && m < |run.closed|
  {
    run.closed[k].caller == Some(run.closed[m].serial)
  }

  ghost predicate CallsInner(run: Run, root: Option<nat>, frames: seq<Key>, k: nat, outermost: nat)
    requires k < |run.closed|
  {
    exists d :: outermost <= d < |frames| && CallsFrame(run, root, frames, k, d)
  }

  /** Every span closed between two runs is a call of one of the frames. */
  ghost predicate ClosesFrames(before: Run, after: Run, frames: seq<Key>) {
    && before.closed <= after.closed
    && forall k :: |before.closed| <= k < |after.closed| ==> CallsInner(after, TopSerial(before.stack), frames, k, 0)
  }

  /** The last of them is the one call of the outermost frame. */
  ghost predicate ClosesTree(before: Run, after: Run, frames: seq<Key>) {
    && before.closed < after.closed && frames != []
    && CallsFrame(after, TopSerial(before.stack), frames, |after.closed| - 1, 0)
    && forall k :: |before.closed| <= k < |after.closed| - 1 ==>
         CallsInner(after, TopSerial(before.stack), frames, k, 1)
  }

  lemma TreeClosesFrames(before: Run, after: Run, frames: seq<Key>)
    requires ClosesTree(before, after, frames)
    ensures ClosesFrames(before, after, frames)
  {
    forall k | |before.closed| <= k < |after.closed| ensures CallsInner(after, TopSerial(before.stack), frames, k, 0) {
      if k < |after.closed| - 1 {
        assert CallsInner(after, TopSerial(before.stack), frames, k, 1);
      }
    }
  }

  lemma {:induction false} FrameStays(run: Run, run': Run, root: Option<nat>, frames: seq<Key>, k: nat, d: nat)
    requires run.closed <= run'.closed && k < |run.closed| && d < |frames| && CallsFrame(run, root, frames, k, d)
    ensures CallsFrame(run', root, frames, k, d)
    decreases d
  {
    if d > 0 {
      var m :| k < m < |run.closed| && CalledBy(run, k, m) && CallsFrame(run, root, frames, m, d - 1);
      FrameStays(run, run', root, frames, m, d - 1);
      assert CalledBy(run', k, m);
    }
  }

  lemma FramesStay(before: Run, mid: Run, after: Run, frames: seq<Key>)
    requires ClosesFrames(before, mid, frames) && ClosesFrames(mid, after, frames) && mid.stack == before.stack
    ensures ClosesFrames(before, after, frames)
  {
    var root := TopSerial(before.stack);
    forall k | |before.closed| <= k < |after.closed| ensures CallsInner(after, root, frames, k, 0) {
      if k < |mid.closed| {
        assert CallsInner(mid, root, frames, k, 0);
        var d :| 0 <= d < |frames| && CallsFrame(mid, root, frames, k, d);
        FrameStays(mid, after, root, frames, k, d);
      }
    }
  }

  /** Wrapping one more span around moves every frame one level in. */
  lemma {:induction false} FrameMovesIn(inner: Run, after: Run, serial: nat, root: Option<nat>, key: Key,
                                        frames: seq<Key>, k: nat, d: nat)
    requires |after.closed| == |inner.closed| + 1 && inner.closed <= after.closed
    requires var last := after.closed[|inner.closed|];
             KeyOf(last.end) == key && last.serial == serial && last.caller == root
    requires k < |inner.closed| && d < |frames| && CallsFrame(inner, Some(serial), frames, k, d)
    ensures CallsFrame(after, root, [key] + frames, k, d + 1)
    decreases d
  {
    if d == 0 {
      var m := |inner.closed|;
      assert CalledBy(after, k, m) && CallsFrame(after, root, [key] + frames, m, 0);
    } else {
      var m :| k < m < |inner.closed| && CalledBy(inner, k, m) && CallsFrame(inner, Some(serial), frames, m, d - 1);
      FrameMovesIn(inner, after, serial, root, key, frames, m, d - 1);
      assert CalledBy(after, k, m);
    }
  }

  lemma SpanClosesTree(before: Run, begun: Run, inner: Run, after: Run, serial: nat, key: Key, frames: seq<Key>)
    requires begun.closed == before.closed && TopSerial(begun.stack) == Some(serial)
    requires ClosesFrames(begun, inner, frames)
    requires |after.closed| == |inner.closed| + 1 && inner.closed <= after.closed
    requires var last := after.closed[|inner.closed|];
             KeyOf(last.end) == key && last.serial == serial && last.caller == TopSerial(before.stack)
    ensures ClosesTree(before, after, [key] + frames)
  {
    var root := TopSerial(before.stack);
    forall k | |before.closed| <= k < |inner.closed| ensures CallsInner(after, root, [key] + frames, k, 1) {
      assert CallsInner(inner, Some(serial), frames, k, 0);
      var d :| 0 <= d < |frames| && CallsFrame(inner, Some(serial), frames, k, d);
      FrameMovesIn(inner, after, serial, root, key, frames, k, d);
    }
  }

  ghost function RunOf<W>(epoch: int, cid: nat, sys: System<W>): Run
    requires Recorded(epoch, cid, sys)
  {
    RunAfter(epoch, cid, sys.rows).value
  }

  /** The end row of a span closes the span its begin marker opened. */
  lemma EndClosesIt<W>(epoch: int, cid: nat, sys: System<W>, begun: System<W>, returned: System<W>, now: System<W>,
                       lane: Lane, name: string, cat: string)
    requires JustBegun(epoch, cid, sys, begun, Key(lane, name, cat, cid)) && AppendsCalls(epoch, cid, begun, returned)
    requires now.rows == returned.rows && now.clock > returned.clock
    requires Recorded(epoch, cid, Capture(now, lane, name, cat, cid, now.clock - begun.clock))
    ensures var after := RunOf(epoch, cid, Capture(now, lane, name, cat, cid, now.clock - begun.clock));
            var inner, before := RunOf(epoch, cid, returned), RunOf(epoch, cid, sys);
            && |after.closed| == |inner.closed| + 1 && inner.closed <= after.closed
            && var last := after.closed[|inner.closed|];
               && KeyOf(last.end) == Key(lane, name, cat, cid)
               && last.serial == |sys.rows| && last.caller == TopSerial(before.stack)
  {
    var ended := Capture(now, lane, name, cat, cid, now.clock - begun.clock);
    assert ended.rows[..|ended.rows| - 1] == returned.rows;
  }

  /** Every span a chain closes is a call of one of its frames, with the caller the chain says. */
  lemma {:induction false} InvokeClosesFrames<W, V>(epoch: int, cid: nat, n: Next<W, V>, sys: System<W>,
                                                    gaps: nat -> nat)
    requires Carries(n, cid) && Recorded(epoch, cid, sys)
    ensures AppendsCalls(epoch, cid, sys, Invoke(n, sys, gaps).0)
    ensures ClosesFrames(RunOf(epoch, cid, sys), RunOf(epoch, cid, Invoke(n, sys, gaps).0), Frames(n))
    decreases n, if n.Process? then n.mw.limit + 1 else 1
  {
    InvokeAppendsCalls(epoch, cid, n, sys, gaps);
    match n
    case Handler(_) =>
    case Process(_, _) => ProcessClosesFrames(epoch, cid, n, sys, [], gaps);
    case Spanned(lane, name, cat, _, inner) =>
      SpannedClosesTree(epoch, cid, n, sys, gaps);
      TreeClosesFrames(RunOf(epoch, cid, sys), RunOf(epoch, cid, Invoke(n, sys, gaps).0), Frames(n));
  }

  lemma {:induction false} SpannedClosesTree<W, V>(epoch: int, cid: nat, n: Next<W, V>, sys: System<W>,
                                                   gaps: nat -> nat)
    requires n.Spanned? && Carries(n, cid) && Recorded(epoch, cid, sys)
    ensures AppendsCalls(epoch, cid, sys, Invoke(n, sys, gaps).0)
    ensures ClosesTree(RunOf(epoch, cid, sys), RunOf(epoch, cid, Invoke(n, sys, gaps).0), Frames(n))
    decreases n, 0
  {
    var ticked := Tick(sys, gaps);
    var begun := Capture(ticked, n.lane, n.name, n.cat, cid, 0);
    BeginIsRecorded(epoch, cid, sys, ticked, n.lane, n.name, n.cat);
    InvokeClosesFrames(epoch, cid, n.inner, begun, gaps);
    var returned := Invoke(n.inner, begun, gaps).0;
    var now := Tick(returned, gaps);
    var ended := Capture(now, n.lane, n.name, n.cat, cid, now.clock - begun.clock);
    assert Invoke(n, sys, gaps).0 == ended;
    EndIsRecorded(epoch, cid, sys, begun, returned, now, n.lane, n.name, n.cat);
    EndClosesIt(epoch, cid, sys, begun, returned, now, n.lane, n.name, n.cat);
    SpanClosesTree(RunOf(epoch, cid, sys), RunOf(epoch, cid, begun), RunOf(epoch, cid, returned),
                   RunOf(epoch, cid, ended), |sys.rows|, Key(n.lane, n.name, n.cat, cid), Frames(n.inner));
  }

  lemma {:induction false} ProcessClosesFrames<W, V>(epoch: int, cid: nat, n: Next<W, V>, sys: System<W>,
                                                     outcomes: seq<Outcome<V>>, gaps: nat -> nat)
    requires n.Process? && |outcomes| <= n.mw.limit && Carries(n.next, cid) && Recorded(epoch, cid, sys)
    ensures AppendsCalls(epoch, cid, sys, RunProcess(n, sys, outcomes, gaps).0)
    ensures ClosesFrames(RunOf(epoch, cid, sys), RunOf(epoch, cid, RunProcess(n, sys, outcomes, gaps).0),
                         Frames(n.next))
    decreases n, n.mw.limit - |outcomes|
  {
    ProcessAppendsCalls(epoch, cid, n, sys, outcomes, gaps);
    if |outcomes| < n.mw.limit {
      var r := n.mw.decide(sys.world, outcomes);
      if r.1.CallNext? {
        var s := sys.(world := r.0);
        InvokeClosesFrames(epoch, cid, n.next, s, gaps);
        var called := Invoke(n.next, s, gaps);
        ProcessClosesFrames(epoch, cid, n, called.0, outcomes + [called.1], gaps);
        FramesStay(RunOf(epoch, cid, sys), RunOf(epoch, cid, called.0),
                   RunOf(epoch, cid, RunProcess(n, sys, outcomes, gaps).0), Frames(n.next));
      }
    }
  }
}
