/** The dispatcher: traced and untraced dispatch of a resolved handler, and the call tree that every
    traced dispatch leaves in the history. */
module Dispatchers {
  import opened Prelude
  import opened Records
  import opened CallRuns
  import opened Dispatching
  import opened CallTrees

  /** The chain of a traced dispatch: a total span, a span per middleware, and the handler's. */
  function TracedChain<W, V>(mws: seq<Behaviour<W, V>>, name: string, isQuery: bool, execute: W -> (W, Outcome<V>),
                             cid: nat)
    : Next<W, V>
  {
    Spanned(Dispatch, name, if isQuery then "query" else "command", cid,
            Chain(mws, Spanned(Dispatch, name, "handler", cid, Handler(execute)), Some(cid)))
  }

  /** `_dispatch_traced`, with a fresh correlation id. */
  method DispatchTraced<W, V>(pipeline: MiddlewarePipeline<W, V>, name: string, isQuery: bool,
                              execute: W -> (W, Outcome<V>), sys: System<W>, gaps: nat -> nat)
    returns (after: System<W>, outcome: Outcome<V>)
    ensures (after, outcome) == Invoke(TracedChain(pipeline.middlewares, name, isQuery, execute, sys.lastCid + 1),
                                       sys.(lastCid := sys.lastCid + 1), gaps)
    ensures HasEffect(sys, after, outcome, Meaning(pipeline.middlewares, execute, sys.world))
  {
    var cid := sys.lastCid + 1;
    var msgType := if isQuery then "query" else "command";
    var begun := Capture(Tick(sys.(lastCid := cid), gaps), Dispatch, name, msgType, cid, 0);
    var inner;
    var final := Spanned(Dispatch, name, "handler", cid, Handler(execute));
    assert Erase(final) == Handler(execute);
    inner, outcome := pipeline.Execute(final, Some(cid), begun, gaps);
    var now := Tick(inner, gaps);
    after := Capture(now, Dispatch, name, msgType, cid, now.clock - begun.clock);
  }

  lemma TracedChainErases<W, V>(mws: seq<Behaviour<W, V>>, name: string, isQuery: bool, execute: W -> (W, Outcome<V>),
                                cid: nat)
    ensures Erase(TracedChain(mws, name, isQuery, execute, cid)) == Chain(mws, Handler(execute), None)
    ensures Carries(TracedChain(mws, name, isQuery, execute, cid), cid)
  {
    var final := Spanned(Dispatch, name, "handler", cid, Handler(execute));
    assert Erase(final) == Handler(execute) && Carries(final, cid);
    ChainErases(mws, final, Some(cid));
  }

  /** What a traced dispatch does: to the application exactly what the plain chain does, and to the
      history one finished, properly nested run of calls under one correlation id, even when the
      dispatch raises. */
  lemma TracedDispatchIsTransparent<W, V>(mws: seq<Behaviour<W, V>>, name: string, isQuery: bool,
                                          execute: W -> (W, Outcome<V>), cid: nat, sys: System<W>, sys': System<W>,
                                          gaps: nat -> nat, epoch: int)
    requires SameForApplication(sys, sys')
    ensures var traced := Invoke(TracedChain(mws, name, isQuery, execute, cid), sys, gaps);
            var plain := Invoke(Chain(mws, Handler(execute), None), sys', gaps);
            && SameForApplication(traced.0, plain.0) && traced.1 == plain.1
            && (Recorded(epoch, cid, sys) ==> AppendsCalls(epoch, cid, sys, traced.0))
            && (AllFinished(epoch, sys) ==> AllFinished(epoch, traced.0))
  {
    var chain := TracedChain(mws, name, isQuery, execute, cid);
    TracedChainErases(mws, name, isQuery, execute, cid);
    SpansAreTransparent(chain, sys, sys', gaps);
    if Recorded(epoch, cid, sys) {
      InvokeAppendsCalls(epoch, cid, chain, sys, gaps);
    }
    if AllFinished(epoch, sys) {
      InvokeExtendsHistory(chain, sys, gaps);
      assert Recorded(epoch, cid, sys);
      CallsKeepAllFinished(epoch, cid, sys, Invoke(chain, sys, gaps).0);
    }
  }

  function TotalKey(name: string, isQuery: bool, cid: nat): Key {
    Key(Dispatch, name, if isQuery then "query" else "command", cid)
  }

  /** The frames of a traced dispatch: the total span, one span per middleware from the first to the last,
      and the handler's span. */
  function TracedFrames<W, V>(mws: seq<Behaviour<W, V>>, name: string, isQuery: bool, cid: nat): seq<Key> {
    [TotalKey(name, isQuery, cid)] + MiddlewareKeys(mws, cid) + [Key(Dispatch, name, "handler", cid)]
  }

  function MiddlewareKeys<W, V>(mws: seq<Behaviour<W, V>>, cid: nat): (keys: seq<Key>)
    ensures |keys| == |mws| && forall i :: 0 <= i < |mws| ==> keys[i] == Key(Middleware, mws[i].name, "", cid)
  {
    if mws == [] then [] else [Key(Middleware, mws[0].name, "", cid)] + MiddlewareKeys(mws[1..], cid)
  }

  lemma {:induction false} ChainFrames<W, V>(mws: seq<Behaviour<W, V>>, final: Next<W, V>, cid: nat)
    ensures Frames(Chain(mws, final, Some(cid))) == MiddlewareKeys(mws, cid) + Frames(final)
  {
    if mws != [] { ChainFrames(mws[1..], final, cid); }
  }

  lemma TracedChainFrames<W, V>(mws: seq<Behaviour<W, V>>, name: string, isQuery: bool, execute: W -> (W, Outcome<V>),
                                cid: nat)
    ensures Frames(TracedChain(mws, name, isQuery, execute, cid)) == TracedFrames(mws, name, isQuery, cid)
  {
    var final: Next<W, V> := Spanned(Dispatch, name, "handler", cid, Handler(execute));
    ChainFrames(mws, final, cid);
    assert Frames(final) == [Key(Dispatch, name, "handler", cid)];
  }

  /** Frames of some dispatch: a total span, middleware spans, and the handler's span. */
  ghost predicate IsDispatchFrames(frames: seq<Key>, cid: nat) {
    && |frames| >= 2 && (exists isQuery :: frames[0] == TotalKey(frames[0].name, isQuery, cid))
    && frames[|frames| - 1] == Key(Dispatch, frames[0].name, "handler", cid)
    && forall d :: 1 <= d < |frames| - 1 ==> frames[d] == Key(Middleware, frames[d].name, "", cid)
  }

  /** The finished calls of one dispatch: the total span, closed last, is the only one without a caller;
      the caller of any other call is a call of the frame just outside its own. */
  ghost predicate IsDispatchTree(run: Run, frames: seq<Key>) {
    && run.stack == [] && run.closed != [] && frames != []
    && CallsFrame(run, None, frames, |run.closed| - 1, 0)
    && forall k :: 0 <= k < |run.closed| - 1 ==> CallsInner(run, None, frames, k, 1)
  }

  ghost predicate HoldsDispatch(run: Run, cid: nat) {
    exists frames :: IsDispatchFrames(frames, cid) && IsDispatchTree(run, frames)
  }

  /** The history consists of finished dispatches, one for each correlation id issued. */
  ghost predicate AllDispatches<W>(epoch: int, sys: System<W>) {
    && AllFinished(epoch, sys)
    && (forall i :: 0 <= i < |sys.rows| ==> sys.rows[i].cid <= sys.lastCid)
    && forall cid: nat :: 1 <= cid <= sys.lastCid ==>
         Recorded(epoch, cid, sys) && HoldsDispatch(RunOf(epoch, cid, sys), cid)
  }

  /** Before the first dispatch the history is empty. */
  lemma NothingDispatchedYet<W>(epoch: int, sys: System<W>)
    requires sys.rows == [] && sys.lastCid == 0 && epoch <= sys.clock
    ensures AllDispatches(epoch, sys)
  {
    forall cid: nat ensures Recorded(epoch, cid, sys) && RunAfter(epoch, cid, sys.rows).value.stack == [] {
      assert RunAfter(epoch, cid, []) == Some(Run(epoch, [], [], 0));
    }
  }

  lemma DispatchStays(run: Run, run': Run, cid: nat)
    requires run' == run.(size := run'.size) && HoldsDispatch(run, cid)
    ensures HoldsDispatch(run', cid)
  {
    var frames :| IsDispatchFrames(frames, cid) && IsDispatchTree(run, frames);
    FrameStays(run, run', None, frames, |run.closed| - 1, 0);
    forall k | 0 <= k < |run'.closed| - 1 ensures CallsInner(run', None, frames, k, 1) {
      assert CallsInner(run, None, frames, k, 1);
      var d :| 1 <= d < |frames| && CallsFrame(run, None, frames, k, d);
      FrameStays(run, run', None, frames, k, d);
    }
    assert IsDispatchTree(run', frames);
  }

  /** A correlation id not issued yet has no rows. */
  lemma UnissuedIsEmpty<W>(epoch: int, cid: nat, sys: System<W>)
    requires AllDispatches(epoch, sys) && cid > sys.lastCid
    ensures Recorded(epoch, cid, sys) && RunOf(epoch, cid, sys) == Run(epoch, [], [], |sys.rows|)
  {
    assert Recorded(epoch, cid, sys);
    forall i | 0 <= i < |sys.rows| ensures sys.rows[i].uid == i && !Concerns(sys.rows[i], cid) {
      ClosedAreTheEndRows(epoch, cid, sys.rows);
      assert sys.rows[i].cid <= sys.lastCid;
    }
    assert RunAfter(epoch, cid, []) == Some(Run(epoch, [], [], 0));
    ForeignRowsTakePlaces(epoch, cid, [], sys.rows);
  }

  /** A traced dispatch adds exactly its own call tree, under the correlation id it is issued. */
  lemma TracedDispatchAddsItsTree<W, V>(mws: seq<Behaviour<W, V>>, name: string, isQuery: bool,
                                        execute: W -> (W, Outcome<V>), sys: System<W>, gaps: nat -> nat, epoch: int)
    requires AllDispatches(epoch, sys)
    ensures var cid := sys.lastCid + 1;
            var after := Invoke(TracedChain(mws, name, isQuery, execute, cid), sys.(lastCid := cid), gaps).0;
            && AllDispatches(epoch, after) && after.lastCid == cid
            && IsDispatchTree(RunOf(epoch, cid, after), TracedFrames(mws, name, isQuery, cid))
  {
    var cid := sys.lastCid + 1;
    var chain, start := TracedChain(mws, name, isQuery, execute, cid), sys.(lastCid := cid);
    var after := Invoke(chain, start, gaps).0;
    UnissuedIsEmpty(epoch, cid, sys);
    assert Recorded(epoch, cid, start) && RunOf(epoch, cid, start) == RunOf(epoch, cid, sys);
    TracedChainErases(mws, name, isQuery, execute, cid);
    SpannedClosesTree(epoch, cid, chain, start, gaps);
    TracedChainFrames(mws, name, isQuery, execute, cid);
    var frames := TracedFrames(mws, name, isQuery, cid);
    TracedFramesAreDispatchFrames(mws, name, isQuery, cid);
    assert IsDispatchTree(RunOf(epoch, cid, after), frames);
    InvokeExtendsHistory(chain, start, gaps);
    OthersKeepTheirDispatch(epoch, cid, sys, start, after);
  }

  lemma TracedFramesAreDispatchFrames<W, V>(mws: seq<Behaviour<W, V>>, name: string, isQuery: bool, cid: nat)
    ensures IsDispatchFrames(TracedFrames(mws, name, isQuery, cid), cid)
  {}

  lemma OthersKeepTheirDispatch<W>(epoch: int, cid: nat, sys: System<W>, start: System<W>, after: System<W>)
    requires AllDispatches(epoch, sys) && cid == sys.lastCid + 1 && start == sys.(lastCid := cid)
    requires AppendsCalls(epoch, cid, start, after) && ExtendsHistory(start, after)
    requires HoldsDispatch(RunOf(epoch, cid, after), cid)
    ensures AllDispatches(epoch, after)
  {
    assert AllFinished(epoch, start) by {
      forall c: nat ensures Recorded(epoch, c, start) && RunAfter(epoch, c, start.rows).value.stack == [] {
        assert Recorded(epoch, c, sys);
      }
    }
    CallsKeepAllFinished(epoch, cid, start, after);
    forall i | 0 <= i < |after.rows| ensures after.rows[i].cid <= after.lastCid {
      if i < |sys.rows| { assert after.rows[i] == sys.rows[i]; }
    }
    forall c: nat | 1 <= c <= after.lastCid
      ensures Recorded(epoch, c, after) && HoldsDispatch(RunOf(epoch, c, after), c)
    {
      assert Recorded(epoch, c, after);
      if c != cid {
        assert Recorded(epoch, c, sys) && HoldsDispatch(RunOf(epoch, c, sys), c);
        ForeignRowsTakePlaces(epoch, c, sys.rows, after.rows);
        DispatchStays(RunOf(epoch, c, sys), RunOf(epoch, c, after), c);
      }
    }
  }

  lemma SameRowsSameDispatches<W>(epoch: int, sys: System<W>, after: System<W>)
    requires AllDispatches(epoch, sys) && after.rows == sys.rows && ExtendsHistory(sys, after)
    ensures AllDispatches(epoch, after)
  {
    forall c: nat ensures Recorded(epoch, c, after) && RunAfter(epoch, c, after.rows).value.stack == [] {
      assert Recorded(epoch, c, sys);
    }
    forall c: nat | 1 <= c <= after.lastCid
      ensures Recorded(epoch, c, after) && HoldsDispatch(RunOf(epoch, c, after), c)
    {
      assert Recorded(epoch, c, sys) && HoldsDispatch(RunOf(epoch, c, sys), c);
    }
  }

  /** `dispatch`, once the handler is resolved: the application cannot tell whether tracing is on, and a
      traced dispatch adds its call tree to the history. */
  method DispatchHandler<W, V>(pipeline: MiddlewarePipeline<W, V>, name: string, isQuery: bool,
                               execute: W -> (W, Outcome<V>), traced: bool, sys: System<W>, gaps: nat -> nat,
                               ghost epoch: int)
    returns (after: System<W>, outcome: Outcome<V>)
    ensures HasEffect(sys, after, outcome, Meaning(pipeline.middlewares, execute, sys.world))
    ensures var plain := Invoke(Chain(pipeline.middlewares, Handler(execute), None), sys, gaps);
            SameForApplication(after, plain.0) && outcome == plain.1
    ensures !traced ==> after.rows == sys.rows
    ensures traced && AllFinished(epoch, sys) ==> AllFinished(epoch, after)
    ensures AllDispatches(epoch, sys) ==> AllDispatches(epoch, after)
    ensures AllDispatches(epoch, sys) && traced ==>
              && after.lastCid == sys.lastCid + 1
              && IsDispatchTree(RunOf(epoch, after.lastCid, after),
                                TracedFrames(pipeline.middlewares, name, isQuery, after.lastCid))
  {
    if !traced {
      var chain := Chain(pipeline.middlewares, Handler(execute), None);
      after, outcome := pipeline.Execute(Handler(execute), None, sys, gaps);
      SpansAreTransparent(chain, sys, sys, gaps);
      ChainErases(pipeline.middlewares, Handler(execute), None);
      InvokeExtendsHistory(chain, sys, gaps);
      if AllDispatches(epoch, sys) { SameRowsSameDispatches(epoch, sys, after); }
    } else {
      after, outcome := DispatchTraced(pipeline, name, isQuery, execute, sys, gaps);
      TracedDispatchIsTransparent(pipeline.middlewares, name, isQuery, execute, sys.lastCid + 1,
                                  sys.(lastCid := sys.lastCid + 1), sys, gaps, epoch);
      if AllDispatches(epoch, sys) {
        TracedDispatchAddsItsTree(pipeline.middlewares, name, isQuery, execute, sys, gaps, epoch);
      }
    }
  }
}
