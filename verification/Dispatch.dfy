/** The middleware pipeline and the traced dispatch.

    The closures the source builds (`functools.partial`, `_traced_frame`, `final`) are the data type
    Next, and `Invoke` is what calling one does. */
module Dispatching {
  import opened Prelude
  import opened Records
  import opened CallRuns

  datatype Outcome<V> = Returned(value: V) | Raised(error: V)

  datatype Decision<V> = CallNext | Finish(outcome: Outcome<V>)

  /** A middleware's `process`: given the application state and the outcomes of its calls of
      `next_handler` so far, it changes the state and either calls again or finishes.  After `limit`
      calls it finishes.  It may short-circuit, call several times, swallow errors or raise. */
  datatype Behaviour<!W, !V> = Behaviour(name: string, limit: nat,
                                         decide: (W, seq<Outcome<V>>) -> (W, Decision<V>),
                                         finish: (W, seq<Outcome<V>>) -> (W, Outcome<V>))

  datatype Next<!W, !V> =
    | Handler(execute: W -> (W, Outcome<V>))
    | Process(mw: Behaviour<W, V>, next: Next<W, V>)
    | Spanned(lane: Lane, name: string, cat: string, cid: nat, inner: Next<W, V>)

  /** The application state, the calls of the handler, the capture history, the last clock reading
      and how many there were, and the last correlation id. */
  datatype System<W> = System(world: W, handled: nat, rows: seq<Record>, clock: int, readings: nat, lastCid: nat)

  /** `perf_counter_ns`: the k-th reading is `gaps(k) + 1` after the one before. */
  function Tick<W>(sys: System<W>, gaps: nat -> nat): System<W> {
    sys.(clock := sys.clock + 1 + gaps(sys.readings), readings := sys.readings + 1)
  }

  /** `span_begin` and `span_end` append one row each. */
  function Capture<W>(sys: System<W>, lane: Lane, name: string, cat: string, cid: nat, dur: int): System<W> {
    sys.(rows := sys.rows + [Record(|sys.rows|, sys.clock, Span, lane, name, cat, cid, dur)])
  }

  function Invoke<W, V>(n: Next<W, V>, sys: System<W>, gaps: nat -> nat): (System<W>, Outcome<V>)
    decreases n, if n.Process? then n.mw.limit + 1 else 0
  {
    match n
    case Handler(execute) =>
      var r := execute(sys.world);
      (sys.(world := r.0, handled := sys.handled + 1), r.1)
    case Process(mw, next) => RunProcess(n, sys, [], gaps)
    case Spanned(lane, name, cat, cid, inner) =>
      var begun := Capture(Tick(sys, gaps), lane, name, cat, cid, 0);
      var r := Invoke(inner, begun, gaps);
      var now := Tick(r.0, gaps);
      (Capture(now, lane, name, cat, cid, now.clock - begun.clock), r.1)
  }

  function RunProcess<W, V>(n: Next<W, V>, sys: System<W>, outcomes: seq<Outcome<V>>, gaps: nat -> nat)
    : (System<W>, Outcome<V>)
    requires n.Process? && |outcomes| <= n.mw.limit
    decreases n, n.mw.limit - |outcomes|
  {
    if |outcomes| == n.mw.limit then
      var r := n.mw.finish(sys.world, outcomes);
      (sys.(world := r.0), r.1)
    else
      var r := n.mw.decide(sys.world, outcomes);
      match r.1
      case Finish(outcome) => (sys.(world := r.0), outcome)
      case CallNext =>
        var called := Invoke(n.next, sys.(world := r.0), gaps);
        RunProcess(n, called.0, outcomes + [called.1], gaps)
  }

  /** The same chain without its spans. */
  function Erase<W, V>(n: Next<W, V>): Next<W, V> {
    match n
    case Handler(_) => n
    case Process(mw, next) => Process(mw, Erase(next))
    case Spanned(_, _, _, _, inner) => Erase(inner)
  }

  /** Two systems the application cannot tell apart. */
  ghost predicate SameForApplication<W>(s: System<W>, s': System<W>) {
    s.world == s'.world && s.handled == s'.handled
  }

  /** Tracing is transparent: the traced chain does to the application exactly what the chain without
      spans does, calls the handler as often, and returns or raises the same. */
  lemma {:induction false} SpansAreTransparent<W, V>(n: Next<W, V>, sys: System<W>, sys': System<W>, gaps: nat -> nat)
    requires SameForApplication(sys, sys')
    ensures SameForApplication(Invoke(n, sys, gaps).0, Invoke(Erase(n), sys', gaps).0)
    ensures Invoke(n, sys, gaps).1 == Invoke(Erase(n), sys', gaps).1
    ensures Invoke(Erase(n), sys', gaps).0.rows == sys'.rows
    decreases n, if n.Process? then n.mw.limit + 1 else 0
  {
    match n
    case Handler(_) =>
    case Process(_, _) => ProcessIsTransparent(n, sys, sys', [], gaps);
    case Spanned(lane, name, cat, cid, inner) =>
      SpansAreTransparent(inner, Capture(Tick(sys, gaps), lane, name, cat, cid, 0), sys', gaps);
  }

  lemma {:induction false} ProcessIsTransparent<W, V>(n: Next<W, V>, sys: System<W>, sys': System<W>,
                                                      outcomes: seq<Outcome<V>>, gaps: nat -> nat)
    requires n.Process? && |outcomes| <= n.mw.limit && SameForApplication(sys, sys')
    ensures SameForApplication(RunProcess(n, sys, outcomes, gaps).0, RunProcess(Erase(n), sys', outcomes, gaps).0)
    ensures RunProcess(n, sys, outcomes, gaps).1 == RunProcess(Erase(n), sys', outcomes, gaps).1
    ensures RunProcess(Erase(n), sys', outcomes, gaps).0.rows == sys'.rows
    decreases n, n.mw.limit - |outcomes|
  {
    if |outcomes| < n.mw.limit {
      var r := n.mw.decide(sys.world, outcomes);
      if r.1.CallNext? {
        var s, s' := sys.(world := r.0), sys'.(world := r.0);
        SpansAreTransparent(n.next, s, s', gaps);
        var called, called' := Invoke(n.next, s, gaps), Invoke(Erase(n.next), s', gaps);
        ProcessIsTransparent(n, called.0, called'.0, outcomes + [called.1], gaps);
      }
    }
  }

  /** Every span of the chain carries the correlation id `cid`. */
  ghost predicate Carries<W, V>(n: Next<W, V>, cid: nat) {
    match n
    case Handler(_) => true
    case Process(_, next) => Carries(next, cid)
    case Spanned(_, _, _, c, inner) => c == cid && Carries(inner, cid)
  }

  /** The history so far is a proper run of calls for `cid`, as of the clock. */
  ghost predicate Recorded<W>(epoch: int, cid: nat, sys: System<W>) {
    && RunAfter(epoch, cid, sys.rows).Some?
    && RunAfter(epoch, cid, sys.rows).value.clock <= sys.clock
    && RunAfter(epoch, cid, sys.rows).value.size == |sys.rows|
  }

  /** `after` extends the history by a balanced, properly nested word of span rows of `cid`: whatever
      it opened it closed, and what was open before is open again. */
  ghost predicate AppendsCalls<W>(epoch: int, cid: nat, before: System<W>, after: System<W>) {
    && Recorded(epoch, cid, before) && Recorded(epoch, cid, after)
    && before.rows <= after.rows && before.clock <= after.clock
    && (forall i :: |before.rows| <= i < |after.rows| ==> Concerns(after.rows[i], cid))
    && RunAfter(epoch, cid, after.rows).value.stack == RunAfter(epoch, cid, before.rows).value.stack
  }

  lemma {:induction false} InvokeAppendsCalls<W, V>(epoch: int, cid: nat, n: Next<W, V>, sys: System<W>,
                                                    gaps: nat -> nat)
    requires Carries(n, cid) && Recorded(epoch, cid, sys)
    ensures AppendsCalls(epoch, cid, sys, Invoke(n, sys, gaps).0)
    decreases n, if n.Process? then n.mw.limit + 1 else 1
  {
    match n
    case Handler(_) =>
    case Process(_, _) => ProcessAppendsCalls(epoch, cid, n, sys, [], gaps);
    case Spanned(_, _, _, _, _) => SpannedAppendsCalls(epoch, cid, n, sys, gaps);
  }

  lemma {:induction false} SpannedAppendsCalls<W, V>(epoch: int, cid: nat, n: Next<W, V>, sys: System<W>,
                                                     gaps: nat -> nat)
    requires n.Spanned? && Carries(n, cid) && Recorded(epoch, cid, sys)
    ensures AppendsCalls(epoch, cid, sys, Invoke(n, sys, gaps).0)
    decreases n, 0
  {
    var ticked := Tick(sys, gaps);
    var begun := Capture(ticked, n.lane, n.name, n.cat, cid, 0);
    BeginIsRecorded(epoch, cid, sys, ticked, n.lane, n.name, n.cat);
    InvokeAppendsCalls(epoch, cid, n.inner, begun, gaps);
    var returned := Invoke(n.inner, begun, gaps).0;
    var now := Tick(returned, gaps);
    assert Invoke(n, sys, gaps).0 == Capture(now, n.lane, n.name, n.cat, cid, now.clock - begun.clock);
    EndIsRecorded(epoch, cid, sys, begun, returned, now, n.lane, n.name, n.cat);
  }

  lemma {:induction false} ProcessAppendsCalls<W, V>(epoch: int, cid: nat, n: Next<W, V>, sys: System<W>,
                                                     outcomes: seq<Outcome<V>>, gaps: nat -> nat)
    requires n.Process? && |outcomes| <= n.mw.limit && Carries(n.next, cid) && Recorded(epoch, cid, sys)
    ensures AppendsCalls(epoch, cid, sys, RunProcess(n, sys, outcomes, gaps).0)
    decreases n, n.mw.limit - |outcomes|
  {
    if |outcomes| < n.mw.limit {
      var r := n.mw.decide(sys.world, outcomes);
      if r.1.CallNext? {
        var s := sys.(world := r.0);
        InvokeAppendsCalls(epoch, cid, n.next, s, gaps);
        var called := Invoke(n.next, s, gaps);
        ProcessAppendsCalls(epoch, cid, n, called.0, outcomes + [called.1], gaps);
      }
    }
  }

  /** `begun` is `sys` after one begin marker of `cid` at its clock reading. */
  ghost predicate JustBegun<W>(epoch: int, cid: nat, sys: System<W>, begun: System<W>, key: Key) {
    && Recorded(epoch, cid, sys) && Recorded(epoch, cid, begun) && key.cid == cid && sys.clock < begun.clock
    && |begun.rows| == |sys.rows| + 1 && sys.rows <= begun.rows && Concerns(begun.rows[|sys.rows|], cid)
    && var stack := RunAfter(epoch, cid, sys.rows).value.stack;
       var stack' := RunAfter(epoch, cid, begun.rows).value.stack;
       && stack' == stack + [Open(key, begun.clock, |sys.rows|, TopSerial(stack))]
       && RunAfter(epoch, cid, begun.rows).value.closed == RunAfter(epoch, cid, sys.rows).value.closed
  }

  lemma BeginIsRecorded<W>(epoch: int, cid: nat, sys: System<W>, now: System<W>, lane: Lane, name: string, cat: string)
    requires Recorded(epoch, cid, sys) && now.rows == sys.rows && now.clock > sys.clock
    ensures JustBegun(epoch, cid, sys, Capture(now, lane, name, cat, cid, 0), Key(lane, name, cat, cid))
  {
    var begun := Capture(now, lane, name, cat, cid, 0);
    assert begun.rows[..|begun.rows| - 1] == sys.rows;
  }

  lemma EndIsRecorded<W>(epoch: int, cid: nat, sys: System<W>, begun: System<W>, returned: System<W>, now: System<W>,
                         lane: Lane, name: string, cat: string)
    requires JustBegun(epoch, cid, sys, begun, Key(lane, name, cat, cid)) && AppendsCalls(epoch, cid, begun, returned)
    requires now.rows == returned.rows && now.clock > returned.clock
    ensures AppendsCalls(epoch, cid, sys, Capture(now, lane, name, cat, cid, now.clock - begun.clock))
  {
    var ended := Capture(now, lane, name, cat, cid, now.clock - begun.clock);
    assert ended.rows[..|ended.rows| - 1] == returned.rows;
    forall i | |sys.rows| <= i < |ended.rows| ensures Concerns(ended.rows[i], cid) {
      if i < |begun.rows| {
        assert ended.rows[i] == begun.rows[i];
      } else if i < |returned.rows| {
        assert ended.rows[i] == returned.rows[i];
      }
    }
  }

  /** To the chains of other correlation ids the rows only take a place. */
  lemma {:induction false} ForeignRowsTakePlaces(epoch: int, other: nat, before: seq<Record>, after: seq<Record>)
    requires RunAfter(epoch, other, before).Some? && before <= after
    requires RunAfter(epoch, other, before).value.size == |before|
    requires forall i :: |before| <= i < |after| ==> after[i].uid == i && !Concerns(after[i], other)
    ensures RunAfter(epoch, other, after) == Some(RunAfter(epoch, other, before).value.(size := |after|))
  {
    if |after| == |before| {
      assert after == before;
    } else {
      ForeignRowsTakePlaces(epoch, other, before, after[..|after| - 1]);
    }
  }

  /** For every correlation id the history is a finished run of properly nested calls. */
  ghost predicate AllFinished<W>(epoch: int, sys: System<W>) {
    forall cid: nat :: Recorded(epoch, cid, sys) && RunAfter(epoch, cid, sys.rows).value.stack == []
  }

  lemma CallsKeepAllFinished<W>(epoch: int, cid: nat, before: System<W>, after: System<W>)
    requires AllFinished(epoch, before) && AppendsCalls(epoch, cid, before, after)
    requires forall i :: |before.rows| <= i < |after.rows| ==> after.rows[i].uid == i
    ensures AllFinished(epoch, after)
  {
    forall c: nat ensures Recorded(epoch, c, after) && RunAfter(epoch, c, after.rows).value.stack == [] {
      assert Recorded(epoch, c, before);
      if c != cid {
        ForeignRowsTakePlaces(epoch, c, before.rows, after.rows);
      }
    }
  }

  function WrapFrame<W, V>(mw: Behaviour<W, V>, next: Next<W, V>, traced: Option<nat>): Next<W, V> {
    match traced
    case None => Process(mw, next)
    case Some(cid) => Spanned(Middleware, mw.name, "", cid, Process(mw, next))
  }

  /** The chain: the first middleware outermost, the handler innermost. */
  function Chain<W, V>(mws: seq<Behaviour<W, V>>, final: Next<W, V>, traced: Option<nat>): Next<W, V> {
    if mws == [] then final else WrapFrame(mws[0], Chain(mws[1..], final, traced), traced)
  }

  lemma {:induction false} ChainErases<W, V>(mws: seq<Behaviour<W, V>>, final: Next<W, V>, traced: Option<nat>)
    ensures Erase(Chain(mws, final, traced)) == Chain(mws, Erase(final), None)
    ensures traced.Some? && Carries(final, traced.value) ==> Carries(Chain(mws, final, traced), traced.value)
  {
    if mws != [] { ChainErases(mws[1..], final, traced); }
  }

  /** What running middlewares around a handler does to the application. */
  datatype Effect<!W, !V> = Effect(world: W, handled: nat, outcome: Outcome<V>)

  /** The meaning of a list of middlewares.  Without any the handler is called.  Otherwise the first one
      decides, and each time it calls on, the others run on its world. */
  function Meaning<W, V>(mws: seq<Behaviour<W, V>>, execute: W -> (W, Outcome<V>), w: W): Effect<W, V>
    decreases |mws|, if mws == [] then 0 else mws[0].limit + 1
  {
    if mws == [] then
      var r := execute(w);
      Effect(r.0, 1, r.1)
    else FirstDecides(mws, execute, w, [])
  }

  /** The first middleware, its calls so far having ended with `outcomes`. */
  function FirstDecides<W, V>(mws: seq<Behaviour<W, V>>, execute: W -> (W, Outcome<V>), w: W,
                              outcomes: seq<Outcome<V>>)
    : Effect<W, V>
    requires mws != [] && |outcomes| <= mws[0].limit
    decreases |mws|, mws[0].limit - |outcomes|
  {
    var mw := mws[0];
    if |outcomes| == mw.limit then
      var r := mw.finish(w, outcomes);
      Effect(r.0, 0, r.1)
    else
      var r := mw.decide(w, outcomes);
      match r.1
      case Finish(outcome) => Effect(r.0, 0, outcome)
      case CallNext =>
        var called := Meaning(mws[1..], execute, r.0);
        var rest := FirstDecides(mws, execute, called.world, outcomes + [called.outcome]);
        rest.(handled := called.handled + rest.handled)
  }

  ghost predicate HasEffect<W, V>(before: System<W>, after: System<W>, outcome: Outcome<V>, e: Effect<W, V>) {
    after.world == e.world && after.handled == before.handled + e.handled && outcome == e.outcome
  }

  /** The chain of closures does what the list of middlewares means. */
  lemma {:induction false} ChainMeans<W, V>(mws: seq<Behaviour<W, V>>, execute: W -> (W, Outcome<V>),
                                            sys: System<W>, gaps: nat -> nat)
    ensures var r := Invoke(Chain(mws, Handler(execute), None), sys, gaps);
            HasEffect(sys, r.0, r.1, Meaning(mws, execute, sys.world))
    decreases |mws|, if mws == [] then 0 else mws[0].limit + 1
  {
    if mws != [] { FirstDecidesMeans(mws, execute, sys, [], gaps); }
  }

  lemma {:induction false} FirstDecidesMeans<W, V>(mws: seq<Behaviour<W, V>>, execute: W -> (W, Outcome<V>),
                                                   sys: System<W>, outcomes: seq<Outcome<V>>, gaps: nat -> nat)
    requires mws != [] && |outcomes| <= mws[0].limit
    ensures var r := RunProcess(Chain(mws, Handler(execute), None), sys, outcomes, gaps);
            HasEffect(sys, r.0, r.1, FirstDecides(mws, execute, sys.world, outcomes))
    decreases |mws|, mws[0].limit - |outcomes|
  {
    if |outcomes| < mws[0].limit {
      var r := mws[0].decide(sys.world, outcomes);
      if r.1.CallNext? {
        var s := sys.(world := r.0);
        ChainMeans(mws[1..], execute, s, gaps);
        var called := Invoke(Chain(mws[1..], Handler(execute), None), s, gaps);
        FirstDecidesMeans(mws, execute, called.0, outcomes + [called.1], gaps);
      }
    }
  }

  /** Spans around the frames or around the whole make no difference. */
  lemma SpannedChainMeans<W, V>(n: Next<W, V>, mws: seq<Behaviour<W, V>>, execute: W -> (W, Outcome<V>),
                                sys: System<W>, gaps: nat -> nat)
    requires Erase(n) == Chain(mws, Handler(execute), None)
    ensures var r := Invoke(n, sys, gaps);
            HasEffect(sys, r.0, r.1, Meaning(mws, execute, sys.world))
  {
    SpansAreTransparent(n, sys, sys, gaps);
    ChainMeans(mws, execute, sys, gaps);
  }

  class MiddlewarePipeline<!W, !V> {
    var middlewares: seq<Behaviour<W, V>>

    constructor ()
      ensures middlewares == []
    {
      middlewares := [];
    }

    method Add(mw: Behaviour<W, V>)
      modifies this
      ensures middlewares == old(middlewares) + [mw]
    {
      middlewares := middlewares + [mw];
    }

    /** `execute`: wraps from the last middleware to the first, then calls the outermost. */
    method Execute(final: Next<W, V>, traced: Option<nat>, sys: System<W>, gaps: nat -> nat)
      returns (after: System<W>, outcome: Outcome<V>)
      ensures (after, outcome) == Invoke(Chain(middlewares, final, traced), sys, gaps)
      ensures Erase(final).Handler? ==>
                HasEffect(sys, after, outcome, Meaning(middlewares, Erase(final).execute, sys.world))
    {
      var next := final;
      var i := |middlewares|;
      while i > 0
        invariant 0 <= i <= |middlewares|
        invariant next == Chain(middlewares[i..], final, traced)
      {
        i := i - 1;
        assert middlewares[i..][1..] == middlewares[i + 1..];
        next := WrapFrame(middlewares[i], next, traced);
      }
      assert middlewares[0..] == middlewares;
      var r := Invoke(next, sys, gaps);
      after, outcome := r.0, r.1;
      if Erase(final).Handler? {
        ChainErases(middlewares, final, traced);
        SpannedChainMeans(next, middlewares, Erase(final).execute, sys, gaps);
      }
    }
  }

  /** Rows are only ever appended, each numbered by its place, and no correlation id is issued. */
  ghost predicate ExtendsHistory<W>(before: System<W>, after: System<W>) {
    && before.lastCid == after.lastCid && before.clock <= after.clock && before.rows <= after.rows
    && forall i :: |before.rows| <= i < |after.rows| ==> after.rows[i].uid == i
  }

  lemma {:induction false} InvokeExtendsHistory<W, V>(n: Next<W, V>, sys: System<W>, gaps: nat -> nat)
    ensures ExtendsHistory(sys, Invoke(n, sys, gaps).0)
    decreases n, if n.Process? then n.mw.limit + 1 else 0
  {
    match n
    case Handler(_) =>
    case Process(_, _) => ProcessExtendsHistory(n, sys, [], gaps);
    case Spanned(lane, name, cat, cid, inner) =>
      InvokeExtendsHistory(inner, Capture(Tick(sys, gaps), lane, name, cat, cid, 0), gaps);
  }

  lemma {:induction false} ProcessExtendsHistory<W, V>(n: Next<W, V>, sys: System<W>, outcomes: seq<Outcome<V>>,
                                                       gaps: nat -> nat)
    requires n.Process? && |outcomes| <= n.mw.limit
    ensures ExtendsHistory(sys, RunProcess(n, sys, outcomes, gaps).0)
    decreases n, n.mw.limit - |outcomes|
  {
    if |outcomes| < n.mw.limit {
      var r := n.mw.decide(sys.world, outcomes);
      if r.1.CallNext? {
        var s := sys.(world := r.0);
        InvokeExtendsHistory(n.next, s, gaps);
        var called := Invoke(n.next, s, gaps);
        ProcessExtendsHistory(n, called.0, outcomes + [called.1], gaps);
      }
    }
  }
}
