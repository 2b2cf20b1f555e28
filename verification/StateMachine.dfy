/** The declarative state machine: a transition matrix and a re-entrant dispatch that queues. */
module StateMachines {
  import opened Prelude

  type CallbackId = nat

  /** A lifecycle callback being called; `seen` is the current state it would read. */
  datatype Invocation<S, E> =
    | OnExit(cb: CallbackId, seen: S)
    | OnTransition(cb: CallbackId, seen: S, from: S, to: S)
    | OnEvent(cb: CallbackId, seen: S, from: S, to: S, event: E)
    | OnEnter(cb: CallbackId, seen: S)

  /** What dispatch reads and never changes. */
  datatype Wiring<S(==), E(==)> = Wiring(matrix: map<(S, E), S>, onExit: map<S, seq<CallbackId>>,
                                         globals: seq<CallbackId>,
                                         onEvent: map<E, seq<CallbackId>>, onEnter: map<S, seq<CallbackId>>)
  {
    function ExitCalls(from: S): seq<Invocation<S, E>> {
      var cbs := if from in onExit then onExit[from] else [];
      seq(|cbs|, i requires 0 <= i < |cbs| => OnExit(cbs[i], from))
    }

    function GlobalCalls(from: S, to: S): seq<Invocation<S, E>> {
      seq(|globals|, i requires 0 <= i < |globals| => OnTransition(globals[i], to, from, to))
    }

    function EventCalls(from: S, event: E, to: S): seq<Invocation<S, E>> {
      var cbs := if event in onEvent then onEvent[event] else [];
      seq(|cbs|, i requires 0 <= i < |cbs| => OnEvent(cbs[i], to, from, to, event))
    }

    function EnterCalls(to: S): seq<Invocation<S, E>> {
      var cbs := if to in onEnter then onEnter[to] else [];
      seq(|cbs|, i requires 0 <= i < |cbs| => OnEnter(cbs[i], to))
    }

    /** Exit callbacks still see the old state; all others see the new one. */
    function Calls(from: S, event: E, to: S): seq<Invocation<S, E>> {
      ExitCalls(from) + GlobalCalls(from, to) + EventCalls(from, event, to) + EnterCalls(to)
    }
  }

  function Registered<K, V>(lists: map<K, seq<V>>, key: K): seq<V> {
    if key in lists then lists[key] else []
  }

  /** A transition calls every callback registered for it once, in order of registration: the exit
      callbacks of the old state, the global ones, those of the event, the enter callbacks of the new
      state; only the first still see the old state. */
  lemma CallsAreThoseRegistered<S, E>(w: Wiring<S, E>, from: S, event: E, to: S, i: nat)
    ensures var calls := w.Calls(from, event, to);
            var exits, onEvent := Registered(w.onExit, from), Registered(w.onEvent, event);
            var enters := Registered(w.onEnter, to);
            var changed := |exits| + |w.globals|;
      && |calls| == changed + |onEvent| + |enters|
      && (i < |calls| ==>
            calls[i] == if i < |exits| then OnExit(exits[i], from)
                        else if i < changed then OnTransition(w.globals[i - |exits|], to, from, to)
                        else if i < changed + |onEvent| then OnEvent(onEvent[i - changed], to, from, to, event)
                        else OnEnter(enters[i - changed - |onEvent|], to))
  {}

  /** `script` says which events each callback call still to come dispatches; once it is used up they
      dispatch nothing.  Every terminating run has such a script.  `arrived` lists all events
      dispatched in this loop, `processed` those taken from the queue and obeyed. */
  datatype Progress<S, E> = Progress(state: S, queue: seq<E>, script: seq<seq<E>>, calls: seq<Invocation<S, E>>,
                                     arrived: seq<E>, processed: seq<E>)

  datatype Verdict<S, E> = Succeeded | InvalidTransition(from: S, event: E)

  function Emitted<E>(script: seq<seq<E>>, calls: nat): seq<E> {
    if calls == 0 || script == [] then [] else script[0] + Emitted(script[1..], calls - 1)
  }

  function Unused<E>(script: seq<seq<E>>, calls: nat): (rest: seq<seq<E>>)
    ensures |rest| <= |script| && (calls > 0 && script != [] ==> |rest| < |script|)
  {
    if calls == 0 || script == [] then script else Unused(script[1..], calls - 1)
  }

  /** The loop of `dispatch`. */
  function Loop<S(==), E(==)>(w: Wiring<S, E>, p: Progress<S, E>): (Progress<S, E>, Verdict<S, E>)
    decreases |p.script|, |p.queue|
  {
    if p.queue == [] then (p, Succeeded)
    else
      var event := p.queue[0];
      if (p.state, event) !in w.matrix then (p.(queue := []), InvalidTransition(p.state, event))
      else Loop(w, Step(w, p))
  }

  /** The callbacks `made` have been called, and the events they dispatch have joined the queue. */
  function After<S, E>(p: Progress<S, E>, made: seq<Invocation<S, E>>): Progress<S, E> {
    var emitted := Emitted(p.script, |made|);
    p.(queue := p.queue + emitted, script := Unused(p.script, |made|), calls := p.calls + made,
       arrived := p.arrived + emitted)
  }

  lemma AfterTwice<S, E>(p: Progress<S, E>, a: seq<Invocation<S, E>>, b: seq<Invocation<S, E>>)
    ensures After(After(p, a), b) == After(p, a + b)
  {
    EmittedSplits(p.script, |a|, |b|);
  }

  /** One defined transition with its callbacks. */
  function Step<S(==), E(==)>(w: Wiring<S, E>, p: Progress<S, E>): (p': Progress<S, E>)
    requires p.queue != [] && (p.state, p.queue[0]) in w.matrix
    ensures |p'.script| <= |p.script| && (|p'.script| == |p.script| ==> |p'.queue| < |p.queue|)
  {
    var event := p.queue[0];
    var target := w.matrix[(p.state, event)];
    var taken := p.(queue := p.queue[1..], processed := p.processed + [event]);
    After(taken, w.Calls(p.state, event, target)).(state := target)
  }

  /** Running the matrix over a list of events: the final state, or where it first had no entry. */
  datatype FoldResult<S> = Ended(state: S) | Stuck(state: S, index: nat)

  function Fold<S(==), E(==)>(matrix: map<(S, E), S>, s: S, events: seq<E>): FoldResult<S> {
    if events == [] then Ended(s)
    else
      match Fold(matrix, s, events[..|events| - 1])
      case Stuck(state, index) => Stuck(state, index)
      case Ended(state) =>
        var last := events[|events| - 1];
        if (state, last) in matrix then Ended(matrix[(state, last)]) else Stuck(state, |events| - 1)
  }

  lemma {:induction false} FoldStaysStuck<S, E>(matrix: map<(S, E), S>, s: S, a: seq<E>, b: seq<E>)
    requires Fold(matrix, s, a).Stuck?
    ensures Fold(matrix, s, a + b) == Fold(matrix, s, a)
  {
    if b == [] {
      assert a + b == a;
    } else {
      FoldStaysStuck(matrix, s, a, b[..|b| - 1]);
      assert (a + b)[..|a + b| - 1] == a + b[..|b| - 1];
    }
  }

  /** First in, first out: what was taken from the queue, then the queue, is what arrived. */
  ghost predicate InArrivalOrder<S, E>(matrix: map<(S, E), S>, s0: S, p: Progress<S, E>) {
    p.processed + p.queue == p.arrived && Fold(matrix, s0, p.processed) == Ended(p.state)
  }

  lemma StepKeepsOrder<S, E>(w: Wiring<S, E>, s0: S, p: Progress<S, E>)
    requires InArrivalOrder(w.matrix, s0, p) && p.queue != [] && (p.state, p.queue[0]) in w.matrix
    ensures InArrivalOrder(w.matrix, s0, Step(w, p)) && Step(w, p).processed == p.processed + [p.queue[0]]
  {
    var p' := Step(w, p);
    assert p'.processed[..|p'.processed| - 1] == p.processed;
    assert p'.processed + p'.queue == p'.arrived;
  }

  /** The dispatch loop is the fold of the matrix over all events in order of arrival, and it raises
      exactly when the fold gets stuck, there and in that state. */
  lemma {:induction false} LoopIsFold<S, E>(w: Wiring<S, E>, s0: S, p: Progress<S, E>)
    requires InArrivalOrder(w.matrix, s0, p)
    ensures var r := Loop(w, p);
      && r.0.queue == []
      && match r.1
         case Succeeded => r.0.processed == r.0.arrived && Fold(w.matrix, s0, r.0.arrived) == Ended(r.0.state)
         case InvalidTransition(from, event) =>
           && |r.0.processed| < |r.0.arrived| && r.0.processed == r.0.arrived[..|r.0.processed|]
           && event == r.0.arrived[|r.0.processed|] && from == r.0.state
           && Fold(w.matrix, s0, r.0.arrived) == Stuck(from, |r.0.processed|)
    decreases |p.script|, |p.queue|
  {
    if p.queue == [] {
    } else if (p.state, p.queue[0]) in w.matrix {
      StepKeepsOrder(w, s0, p);
      LoopIsFold(w, s0, Step(w, p));
    } else {
      var upTo := p.processed + [p.queue[0]];
      assert upTo[..|upTo| - 1] == p.processed;
      assert p.arrived == upTo + p.queue[1..];
      FoldStaysStuck(w.matrix, s0, upTo, p.queue[1..]);
    }
  }

  ghost predicate AllowedEdge<S>(allowed: map<S, set<S>>, from: S, to: S) {
    from in allowed && to in allowed[from]
  }

  /** Every entry of the matrix is an allowed transition of the base class. */
  ghost predicate MatrixAllowed<S(!new), E(!new)>(matrix: map<(S, E), S>, allowed: map<S, set<S>>) {
    forall s: S, e: E :: (s, e) in matrix ==> AllowedEdge(allowed, s, matrix[(s, e)])
  }

  /** The states passed through, the first included. */
  function Trajectory<S(==), E(==)>(matrix: map<(S, E), S>, s: S, events: seq<E>): (states: seq<S>)
    ensures |states| >= 1
  {
    if events == [] then [s]
    else
      var states := Trajectory(matrix, s, events[..|events| - 1]);
      var key := (states[|states| - 1], events[|events| - 1]);
      if key in matrix then states + [matrix[key]] else states
  }

  /** A dispatch moves only along allowed transitions. */
  lemma {:induction false} TrajectoryIsAllowed<S(!new), E(!new)>(matrix: map<(S, E), S>, allowed: map<S, set<S>>,
                                                                        s: S, events: seq<E>)
    requires MatrixAllowed(matrix, allowed)
    ensures var states := Trajectory(matrix, s, events);
      && states[0] == s
      && (forall i, j :: 0 <= i < j < |states| && j == i + 1 ==> AllowedEdge(allowed, states[i], states[j]))
      && (Fold(matrix, s, events).Ended? ==>
            |states| == |events| + 1 && states[|events|] == Fold(matrix, s, events).state)
  {
    if events != [] { TrajectoryIsAllowed(matrix, allowed, s, events[..|events| - 1]); }
  }

  lemma {:induction false} EmittedSplits<E>(script: seq<seq<E>>, a: nat, b: nat)
    ensures Emitted(script, a + b) == Emitted(script, a) + Emitted(Unused(script, a), b)
    ensures Unused(script, a + b) == Unused(Unused(script, a), b)
  {
    if a > 0 && script != [] { EmittedSplits(script[1..], a - 1, b); }
  }

  class DeclarativeStateMachine<S(==, !new), E(==, !new)> {
    var current: S
    var allowed: map<S, set<S>>
    var matrix: map<(S, E), S>
    var onExit: map<S, seq<CallbackId>>
    var onEnter: map<S, seq<CallbackId>>
    var onEvent: map<E, seq<CallbackId>>
    var globals: seq<CallbackId>
    var queue: seq<E>
    var isDispatching: bool
    /** The events the callbacks still to be called will dispatch, one entry a call. */
    var script: seq<seq<E>>
    ghost var calls: seq<Invocation<S, E>>
    ghost var arrived: seq<E>
    ghost var processed: seq<E>

    constructor (initial: S, script: seq<seq<E>>)
      ensures Valid() && Idle() && current == initial && this.script == script
      ensures matrix == map[] && allowed == map[] && calls == []
    {
      current, this.script := initial, script;
      allowed, matrix, onExit, onEnter, onEvent := map[], map[], map[], map[], map[];
      globals, queue, isDispatching := [], [], false;
      calls, arrived, processed := [], [], [];
    }

    ghost predicate Valid()
      reads this
    {
      MatrixAllowed(matrix, allowed)
    }

    /** Between top-level dispatches. */
    ghost predicate Idle()
      reads this
    {
      !isDispatching && queue == []
    }

    ghost function Setup(): Wiring<S, E>
      reads this
    {
      Wiring(matrix, onExit, globals, onEvent, onEnter)
    }

    ghost function Now(): Progress<S, E>
      reads this
    {
      Progress(current, queue, script, calls, arrived, processed)
    }

    method AddTransition(from: S, to: S)
      requires Valid()
      modifies `allowed
      ensures Valid()
      ensures forall a, b :: AllowedEdge(allowed, a, b) <==> old(AllowedEdge(allowed, a, b)) || (a == from && b == to)
    {
      if from !in allowed {
        allowed := allowed[from := {}];
      }
      allowed := allowed[from := allowed[from] + {to}];
    }

    method AddEventTransition(from: S, event: E, to: S)
      requires Valid()
      modifies `matrix, `allowed
      ensures Valid() && matrix == old(matrix)[(from, event) := to]
      ensures forall a, b :: AllowedEdge(allowed, a, b) <==> old(AllowedEdge(allowed, a, b)) || (a == from && b == to)
    {
      AddTransition(from, to);
      matrix := matrix[(from, event) := to];
    }

    /** `load_matrix`, in any order. */
    method LoadMatrix(entries: map<(S, E), S>)
      requires Valid()
      modifies `matrix, `allowed
      ensures Valid() && matrix == old(matrix) + entries
      ensures forall a, b :: AllowedEdge(allowed, a, b) <==>
                old(AllowedEdge(allowed, a, b)) || exists e :: (a, e) in entries && entries[(a, e)] == b
    {
      var todo := entries.Keys;
      while todo != {}
        invariant Valid() && todo <= entries.Keys
        invariant matrix == old(matrix) + (entries - todo)
        invariant forall a, b :: AllowedEdge(allowed, a, b) <==>
                    old(AllowedEdge(allowed, a, b)) || exists e :: (a, e) in entries.Keys - todo && entries[(a, e)] == b
      {
        var k :| k in todo;
        AddEventTransition(k.0, k.1, entries[k]);
        todo := todo - {k};
      }
    }

    /** `dispatch`.  While a dispatch is running, that is from a callback, the event only joins the
        queue.  Otherwise the loop runs it and everything it leads to; both exits leave the machine
        idle. */
    method DispatchEvent(event: E) returns (verdict: Verdict<S, E>)
      requires isDispatching || Idle()
      modifies `current, `queue, `isDispatching, `script, `calls, `arrived, `processed
      ensures isDispatching == old(isDispatching)
      ensures old(isDispatching) ==>
        verdict == Succeeded && Now() == old(Now()).(queue := old(queue) + [event], arrived := old(arrived) + [event])
      ensures !old(isDispatching) ==>
        Idle() && (Now(), verdict)
            == Loop(Setup(), Progress(old(current), [event], old(script), old(calls), [event], []))
      decreases if isDispatching then 0 else 1, 0
    {
      if isDispatching {
        queue, arrived := queue + [event], arrived + [event];
        return Succeeded;
      }
      isDispatching := true;
      queue := queue + [event];
      arrived, processed := [event], [];
      assert queue == [event];
      verdict := RunLoop();
      isDispatching := false;
    }

    method RunLoop() returns (verdict: Verdict<S, E>)
      requires isDispatching
      modifies `current, `queue, `isDispatching, `script, `calls, `arrived, `processed
      ensures isDispatching && queue == [] && (Now(), verdict) == Loop(Setup(), old(Now()))
      decreases 0, 5
    {
      ghost var outcome := Loop(Setup(), Now());
      verdict := Succeeded;
      while queue != []
        invariant isDispatching
        invariant verdict == Succeeded ==> Loop(Setup(), Now()) == outcome
        invariant verdict != Succeeded ==> queue == [] && (Now(), verdict) == outcome
        decreases |script|, |queue|
      {
        verdict := ProcessNext();
      }
    }

    /** One turn of the loop: the oldest event is obeyed, or it is undefined and the queue is cleared. */
    method ProcessNext() returns (verdict: Verdict<S, E>)
      requires isDispatching && queue != []
      modifies `current, `queue, `isDispatching, `script, `calls, `arrived, `processed
      ensures isDispatching
      ensures verdict == Succeeded <==> old((current, queue[0]) in matrix)
      ensures verdict == Succeeded ==> Now() == Step(Setup(), old(Now()))
      ensures verdict != Succeeded ==>
        verdict == InvalidTransition(current, old(queue[0])) && Now() == old(Now()).(queue := [])
      decreases 0, 4
    {
      var event := queue[0];
      queue := queue[1..];
      if (current, event) !in matrix {
        queue := [];
        return InvalidTransition(current, event);
      }
      processed := processed + [event];
      TransitionCallbacks(current, event, matrix[(current, event)]);
      verdict := Succeeded;
    }

    /** The body of a transition: exit callbacks, the state change, then the other callbacks. */
    method TransitionCallbacks(from: S, event: E, target: S)
      requires isDispatching && current == from
      modifies `current, `queue, `isDispatching, `script, `calls, `arrived, `processed
      ensures isDispatching
      ensures Now() == After(old(Now()), Setup().Calls(from, event, target)).(state := target)
      decreases 0, 3
    {
      ghost var w, p := Setup(), Now();
      ghost var exits, globalCalls := w.ExitCalls(from), w.GlobalCalls(from, target);
      ghost var eventCalls, enters := w.EventCalls(from, event, target), w.EnterCalls(target);
      RunCallbacks(if from in onExit then onExit[from] else [], exits);
      current := target;
      p := p.(state := target);
      assert Now() == After(p, exits);
      RunCallbacks(globals, globalCalls);
      AfterTwice(p, exits, globalCalls);
      RunCallbacks(if event in onEvent then onEvent[event] else [], eventCalls);
      AfterTwice(p, exits + globalCalls, eventCalls);
      RunCallbacks(if target in onEnter then onEnter[target] else [], enters);
      AfterTwice(p, exits + globalCalls + eventCalls, enters);
    }

    /** One of the callback loops.  Errors of a callback are contained; the events it dispatched before
        are queued all the same. */
    method RunCallbacks(cbs: seq<CallbackId>, ghost made: seq<Invocation<S, E>>)
      requires isDispatching && |made| == |cbs|
      modifies `current, `queue, `isDispatching, `script, `calls, `arrived, `processed
      ensures isDispatching && Now() == After(old(Now()), made)
      decreases 0, 2
    {
      for i := 0 to |cbs|
        invariant isDispatching && current == old(current) && processed == old(processed)
        invariant calls == old(calls) + made[..i] && script == Unused(old(script), i)
        invariant queue == old(queue) + Emitted(old(script), i) && arrived == old(arrived) + Emitted(old(script), i)
      {
        EmittedSplits(old(script), i, 1);
        assert Unused(script, 1) == if script == [] then [] else script[1..];
        assert Emitted(script, 1) == if script == [] then [] else script[0];
        assert made[..i + 1] == made[..i] + [made[i]];
        CallCallback(made[i]);
      }
      assert made[..|cbs|] == made;
    }

    /** A callback: it dispatches its events one by one, from inside the running dispatch. */
    method CallCallback(ghost made: Invocation<S, E>)
      requires isDispatching
      modifies `current, `queue, `isDispatching, `script, `calls, `arrived, `processed
      ensures isDispatching && current == old(current) && processed == old(processed)
      ensures calls == old(calls) + [made] && script == if old(script) == [] then [] else old(script)[1..]
      ensures var emitted := if old(script) == [] then [] else old(script)[0];
        queue == old(queue) + emitted && arrived == old(arrived) + emitted
      decreases 0, 1
    {
      calls := calls + [made];
      if script == [] { return; }
      var events := script[0];
      script := script[1..];
      for i := 0 to |events|
        invariant isDispatching && current == old(current) && processed == old(processed)
        invariant calls == old(calls) + [made] && script == old(script)[1..]
        invariant queue == old(queue) + events[..i] && arrived == old(arrived) + events[..i]
      {
        var _ := DispatchEvent(events[i]);
        assert events[..i + 1] == events[..i] + [events[i]];
      }
      assert events[..|events|] == events;
    }

    /** A callback called outside any dispatch. */
    method CallOutside(ghost made: Invocation<S, E>)
      requires Idle()
      modifies `current, `queue, `isDispatching, `script, `calls, `arrived, `processed
      ensures Idle() && Outside(Now()) == Called(Setup(), Outside(old(Now())), made)
    {
      calls := calls + [made];
      if script == [] { return; }
      var events := script[0];
      script := script[1..];
      DispatchAll(events);
    }

    /** Each event is run to the end at once; one that is undefined raises out of the callback, which is
        contained. */
    method DispatchAll(events: seq<E>)
      requires Idle()
      modifies `current, `queue, `isDispatching, `script, `calls, `arrived, `processed
      ensures Idle() && Outside(Now()) == Dispatched(Setup(), Outside(old(Now())), events)
    {
      ghost var outcome := Dispatched(Setup(), Outside(Now()), events);
      for i := 0 to |events|
        invariant Idle() && Dispatched(Setup(), Outside(Now()), events[i..]) == outcome
      {
        assert events[i..][0] == events[i] && events[i..][1..] == events[i + 1..];
        var verdict := DispatchEvent(events[i]);
        if verdict != Succeeded { return; }
      }
    }

    method CallAllOutside(ghost phase: Phase<S>, cbs: seq<CallbackId>)
      requires Idle()
      modifies `current, `queue, `isDispatching, `script, `calls, `arrived, `processed
      ensures Idle() && Outside(Now()) == CallEach(Setup(), Outside(old(Now())), phase, cbs)
    {
      for i := 0 to |cbs|
        invariant Idle()
        invariant CallEach(Setup(), Outside(Now()), phase, cbs[i..])
                  == CallEach(Setup(), Outside(old(Now())), phase, cbs)
      {
        assert cbs[i..][0] == cbs[i] && cbs[i..][1..] == cbs[i + 1..];
        CallOutside(Made(phase, cbs[i], current));
      }
    }

    /** One of the callback loops of `transition_to`: inside a dispatch what the callbacks dispatch is
        queued, outside it is run at once. */
    method CallPhase(ghost phase: Phase<S>, cbs: seq<CallbackId>)
      requires isDispatching || Idle()
      modifies `current, `queue, `isDispatching, `script, `calls, `arrived, `processed
      ensures isDispatching == old(isDispatching)
      ensures isDispatching ==> Now() == After(old(Now()), MadeAll(phase, cbs, old(current)))
      ensures !isDispatching ==> Idle() && Outside(Now()) == CallEach(Setup(), Outside(old(Now())), phase, cbs)
    {
      if isDispatching {
        RunCallbacks(cbs, MadeAll(phase, cbs, current));
      } else {
        CallAllOutside(phase, cbs);
      }
    }

    /** `transition_to`, called from inside a dispatch or outside. */
    method TransitionTo(to: S) returns (verdict: Verdict<S, S>)
      requires isDispatching || Idle()
      modifies `current, `queue, `isDispatching, `script, `calls, `arrived, `processed
      ensures isDispatching == old(isDispatching) && (isDispatching || Idle())
      ensures verdict == Succeeded <==> old(AllowedEdge(allowed, current, to))
      ensures verdict != Succeeded ==> verdict == InvalidTransition(current, to) && Now() == old(Now())
      ensures verdict == Succeeded ==>
        if isDispatching then Now() == TransitionedWithin(Setup(), old(Now()), to)
        else Outside(Now()) == Transitioned(Setup(), Outside(old(Now())), to)
    {
      var from := current;
      if from !in allowed || to !in allowed[from] {
        return InvalidTransition(from, to);
      }
      CallPhase(Leaving, if from in onExit then onExit[from] else []);
      current := to;
      CallPhase(Changed(from, to), globals);
      CallPhase(Entering, if to in onEnter then onEnter[to] else []);
      verdict := Succeeded;
      PhasesAreWired(Setup(), from, to);
    }
  }

  /** A transition made by a callback of a running dispatch. */
  function TransitionedWithin<S(==), E(==)>(w: Wiring<S, E>, p: Progress<S, E>, to: S): Progress<S, E> {
    var left := After(p, w.ExitCalls(p.state)).(state := to);
    After(After(left, w.GlobalCalls(p.state, to)), w.EnterCalls(to))
  }

  // What a transition amounts to

  datatype Phase<S> = Leaving | Changed(from: S, to: S) | Entering

  function Made<S, E>(phase: Phase<S>, cb: CallbackId, seen: S): Invocation<S, E> {
    match phase
    case Leaving => OnExit(cb, seen)
    case Changed(from, to) => OnTransition(cb, seen, from, to)
    case Entering => OnEnter(cb, seen)
  }

  /** What is left of the progress between dispatches. */
  function Outside<S, E>(p: Progress<S, E>): Progress<S, E> {
    p.(queue := [], arrived := [], processed := [])
  }

  /** The events dispatched one by one, each with all it leads to, up to the first undefined one. */
  function Dispatched<S(==), E(==)>(w: Wiring<S, E>, p: Progress<S, E>, events: seq<E>): Progress<S, E>
    decreases |events|
  {
    if events == [] then p
    else
      var r := Loop(w, p.(queue := [events[0]], arrived := [events[0]], processed := []));
      if r.1 == Succeeded then Dispatched(w, Outside(r.0), events[1..]) else Outside(r.0)
  }

  function Called<S(==), E(==)>(w: Wiring<S, E>, p: Progress<S, E>, made: Invocation<S, E>): Progress<S, E> {
    var called := p.(calls := p.calls + [made]);
    if p.script == [] then called else Dispatched(w, called.(script := p.script[1..]), p.script[0])
  }

  function CallEach<S(==), E(==)>(w: Wiring<S, E>, p: Progress<S, E>, phase: Phase<S>, cbs: seq<CallbackId>)
    : Progress<S, E>
    decreases |cbs|
  {
    if cbs == [] then p else CallEach(w, Called(w, p, Made(phase, cbs[0], p.state)), phase, cbs[1..])
  }

  function Transitioned<S(==), E(==)>(w: Wiring<S, E>, p: Progress<S, E>, to: S): Progress<S, E> {
    var left := CallEach(w, p, Leaving, if p.state in w.onExit then w.onExit[p.state] else []);
    var changed := CallEach(w, left.(state := to), Changed(p.state, to), w.globals);
    CallEach(w, changed, Entering, if to in w.onEnter then w.onEnter[to] else [])
  }

  /** Running the matrix over all events of `arrived`, as far as it goes, which is `obeyed`, makes `p'` of
      `p`: the first is `event`, the others are those that the callbacks of the transitions made dispatch. */
  ghost predicate IsRunThrough<S(!new), E(!new)>(w: Wiring<S, E>, p: Progress<S, E>, event: E, p': Progress<S, E>,
                                                 arrived: seq<E>, obeyed: seq<E>)
  {
    var made := CallsAlong(w, p.state, obeyed);
    && p' == Outside(p') && obeyed <= arrived && Fold(w.matrix, p.state, obeyed) == Ended(p'.state)
    && (obeyed != arrived ==> Fold(w.matrix, p.state, arrived) == Stuck(p'.state, |obeyed|))
    && p'.calls == p.calls + made
    && arrived == [event] + Emitted(p.script, |made|) && p'.script == Unused(p.script, |made|)
  }

  /** A whole dispatch leads from `p` to `p'`; `obeyed` says whether all its events were defined. */
  ghost predicate IsWholeDispatch<S(!new), E(!new)>(w: Wiring<S, E>, p: Progress<S, E>, event: E,
                                                    p': Progress<S, E>, obeyed: bool)
  {
    exists arrived: seq<E>, done: seq<E> ::
      IsRunThrough(w, p, event, p', arrived, done) && (obeyed <==> done == arrived)
  }

  /** The events are dispatched one after the other, each as a whole dispatch in the state the one before
      has left, up to the first that is not obeyed. */
  ghost predicate DispatchedInTurn<S(!new), E(!new)>(w: Wiring<S, E>, p: Progress<S, E>, events: seq<E>,
                                                     p': Progress<S, E>)
    decreases |events|
  {
    if events == [] then p' == p
    else
      || IsWholeDispatch(w, p, events[0], p', false)
      || exists mid :: IsWholeDispatch(w, p, events[0], mid, true) && DispatchedInTurn(w, mid, events[1..], p')
  }

  lemma {:induction false} LoopUsesScript<S, E>(w: Wiring<S, E>, p: Progress<S, E>)
    ensures var p' := Loop(w, p).0;
      && p.calls <= p'.calls
      && var made := |p'.calls| - |p.calls|;
         p'.arrived == p.arrived + Emitted(p.script, made) && p'.script == Unused(p.script, made)
    decreases |p.script|, |p.queue|
  {
    if p.queue != [] && (p.state, p.queue[0]) in w.matrix {
      var next := Step(w, p);
      LoopUsesScript(w, next);
      EmittedSplits(p.script, |next.calls| - |p.calls|, |Loop(w, p).0.calls| - |next.calls|);
    }
  }

  lemma FoldedIsRunThrough<S(!new), E(!new)>(w: Wiring<S, E>, p: Progress<S, E>, event: E, q: Progress<S, E>)
    requires q.processed <= q.arrived && Fold(w.matrix, p.state, q.processed) == Ended(q.state)
    requires q.processed != q.arrived ==> Fold(w.matrix, p.state, q.arrived) == Stuck(q.state, |q.processed|)
    requires q.calls == p.calls + CallsAlong(w, p.state, q.processed)
    requires var made := |q.calls| - |p.calls|;
             q.arrived == [event] + Emitted(p.script, made) && q.script == Unused(p.script, made)
    ensures IsWholeDispatch(w, p, event, Outside(q), q.processed == q.arrived)
  {
    assert IsRunThrough(w, p, event, Outside(q), q.arrived, q.processed);
  }

  lemma LoopIsWholeDispatch<S(!new), E(!new)>(w: Wiring<S, E>, p: Progress<S, E>, event: E)
    ensures var r := Loop(w, p.(queue := [event], arrived := [event], processed := []));
            IsWholeDispatch(w, p, event, Outside(r.0), r.1 == Succeeded)
  {
    var start := p.(queue := [event], arrived := [event], processed := []);
    DispatchIsFold(w, p.state, event, p.script, p.calls);
    LoopUsesScript(w, start);
    LoopIsFold(w, p.state, start);
    FoldedIsRunThrough(w, p, event, Loop(w, start).0);
  }

  /** What a callback dispatches outside a dispatch. */
  lemma {:induction false} EventsAreDispatchedInTurn<S(!new), E(!new)>(w: Wiring<S, E>, p: Progress<S, E>,
                                                                       events: seq<E>)
    requires p == Outside(p)
    ensures DispatchedInTurn(w, p, events, Dispatched(w, p, events))
    ensures Dispatched(w, p, events) == Outside(Dispatched(w, p, events))
    decreases |events|
  {
    if events != [] {
      var r := Loop(w, p.(queue := [events[0]], arrived := [events[0]], processed := []));
      LoopIsWholeDispatch(w, p, events[0]);
      if r.1 == Succeeded { EventsAreDispatchedInTurn(w, Outside(r.0), events[1..]); }
    }
  }

  /** A callback is called outside a dispatch, and what it dispatches is dispatched in turn. */
  ghost predicate CallbackRan<S(!new), E(!new)>(w: Wiring<S, E>, p: Progress<S, E>, made: Invocation<S, E>,
                                                p': Progress<S, E>)
  {
    var called := p.(calls := p.calls + [made]);
    if p.script == [] then p' == called
    else DispatchedInTurn(w, called.(script := p.script[1..]), p.script[0], p')
  }

  lemma CalledIsRan<S(!new), E(!new)>(w: Wiring<S, E>, p: Progress<S, E>, made: Invocation<S, E>)
    requires p == Outside(p)
    ensures CallbackRan(w, p, made, Called(w, p, made)) && Called(w, p, made) == Outside(Called(w, p, made))
  {
    if p.script != [] {
      EventsAreDispatchedInTurn(w, p.(calls := p.calls + [made], script := p.script[1..]), p.script[0]);
    }
  }

  /** The callbacks of one phase run once each, in order. */
  ghost predicate PhaseRan<S(!new), E(!new)>(w: Wiring<S, E>, p: Progress<S, E>, phase: Phase<S>,
                                             cbs: seq<CallbackId>, p': Progress<S, E>)
    decreases |cbs|
  {
    if cbs == [] then p' == p
    else exists mid :: CallbackRan(w, p, Made(phase, cbs[0], p.state), mid) && PhaseRan(w, mid, phase, cbs[1..], p')
  }

  lemma {:induction false} EachIsCalled<S(!new), E(!new)>(w: Wiring<S, E>, p: Progress<S, E>, phase: Phase<S>,
                                                          cbs: seq<CallbackId>)
    requires p == Outside(p)
    ensures PhaseRan(w, p, phase, cbs, CallEach(w, p, phase, cbs))
    ensures CallEach(w, p, phase, cbs) == Outside(CallEach(w, p, phase, cbs))
    decreases |cbs|
  {
    if cbs != [] {
      var made := Made(phase, cbs[0], p.state);
      CalledIsRan(w, p, made);
      EachIsCalled(w, Called(w, p, made), phase, cbs[1..]);
    }
  }

  /** A transition outside a dispatch: every exit callback of the old state, then with the new state every
      global callback, then every enter callback, each running to the end all it dispatches. */
  lemma TransitionRunsItsCallbacks<S(!new), E(!new)>(w: Wiring<S, E>, p: Progress<S, E>, to: S)
    returns (left: Progress<S, E>, changed: Progress<S, E>)
    requires p == Outside(p)
    ensures PhaseRan(w, p, Leaving, Registered(w.onExit, p.state), left)
    ensures PhaseRan(w, left.(state := to), Changed(p.state, to), w.globals, changed)
    ensures PhaseRan(w, changed, Entering, Registered(w.onEnter, to), Transitioned(w, p, to))
  {
    left := CallEach(w, p, Leaving, Registered(w.onExit, p.state));
    changed := CallEach(w, left.(state := to), Changed(p.state, to), w.globals);
    EachIsCalled(w, p, Leaving, Registered(w.onExit, p.state));
    EachIsCalled(w, left.(state := to), Changed(p.state, to), w.globals);
    EachIsCalled(w, changed, Entering, Registered(w.onEnter, to));
  }

  /** `t` can be reached from `s` by events of the matrix. */
  ghost predicate CanReach<S, E(!new)>(matrix: map<(S, E), S>, s: S, t: S) {
    exists events :: Fold(matrix, s, events) == Ended(t)
  }

  lemma {:induction false} FoldContinues<S, E>(matrix: map<(S, E), S>, s: S, a: seq<E>, t: S, b: seq<E>)
    requires Fold(matrix, s, a) == Ended(t)
    ensures Fold(matrix, s, a + b) == match Fold(matrix, t, b)
                                      case Ended(u) => Ended(u)
                                      case Stuck(u, index) => Stuck(u, |a| + index)
  {
    if b == [] {
      assert a + b == a;
    } else {
      FoldContinues(matrix, s, a, t, b[..|b| - 1]);
      assert (a + b)[..|a + b| - 1] == a + b[..|b| - 1];
    }
  }

  lemma ReachesOn<S, E(!new)>(matrix: map<(S, E), S>, s: S, t: S, u: S)
    requires CanReach(matrix, s, t) && CanReach(matrix, t, u)
    ensures CanReach(matrix, s, u)
  {
    var a :| Fold(matrix, s, a) == Ended(t);
    var b :| Fold(matrix, t, b) == Ended(u);
    FoldContinues(matrix, s, a, t, b);
  }

  lemma {:induction false} DispatchedReaches<S, E(!new)>(w: Wiring<S, E>, p: Progress<S, E>, events: seq<E>)
    ensures CanReach(w.matrix, p.state, Dispatched(w, p, events).state)
    decreases |events|
  {
    assert Fold(w.matrix, p.state, []) == Ended(p.state);
    if events != [] {
      var start := p.(queue := [events[0]], arrived := [events[0]], processed := []);
      var r := Loop(w, start);
      assert start.processed + start.queue == start.arrived;
      ProcessedIsFolded(w, p.state, start);
      assert CanReach(w.matrix, p.state, r.0.state);
      if r.1 == Succeeded {
        DispatchedReaches(w, Outside(r.0), events[1..]);
        ReachesOn(w.matrix, p.state, r.0.state, Dispatched(w, p, events).state);
      }
    }
  }

  lemma {:induction false} CallEachReaches<S, E(!new)>(w: Wiring<S, E>, p: Progress<S, E>, phase: Phase<S>,
                                                       cbs: seq<CallbackId>)
    ensures CanReach(w.matrix, p.state, CallEach(w, p, phase, cbs).state)
    decreases |cbs|
  {
    assert Fold(w.matrix, p.state, []) == Ended(p.state);
    if cbs != [] {
      var made := Made(phase, cbs[0], p.state);
      var next := Called(w, p, made);
      if p.script != [] {
        DispatchedReaches(w, p.(calls := p.calls + [made], script := p.script[1..]), p.script[0]);
      }
      CallEachReaches(w, next, phase, cbs[1..]);
      ReachesOn(w.matrix, p.state, next.state, CallEach(w, p, phase, cbs).state);
    }
  }

  /** A transition ends in the state asked for, or where events that its later callbacks dispatch lead
      from there. */
  lemma TransitionReaches<S, E(!new)>(w: Wiring<S, E>, p: Progress<S, E>, to: S)
    ensures CanReach(w.matrix, to, Transitioned(w, p, to).state)
  {
    var left := CallEach(w, p, Leaving, if p.state in w.onExit then w.onExit[p.state] else []);
    var entered := left.(state := to);
    var changed := CallEach(w, entered, Changed(p.state, to), w.globals);
    CallEachReaches(w, entered, Changed(p.state, to), w.globals);
    CallEachReaches(w, changed, Entering, if to in w.onEnter then w.onEnter[to] else []);
    ReachesOn(w.matrix, to, changed.state, Transitioned(w, p, to).state);
  }

  ghost predicate Quiet<E>(script: seq<seq<E>>) { forall i :: 0 <= i < |script| ==> script[i] == [] }

  function MadeAll<S, E>(phase: Phase<S>, cbs: seq<CallbackId>, seen: S): seq<Invocation<S, E>> {
    seq(|cbs|, i requires 0 <= i < |cbs| => Made(phase, cbs[i], seen))
  }

  lemma {:induction false} QuietCalls<S, E>(w: Wiring<S, E>, p: Progress<S, E>, phase: Phase<S>, cbs: seq<CallbackId>)
    requires Quiet(p.script)
    ensures var p' := CallEach(w, p, phase, cbs);
      && p'.state == p.state && Quiet(p'.script)
      && p'.calls == p.calls + MadeAll(phase, cbs, p.state)
    decreases |cbs|
  {
    if cbs != [] {
      var next := Called(w, p, Made(phase, cbs[0], p.state));
      QuietCalls(w, next, phase, cbs[1..]);
    }
  }

  /** Inside a dispatch it is in the state asked for, whatever its callbacks dispatch: that joins the queue
      behind what is there, in the order of the calls. */
  lemma TransitionWithinQueues<S, E>(w: Wiring<S, E>, p: Progress<S, E>, to: S)
    ensures TransitionedWithin(w, p, to)
            == After(p, w.ExitCalls(p.state) + w.GlobalCalls(p.state, to) + w.EnterCalls(to)).(state := to)
  {
    var exits, globalCalls, enters := w.ExitCalls(p.state), w.GlobalCalls(p.state, to), w.EnterCalls(to);
    AfterTwice(p, exits, globalCalls);
    AfterTwice(p, exits + globalCalls, enters);
  }

  /** When no callback dispatches, a transition ends in the state asked for, after the exit callbacks of
      the old state, the global ones and the enter callbacks of the new one. */
  lemma QuietTransition<S, E>(w: Wiring<S, E>, p: Progress<S, E>, to: S)
    requires Quiet(p.script)
    ensures var p' := Transitioned(w, p, to);
      p'.state == to && p'.calls == p.calls + w.ExitCalls(p.state) + w.GlobalCalls(p.state, to) + w.EnterCalls(to)
  {
    var exits := if p.state in w.onExit then w.onExit[p.state] else [];
    var enters := if to in w.onEnter then w.onEnter[to] else [];
    var left := CallEach(w, p, Leaving, exits).(state := to);
    var changed := CallEach(w, left, Changed(p.state, to), w.globals);
    QuietCalls(w, p, Leaving, exits);
    QuietCalls(w, left, Changed(p.state, to), w.globals);
    QuietCalls(w, changed, Entering, enters);
    PhasesAreWired(w, p.state, to);
  }

  lemma PhasesAreWired<S, E>(w: Wiring<S, E>, from: S, to: S)
    ensures MadeAll(Leaving, if from in w.onExit then w.onExit[from] else [], from) == w.ExitCalls(from)
    ensures MadeAll(Changed(from, to), w.globals, to) == w.GlobalCalls(from, to)
    ensures MadeAll(Entering, if to in w.onEnter then w.onEnter[to] else [], to) == w.EnterCalls(to)
  {}

  /** A whole top-level dispatch, from the specification the method meets. */
  lemma DispatchIsFold<S, E>(w: Wiring<S, E>, s0: S, event: E, script: seq<seq<E>>, calls: seq<Invocation<S, E>>)
    ensures var r := Loop(w, Progress(s0, [event], script, calls, [event], []));
      && r.0.queue == [] && r.0.processed <= r.0.arrived
      && (r.1 == Succeeded <==> Fold(w.matrix, s0, r.0.arrived).Ended?)
      && Fold(w.matrix, s0, r.0.processed) == Ended(r.0.state)
      && (r.1 != Succeeded ==>
            Fold(w.matrix, s0, r.0.arrived) == Stuck(r.0.state, |r.0.processed|) && r.1.from == r.0.state)
      && r.0.calls == calls + CallsAlong(w, s0, r.0.processed)
  {
    var p := Progress(s0, [event], script, calls, [event], []);
    assert p.processed + p.queue == p.arrived;
    LoopIsFold(w, s0, p);
    ProcessedIsFolded(w, s0, p);
    CallbacksFollowTheFold(w, s0, calls, p);
  }

  lemma {:induction false} ProcessedIsFolded<S, E>(w: Wiring<S, E>, s0: S, p: Progress<S, E>)
    requires InArrivalOrder(w.matrix, s0, p)
    ensures Fold(w.matrix, s0, Loop(w, p).0.processed) == Ended(Loop(w, p).0.state)
    decreases |p.script|, |p.queue|
  {
    if p.queue != [] && (p.state, p.queue[0]) in w.matrix {
      StepKeepsOrder(w, s0, p);
      ProcessedIsFolded(w, s0, Step(w, p));
    }
  }

  /** The callbacks that running the matrix over `events` from `s` calls: for each transition the exit
      callbacks of the old state, the global ones, those of the event, and the enter callbacks of the
      new state. */
  ghost function CallsAlong<S, E>(w: Wiring<S, E>, s: S, events: seq<E>): seq<Invocation<S, E>> {
    if events == [] then []
    else
      var front, last := events[..|events| - 1], events[|events| - 1];
      CallsAlong(w, s, front)
      + match Fold(w.matrix, s, front)
        case Stuck(_, _) => []
        case Ended(state) => if (state, last) in w.matrix then w.Calls(state, last, w.matrix[(state, last)]) else []
  }

  lemma StepCallsItsCallbacks<S, E>(w: Wiring<S, E>, s0: S, calls0: seq<Invocation<S, E>>, p: Progress<S, E>)
    requires InArrivalOrder(w.matrix, s0, p) && p.queue != [] && (p.state, p.queue[0]) in w.matrix
    requires p.calls == calls0 + CallsAlong(w, s0, p.processed)
    ensures Step(w, p).calls == calls0 + CallsAlong(w, s0, Step(w, p).processed)
  {
    CallsAlongGrows(w, s0, p.processed, p.state, p.queue[0]);
    var made := w.Calls(p.state, p.queue[0], w.matrix[(p.state, p.queue[0])]);
    AppendAssociates(calls0, CallsAlong(w, s0, p.processed), made);
  }

  lemma CallsAlongGrows<S, E>(w: Wiring<S, E>, s: S, events: seq<E>, state: S, last: E)
    requires Fold(w.matrix, s, events) == Ended(state) && (state, last) in w.matrix
    ensures CallsAlong(w, s, events + [last])
              == CallsAlong(w, s, events) + w.Calls(state, last, w.matrix[(state, last)])
  {
    assert (events + [last])[..|events|] == events;
  }

  /** A dispatch calls exactly the callbacks of the transitions it makes, each once and in order,
      whatever events they queue. */
  lemma {:induction false} CallbacksFollowTheFold<S, E>(w: Wiring<S, E>, s0: S, calls0: seq<Invocation<S, E>>,
                                                        p: Progress<S, E>)
    requires InArrivalOrder(w.matrix, s0, p) && p.calls == calls0 + CallsAlong(w, s0, p.processed)
    ensures Loop(w, p).0.calls == calls0 + CallsAlong(w, s0, Loop(w, p).0.processed)
    decreases |p.script|, |p.queue|
  {
    if p.queue != [] && (p.state, p.queue[0]) in w.matrix {
      StepKeepsOrder(w, s0, p);
      StepCallsItsCallbacks(w, s0, calls0, p);
      CallbacksFollowTheFold(w, s0, calls0, Step(w, p));
    }
  }
}
