/** The event buses: a synchronous fan-out, and the decorator that retries handlers and parks what
    keeps failing. */
module EventBuses {
  import opened Prelude
  import opened Graphs
  import opened StableSort

  type HandlerId = nat
  type Failure = nat

  /** What a handler call does: None is a normal return.  The n-th handler call of a whole run has
      outcome `oracle(n)`, so every behaviour of handlers that do not call the bus is covered. */
  type Oracle = nat -> Option<Failure>

  /** One delivery of an event to one handler, as parked in the dead-letter queue.  `parkedAt` is the
      number of handler calls made by then, which stands for the monotonic time. */
  datatype Letter<D> = Letter(id: nat, event: string, data: D, handler: HandlerId, error: Failure, parkedAt: nat)

  datatype Verdict = Delivered | Failed(error: Failure) | NotAttempted

  datatype Pass = Pass(verdict: Verdict, calls: nat)

  /** The retry loop with `left` attempts to go, starting at handler call `at`. */
  function Attempt(oracle: Oracle, at: nat, left: nat): Pass
    decreases left
  {
    if left == 0 then Pass(NotAttempted, 0)
    else
      match oracle(at)
      case None => Pass(Delivered, 1)
      case Some(e) =>
        if left == 1 then Pass(Failed(e), 1)
        else
          var rest := Attempt(oracle, at + 1, left - 1);
          rest.(calls := rest.calls + 1)
  }

  function Attempts(maxRetries: int): nat { if maxRetries < 0 then 0 else maxRetries + 1 }

  /** A pass stops at the first success and otherwise makes all its attempts, failing with the last
      error. */
  lemma {:induction false} AttemptStopsAtSuccess(oracle: Oracle, at: nat, left: nat)
    ensures var p := Attempt(oracle, at, left);
      && p.calls <= left
      && (forall k :: at <= k < at + p.calls - 1 ==> oracle(k).Some?)
      && (p.verdict == Delivered <==> p.calls > 0 && oracle(at + p.calls - 1) == None)
      && (p.verdict == Delivered <==> exists k :: at <= k < at + left && oracle(k) == None)
      && (p.verdict.Failed? ==> p.calls == left && oracle(at + left - 1) == Some(p.verdict.error))
      && (p.verdict == NotAttempted <==> left == 0)
    decreases left
  {
    if left > 0 && oracle(at).Some? && left > 1 {
      AttemptStopsAtSuccess(oracle, at + 1, left - 1);
    }
  }

  /** A call of a handler: for which delivery, which handler, and with what. */
  datatype HandlerCall<D> = HandlerCall(id: nat, handler: HandlerId, data: D)

  /** `made` are the handler calls so far; `succeeded` lists the deliveries that have succeeded, by number;
      there were `deliveries` so far. */
  datatype Ledger<D> = Ledger(made: seq<HandlerCall<D>>, deliveries: nat, succeeded: seq<nat>, dlq: seq<Letter<D>>)

  /** One pass over one delivery. */
  function Process<D>(oracle: Oracle, maxRetries: int, s: Ledger<D>, letter: Letter<D>): Ledger<D> {
    var p := Attempt(oracle, |s.made|, Attempts(maxRetries));
    var s' := s.(made := s.made + CallsOf(letter, p.calls));
    match p.verdict
    case Delivered => s'.(succeeded := s.succeeded + [letter.id])
    case Failed(e) => s'.(dlq := s.dlq + [letter.(error := e, parkedAt := |s'.made|)])
    case NotAttempted => s'
  }

  function CallsOf<D>(letter: Letter<D>, n: nat): seq<HandlerCall<D>> {
    seq(n, _ => HandlerCall(letter.id, letter.handler, letter.data))
  }

  /** What one pass over a delivery makes of the books, said of the outcomes alone.  It makes `n` calls of
      its handler with its data, at most one more than `max_retries`, and all but the last fail.  If the
      last succeeds so does the delivery; if all `max_retries + 1` fail it is parked with the last error. */
  ghost predicate IsPass<D>(oracle: Oracle, maxRetries: int, s: Ledger<D>, letter: Letter<D>, s': Ledger<D>, n: nat) {
    var at := |s.made|;
    && s'.made == s.made + seq(n, _ => HandlerCall(letter.id, letter.handler, letter.data))
    && (n > 0 ==> n <= maxRetries + 1) && (forall k :: at <= k < at + n - 1 ==> oracle(k).Some?)
    && s'.deliveries == s.deliveries
    && (if n > 0 && oracle(at + n - 1) == None then
          s'.succeeded == s.succeeded + [letter.id] && s'.dlq == s.dlq
        else
          && s'.succeeded == s.succeeded && (n == 0 ==> maxRetries < 0 && s'.dlq == s.dlq)
          && (n > 0 ==>
                && n == maxRetries + 1
                && s'.dlq == s.dlq + [Letter(letter.id, letter.event, letter.data, letter.handler,
                                             oracle(at + n - 1).value, at + n)]))
  }

  lemma ProcessIsPass<D>(oracle: Oracle, maxRetries: int, s: Ledger<D>, letter: Letter<D>) returns (n: nat)
    ensures IsPass(oracle, maxRetries, s, letter, Process(oracle, maxRetries, s, letter), n)
  {
    AttemptStopsAtSuccess(oracle, |s.made|, Attempts(maxRetries));
    n := Attempt(oracle, |s.made|, Attempts(maxRetries)).calls;
  }

  /** The outcomes leave no choice. */
  lemma PassIsUnique<D>(oracle: Oracle, maxRetries: int, s: Ledger<D>, letter: Letter<D>, s1: Ledger<D>, n1: nat,
                        s2: Ledger<D>, n2: nat)
    requires IsPass(oracle, maxRetries, s, letter, s1, n1) && IsPass(oracle, maxRetries, s, letter, s2, n2)
    ensures n1 == n2 && s1 == s2
  {
    var last1: nat, last2: nat := |s.made| + if n1 > 0 then n1 - 1 else 0, |s.made| + if n2 > 0 then n2 - 1 else 0;
    var outcome1, outcome2 := oracle(last1), oracle(last2);
  }

  /** `s'` comes of one pass over each of the letters, in order. */
  ghost predicate PassesInOrder<D(!new)>(oracle: Oracle, maxRetries: int, s: Ledger<D>, letters: seq<Letter<D>>,
                                         s': Ledger<D>)
    decreases |letters|
  {
    if letters == [] then s' == s
    else exists mid, n: nat ::
      IsPass(oracle, maxRetries, s, letters[0], mid, n) && PassesInOrder(oracle, maxRetries, mid, letters[1..], s')
  }

  /** A handler subscribed under a wrapper: the event name the wrapper reports, and the handler. */
  datatype Target = Target(event: string, handler: HandlerId)

  function EmitTo<D>(oracle: Oracle, maxRetries: int, s: Ledger<D>, data: D, targets: seq<Target>): Ledger<D>
    decreases |targets|
  {
    if targets == [] then s
    else
      var letter := Letter(s.deliveries, targets[0].event, data, targets[0].handler, 0, 0);
      var s' := Process(oracle, maxRetries, s.(deliveries := s.deliveries + 1), letter);
      EmitTo(oracle, maxRetries, s', data, targets[1..])
  }

  /** The deliveries that an emit makes: one to each target, numbered on from `from`. */
  function Deliveries<D>(from: nat, data: D, targets: seq<Target>): (letters: seq<Letter<D>>)
    ensures |letters| == |targets|
    ensures forall i :: 0 <= i < |targets| ==>
              && letters[i].id == from + i && letters[i].data == data
              && letters[i].event == targets[i].event && letters[i].handler == targets[i].handler
  {
    seq(|targets|, i requires 0 <= i < |targets| => Letter(from + i, targets[i].event, data, targets[i].handler, 0, 0))
  }

  /** An emit makes one delivery to every target, in order, and each has its pass. */
  lemma {:induction false} EmitReachesEveryTarget<D(!new)>(oracle: Oracle, maxRetries: int, s: Ledger<D>, data: D,
                                                           targets: seq<Target>)
    ensures PassesInOrder(oracle, maxRetries, s.(deliveries := s.deliveries + |targets|),
                          Deliveries(s.deliveries, data, targets), EmitTo(oracle, maxRetries, s, data, targets))
    decreases |targets|
  {
    if targets != [] {
      var letters, all := Deliveries(s.deliveries, data, targets), s.deliveries + |targets|;
      var one := s.(deliveries := s.deliveries + 1);
      var mid := Process(oracle, maxRetries, one, letters[0]);
      var n := ProcessIsPass(oracle, maxRetries, one, letters[0]);
      EmitReachesEveryTarget(oracle, maxRetries, mid, data, targets[1..]);
      assert mid.(deliveries := mid.deliveries + |targets[1..]|) == mid.(deliveries := all);
      assert Deliveries(mid.deliveries, data, targets[1..]) == letters[1..];
      assert IsPass(oracle, maxRetries, s.(deliveries := all), letters[0], mid.(deliveries := all), n);
    }
  }

  lemma {:induction false} ReprocessTriesEveryLetter<D(!new)>(oracle: Oracle, maxRetries: int, s: Ledger<D>,
                                                              letters: seq<Letter<D>>)
    ensures PassesInOrder(oracle, maxRetries, s, letters, ProcessAll(oracle, maxRetries, s, letters))
    decreases |letters|
  {
    if letters != [] {
      var n := ProcessIsPass(oracle, maxRetries, s, letters[0]);
      ReprocessTriesEveryLetter(oracle, maxRetries, Process(oracle, maxRetries, s, letters[0]), letters[1..]);
    }
  }

  /** A letter parked by passes over `letters` is one of them, with the error of its last attempt. */
  ghost predicate ParkedFrom<D>(oracle: Oracle, letter: Letter<D>, letters: seq<Letter<D>>) {
    exists i :: 0 <= i < |letters| && SameDelivery(letter, letters[i])
                && letter.parkedAt > 0 && oracle(letter.parkedAt - 1) == Some(letter.error)
  }

  lemma {:induction false} ParkedLettersAreThose<D(!new)>(oracle: Oracle, maxRetries: int, s: Ledger<D>,
                                                          letters: seq<Letter<D>>, s': Ledger<D>)
    requires PassesInOrder(oracle, maxRetries, s, letters, s')
    ensures s'.deliveries == s.deliveries && s.made <= s'.made && s.dlq <= s'.dlq
    ensures forall k :: |s.dlq| <= k < |s'.dlq| ==> ParkedFrom(oracle, s'.dlq[k], letters)
    decreases |letters|
  {
    if letters != [] {
      var mid, n: nat :| IsPass(oracle, maxRetries, s, letters[0], mid, n)
                         && PassesInOrder(oracle, maxRetries, mid, letters[1..], s');
      ParkedLettersAreThose(oracle, maxRetries, mid, letters[1..], s');
      forall k | |s.dlq| <= k < |s'.dlq| ensures ParkedFrom(oracle, s'.dlq[k], letters) {
        if k < |mid.dlq| {
          assert s'.dlq[k] == mid.dlq[k] && SameDelivery(s'.dlq[k], letters[0]);
        } else {
          assert ParkedFrom(oracle, s'.dlq[k], letters[1..]);
          var i :| 0 <= i < |letters| - 1 && SameDelivery(s'.dlq[k], letters[1..][i]);
          assert SameDelivery(s'.dlq[k], letters[i + 1]);
        }
      }
    }
  }

  /** What an emit makes of the books. */
  lemma EmitParksItsLetters<D(!new)>(oracle: Oracle, maxRetries: int, s: Ledger<D>, data: D, targets: seq<Target>)
    ensures var s' := EmitTo(oracle, maxRetries, s, data, targets);
            var letters := Deliveries(s.deliveries, data, targets);
      && s'.deliveries == s.deliveries + |targets| && s.dlq <= s'.dlq
      && PassesInOrder(oracle, maxRetries, s.(deliveries := s'.deliveries), letters, s')
      && forall k :: |s.dlq| <= k < |s'.dlq| ==> ParkedFrom(oracle, s'.dlq[k], letters)
  {
    EmitReachesEveryTarget(oracle, maxRetries, s, data, targets);
    ParkedLettersAreThose(oracle, maxRetries, s.(deliveries := s.deliveries + |targets|),
                          Deliveries(s.deliveries, data, targets), EmitTo(oracle, maxRetries, s, data, targets));
  }

  function ProcessAll<D>(oracle: Oracle, maxRetries: int, s: Ledger<D>, letters: seq<Letter<D>>): Ledger<D>
    decreases |letters|
  {
    if letters == [] then s
    else ProcessAll(oracle, maxRetries, Process(oracle, maxRetries, s, letters[0]), letters[1..])
  }

  /** `reprocess`: the queue is swapped out and refilled. */
  function Reprocessed<D>(oracle: Oracle, maxRetries: int, s: Ledger<D>): Ledger<D> {
    ProcessAll(oracle, maxRetries, s.(dlq := []), s.dlq)
  }

  datatype Operation<D> = Emit(data: D, targets: seq<Target>) | Reprocess

  function Perform<D>(oracle: Oracle, maxRetries: int, s: Ledger<D>, ops: seq<Operation<D>>): Ledger<D>
    decreases |ops|
  {
    if ops == [] then s
    else
      var s' := match ops[0]
        case Emit(data, targets) => EmitTo(oracle, maxRetries, s, data, targets)
        case Reprocess => Reprocessed(oracle, maxRetries, s);
      Perform(oracle, maxRetries, s', ops[1..])
  }

  ghost function Ids<D>(letters: seq<Letter<D>>): (ids: seq<nat>)
    ensures |ids| == |letters| && forall i :: 0 <= i < |ids| ==> ids[i] == letters[i].id
  {
    seq(|letters|, i requires 0 <= i < |letters| => letters[i].id)
  }

  /** Where each delivery is: succeeded, parked, or about to be tried again. */
  ghost function Places<D>(s: Ledger<D>, waiting: seq<Letter<D>>): multiset<nat> {
    multiset(s.succeeded) + multiset(Ids(s.dlq)) + multiset(Ids(waiting))
  }

  /** Every delivery made is in exactly one place, once. */
  ghost predicate Accounted<D>(s: Ledger<D>, waiting: seq<Letter<D>>) {
    forall id: nat :: Places(s, waiting)[id] == if id < s.deliveries then 1 else 0
  }

  lemma IdsAppend<D>(a: seq<Letter<D>>, b: seq<Letter<D>>)
    ensures multiset(Ids(a + b)) == multiset(Ids(a)) + multiset(Ids(b))
  {
    assert Ids(a + b) == Ids(a) + Ids(b);
  }

  /** A pass moves its delivery to exactly one place. */
  lemma ProcessMoves<D>(oracle: Oracle, maxRetries: int, s: Ledger<D>, letter: Letter<D>)
    requires maxRetries >= 0
    ensures var s' := Process(oracle, maxRetries, s, letter);
      && s'.deliveries == s.deliveries
      && multiset(s'.succeeded) + multiset(Ids(s'.dlq))
          == multiset(s.succeeded) + multiset(Ids(s.dlq)) + multiset{letter.id}
  {
    AttemptStopsAtSuccess(oracle, |s.made|, Attempts(maxRetries));
    var p := Attempt(oracle, |s.made|, Attempts(maxRetries));
    if p.verdict.Failed? {
      var parked := letter.(error := p.verdict.error, parkedAt := |s.made| + p.calls);
      IdsAppend(s.dlq, [parked]);
      assert Ids([parked]) == [letter.id];
    }
  }

  lemma ProcessKeepsAccounted<D>(oracle: Oracle, maxRetries: int, s: Ledger<D>, letter: Letter<D>,
                                 waiting: seq<Letter<D>>)
    requires maxRetries >= 0 && Accounted(s, [letter] + waiting)
    ensures Accounted(Process(oracle, maxRetries, s, letter), waiting)
  {
    ProcessMoves(oracle, maxRetries, s, letter);
    IdsAppend([letter], waiting);
    assert Ids([letter]) == [letter.id];
    assert Places(Process(oracle, maxRetries, s, letter), waiting) == Places(s, [letter] + waiting);
  }

  lemma {:induction false} ProcessAllKeepsAccounted<D>(oracle: Oracle, maxRetries: int, s: Ledger<D>,
                                                       letters: seq<Letter<D>>)
    requires maxRetries >= 0 && Accounted(s, letters)
    ensures Accounted(ProcessAll(oracle, maxRetries, s, letters), [])
    decreases |letters|
  {
    if letters != [] {
      assert [letters[0]] + letters[1..] == letters;
      ProcessKeepsAccounted(oracle, maxRetries, s, letters[0], letters[1..]);
      ProcessAllKeepsAccounted(oracle, maxRetries, Process(oracle, maxRetries, s, letters[0]), letters[1..]);
    }
  }

  lemma {:induction false} EmitKeepsAccounted<D>(oracle: Oracle, maxRetries: int, s: Ledger<D>, data: D,
                                                 targets: seq<Target>)
    requires maxRetries >= 0 && Accounted(s, [])
    ensures Accounted(EmitTo(oracle, maxRetries, s, data, targets), [])
    decreases |targets|
  {
    if targets != [] {
      var letter := Letter(s.deliveries, targets[0].event, data, targets[0].handler, 0, 0);
      var s1 := s.(deliveries := s.deliveries + 1);
      assert Ids([letter]) == [letter.id] && Ids<D>([]) == [];
      assert Places(s1, [letter]) == Places(s, []) + multiset{letter.id};
      assert [letter] + [] == [letter];
      ProcessKeepsAccounted(oracle, maxRetries, s1, letter, []);
      EmitKeepsAccounted(oracle, maxRetries, Process(oracle, maxRetries, s1, letter), data, targets[1..]);
    }
  }

  lemma ReprocessKeepsAccounted<D>(oracle: Oracle, maxRetries: int, s: Ledger<D>)
    requires maxRetries >= 0 && Accounted(s, [])
    ensures Accounted(Reprocessed(oracle, maxRetries, s), [])
  {
    assert Places(s.(dlq := []), s.dlq) == Places(s, []);
    ProcessAllKeepsAccounted(oracle, maxRetries, s.(dlq := []), s.dlq);
  }

  lemma {:induction false} PerformKeepsAccounted<D>(oracle: Oracle, maxRetries: int, s: Ledger<D>,
                                                    ops: seq<Operation<D>>)
    requires maxRetries >= 0 && Accounted(s, [])
    ensures Accounted(Perform(oracle, maxRetries, s, ops), [])
    decreases |ops|
  {
    if ops != [] {
      match ops[0]
      case Emit(data, targets) =>
        EmitKeepsAccounted(oracle, maxRetries, s, data, targets);
        PerformKeepsAccounted(oracle, maxRetries, EmitTo(oracle, maxRetries, s, data, targets), ops[1..]);
      case Reprocess =>
        ReprocessKeepsAccounted(oracle, maxRetries, s);
        PerformKeepsAccounted(oracle, maxRetries, Reprocessed(oracle, maxRetries, s), ops[1..]);
    }
  }

  /** In balanced books the dead-letter queue holds exactly what has not succeeded. */
  lemma ParkedAreTheRest<D>(s: Ledger<D>)
    requires Accounted(s, [])
    ensures Distinct(Ids(s.dlq))
    ensures forall id: nat :: id in Ids(s.dlq) <==> id < s.deliveries && id !in s.succeeded
  {
    assert Ids<D>([]) == [];
    DistinctMeansCountedOnce(Ids(s.dlq));
    forall id: nat ensures multiset(Ids(s.dlq))[id] + multiset(s.succeeded)[id] == if id < s.deliveries then 1 else 0 {
      assert Places(s, [])[id] == multiset(s.succeeded)[id] + multiset(Ids(s.dlq))[id];
    }
    forall id: nat ensures id in Ids(s.dlq) <==> id < s.deliveries && id !in s.succeeded {
      assert id in Ids(s.dlq) <==> id in multiset(Ids(s.dlq));
      assert id in s.succeeded <==> id in multiset(s.succeeded);
    }
  }

  ghost function Fresh<D>(): Ledger<D> { Ledger([], 0, [], []) }

  /** Over every run of emits and reprocesses each delivery has either succeeded or sits in the
      dead-letter queue, exactly once, if and only if `max_retries` is not negative: with a negative
      one the retry loop makes no attempt and the delivery vanishes. */
  lemma NoDeliveryIsLostIffRetriesNotNegative<D(!new)>(maxRetries: int, someData: D)
    ensures (forall oracle: Oracle, ops: seq<Operation<D>> :: Accounted(Perform(oracle, maxRetries, Fresh(), ops), []))
            <==> maxRetries >= 0
  {
    if maxRetries >= 0 {
      forall oracle: Oracle, ops: seq<Operation<D>>
        ensures Accounted(Perform(oracle, maxRetries, Fresh(), ops), [])
      {
        PerformKeepsAccounted(oracle, maxRetries, Fresh<D>(), ops);
      }
    } else {
      NegativeRetriesLose(maxRetries, someData);
    }
  }

  lemma NegativeRetriesLose<D>(maxRetries: int, someData: D)
    requires maxRetries < 0
    ensures exists oracle: Oracle, ops: seq<Operation<D>> :: !Accounted(Perform(oracle, maxRetries, Fresh(), ops), [])
  {
    var oracle: Oracle := n => None;
    var target := Target("event", 0);
    var ops: seq<Operation<D>> := [Emit(someData, [target])];
    var s0 := Fresh<D>();
    var s1 := Process(oracle, maxRetries, s0.(deliveries := 1), Letter(0, "event", someData, 0, 0, 0));
    assert s1 == s0.(deliveries := 1);
    assert [target][1..] == [] && ops[1..] == [];
    assert EmitTo(oracle, maxRetries, s0, someData, [target]) == EmitTo(oracle, maxRetries, s1, someData, []);
    assert Perform(oracle, maxRetries, s0, ops) == Perform(oracle, maxRetries, s1, []) == s1;
    assert Places(s1, [])[0] == 0;
    assert !Accounted(Perform(oracle, maxRetries, Fresh(), ops), []);
  }

  ghost predicate SameDelivery<D>(a: Letter<D>, b: Letter<D>) {
    a.id == b.id && a.event == b.event && a.handler == b.handler && a.data == b.data
  }

  /** `a` is `b` with some letters left out, up to error and time. */
  ghost predicate IsSubsequence<D>(a: seq<Letter<D>>, b: seq<Letter<D>>) {
    if a == [] then true
    else if b == [] then false
    else if SameDelivery(a[|a| - 1], b[|b| - 1]) && IsSubsequence(a[..|a| - 1], b[..|b| - 1]) then true
    else IsSubsequence(a, b[..|b| - 1])
  }

  lemma {:induction false} ProcessAllKeepsOrder<D>(oracle: Oracle, maxRetries: int, s: Ledger<D>,
                                                   tried: seq<Letter<D>>, letters: seq<Letter<D>>)
    requires IsSubsequence(s.dlq, tried)
    ensures IsSubsequence(ProcessAll(oracle, maxRetries, s, letters).dlq, tried + letters)
    decreases |letters|
  {
    if letters == [] {
      assert tried + letters == tried;
    } else {
      var s' := Process(oracle, maxRetries, s, letters[0]);
      var longer := tried + [letters[0]];
      assert longer[..|tried|] == tried;
      if s'.dlq != s.dlq {
        assert s'.dlq[..|s.dlq|] == s.dlq;
      }
      ProcessAllKeepsOrder(oracle, maxRetries, s', longer, letters[1..]);
      assert longer + letters[1..] == tried + letters;
    }
  }

  /** What `reprocess` parks again keeps its relative order. */
  lemma ReprocessKeepsOrder<D>(oracle: Oracle, maxRetries: int, s: Ledger<D>)
    ensures IsSubsequence(Reprocessed(oracle, maxRetries, s).dlq, s.dlq)
  {
    ProcessAllKeepsOrder(oracle, maxRetries, s.(dlq := []), [], s.dlq);
    assert [] + s.dlq == s.dlq;
  }

  /** An event given to `on` or `off`: the name the decorator uses and the key the plain bus uses.  For
      an event named by a string they are the same. */
  datatype EventRef = EventRef(title: string, key: string)

  type WrapperId = nat

  function Without(s: seq<WrapperId>, x: WrapperId): seq<WrapperId> {
    Filter(s, w => w != x)
  }

  class MemoryEventBus {
    var handlers: map<string, seq<WrapperId>>

    constructor ()
      ensures handlers == map[]
    {
      handlers := map[];
    }

    function HandlersOf(key: string): seq<WrapperId>
      reads this
    {
      if key in handlers then handlers[key] else []
    }

    method On(key: string, handler: WrapperId)
      modifies this
      ensures HandlersOf(key)
              == if handler in old(HandlersOf(key)) then old(HandlersOf(key)) else old(HandlersOf(key)) + [handler]
      ensures forall k :: k != key ==> HandlersOf(k) == old(HandlersOf(k))
    {
      var current := HandlersOf(key);
      if handler !in current {
        handlers := handlers[key := current + [handler]];
      }
    }

    method Off(key: string, handler: WrapperId)
      modifies this
      ensures forall k :: HandlersOf(k) == if k == key then Without(old(HandlersOf(k)), handler) else old(HandlersOf(k))
    {
      if key in handlers && handler in handlers[key] {
        handlers := handlers[key := Without(handlers[key], handler)];
      } else {
        WithoutAbsent(HandlersOf(key), handler);
      }
    }
  }

  lemma {:induction false} WithoutAbsent(s: seq<WrapperId>, x: WrapperId)
    requires x !in s
    ensures Without(s, x) == s
  {
    if s != [] {
      WithoutAbsent(s[..|s| - 1], x);
      assert s == s[..|s| - 1] + [s[|s| - 1]];
    }
  }

  ghost predicate AllKnown(wrappers: seq<WrapperId>, targets: map<WrapperId, Target>) {
    forall i :: 0 <= i < |wrappers| ==> wrappers[i] in targets
  }

  /** The handlers that a list of wrappers stands for. */
  ghost function Unwrapped(wrappers: seq<WrapperId>, targets: map<WrapperId, Target>): seq<Target>
    requires AllKnown(wrappers, targets)
  {
    seq(|wrappers|, i requires 0 <= i < |wrappers| => targets[wrappers[i]])
  }

  class ResilientEventBus<D(!new)> {
    const inner: MemoryEventBus
    const maxRetries: int
    const oracle: Oracle
    var dlq: seq<Letter<D>>
    var wrapperMap: map<Target, WrapperId>
    var targets: map<WrapperId, Target>
    var nextWrapper: WrapperId
    var calls: nat
    var deliveries: nat
    ghost var made: seq<HandlerCall<D>>
    ghost var succeeded: seq<nat>

    constructor (inner: MemoryEventBus, maxRetries: int, oracle: Oracle)
      requires inner.handlers == map[]
      ensures this.inner == inner && this.maxRetries == maxRetries && this.oracle == oracle
      ensures Valid() && Books() == Fresh() && wrapperMap == map[]
    {
      this.inner, this.maxRetries, this.oracle := inner, maxRetries, oracle;
      dlq, wrapperMap, targets, nextWrapper, calls, deliveries := [], map[], map[], 0, 0, 0;
      made, succeeded := [], [];
    }

    ghost function Books(): Ledger<D>
      reads this
    {
      Ledger(made, deliveries, succeeded, dlq)
    }

    /** Every callable on the plain bus is one of this bus's wrappers, and knows its target. */
    ghost predicate Valid()
      reads this, inner
    {
      && calls == |made|
      && (forall k :: AllKnown(inner.HandlersOf(k), targets))
      && (forall w :: w in targets ==> w < nextWrapper)
      && (forall t :: t in wrapperMap ==> wrapperMap[t] in targets && targets[wrapperMap[t]] == t)
    }

    ghost function TargetsOf(key: string): seq<Target>
      requires Valid()
      reads this, inner
    {
      Unwrapped(inner.HandlersOf(key), targets)
    }

    /** `on`: takes effect exactly when this handler is not yet registered under this title, even if it
        was registered there for an event with another key. */
    method On(event: EventRef, handler: HandlerId)
      requires Valid()
      modifies `wrapperMap, `targets, `nextWrapper, inner
      ensures Valid()
      ensures var t := Target(event.title, handler);
        if t in old(wrapperMap)
        then wrapperMap == old(wrapperMap) && forall k :: TargetsOf(k) == old(TargetsOf(k))
        else t in wrapperMap && forall k :: TargetsOf(k) == old(TargetsOf(k)) + if k == event.key then [t] else []
    {
      var t := Target(event.title, handler);
      if t in wrapperMap { return; }
      var w := nextWrapper;
      ghost var known := targets;
      assert forall k :: AllKnown(inner.HandlersOf(k), known) && w !in inner.HandlersOf(k);
      nextWrapper := nextWrapper + 1;
      wrapperMap := wrapperMap[t := w];
      targets := targets[w := t];
      inner.On(event.key, w);
      forall k ensures AllKnown(inner.HandlersOf(k), targets)
                    && Unwrapped(inner.HandlersOf(k), targets) == old(TargetsOf(k)) + if k == event.key then [t] else []
      {
        assert AllKnown(old(inner.HandlersOf(k)), known);
      }
    }

    /** `off`: forgets the wrapper and takes it off the list of this event's key. */
    method Off(event: EventRef, handler: HandlerId)
      requires Valid()
      modifies `wrapperMap, inner
      ensures Valid() && wrapperMap == old(wrapperMap) - {Target(event.title, handler)} && targets == old(targets)
      ensures var t := Target(event.title, handler);
        forall k :: inner.HandlersOf(k) == (if k == event.key && t in old(wrapperMap)
                                            then Without(old(inner.HandlersOf(k)), old(wrapperMap)[t])
                                            else old(inner.HandlersOf(k)))
    {
      var t := Target(event.title, handler);
      if t in wrapperMap {
        var wrapper := wrapperMap[t];
        wrapperMap := wrapperMap - {t};
        inner.Off(event.key, wrapper);
        forall k ensures AllKnown(inner.HandlersOf(k), targets) {
          assert AllKnown(old(inner.HandlersOf(k)), targets);
          FilterIsSubsequence(old(inner.HandlersOf(k)), w => w != wrapper);
          forall i | 0 <= i < |inner.HandlersOf(k)| ensures inner.HandlersOf(k)[i] in targets {
            assert inner.HandlersOf(k)[i] in old(inner.HandlersOf(k));
          }
        }
      }
    }

    /** `emit`: the plain bus calls a snapshot of the wrappers one by one. */
    method EmitEvent(key: string, data: D)
      requires Valid()
      modifies `dlq, `calls, `deliveries, `made, `succeeded
      ensures Valid() && Books() == EmitTo(oracle, maxRetries, old(Books()), data, TargetsOf(key))
      ensures deliveries == old(deliveries) + |TargetsOf(key)|
      ensures PassesInOrder(oracle, maxRetries, old(Books()).(deliveries := deliveries),
                            Deliveries(old(deliveries), data, TargetsOf(key)), Books())
      ensures old(dlq) <= dlq && forall k :: |old(dlq)| <= k < |dlq| ==>
                ParkedFrom(oracle, dlq[k], Deliveries(old(deliveries), data, TargetsOf(key)))
      ensures maxRetries >= 0 && old(Accounted(Books(), [])) ==> Accounted(Books(), [])
    {
      var snapshot := inner.HandlersOf(key);
      ghost var all, outcome := TargetsOf(key), EmitTo(oracle, maxRetries, Books(), data, TargetsOf(key));
      for i := 0 to |snapshot|
        invariant calls == |made|
        invariant EmitTo(oracle, maxRetries, Books(), data, all[i..]) == outcome
      {
        var target := targets[snapshot[i]];
        assert target == all[i] && all[i..][0] == all[i] && all[i..][1..] == all[i + 1..];
        var letter := Letter(deliveries, target.event, data, target.handler, 0, 0);
        deliveries := deliveries + 1;
        CallWithRetries(letter);
      }
      if maxRetries >= 0 && old(Accounted(Books(), [])) {
        EmitKeepsAccounted(oracle, maxRetries, old(Books()), data, all);
      }
      EmitParksItsLetters(oracle, maxRetries, old(Books()), data, all);
    }

    /** `resilient_wrapper` and the body of the loop of `reprocess`. */
    method CallWithRetries(letter: Letter<D>)
      requires calls == |made|
      modifies `dlq, `calls, `made, `succeeded
      ensures calls == |made| && Books() == Process(oracle, maxRetries, old(Books()), letter)
    {
      ghost var pass := Attempt(oracle, calls, Attempts(maxRetries));
      var attempt := 0;
      while attempt < maxRetries + 1
        invariant 0 <= attempt <= Attempts(maxRetries)
        invariant dlq == old(dlq) && succeeded == old(succeeded) && calls == |made|
        invariant made == old(made) + CallsOf(letter, attempt)
        invariant var rest := Attempt(oracle, calls, Attempts(maxRetries) - attempt);
                  pass == rest.(calls := rest.calls + attempt)
      {
        var outcome := oracle(calls);
        calls, made := calls + 1, made + [HandlerCall(letter.id, letter.handler, letter.data)];
        if outcome.None? {
          succeeded := succeeded + [letter.id];
          return;
        }
        if attempt == maxRetries {
          dlq := dlq + [letter.(error := outcome.value, parkedAt := calls)];
          return;
        }
        attempt := attempt + 1;
      }
    }

    /** `get_dlq`: while the books balance, the copy lists exactly the deliveries that have not succeeded,
        each once. */
    method GetDlq() returns (letters: seq<Letter<D>>)
      ensures letters == dlq
      ensures Accounted(Books(), []) ==>
        && Distinct(Ids(letters))
        && forall id: nat :: id in Ids(letters) <==> id < deliveries && id !in succeeded
    {
      letters := dlq;
      if Accounted(Books(), []) { ParkedAreTheRest(Books()); }
    }

    /** `reprocess`. */
    method ReprocessDlq()
      requires Valid()
      modifies `dlq, `calls, `made, `succeeded
      ensures Valid() && Books() == Reprocessed(oracle, maxRetries, old(Books()))
      ensures PassesInOrder(oracle, maxRetries, old(Books()).(dlq := []), old(dlq), Books())
      ensures maxRetries >= 0 && old(Accounted(Books(), [])) ==> Accounted(Books(), [])
    {
      var current := dlq;
      dlq := [];
      ghost var outcome := ProcessAll(oracle, maxRetries, Books(), current);
      for i := 0 to |current|
        invariant deliveries == old(deliveries) && calls == |made|
        invariant ProcessAll(oracle, maxRetries, Books(), current[i..]) == outcome
      {
        assert current[i..][1..] == current[i + 1..];
        CallWithRetries(current[i]);
      }
      if maxRetries >= 0 && old(Accounted(Books(), [])) {
        ReprocessKeepsAccounted(oracle, maxRetries, old(Books()));
      }
      ReprocessTriesEveryLetter(oracle, maxRetries, old(Books()).(dlq := []), current);
    }
  }
}
