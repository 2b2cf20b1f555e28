/** The extension manager: eager initialisation while extensions are registered, ordered boot, and
    ordered teardown. */
module ExtensionManagers {
  import opened Prelude
  import opened Graphs
  import opened StableSort
  import opened ExtensionOrder
  import opened EagerOrder

  /** What a call of an `initialize` hook does: RaisesHandled stands for the exception types the
      manager catches, RaisesOther for all others. */
  datatype HookOutcome = Succeeds | RaisesHandled | RaisesOther

  datatype LifecycleCall = Initialize(name: string) | Start(name: string) | Stop(name: string) | Dispose(name: string)

  datatype ManagerResult = Done | NotSorted(error: SortError) | InitializeRaised(name: string, handled: bool)

  /** `s` contains every enabled extension whose dependencies are all in it. */
  ghost predicate ClosedUnderInitialize(exts: seq<Extension>, s: set<string>) {
    forall e :: e in exts && e.enabled && AllMet(e, s) ==> e.name in s
  }

  /** The least fixed point of the eager rule. */
  ghost predicate IsEagerSet(exts: seq<Extension>, s: set<string>) {
    ClosedUnderInitialize(exts, s) && forall t :: ClosedUnderInitialize(exts, t) ==> s <= t
  }

  /** Each extension was initialised after all its required and optional dependencies. */
  ghost predicate Grounded(s: seq<Extension>) {
    forall i :: 0 <= i < |s| ==> AllMet(s[i], Names(s[..i]))
  }

  lemma {:induction false} GroundedIsWithin(exts: seq<Extension>, s: seq<Extension>, t: set<string>)
    requires Grounded(s) && (forall e :: e in s ==> e in exts && e.enabled) && ClosedUnderInitialize(exts, t)
    ensures Names(s) <= t
  {
    if s != [] {
      var front, last := s[..|s| - 1], s[|s| - 1];
      forall i | 0 <= i < |front| ensures AllMet(front[i], Names(front[..i])) {
        assert front[..i] == s[..i];
      }
      GroundedIsWithin(exts, front, t);
      assert AllMet(last, Names(front));
      assert s == front + [last];
    }
  }

  /** A grounded sequence whose names are closed under the rule is the least fixed point. */
  lemma GroundedAndClosedIsEager(exts: seq<Extension>, s: seq<Extension>)
    requires Grounded(s) && (forall e :: e in s ==> e in exts && e.enabled)
    requires ClosedUnderInitialize(exts, Names(s))
    ensures IsEagerSet(exts, Names(s))
  {
    forall t | ClosedUnderInitialize(exts, t) ensures Names(s) <= t {
      GroundedIsWithin(exts, s, t);
    }
  }

  /** The order of registration does not matter. */
  lemma EagerSetIgnoresOrder(exts: seq<Extension>, exts': seq<Extension>, s: set<string>, s': set<string>)
    requires forall e :: e in exts <==> e in exts'
    requires IsEagerSet(exts, s) && IsEagerSet(exts', s')
    ensures s == s'
  {
    assert ClosedUnderInitialize(exts, s') && ClosedUnderInitialize(exts', s);
  }

  /** Every required and every enabled-optional dependency of `e` is in `names`. */
  ghost predicate NeedsMet(e: Extension, enabled: set<string>, names: set<string>) {
    forall d :: d in e.deps || (d in e.opts && d in enabled) ==> d in names
  }

  ghost function EnabledNames(registered: seq<Extension>): set<string> {
    set e | e in registered && e.enabled :: e.name
  }

  /** Each extension comes after its required and its enabled-optional dependencies. */
  ghost predicate InOrder(enabled: set<string>, s: seq<Extension>) {
    forall i :: 0 <= i < |s| ==> NeedsMet(s[i], enabled, Names(s[..i]))
  }

  lemma GroundedIsInOrder(enabled: set<string>, s: seq<Extension>)
    requires Grounded(s)
    ensures InOrder(enabled, s)
  {}

  /** What `stop_and_dispose` calls for a sorted list: from the last to the first, stop then dispose. */
  ghost function Teardown(s: seq<Extension>): (calls: seq<LifecycleCall>)
    ensures |calls| == 2 * |s|
  {
    if s == [] then []
    else [Stop(s[|s| - 1].name), Dispose(s[|s| - 1].name)] + Teardown(s[..|s| - 1])
  }

  ghost function Disposals(s: seq<Extension>): (calls: seq<LifecycleCall>)
    ensures |calls| == |s|
  {
    if s == [] then [] else [Dispose(s[|s| - 1].name)] + Disposals(s[..|s| - 1])
  }

  /** From the last to the first. */
  lemma {:induction false} DisposalPlace(s: seq<Extension>, p: nat)
    requires p < |s|
    ensures Disposals(s)[p] == Dispose(s[|s| - 1 - p].name)
  {
    if p > 0 { DisposalPlace(s[..|s| - 1], p - 1); }
  }

  ghost function Starts(s: seq<Extension>): (calls: seq<LifecycleCall>)
    ensures |calls| == |s| && forall i :: 0 <= i < |s| ==> calls[i] == Start(s[i].name)
  {
    seq(|s|, i requires 0 <= i < |s| => Start(s[i].name))
  }

  lemma {:induction false} TeardownPlace(s: seq<Extension>, p: nat)
    requires p < 2 * |s|
    ensures Teardown(s)[p].name == s[|s| - 1 - p / 2].name
    ensures Teardown(s)[p].Stop? <==> p % 2 == 0
    ensures Teardown(s)[p].Dispose? <==> p % 2 == 1
  {
    if p >= 2 {
      TeardownPlace(s[..|s| - 1], p - 2);
    }
  }

  /** Stopping goes against the dependencies: every call on a dependent comes before every call on
      what it depends on. */
  lemma {:induction false} DependentsTornDownFirst(graph: map<string, seq<string>>, s: seq<Extension>, p: nat, q: nat)
    requires UniqueNames(s) && SuccessorsFirst(graph, NameSeq(s))
    requires p < 2 * |s| && q < 2 * |s| && Edge(graph, Teardown(s)[p].name, Teardown(s)[q].name)
    ensures p < q
  {
    TeardownPlace(s, p);
    TeardownPlace(s, q);
    var i, j := |s| - 1 - p / 2, |s| - 1 - q / 2;
    assert Edge(graph, NameSeq(s)[i], s[j].name);
    assert s[j].name in NameSeq(s)[..i];
    var k :| 0 <= k < i && NameSeq(s)[k] == s[j].name;
    assert k == j;
  }

  class ExtensionManager {
    /** The outcome of the k-th call of an `initialize` hook. */
    const hook: nat -> HookOutcome
    var hookCalls: nat
    var registered: seq<Extension>
    var sorted: seq<Extension>
    var initialized: seq<Extension>
    ghost var calls: seq<LifecycleCall>

    constructor (hook: nat -> HookOutcome)
      ensures Valid() && registered == sorted == initialized == [] && calls == []
    {
      this.hook := hook;
      hookCalls, registered, sorted, initialized, calls := 0, [], [], [], [];
    }

    ghost predicate Valid()
      reads this
    {
      forall e :: e in initialized ==> e in registered && e.enabled
    }

    ghost function Progress(): Lifecycle
      reads this
    {
      Lifecycle(hookCalls, initialized, calls)
    }

    /** `register`.  The waiting extensions are initialised in the eager order until a hook fails; as long
        as none does, what is initialised is exactly the least fixed point.  When one fails in a way the
        manager handles, everything initialised so far, `reached`, is disposed in reverse. */
    method Register(ext: Extension) returns (r: ManagerResult, ghost reached: Lifecycle)
      requires Valid()
      modifies `hookCalls, `registered, `initialized, `calls
      ensures Valid() && registered == old(registered) + [ext] && !r.NotSorted?
      ensures var names := old(Names(initialized));
              Went(hook, EagerSequence(Waiting(registered, names), names), old(Progress()), reached, r)
      ensures Settled(reached, Progress(), r)
      ensures r.Done? <==> AllSucceed(hook, old(hookCalls), hookCalls)
      ensures r.InitializeRaised? ==> hookCalls > old(hookCalls) && FailedAs(hook(hookCalls - 1), r)
      ensures old(Grounded(initialized)) ==> Grounded(initialized)
      ensures r.Done? && old(Grounded(initialized)) ==> IsEagerSet(registered, Names(initialized))
    {
      registered := registered + [ext];
      r := TryInitializeAvailable();
      reached := Progress();
      ghost var names := old(Names(initialized));
      EndsWithTheHooks(hook, EagerSequence(Waiting(registered, names), names), old(Progress()), reached, r);
      if r.InitializeRaised? && r.handled {
        Rollback();
      }
      if r.Done? && old(Grounded(initialized)) {
        GroundedAndClosedIsEager(registered, initialized);
      }
    }

    /** The `initialize` call shared by both phases: it ends as the hook does. */
    method CallInitialize(ext: Extension) returns (r: ManagerResult)
      requires Valid() && ext in registered && ext.enabled
      modifies `hookCalls, `initialized, `calls
      ensures Valid() && Progress() == Called(old(Progress()), ext, r.Done?)
      ensures r == Done || (r.InitializeRaised? && r.name == ext.name && FailedAs(hook(old(hookCalls)), r))
      ensures r.Done? <==> hook(old(hookCalls)) == Succeeds
    {
      calls := calls + [Initialize(ext.name)];
      var outcome := hook(hookCalls);
      hookCalls := hookCalls + 1;
      match outcome
      case Succeeds =>
        initialized := initialized + [ext];
        r := Done;
      case RaisesHandled => r := InitializeRaised(ext.name, true);
      case RaisesOther => r := InitializeRaised(ext.name, false);
    }

    /** One more, after `done`, of the extensions of `order`. */
    method InitializeNext(ext: Extension, ghost start: Lifecycle, ghost done: seq<Extension>,
                          ghost order: seq<Extension>)
      returns (r: ManagerResult)
      requires Valid() && ext in registered && ext.enabled && done + [ext] <= order
      requires Progress() == Further(start, done) && AllSucceed(hook, start.hookCalls, start.hookCalls + |done|)
      modifies `hookCalls, `initialized, `calls
      ensures Valid() && !r.NotSorted?
      ensures r.Done? ==>
        Progress() == Further(start, done + [ext]) && AllSucceed(hook, start.hookCalls, start.hookCalls + |done| + 1)
      ensures !r.Done? ==> Went(hook, order, start, Progress(), r)
    {
      assert hookCalls == start.hookCalls + |done|;
      r := CallInitialize(ext);
      if r.Done? {
        OneFurther(hook, start, done, ext);
      } else {
        StoppedAt(hook, order, done, ext, start, Progress(), r);
      }
    }

    method DependenciesMet(ext: Extension, names: set<string>) returns (met: bool)
      ensures met <==> AllMet(ext, names)
    {
      met := true;
      for i := 0 to |ext.deps|
        invariant met && forall j :: 0 <= j < i ==> ext.deps[j] in names
      {
        if ext.deps[i] !in names { return false; }
      }
      for i := 0 to |ext.opts|
        invariant met && (forall d :: d in ext.deps ==> d in names) && forall j :: 0 <= j < i ==> ext.opts[j] in names
      {
        if ext.opts[i] !in names { return false; }
      }
    }

    /** `_try_initialize_available`: the waiting extensions in the eager order. */
    method TryInitializeAvailable() returns (r: ManagerResult)
      requires Valid()
      modifies `hookCalls, `initialized, `calls
      ensures Valid() && !r.NotSorted?
      ensures var names := old(Names(initialized));
              Went(hook, EagerSequence(Waiting(registered, names), names), old(Progress()), Progress(), r)
      ensures old(Grounded(initialized)) ==> Grounded(initialized)
      ensures r.Done? ==> ClosedUnderInitialize(registered, Names(initialized))
    {
      var names := set e | e in initialized :: e.name;
      var waiting := Filter(registered, (e: Extension) => e.enabled && e.name !in names);
      var pending := Sort(waiting, HigherPriority);
      FilterIsSame(registered, (e: Extension) => e.enabled && e.name !in names,
                   (e: Extension) => IsWaiting(e, names));
      WaitingByPriority(registered, names, 0);
      r := RunPasses(pending, names);
      EagerlyGone(hook, registered, pending, old(Progress()), Progress(), r);
    }

    /** The passes, until one initialises nothing. */
    method RunPasses(pending0: seq<Extension>, names0: set<string>) returns (r: ManagerResult)
      requires Valid() && AllWaiting(pending0)
      modifies `hookCalls, `initialized, `calls
      ensures Valid() && !r.NotSorted?
      ensures Went(hook, EagerSequence(pending0, names0), old(Progress()), Progress(), r)
    {
      var pending, names := pending0, names0;
      ghost var start, order, done: seq<Extension> := Progress(), EagerSequence(pending, names), [];
      while true
        invariant Valid() && AllWaiting(pending)
        invariant Progress() == Further(start, done) && AllSucceed(hook, start.hookCalls, start.hookCalls + |done|)
        invariant order == done + EagerSequence(pending, names)
        decreases |pending|
      {
        ghost var taken := Taken(pending, names);
        SequenceStarts(pending, names);
        PassKeepsMembers(pending, names);
        var any, next;
        r, any, next, names := InitializePass(pending, names);
        PartOfTheWay(hook, order, done, taken, start, Progress(), r);
        if !r.Done? { return; }
        if !any { break; }
        AppendAssociates(done, taken, EagerSequence(next, names));
        done := done + taken;
        pending := next;
      }
    }

    /** Extensions that may be initialised. */
    ghost predicate AllWaiting(pending: seq<Extension>)
      reads this
    {
      forall e :: e in pending ==> e in registered && e.enabled
    }

    /** One pass over the pending list. */
    method InitializePass(pending: seq<Extension>, names0: set<string>)
      returns (r: ManagerResult, any: bool, next: seq<Extension>, names: set<string>)
      requires Valid() && AllWaiting(pending)
      modifies `hookCalls, `initialized, `calls
      ensures Valid() && !r.NotSorted?
      ensures Went(hook, Taken(pending, names0), old(Progress()), Progress(), r)
      ensures r.Done? ==> next == Left(pending, names0) && names == names0 + Names(Taken(pending, names0))
      ensures r.Done? ==> (any <==> Taken(pending, names0) != [])
    {
      any, next, names := false, [], names0;
      ghost var start, taken: seq<Extension> := Progress(), [];
      for k := 0 to |pending|
        invariant Valid() && Passed(pending, names0, k, taken, next)
        invariant Progress() == Further(start, taken) && AllSucceed(hook, start.hookCalls, start.hookCalls + |taken|)
        invariant names == names0 + Names(taken) && (any <==> taken != [])
      {
        var ext := pending[k];
        NextPassed(pending, names0, k, taken, next);
        var met := DependenciesMet(ext, names);
        if met {
          r := InitializeNext(ext, start, taken, Taken(pending, names0));
          if !r.Done? { return; }
          OneMoreName(names0, taken, ext);
          names := names + {ext.name};
          any := true;
          taken := taken + [ext];
        } else {
          next := next + [ext];
        }
      }
      assert pending[..|pending|] == pending;
      r := Done;
    }

    /** `_rollback`: dispose in reverse order of initialisation, then forget. */
    method Rollback()
      modifies `initialized, `calls
      ensures initialized == [] && calls == old(calls) + Disposals(old(initialized))
    {
      var k := |initialized|;
      assert initialized[..k] == initialized;
      while k > 0
        invariant 0 <= k <= |initialized| && initialized == old(initialized)
        invariant calls + Disposals(initialized[..k]) == old(calls) + Disposals(initialized)
      {
        k := k - 1;
        assert initialized[..k + 1][..k] == initialized[..k];
        calls := calls + [Dispose(initialized[k].name)];
      }
      initialized := [];
    }

    /** `initialize_and_start`.  A failed sort changes nothing; a hook that fails in a way the manager
        handles leaves nothing initialised; otherwise every enabled extension is initialised and started
        in dependency order. */
    method InitializeAndStart() returns (r: ManagerResult, ghost reached: Lifecycle)
      requires Valid()
      modifies `hookCalls, `sorted, `initialized, `calls
      ensures Valid()
      ensures r.NotSorted? <==> !(NothingMissing(Index(Enabled(registered))) && Acyclic(DependencyGraph(registered)))
      ensures r.NotSorted? ==> sorted == old(sorted) && Progress() == old(Progress())
      ensures !r.NotSorted? ==>
        && IsBootOrder(registered, sorted)
        && Went(hook, Missed(sorted, old(initialized)), old(Progress()), reached, r)
        && (r.Done? <==> AllSucceed(hook, old(hookCalls), hookCalls))
      ensures r.InitializeRaised? ==>
        Settled(reached, Progress(), r) && hookCalls > old(hookCalls) && FailedAs(hook(hookCalls - 1), r)
      ensures r.Done? ==>
        && Progress() == reached.(calls := reached.calls + Starts(sorted))
        && (forall e :: InForce(registered, e) ==> e in initialized)
        && (old(InOrder(EnabledNames(registered), initialized)) ==> InOrder(EnabledNames(registered), initialized))
    {
      var order := BuildAndSort(registered);
      if order.SortFailed? {
        reached := Progress();
        return NotSorted(order.error), reached;
      }
      sorted := order.order;
      r, reached := InitializeRemaining();
      EndsWithTheHooks(hook, Missed(sorted, old(initialized)), old(Progress()), reached, r);
      if r.Done? {
        StartAll();
      }
    }

    /** The start stage. */
    method StartAll()
      modifies `calls
      ensures calls == old(calls) + Starts(sorted)
    {
      for n := 0 to |sorted|
        invariant calls == old(calls) + Starts(sorted[..n])
      {
        calls := calls + [Start(sorted[n].name)];
        assert Starts(sorted[..n + 1]) == Starts(sorted[..n]) + [Start(sorted[n].name)];
      }
      assert sorted[..|sorted|] == sorted;
    }

    /** The initialise stage: what the eager phase has left, in boot order. */
    method InitializeRemaining() returns (r: ManagerResult, ghost reached: Lifecycle)
      requires Valid() && IsBootOrder(registered, sorted)
      modifies `hookCalls, `initialized, `calls
      ensures Valid() && !r.NotSorted?
      ensures Went(hook, Missed(sorted, old(initialized)), old(Progress()), reached, r)
      ensures Settled(reached, Progress(), r)
      ensures r.Done? ==>
        && (forall e :: e in sorted ==> e in initialized)
        && (old(InOrder(EnabledNames(registered), initialized)) ==> InOrder(EnabledNames(registered), initialized))
    {
      ghost var start, missed: seq<Extension> := Progress(), [];
      BootOrderIsWaiting(registered, sorted);
      for n := 0 to |sorted|
        invariant Valid() && AllWaiting(sorted) && missed == Missed(sorted[..n], start.initialized)
        invariant Progress() == Further(start, missed) && AllSucceed(hook, start.hookCalls, start.hookCalls + |missed|)
      {
        var ext := sorted[n];
        NextMissed(sorted, n, start.initialized, missed);
        if ext !in initialized {
          r := InitializeNext(ext, start, missed, Missed(sorted, start.initialized));
          reached := Progress();
          if !r.Done? {
            if r.handled {
              Rollback();
            }
            return;
          }
          missed := missed + [ext];
        }
      }
      assert sorted[..|sorted|] == sorted;
      BootIsComplete(registered, sorted, start.initialized);
      r, reached := Done, Progress();
    }

    /** `stop_and_dispose`, for hooks that return or raise what the manager catches. */
    method StopAndDispose()
      modifies `sorted, `initialized, `calls
      ensures calls == old(calls) + Teardown(old(sorted))
      ensures sorted == [] && initialized == []
    {
      var k := |sorted|;
      assert sorted[..k] == sorted;
      while k > 0
        invariant 0 <= k <= |sorted| && sorted == old(sorted)
        invariant calls + Teardown(sorted[..k]) == old(calls) + Teardown(sorted)
      {
        k := k - 1;
        assert sorted[..k + 1][..k] == sorted[..k];
        calls := calls + [Stop(sorted[k].name)];
        calls := calls + [Dispose(sorted[k].name)];
      }
      sorted, initialized := [], [];
    }
  }

  /** Every enabled extension once, each after everything it depends on. */
  ghost predicate IsBootOrder(registered: seq<Extension>, sorted: seq<Extension>) {
    && (forall e :: e in sorted <==> InForce(registered, e)) && UniqueNames(sorted)
    && SuccessorsFirst(DependencyGraph(registered), NameSeq(sorted))
  }

  /** The first `n` of `sorted` are in `s`. */
  ghost predicate Covered(sorted: seq<Extension>, n: nat, s: seq<Extension>)
    requires n <= |sorted|
  {
    forall k :: 0 <= k < n ==> sorted[k] in s
  }

  /** The next extension of the boot order finds everything it depends on initialised. */
  lemma NextNeedsMet(registered: seq<Extension>, sorted: seq<Extension>, n: nat, before: seq<Extension>)
    requires IsBootOrder(registered, sorted) && n < |sorted|
    requires Covered(sorted, n, before)
    ensures NeedsMet(sorted[n], EnabledNames(registered), Names(before))
  {
    var byName, ext := Index(Enabled(registered)), sorted[n];
    assert ext in sorted && InForce(registered, ext);
    forall d | d in ext.deps || (d in ext.opts && d in EnabledNames(registered)) ensures d in Names(before) {
      if d in EnabledNames(registered) {
        assert d in byName by { OrderMatchesIndex(registered); }
      }
      DependencyEdge(byName, ext.name, d);
      assert Edge(Dependencies(byName), NameSeq(sorted)[n], d);
      assert d in NameSeq(sorted)[..n];
      var k :| 0 <= k < n && NameSeq(sorted)[k] == d;
      assert sorted[k] in before;
    }
  }

  ghost function Initializations(s: seq<Extension>): (calls: seq<LifecycleCall>)
    ensures |calls| == |s| && forall i :: 0 <= i < |s| ==> calls[i] == Initialize(s[i].name)
  {
    seq(|s|, i requires 0 <= i < |s| => Initialize(s[i].name))
  }

  /** How far the manager has got: hook calls made, extensions initialised, and all lifecycle calls. */
  datatype Lifecycle = Lifecycle(hookCalls: nat, initialized: seq<Extension>, calls: seq<LifecycleCall>)

  /** The `initialize` hook of `e` is called; when it succeeds `e` counts as initialised. */
  ghost function Called(p: Lifecycle, e: Extension, succeeded: bool): Lifecycle {
    Lifecycle(p.hookCalls + 1, if succeeded then p.initialized + [e] else p.initialized,
              p.calls + [Initialize(e.name)])
  }

  /** The extensions `added` have been initialised since `p`, one hook call each, in order. */
  ghost function Further(p: Lifecycle, added: seq<Extension>): Lifecycle {
    Lifecycle(p.hookCalls + |added|, p.initialized + added, p.calls + Initializations(added))
  }

  ghost predicate AllSucceed(hook: nat -> HookOutcome, from: nat, to: nat) {
    forall k :: from <= k < to ==> hook(k) == Succeeds
  }

  ghost predicate FailedAs(outcome: HookOutcome, r: ManagerResult) {
    r.InitializeRaised? && outcome == if r.handled then RaisesHandled else RaisesOther
  }

  /** From `p` to `q` the extensions of `order` were initialised one after the other: all of them, or up to
      the first whose hook raised, which was called but is not counted as initialised. */
  ghost predicate Went(hook: nat -> HookOutcome, order: seq<Extension>, p: Lifecycle, q: Lifecycle, r: ManagerResult) {
    if r.InitializeRaised? then WentUpTo(hook, order, |q.initialized| - |p.initialized|, p, q, r)
    else q == Further(p, order) && AllSucceed(hook, p.hookCalls, p.hookCalls + |order|)
  }

  ghost predicate WentUpTo(hook: nat -> HookOutcome, order: seq<Extension>, n: int, p: Lifecycle, q: Lifecycle,
                           r: ManagerResult)
  {
    && 0 <= n < |order| && q == Called(Further(p, order[..n]), order[n], false)
    && r.InitializeRaised? && r.name == order[n].name
    && AllSucceed(hook, p.hookCalls, p.hookCalls + n) && FailedAs(hook(p.hookCalls + n), r)
  }

  /** A failure the manager handles is rolled back: everything reached is disposed in reverse.  Any other
      leaves what was initialised. */
  ghost predicate Settled(reached: Lifecycle, q: Lifecycle, r: ManagerResult) {
    if r.InitializeRaised? && r.handled then
      q == Lifecycle(reached.hookCalls, [], reached.calls + Disposals(reached.initialized))
    else q == reached
  }

  /** The result says how the hooks ended: they all succeeded, or the last one called raised. */
  lemma EndsWithTheHooks(hook: nat -> HookOutcome, order: seq<Extension>, p: Lifecycle, q: Lifecycle, r: ManagerResult)
    requires !r.NotSorted? && Went(hook, order, p, q, r)
    ensures r.Done? <==> AllSucceed(hook, p.hookCalls, q.hookCalls)
    ensures r.InitializeRaised? ==> q.hookCalls > p.hookCalls && FailedAs(hook(q.hookCalls - 1), r)
  {}

  lemma OneFurther(hook: nat -> HookOutcome, p: Lifecycle, added: seq<Extension>, ext: Extension)
    requires AllSucceed(hook, p.hookCalls, p.hookCalls + |added|) && hook(p.hookCalls + |added|) == Succeeds
    ensures Further(p, added + [ext]) == Called(Further(p, added), ext, true)
    ensures AllSucceed(hook, p.hookCalls, p.hookCalls + |added + [ext]|)
  {
    AppendAssociates(p.initialized, added, [ext]);
    assert Initializations(added + [ext]) == Initializations(added) + [Initialize(ext.name)];
  }

  lemma FurtherTwice(p: Lifecycle, a: seq<Extension>, b: seq<Extension>)
    ensures Further(Further(p, a), b) == Further(p, a + b)
  {
    AppendAssociates(p.initialized, a, b);
    assert Initializations(a + b) == Initializations(a) + Initializations(b);
    AppendAssociates(p.calls, Initializations(a), Initializations(b));
  }

  lemma StoppedAt(hook: nat -> HookOutcome, order: seq<Extension>, done: seq<Extension>, ext: Extension,
                  p: Lifecycle, q: Lifecycle, r: ManagerResult)
    requires done + [ext] <= order && AllSucceed(hook, p.hookCalls, p.hookCalls + |done|)
    requires r.InitializeRaised? && r.name == ext.name && FailedAs(hook(p.hookCalls + |done|), r)
    requires q == Called(Further(p, done), ext, false)
    ensures Went(hook, order, p, q, r)
  {
    assert order[..|done|] == done && order[|done|] == (done + [ext])[|done|];
    assert WentUpTo(hook, order, |done|, p, q, r);
  }

  /** What a part of the order, after `done`, comes to in the whole. */
  lemma PartOfTheWay(hook: nat -> HookOutcome, order: seq<Extension>, done: seq<Extension>, part: seq<Extension>,
                     p: Lifecycle, q: Lifecycle, r: ManagerResult)
    requires done + part <= order && AllSucceed(hook, p.hookCalls, p.hookCalls + |done|) && !r.NotSorted?
    requires Went(hook, part, Further(p, done), q, r)
    ensures r.InitializeRaised? ==> Went(hook, order, p, q, r)
    ensures r.Done? ==> q == Further(p, done + part) && AllSucceed(hook, p.hookCalls, p.hookCalls + |done + part|)
    ensures r.Done? && order == done + part ==> Went(hook, order, p, q, r)
  {
    if r.InitializeRaised? {
      var n := |q.initialized| - |Further(p, done).initialized|;
      FurtherTwice(p, done, part[..n]);
      assert order[..|done| + n] == done + part[..n];
      assert order[|done| + n] == (done + part)[|done| + n];
      assert WentUpTo(hook, order, |done| + n, p, q, r);
    } else {
      FurtherTwice(p, done, part);
    }
  }

  lemma OneMoreName(names: set<string>, taken: seq<Extension>, ext: Extension)
    ensures names + Names(taken + [ext]) == names + Names(taken) + {ext.name}
  {
    NamesAdd(taken, [ext]);
    assert Names([ext]) == {ext.name};
  }

  /** A pass has looked at the first `k`. */
  ghost predicate Passed(pending: seq<Extension>, names: set<string>, k: nat, taken: seq<Extension>,
                         left: seq<Extension>)
    requires k <= |pending|
  {
    taken == Taken(pending[..k], names) && left == Left(pending[..k], names)
  }

  lemma NextPassed(pending: seq<Extension>, names: set<string>, k: nat, taken: seq<Extension>, left: seq<Extension>)
    requires k < |pending| && Passed(pending, names, k, taken, left)
    ensures if AllMet(pending[k], names + Names(taken))
            then Passed(pending, names, k + 1, taken + [pending[k]], left)
                 && taken + [pending[k]] <= Taken(pending, names)
            else Passed(pending, names, k + 1, taken, left + [pending[k]])
  {
    NextTaken(pending[..k], names, pending[k]);
    OneMoreOfPrefix(pending, k);
    TakenStarts(pending, names, k + 1);
  }

  lemma NextTaken(front: seq<Extension>, names: set<string>, last: Extension)
    ensures var met := AllMet(last, names + Names(Taken(front, names)));
      && Taken(front + [last], names) == Taken(front, names) + (if met then [last] else [])
      && Left(front + [last], names) == Left(front, names) + (if met then [] else [last])
  {
    assert (front + [last])[..|front|] == front;
  }

  // What the eager order comes to

  /** Every pass keeps the initialised extensions in dependency order. */
  lemma {:induction false} TakenIsGrounded(init: seq<Extension>, pending: seq<Extension>, n: nat)
    requires Grounded(init) && n <= |Taken(pending, Names(init))|
    ensures Grounded(init + Taken(pending, Names(init))[..n])
  {
    var taken := Taken(pending, Names(init));
    if pending == [] || n == 0 {
      assert init + taken[..n] == init;
    } else {
      var front := pending[..|pending| - 1];
      var before := Taken(front, Names(init));
      if n <= |before| {
        TakenIsGrounded(init, front, n);
        assert taken[..n] == before[..n];
      } else {
        TakenIsGrounded(init, front, |before|);
        assert before[..|before|] == before && taken[..n] == before + [pending[|pending| - 1]];
        NamesAdd(init, before);
        InitializedGrows(init + before, pending[|pending| - 1]);
        AppendAssociates(init, before, [pending[|pending| - 1]]);
      }
    }
  }

  lemma {:induction false} SequenceIsGrounded(init: seq<Extension>, pending: seq<Extension>, n: nat)
    requires Grounded(init) && n <= |EagerSequence(pending, Names(init))|
    ensures Grounded(init + EagerSequence(pending, Names(init))[..n])
    decreases |pending|
  {
    var names := Names(init);
    var taken, s := Taken(pending, names), EagerSequence(pending, names);
    SequenceStarts(pending, names);
    if n <= |taken| {
      TakenIsGrounded(init, pending, n);
      StartIsGrounded(init, taken, s, n);
    } else {
      TakenIsGrounded(init, pending, |taken|);
      assert taken[..|taken|] == taken;
      NamesAdd(init, taken);
      var left := Left(pending, names);
      SequenceIsGrounded(init + taken, left, n - |taken|);
      RestIsGrounded(init, taken, EagerSequence(left, Names(init + taken)), s, n);
    }
  }

  lemma StartIsGrounded(init: seq<Extension>, taken: seq<Extension>, s: seq<Extension>, n: nat)
    requires taken <= s && n <= |taken| && Grounded(init + taken[..n])
    ensures Grounded(init + s[..n])
  {
    assert s[..n] == taken[..n];
  }

  lemma RestIsGrounded(init: seq<Extension>, taken: seq<Extension>, rest: seq<Extension>, s: seq<Extension>, n: nat)
    requires s == taken + rest && |taken| <= n <= |s| && Grounded(init + taken + rest[..n - |taken|])
    ensures Grounded(init + s[..n])
  {
    assert s[..n] == taken + rest[..n - |taken|];
    AppendAssociates(init, taken, rest[..n - |taken|]);
  }

  lemma {:induction false} NothingTaken(pending: seq<Extension>, names: set<string>)
    requires Taken(pending, names) == []
    ensures forall e :: e in pending ==> !AllMet(e, names)
  {
    if pending != [] {
      var front, last := pending[..|pending| - 1], pending[|pending| - 1];
      NothingTaken(front, names);
      assert names + Names(Taken(front, names)) == names;
      assert forall e :: e in pending ==> e in front || e == last;
    }
  }

  /** The passes end only when nothing that waits can be initialised. */
  lemma {:induction false} SequenceCloses(exts: seq<Extension>, pending: seq<Extension>, names: set<string>)
    requires forall e :: e in exts && e.enabled && e.name !in names ==> e in pending
    ensures ClosedUnderInitialize(exts, names + Names(EagerSequence(pending, names)))
    decreases |pending|
  {
    var taken := Taken(pending, names);
    SequenceStarts(pending, names);
    if taken == [] {
      NothingTaken(pending, names);
      assert names + Names([]) == names;
    } else {
      var rest := EagerSequence(Left(pending, names), names + Names(taken));
      forall e | e in exts && e.enabled && e.name !in names + Names(taken) ensures e in Left(pending, names) {
        PassKeepsMembers(pending, names);
        assert e in pending;
      }
      SequenceCloses(exts, Left(pending, names), names + Names(taken));
      NamesAdd(taken, rest);
      assert names + Names(taken) + Names(rest) == names + Names(taken + rest);
    }
  }

  lemma EagerlyGone(hook: nat -> HookOutcome, exts: seq<Extension>, pending: seq<Extension>, p: Lifecycle,
                    q: Lifecycle, r: ManagerResult)
    requires Went(hook, EagerSequence(pending, Names(p.initialized)), p, q, r) && !r.NotSorted?
    requires forall e :: e in exts && e.enabled && e.name !in Names(p.initialized) ==> e in pending
    ensures Grounded(p.initialized) ==> Grounded(q.initialized)
    ensures r.Done? ==> ClosedUnderInitialize(exts, Names(q.initialized))
  {
    var init := p.initialized;
    var order := EagerSequence(pending, Names(init));
    if r.Done? {
      if Grounded(init) { SequenceIsGrounded(init, pending, |order|); }
      assert order[..|order|] == order;
      NamesAdd(init, order);
      SequenceCloses(exts, pending, Names(init));
    } else {
      if Grounded(init) { SequenceIsGrounded(init, pending, |q.initialized| - |init|); }
    }
  }

  // What the boot order comes to

  /** The extensions of the boot order that are not in `init`. */
  function Missed(sorted: seq<Extension>, init: seq<Extension>): seq<Extension> {
    Filter(sorted, (e: Extension) => e !in init)
  }

  lemma NextMissed(sorted: seq<Extension>, n: nat, init: seq<Extension>, missed: seq<Extension>)
    requires n < |sorted| && UniqueNames(sorted) && missed == Missed(sorted[..n], init)
    ensures sorted[n] in init + missed ==> sorted[n] in init && Missed(sorted[..n + 1], init) == missed
    ensures sorted[n] !in init + missed ==>
              Missed(sorted[..n + 1], init) == missed + [sorted[n]] && missed + [sorted[n]] <= Missed(sorted, init)
  {
    assert sorted[..n + 1] == sorted[..n] + [sorted[n]];
    FilterAppend(sorted[..n], sorted[n], (e: Extension) => e !in init);
    FilterIsSubsequence(sorted[..n], (e: Extension) => e !in init);
    MissedGrows(sorted, n + 1, init);
  }

  lemma BootOrderIsWaiting(registered: seq<Extension>, sorted: seq<Extension>)
    requires IsBootOrder(registered, sorted)
    ensures forall e :: e in sorted ==> e in registered && e.enabled
  {
    OrderMatchesIndex(registered);
    forall e | e in sorted ensures e in registered && e.enabled {
      assert InForce(registered, e);
    }
  }

  lemma {:induction false} MissedGrows(sorted: seq<Extension>, n: nat, init: seq<Extension>)
    requires n <= |sorted|
    ensures Missed(sorted[..n], init) <= Missed(sorted, init)
  {
    if n == |sorted| {
      assert sorted[..n] == sorted;
    } else {
      var front := sorted[..|sorted| - 1];
      MissedGrows(front, n, init);
      assert front[..n] == sorted[..n];
    }
  }

  lemma MissedCovers(sorted: seq<Extension>, n: nat, init: seq<Extension>)
    requires n <= |sorted|
    ensures Covered(sorted, n, init + Missed(sorted[..n], init))
  {
    FilterIsSubsequence(sorted[..n], (e: Extension) => e !in init);
    forall k | 0 <= k < n ensures sorted[k] in init + Missed(sorted[..n], init) {
      assert sorted[k] == sorted[..n][k];
    }
  }

  /** Booting keeps the initialised extensions in dependency order. */
  lemma BootIsComplete(registered: seq<Extension>, sorted: seq<Extension>, init: seq<Extension>)
    requires IsBootOrder(registered, sorted)
    ensures var after, enabled := init + Missed(sorted, init), EnabledNames(registered);
            (forall e :: e in sorted ==> e in after) && (InOrder(enabled, init) ==> InOrder(enabled, after))
  {
    assert sorted[..|sorted|] == sorted;
    MissedCovers(sorted, |sorted|, init);
    BootKeepsOrder(registered, sorted, init, |sorted|);
  }

  lemma {:induction false} BootKeepsOrder(registered: seq<Extension>, sorted: seq<Extension>, init: seq<Extension>,
                                          n: nat)
    requires IsBootOrder(registered, sorted) && n <= |sorted|
    ensures var enabled := EnabledNames(registered);
            InOrder(enabled, init) ==> InOrder(enabled, init + Missed(sorted[..n], init))
  {
    if n == 0 {
      assert init + Missed([], init) == init;
    } else {
      var before := init + Missed(sorted[..n - 1], init);
      BootKeepsOrder(registered, sorted, init, n - 1);
      NextMissed(sorted, n - 1, init, Missed(sorted[..n - 1], init));
      if sorted[n - 1] !in before {
        MissedCovers(sorted, n - 1, init);
        NextNeedsMet(registered, sorted, n - 1, before);
        InOrderGrows(EnabledNames(registered), before, sorted[n - 1]);
        AppendAssociates(init, Missed(sorted[..n - 1], init), [sorted[n - 1]]);
      }
    }
  }

  lemma InitializedGrows(before: seq<Extension>, e: Extension)
    ensures Names(before + [e]) == Names(before) + {e.name}
    ensures Grounded(before) && AllMet(e, Names(before)) ==> Grounded(before + [e])
  {
    var s := before + [e];
    forall n | n in Names(before) + {e.name} ensures n in Names(s) {
      if n in Names(before) {
        var x :| x in before && x.name == n;
        assert x in s;
      } else {
        assert s[|before|] == e;
      }
    }
    forall i | 0 <= i < |s| && Grounded(before) && AllMet(e, Names(before)) ensures AllMet(s[i], Names(s[..i])) {
      if i < |before| {
        assert s[..i] == before[..i] && s[i] == before[i];
      } else {
        assert s[..i] == before;
      }
    }
  }

  lemma InOrderGrows(enabled: set<string>, before: seq<Extension>, e: Extension)
    requires NeedsMet(e, enabled, Names(before))
    ensures InOrder(enabled, before) ==> InOrder(enabled, before + [e])
  {
    var s := before + [e];
    forall i | 0 <= i < |s| && InOrder(enabled, before) ensures NeedsMet(s[i], enabled, Names(s[..i])) {
      if i < |before| {
        assert s[..i] == before[..i] && s[i] == before[i];
      } else {
        assert s[..i] == before;
      }
    }
  }
}
