/** Triggers, and the life of one scheduled job over every sequence of loop iterations, cancellations
    and additions to the job list.  Times are in microseconds. */
module JobLives {
  import opened Prelude

  const SECOND: int := 1_000_000
  const MINUTE: int := 60 * SECOND

  datatype Trigger = Interval(delta: int) | Cron(expression: string)

  /** `get_next_run`. */
  function NextRun(trigger: Trigger, from: int): int {
    match trigger
    case Interval(delta) => from + delta
    case Cron(_) => from - from % MINUTE + MINUTE
  }

  /** The cron trigger fires on the first minute boundary strictly after `from`. */
  lemma CronIsNextMinute(expression: string, from: int, t: int)
    ensures var next := NextRun(Cron(expression), from);
            from < next <= from + MINUTE && next % MINUTE == 0 && (from < t && t % MINUTE == 0 ==> next <= t)
  {
    assert from == MINUTE * (from / MINUTE) + from % MINUTE;
    assert t == MINUTE * (t / MINUTE) + t % MINUTE;
  }

  /** A job as the scheduler sees it; `copies` is how often it stands in the job list. */
  datatype JobState = JobState(trigger: Trigger, maxRuns: Option<int>, runs: nat, nextRun: Option<int>,
                               cancelled: bool, copies: nat)

  /** The job will never run, listed or not. */
  predicate Dead(j: JobState) { j.cancelled || j.nextRun.None? }

  predicate IsDue(j: JobState, now: int) {
    j.copies > 0 && !j.cancelled && j.nextRun.Some? && j.nextRun.value <= now
  }

  predicate IsKept(j: JobState, now: int) {
    j.copies > 0 && !j.cancelled && j.nextRun.Some? && j.nextRun.value > now
  }

  /** Whether a job that has run `runs` times is to run again. */
  predicate RunsAgain(maxRuns: Option<int>, runs: int) {
    maxRuns.None? || runs < maxRuns.value
  }

  /** How many of the next `copies` runs are followed by another listing. */
  function Rearms(maxRuns: Option<int>, runs: nat, copies: nat): (again: nat)
    ensures again <= copies
  {
    if copies == 0 then 0
    else Rearms(maxRuns, runs, copies - 1) + if RunsAgain(maxRuns, runs + copies) then 1 else 0
  }

  /** What one loop iteration does to one job.  Every copy of a due job is spawned. */
  function TickJob(j: JobState, now: int): JobState {
    if IsDue(j, now) then
      var again := Rearms(j.maxRuns, j.runs, j.copies);
      j.(runs := j.runs + j.copies, copies := again,
         nextRun := if again > 0 then Some(NextRun(j.trigger, now)) else j.nextRun)
    else if IsKept(j, now) then j
    else j.(copies := 0)
  }

  /** What can happen to a job: a loop iteration at some clock reading, `add_job`, its cancellation, or
      its next run being lost. */
  datatype JobEvent = Tick(now: int) | Add | Cancel | LoseNextRun

  function After(j: JobState, e: JobEvent): JobState {
    match e
    case Tick(now) => TickJob(j, now)
    case Add => j.(copies := j.copies + 1)
    case Cancel => j.(cancelled := true)
    case LoseNextRun => j.(nextRun := None)
  }

  function Life(j: JobState, events: seq<JobEvent>): JobState {
    if events == [] then j else After(Life(j, events[..|events| - 1]), events[|events| - 1])
  }

  /** The clock readings at which the job is spawned. */
  function Spawns(j: JobState, e: JobEvent): seq<int> {
    if e.Tick? && IsDue(j, e.now) then seq(j.copies, _ => e.now) else []
  }

  function RunTimes(j: JobState, events: seq<JobEvent>): seq<int> {
    if events == [] then []
    else RunTimes(j, events[..|events| - 1]) + Spawns(Life(j, events[..|events| - 1]), events[|events| - 1])
  }

  /** A job as constructed, not listed yet. */
  function NewJob(trigger: Trigger, maxRuns: Option<int>, now: int): JobState {
    JobState(trigger, maxRuns, 0, Some(NextRun(trigger, now)), false, 0)
  }

  ghost predicate NoAdd(events: seq<JobEvent>) { forall e :: e in events ==> !e.Add? }

  lemma {:induction false} RunTimesCountRuns(j: JobState, events: seq<JobEvent>)
    ensures |RunTimes(j, events)| == Life(j, events).runs - j.runs
    ensures Life(j, events).trigger == j.trigger && Life(j, events).maxRuns == j.maxRuns
  {
    if events != [] { RunTimesCountRuns(j, events[..|events| - 1]); }
  }

  lemma {:induction false} LifeContinues(j: JobState, a: seq<JobEvent>, b: seq<JobEvent>)
    ensures Life(j, a + b) == Life(Life(j, a), b)
  {
    if b == [] {
      assert a + b == a;
    } else {
      LifeContinues(j, a, b[..|b| - 1]);
      assert (a + b)[..|a + b| - 1] == a + b[..|b| - 1];
    }
  }

  lemma {:induction false} RunTimesContinue(j: JobState, a: seq<JobEvent>, b: seq<JobEvent>)
    ensures RunTimes(j, a + b) == RunTimes(j, a) + RunTimes(Life(j, a), b)
  {
    if b == [] {
      assert a + b == a;
    } else {
      var front, now := b[..|b| - 1], Life(j, a);
      RunTimesContinue(j, a, front);
      LifeContinues(j, a, front);
      assert (a + b)[..|a + b| - 1] == a + front;
      AppendAssociates(RunTimes(j, a), RunTimes(now, front), Spawns(Life(now, front), b[|b| - 1]));
    }
  }

  lemma OneEvent(j: JobState, e: JobEvent)
    ensures Life(j, [e]) == After(j, e) && RunTimes(j, [e]) == Spawns(j, e)
  {
    assert [e][..0] == [];
  }

  /** Once cancelled, a job is never spawned again, added again or not. */
  lemma {:induction false} CancelledNeverRuns(j: JobState, before: seq<JobEvent>, later: seq<JobEvent>)
    ensures Life(j, before + [Cancel] + later).cancelled
    ensures RunTimes(j, before + [Cancel] + later) == RunTimes(j, before)
  {
    var all := before + [Cancel] + later;
    if later == [] {
      assert all[..|all| - 1] == before && all[|all| - 1] == Cancel;
    } else {
      assert all[..|all| - 1] == before + [Cancel] + later[..|later| - 1];
      assert all[|all| - 1] == later[|later| - 1];
      CancelledNeverRuns(j, before, later[..|later| - 1]);
    }
  }

  // The run limit

  /** How many of several runs are followed by another listing, below, at and above the limit. */
  lemma {:induction false} RearmsNearLimit(limit: int, runs: nat, copies: nat)
    ensures runs + copies < limit ==> Rearms(Some(limit), runs, copies) == copies
    ensures runs + copies == limit && copies > 0 ==> Rearms(Some(limit), runs, copies) == copies - 1
    ensures runs >= limit ==> Rearms(Some(limit), runs, copies) == 0
  {
    if copies > 0 { RearmsNearLimit(limit, runs, copies - 1); }
  }

  function Most(limit: int): nat { if limit < 0 then 0 else limit }

  /** The job has kept its limit and will, as long as it is not added again. */
  predicate CannotExceed(j: JobState, limit: int) {
    && j.runs <= Most(limit)
    && (Dead(j) || j.copies == 0 || (j.copies == 1 && j.runs < limit))
  }

  lemma {:induction false} StaysWithinLimit(j: JobState, limit: int, later: seq<JobEvent>)
    requires j.maxRuns == Some(limit) && CannotExceed(j, limit) && NoAdd(later)
    ensures CannotExceed(Life(j, later), limit)
  {
    if later != [] {
      var front := later[..|later| - 1];
      StaysWithinLimit(j, limit, front);
      RunTimesCountRuns(j, front);
      RearmsNearLimit(limit, Life(j, front).runs, Life(j, front).copies);
      assert later[|later| - 1] in later;
    }
  }

  /** Otherwise iterations alone make it exceed the limit. */
  lemma {:induction false} WillExceed(j: JobState, limit: int) returns (later: seq<JobEvent>)
    requires j.maxRuns == Some(limit) && !CannotExceed(j, limit)
    ensures NoAdd(later) && Life(j, later).runs > Most(limit)
    decreases if j.runs > Most(limit) then 0 else 1 + Most(limit) - j.runs
  {
    if j.runs > Most(limit) {
      later := [];
    } else {
      var tick := Tick(j.nextRun.value);
      OneEvent(j, tick);
      RearmsNearLimit(limit, j.runs, j.copies);
      var rest := WillExceed(TickJob(j, j.nextRun.value), limit);
      later := [tick] + rest;
      LifeContinues(j, [tick], rest);
    }
  }

  /** Adding `j` to the list respects its limit: it is not listed and is to run again, or it is dead. */
  predicate AddRespectsLimit(j: JobState) {
    Dead(j) || (j.copies == 0 && RunsAgain(j.maxRuns, j.runs))
  }

  ghost predicate AddsRespectLimit(j: JobState, events: seq<JobEvent>) {
    forall i :: 0 <= i < |events| && events[i].Add? ==> AddRespectsLimit(Life(j, events[..i]))
  }

  /** At no point of the life can iterations, cancellation or a lost next run lead beyond the limit. */
  ghost predicate LimitBinds(j: JobState, limit: int, events: seq<JobEvent>) {
    forall n, later :: 0 <= n <= |events| && NoAdd(later) ==> Life(Life(j, events[..n]), later).runs <= Most(limit)
  }

  /** The limit binds throughout a life if and only if every addition finds the job unlisted and with
      runs to go (or dead). */
  lemma LimitBindsIffAddsRespectIt(trigger: Trigger, limit: int, created: int, events: seq<JobEvent>)
    ensures var j := NewJob(trigger, Some(limit), created);
            LimitBinds(j, limit, events) <==> AddsRespectLimit(j, events)
  {
    var j := NewJob(trigger, Some(limit), created);
    if AddsRespectLimit(j, events) {
      forall n, later | 0 <= n <= |events| && NoAdd(later)
        ensures Life(Life(j, events[..n]), later).runs <= Most(limit)
      {
        AddsKeepLimit(j, limit, events, n);
        RunTimesCountRuns(j, events[..n]);
        StaysWithinLimit(Life(j, events[..n]), limit, later);
      }
    } else {
      var i :| 0 <= i < |events| && events[i].Add? && !AddRespectsLimit(Life(j, events[..i]));
      RunTimesCountRuns(j, events[..i]);
      assert events[..i + 1][..i] == events[..i];
      assert Life(j, events[..i + 1]) == After(Life(j, events[..i]), Add);
      var later := WillExceed(Life(j, events[..i + 1]), limit);
      assert !(Life(Life(j, events[..i + 1]), later).runs <= Most(limit));
    }
  }

  lemma {:induction false} AddsKeepLimit(j: JobState, limit: int, events: seq<JobEvent>, n: nat)
    requires j.maxRuns == Some(limit) && CannotExceed(j, limit) && AddsRespectLimit(j, events) && n <= |events|
    ensures CannotExceed(Life(j, events[..n]), limit)
  {
    if n > 0 {
      AddsKeepLimit(j, limit, events, n - 1);
      RunTimesCountRuns(j, events[..n - 1]);
      assert events[..n][..n - 1] == events[..n - 1];
      var before := Life(j, events[..n - 1]);
      if !events[n - 1].Add? {
        OneEvent(before, events[n - 1]);
        StaysWithinLimit(before, limit, [events[n - 1]]);
      }
    }
  }

  /** So a job scheduled once never exceeds its limit exactly when that is at least one. */
  lemma LimitBindsFromOne(trigger: Trigger, limit: int, created: int)
    ensures (forall later :: NoAdd(later) ==>
              Life(After(NewJob(trigger, Some(limit), created), Add), later).runs <= limit)
            <==> limit >= 1
  {
    var j := After(NewJob(trigger, Some(limit), created), Add);
    if limit >= 1 {
      forall later | NoAdd(later) ensures Life(j, later).runs <= limit {
        StaysWithinLimit(j, limit, later);
      }
    } else {
      var later := WillExceed(j, limit);
      assert !(Life(j, later).runs <= limit);
    }
  }

  // The interval

  /** `n` intervals after the creation. */
  function Pace(created: int, delta: int, n: nat): int {
    if n == 0 then created else Pace(created, delta, n - 1) + delta
  }

  lemma {:induction false} PaceIsProduct(created: int, delta: int, n: nat)
    ensures Pace(created, delta, n) == created + n * delta
  {
    if n > 0 {
      PaceIsProduct(created, delta, n - 1);
      assert n * delta == (n - 1) * delta + delta;
    }
  }

  lemma {:induction false} PaceGrows(created: int, delta: int, n: nat, m: nat)
    requires n <= m
    ensures delta >= 0 ==> Pace(created, delta, n) <= Pace(created, delta, m)
    ensures delta <= 0 ==> Pace(created, delta, n) >= Pace(created, delta, m)
    ensures delta > 0 && n + 2 <= m ==> Pace(created, delta, n) + 2 * delta <= Pace(created, delta, m)
    decreases m
  {
    if n < m {
      PaceGrows(created, delta, n, m - 1);
      assert n + 1 == m ==> Pace(created, delta, m - 1) == Pace(created, delta, n);
      if n + 2 == m { assert Pace(created, delta, n + 1) == Pace(created, delta, n) + delta; }
    }
  }

  /** Of the runs of `times`, the first of which has number `first`, each happens no earlier than as many
      intervals after the creation as its number says. */
  ghost predicate KeepsInterval(first: nat, delta: int, created: int, times: seq<int>) {
    forall k :: 0 <= k < |times| ==> times[k] >= Pace(created, delta, first + k)
  }

  lemma IntervalsCompose(first: nat, delta: int, created: int, a: seq<int>, b: seq<int>)
    ensures KeepsInterval(first, delta, created, a + b) <==>
            KeepsInterval(first, delta, created, a) && KeepsInterval(first + |a|, delta, created, b)
  {
    var all := a + b;
    if KeepsInterval(first, delta, created, all) {
      forall k | 0 <= k < |a| ensures a[k] >= Pace(created, delta, first + k) { assert all[k] == a[k]; }
      forall k | 0 <= k < |b| ensures b[k] >= Pace(created, delta, first + |a| + k) {
        assert all[|a| + k] == b[k] && first + |a| + k == first + (|a| + k);
      }
    }
    if KeepsInterval(first, delta, created, a) && KeepsInterval(first + |a|, delta, created, b) {
      forall k | 0 <= k < |all| ensures all[k] >= Pace(created, delta, first + k) {
        if k >= |a| { assert all[k] == b[k - |a|] && first + |a| + (k - |a|) == first + k; }
      }
    }
  }

  lemma EarlyPartIsEarly(first: nat, second: nat, delta: int, created: int, a: seq<int>, b: seq<int>)
    requires second == first + |a| && !KeepsInterval(second, delta, created, b)
    ensures !KeepsInterval(first, delta, created, a + b)
  {
    IntervalsCompose(first, delta, created, a, b);
  }

  lemma BothPartsKeepIt(first: nat, second: nat, delta: int, created: int, a: seq<int>, b: seq<int>)
    requires second == first + |a|
    requires KeepsInterval(first, delta, created, a) && KeepsInterval(second, delta, created, b)
    ensures KeepsInterval(first, delta, created, a + b)
  {
    IntervalsCompose(first, delta, created, a, b);
  }

  predicate PlannedOnTime(j: JobState, delta: int, created: int)
    requires !Dead(j)
  {
    j.nextRun.value >= Pace(created, delta, j.runs + 1)
  }

  /** The planned run is on time for the first and for the last copy of the job. */
  predicate OnTime(j: JobState, delta: int, created: int)
    requires !Dead(j)
  {
    PlannedOnTime(j, delta, created) && j.nextRun.value >= Pace(created, delta, j.runs + j.copies)
  }

  /** Unless it is added again, the job can only run on time: it does when every iteration comes at the
      planned time, which is the worst case. */
  predicate StaysOnTime(j: JobState, delta: int, created: int)
    decreases if j.maxRuns.Some? && j.maxRuns.value > j.runs then j.maxRuns.value - j.runs else 0
  {
    Dead(j) || j.copies == 0
    || (OnTime(j, delta, created)
        && match j.maxRuns
           case None => j.copies == 1 || delta <= 0
           case Some(limit) => j.runs >= limit || StaysOnTime(TickJob(j, j.nextRun.value), delta, created))
  }

  /** A later planned run is no worse. */
  lemma {:induction false} LaterStaysOnTime(j: JobState, delta: int, created: int, planned: int)
    requires j.trigger == Interval(delta) && StaysOnTime(j, delta, created)
    requires !Dead(j) && planned >= j.nextRun.value
    ensures StaysOnTime(j.(nextRun := Some(planned)), delta, created)
    decreases if j.maxRuns.Some? && j.maxRuns.value > j.runs then j.maxRuns.value - j.runs else 0
  {
    if j.copies > 0 && j.maxRuns.Some? && j.runs < j.maxRuns.value {
      var next := TickJob(j, j.nextRun.value);
      if next.copies > 0 { LaterStaysOnTime(next, delta, created, planned + delta); }
    }
  }

  lemma SpawnsOnTime(j: JobState, delta: int, created: int, now: int)
    requires IsDue(j, now) && OnTime(j, delta, created)
    ensures KeepsInterval(j.runs + 1, delta, created, Spawns(j, Tick(now)))
  {
    var times := Spawns(j, Tick(now));
    forall k | 0 <= k < |times| ensures times[k] >= Pace(created, delta, j.runs + 1 + k) {
      PaceGrows(created, delta, j.runs + 1, j.runs + 1 + k);
      PaceGrows(created, delta, j.runs + 1 + k, j.runs + j.copies);
    }
  }

  lemma TickStaysOnTime(j: JobState, delta: int, created: int, now: int)
    requires j.trigger == Interval(delta) && StaysOnTime(j, delta, created)
    ensures StaysOnTime(TickJob(j, now), delta, created)
    ensures KeepsInterval(j.runs + 1, delta, created, Spawns(j, Tick(now)))
  {
    if IsDue(j, now) {
      SpawnsOnTime(j, delta, created, now);
      match j.maxRuns
      case None =>
        AllRearm(j.runs, j.copies);
        assert Pace(created, delta, j.runs + 2) == Pace(created, delta, j.runs + 1) + delta;
        PaceGrows(created, delta, j.runs + 2, j.runs + j.copies + 1);
        PaceGrows(created, delta, j.runs + 2, j.runs + j.copies + j.copies);
      case Some(limit) =>
        RearmsNearLimit(limit, j.runs, j.copies);
        var worst := TickJob(j, j.nextRun.value);
        if worst.copies > 0 { LaterStaysOnTime(worst, delta, created, now + delta); }
    }
  }

  lemma EventStaysOnTime(j: JobState, delta: int, created: int, e: JobEvent)
    requires j.trigger == Interval(delta) && StaysOnTime(j, delta, created)
    requires e.Add? ==> StaysOnTime(After(j, e), delta, created)
    ensures StaysOnTime(After(j, e), delta, created)
    ensures KeepsInterval(j.runs + 1, delta, created, Spawns(j, e))
  {
    if e.Tick? { TickStaysOnTime(j, delta, created, e.now); }
  }

  /** Every addition leaves the job one that stays on time. */
  ghost predicate AddsStayOnTime(j: JobState, delta: int, created: int, events: seq<JobEvent>) {
    forall i :: 0 <= i < |events| && events[i].Add? ==> StaysOnTime(After(Life(j, events[..i]), Add), delta, created)
  }

  lemma {:induction false} LifeStaysOnTime(j: JobState, delta: int, created: int, events: seq<JobEvent>, n: nat)
    requires j.trigger == Interval(delta) && StaysOnTime(j, delta, created) && n <= |events|
    requires AddsStayOnTime(j, delta, created, events)
    ensures StaysOnTime(Life(j, events[..n]), delta, created)
    ensures KeepsInterval(j.runs + 1, delta, created, RunTimes(j, events[..n]))
  {
    if n > 0 {
      LifeStaysOnTime(j, delta, created, events, n - 1);
      RunTimesCountRuns(j, events[..n - 1]);
      var front, e := events[..n - 1], events[n - 1];
      assert events[..n][..n - 1] == front;
      var now := Life(j, front);
      EventStaysOnTime(now, delta, created, e);
      BothPartsKeepIt(j.runs + 1, now.runs + 1, delta, created, RunTimes(j, front), Spawns(now, e));
    }
  }

  lemma NoAddStaysOnTime(j: JobState, delta: int, created: int, later: seq<JobEvent>)
    requires j.trigger == Interval(delta) && StaysOnTime(j, delta, created) && NoAdd(later)
    ensures KeepsInterval(j.runs + 1, delta, created, RunTimes(j, later))
  {
    assert forall i :: 0 <= i < |later| ==> later[i] in later;
    LifeStaysOnTime(j, delta, created, later, |later|);
    assert later[..|later|] == later;
  }

  /** At no point of the life can iterations, cancellation or a lost next run lead to an early run. */
  ghost predicate IntervalKept(j: JobState, delta: int, created: int, events: seq<JobEvent>) {
    forall n, later :: 0 <= n <= |events| && NoAdd(later) ==>
      KeepsInterval(j.runs + 1, delta, created, RunTimes(j, events[..n]) + RunTimes(Life(j, events[..n]), later))
  }

  /** The k-th run of an interval job, counting from one, happens no earlier than k intervals after its
      creation, whatever the clock does between iterations, if and only if every addition leaves a job
      that stays on time. */
  lemma RunsKeepTheInterval(delta: int, maxRuns: Option<int>, created: int, events: seq<JobEvent>)
    ensures var j := NewJob(Interval(delta), maxRuns, created);
            IntervalKept(j, delta, created, events) <==> AddsStayOnTime(j, delta, created, events)
  {
    var j := NewJob(Interval(delta), maxRuns, created);
    if AddsStayOnTime(j, delta, created, events) {
      TimelyAddsKeepInterval(j, delta, created, events);
    } else {
      var i :| 0 <= i < |events| && events[i].Add? && !StaysOnTime(After(Life(j, events[..i]), Add), delta, created);
      UntimelyAddRunsEarly(j, delta, created, events, i);
    }
  }

  lemma TimelyAddsKeepInterval(j: JobState, delta: int, created: int, events: seq<JobEvent>)
    requires j.trigger == Interval(delta) && StaysOnTime(j, delta, created)
    requires AddsStayOnTime(j, delta, created, events)
    ensures IntervalKept(j, delta, created, events)
  {
    forall n, later | 0 <= n <= |events| && NoAdd(later)
      ensures KeepsInterval(j.runs + 1, delta, created,
                            RunTimes(j, events[..n]) + RunTimes(Life(j, events[..n]), later))
    {
      var now := Life(j, events[..n]);
      LifeStaysOnTime(j, delta, created, events, n);
      RunTimesCountRuns(j, events[..n]);
      NoAddStaysOnTime(now, delta, created, later);
      BothPartsKeepIt(j.runs + 1, now.runs + 1, delta, created, RunTimes(j, events[..n]), RunTimes(now, later));
    }
  }

  lemma UntimelyAddRunsEarly(j: JobState, delta: int, created: int, events: seq<JobEvent>, i: nat)
    requires j.trigger == Interval(delta) && i < |events| && events[i].Add?
    requires !StaysOnTime(After(Life(j, events[..i]), Add), delta, created)
    ensures !IntervalKept(j, delta, created, events)
  {
    RunTimesCountRuns(j, events[..i]);
    assert events[..i + 1][..i] == events[..i];
    var later := WillRunEarly(Life(j, events[..i + 1]), delta, created);
    EarlyLaterIsEarly(j, delta, created, events, i + 1, later);
  }

  /** What that asks of the addition of a job not listed: that its planned run is not a stale one. */
  lemma UnlistedAddStaysOnTimeIff(j: JobState, delta: int, created: int)
    requires j.trigger == Interval(delta) && j.copies == 0
    ensures StaysOnTime(After(j, Add), delta, created) <==> Dead(j) || PlannedOnTime(j, delta, created)
  {
    if !Dead(j) && PlannedOnTime(j, delta, created) { OneCopyStaysOnTime(After(j, Add), delta, created); }
  }

  lemma {:induction false} OneCopyStaysOnTime(j: JobState, delta: int, created: int)
    requires j.trigger == Interval(delta) && j.copies == 1 && !Dead(j) && PlannedOnTime(j, delta, created)
    ensures StaysOnTime(j, delta, created)
    decreases if j.maxRuns.Some? && j.maxRuns.value > j.runs then j.maxRuns.value - j.runs else 0
  {
    if j.maxRuns.Some? && j.runs < j.maxRuns.value {
      var next := TickJob(j, j.nextRun.value);
      RearmsNearLimit(j.maxRuns.value, j.runs, 1);
      assert Pace(created, delta, j.runs + 2) == Pace(created, delta, j.runs + 1) + delta;
      if next.copies == 1 { OneCopyStaysOnTime(next, delta, created); }
    }
  }

  /** `remaining` runs done `copies` at a time: how many iterations that takes, at least one, and how many
      of them fall to the last. */
  function Rounds(remaining: int, copies: nat): nat
    requires copies > 0
    decreases if remaining < 0 then 0 else remaining
  {
    if remaining <= copies then 1 else Rounds(remaining - copies, copies) + 1
  }

  function InLastRound(remaining: int, copies: nat): int
    requires copies > 0
    decreases if remaining < 0 then 0 else remaining
  {
    if remaining <= copies then remaining else InLastRound(remaining - copies, copies)
  }

  lemma {:induction false} RoundsDivide(remaining: int, copies: nat)
    requires copies > 0
    ensures remaining == (Rounds(remaining, copies) - 1) * copies + InLastRound(remaining, copies)
    ensures InLastRound(remaining, copies) <= copies && (remaining > 0 ==> InLastRound(remaining, copies) > 0)
    decreases if remaining < 0 then 0 else remaining
  {
    if remaining > copies {
      RoundsDivide(remaining - copies, copies);
      var k := Rounds(remaining - copies, copies);
      assert k * copies == (k - 1) * copies + copies;
    }
  }

  /** How many intervals after its creation the next run of a job with a limit has to be planned, at the
      earliest, for all its runs to be on time. */
  function Deadline(limit: int, runs: nat, copies: nat): nat
    requires copies > 0
  {
    var left := InLastRound(limit - runs, copies) - 1;
    runs + Rounds(limit - runs, copies) * (copies - 1) + if left > 1 then left else 1
  }

  lemma DeadlineSteps(limit: int, runs: nat, copies: nat)
    requires copies > 0
    ensures limit - runs > copies ==> Deadline(limit, runs, copies) == Deadline(limit, runs + copies, copies) - 1
    ensures limit - runs <= copies ==>
              Deadline(limit, runs, copies)
              == runs + copies - 1 + if limit - runs - 1 > 1 then limit - runs - 1 else 1
    ensures Deadline(limit, runs, copies) >= runs + copies
  {
    if limit - runs > copies {
      var k := Rounds(limit - runs - copies, copies);
      assert (k + 1) * (copies - 1) == k * (copies - 1) + (copies - 1);
      assert limit - (runs + copies) == limit - runs - copies;
    }
    var k := Rounds(limit - runs, copies);
    assert k * (copies - 1) >= copies - 1;
  }

  /** For a job with a limit and a positive interval, listed any number of times, staying on time is one
      comparison. */
  lemma {:induction false} LimitedStaysOnTimeIff(j: JobState, delta: int, created: int, limit: int)
    requires j.trigger == Interval(delta) && delta > 0 && j.maxRuns == Some(limit) && j.copies > 0 && !Dead(j)
    ensures StaysOnTime(j, delta, created) <==>
            j.nextRun.value >= Pace(created, delta, Deadline(limit, j.runs, j.copies))
    decreases if limit > j.runs then limit - j.runs else 0
  {
    var d := Deadline(limit, j.runs, j.copies);
    DeadlineSteps(limit, j.runs, j.copies);
    PaceGrows(created, delta, j.runs + 1, j.runs + j.copies);
    PaceGrows(created, delta, j.runs + j.copies, d);
    if limit - j.runs > j.copies {
      var next := TickJob(j, j.nextRun.value);
      RearmsNearLimit(limit, j.runs, j.copies);
      assert next.runs == j.runs + j.copies && next.copies == j.copies;
      LimitedStaysOnTimeIff(next, delta, created, limit);
      assert Pace(created, delta, d + 1) == Pace(created, delta, d) + delta;
    } else if limit > j.runs {
      LastRoundStaysOnTimeIff(j, delta, created, limit);
    }
  }

  /** After the last round before the limit the copies that were re-armed run once more. */
  lemma LastRoundStaysOnTimeIff(j: JobState, delta: int, created: int, limit: int)
    requires j.trigger == Interval(delta) && delta > 0 && j.maxRuns == Some(limit) && !Dead(j)
    requires j.runs < limit <= j.runs + j.copies
    ensures StaysOnTime(j, delta, created) <==>
            j.nextRun.value >= Pace(created, delta, Deadline(limit, j.runs, j.copies))
  {
    var next := TickJob(j, j.nextRun.value);
    var d := Deadline(limit, j.runs, j.copies);
    DeadlineSteps(limit, j.runs, j.copies);
    RearmsAcrossLimit(limit, j.runs, j.copies);
    PaceGrows(created, delta, j.runs + 1, j.runs + j.copies);
    PaceGrows(created, delta, j.runs + j.copies, d);
    if next.copies > 0 {
      assert next.runs + next.copies == d + 1;
      PaceGrows(created, delta, next.runs + 1, d + 1);
      assert Pace(created, delta, d + 1) == Pace(created, delta, d) + delta;
    }
  }

  lemma {:induction false} RearmsAcrossLimit(limit: int, runs: nat, copies: nat)
    requires runs < limit <= runs + copies
    ensures Rearms(Some(limit), runs, copies) == limit - 1 - runs
  {
    if runs + copies > limit {
      RearmsAcrossLimit(limit, runs, copies - 1);
    } else {
      RearmsNearLimit(limit, runs, copies);
    }
  }

  /** When the interval is not positive the planned run alone decides, limit or not. */
  lemma {:induction false} NonPositiveStaysOnTimeIff(j: JobState, delta: int, created: int)
    requires j.trigger == Interval(delta) && delta <= 0 && j.copies > 0 && !Dead(j)
    ensures StaysOnTime(j, delta, created) <==> PlannedOnTime(j, delta, created)
    decreases if j.maxRuns.Some? && j.maxRuns.value > j.runs then j.maxRuns.value - j.runs else 0
  {
    PaceGrows(created, delta, j.runs + 1, j.runs + j.copies);
    if j.maxRuns.Some? && j.runs < j.maxRuns.value {
      var next := TickJob(j, j.nextRun.value);
      if next.copies > 0 {
        NonPositiveStaysOnTimeIff(next, delta, created);
        assert Pace(created, delta, j.runs + 2) == Pace(created, delta, j.runs + 1) + delta;
        PaceGrows(created, delta, j.runs + 2, next.runs + 1);
      }
    }
  }

  /** So a job scheduled once keeps its interval. */
  lemma ScheduledKeepsInterval(delta: int, maxRuns: Option<int>, created: int, later: seq<JobEvent>)
    requires NoAdd(later)
    ensures KeepsInterval(1, delta, created, RunTimes(After(NewJob(Interval(delta), maxRuns, created), Add), later))
  {
    var j := NewJob(Interval(delta), maxRuns, created);
    assert Pace(created, delta, 1) == Pace(created, delta, 0) + delta;
    UnlistedAddStaysOnTimeIff(j, delta, created);
    NoAddStaysOnTime(After(j, Add), delta, created, later);
  }

  /** A run too early from some point on is one from the start. */
  lemma EarlyLaterIsEarly(j: JobState, delta: int, created: int, events: seq<JobEvent>, n: nat, later: seq<JobEvent>)
    requires n <= |events| && NoAdd(later)
    requires !KeepsInterval(Life(j, events[..n]).runs + 1, delta, created, RunTimes(Life(j, events[..n]), later))
    ensures !IntervalKept(j, delta, created, events)
  {
    var now := Life(j, events[..n]);
    RunTimesCountRuns(j, events[..n]);
    EarlyPartIsEarly(j.runs + 1, now.runs + 1, delta, created, RunTimes(j, events[..n]), RunTimes(now, later));
  }

  /** Otherwise iterations alone lead to a run that is too early. */
  lemma {:induction false} WillRunEarly(j: JobState, delta: int, created: int) returns (later: seq<JobEvent>)
    requires j.trigger == Interval(delta) && !StaysOnTime(j, delta, created)
    ensures NoAdd(later) && !KeepsInterval(j.runs + 1, delta, created, RunTimes(j, later))
    decreases if j.maxRuns.Some? && j.maxRuns.value > j.runs then j.maxRuns.value - j.runs else 0
  {
    var tick := Tick(j.nextRun.value);
    if j.nextRun.value < Pace(created, delta, j.runs + 1) {
      CopyRunsEarly(j, delta, created, 0);
      later := [tick];
    } else if j.nextRun.value < Pace(created, delta, j.runs + j.copies) {
      CopyRunsEarly(j, delta, created, j.copies - 1);
      later := [tick];
    } else if j.maxRuns.None? {
      later := ListedTwiceFallsBehind(j, delta, created);
    } else {
      var rest := WillRunEarly(TickJob(j, j.nextRun.value), delta, created);
      EarlyAfterEventIsEarly(j, delta, created, tick, rest);
      later := [tick] + rest;
    }
  }

  /** Listed twice at once, a job without a limit falls behind in any case: iterations alone lead to a run
      that is too early. */
  lemma {:induction false} ListedTwiceFallsBehind(j: JobState, delta: int, created: int) returns (later: seq<JobEvent>)
    requires j.trigger == Interval(delta) && delta > 0 && j.maxRuns.None? && j.copies >= 2 && !Dead(j)
    ensures NoAdd(later) && !KeepsInterval(j.runs + 1, delta, created, RunTimes(j, later))
    decreases if j.nextRun.value < Pace(created, delta, j.runs + j.copies) then 0
              else 1 + j.nextRun.value - Pace(created, delta, j.runs + j.copies)
  {
    if j.nextRun.value < Pace(created, delta, j.runs + j.copies) {
      later := [Tick(j.nextRun.value)];
      CopyRunsEarly(j, delta, created, j.copies - 1);
    } else {
      PaceGrows(created, delta, j.runs + j.copies, j.runs + j.copies + j.copies);
      var rest := ListedTwiceFallsBehind(AllCopiesRun(j, delta), delta, created);
      later := [Tick(j.nextRun.value)] + rest;
      EarlyAfterAllCopiesRun(j, delta, created, rest);
    }
  }

  /** The job after an iteration at its planned time. */
  function AllCopiesRun(j: JobState, delta: int): JobState
    requires !Dead(j)
  {
    j.(runs := j.runs + j.copies, nextRun := Some(j.nextRun.value + delta))
  }

  lemma EarlyAfterAllCopiesRun(j: JobState, delta: int, created: int, later: seq<JobEvent>)
    requires j.trigger == Interval(delta) && j.maxRuns.None? && j.copies > 0 && !Dead(j)
    requires var next := AllCopiesRun(j, delta); !KeepsInterval(next.runs + 1, delta, created, RunTimes(next, later))
    ensures !KeepsInterval(j.runs + 1, delta, created, RunTimes(j, [Tick(j.nextRun.value)] + later))
  {
    AllRearm(j.runs, j.copies);
    EarlyAfterEventIsEarly(j, delta, created, Tick(j.nextRun.value), later);
  }

  lemma CopyRunsEarly(j: JobState, delta: int, created: int, k: nat)
    requires k < j.copies && !Dead(j) && j.nextRun.value < Pace(created, delta, j.runs + k + 1)
    ensures !KeepsInterval(j.runs + 1, delta, created, RunTimes(j, [Tick(j.nextRun.value)]))
  {
    var tick := Tick(j.nextRun.value);
    OneEvent(j, tick);
    assert |Spawns(j, tick)| == j.copies && Spawns(j, tick)[k] == j.nextRun.value;
    assert j.runs + 1 + k == j.runs + k + 1;
    assert Spawns(j, tick)[k] < Pace(created, delta, j.runs + 1 + k);
  }

  lemma EarlyAfterEventIsEarly(j: JobState, delta: int, created: int, e: JobEvent, later: seq<JobEvent>)
    requires !KeepsInterval(After(j, e).runs + 1, delta, created, RunTimes(After(j, e), later))
    ensures !KeepsInterval(j.runs + 1, delta, created, RunTimes(j, [e] + later))
  {
    OneEvent(j, e);
    RunTimesCountRuns(j, [e]);
    RunTimesContinue(j, [e], later);
    var first, rest := Spawns(j, e), RunTimes(After(j, e), later);
    assert RunTimes(j, [e] + later) == first + rest;
    EarlyPartIsEarly(j.runs + 1, After(j, e).runs + 1, delta, created, first, rest);
  }

  lemma {:induction false} AllRearm(runs: nat, copies: nat)
    ensures Rearms(None, runs, copies) == copies
  {
    if copies > 0 { AllRearm(runs, copies - 1); }
  }
}
