/** When a listed job runs: at the first iteration that finds its planned time reached, and no later than
    the pace of the iterations allows. */
module JobRuns {
  import opened Prelude
  import opened JobLives

  /** An iteration leaves a listed job alone as long as its next run is ahead of the clock. */
  lemma AheadOfTheClockIsKept(j: JobState, now: int)
    requires j.copies > 0 && !j.cancelled && j.nextRun.Some? && now < j.nextRun.value
    ensures After(j, Tick(now)) == j && Spawns(j, Tick(now)) == []
  {}

  /** The first that finds it reached spawns every copy; a job listed once stays listed unless that was its
      last run, with its next run planned from this reading. */
  lemma ReachedIsSpawned(j: JobState, now: int)
    requires j.copies > 0 && !j.cancelled && j.nextRun.Some? && j.nextRun.value <= now
    ensures var j' := After(j, Tick(now));
      && |Spawns(j, Tick(now))| == j.copies && (forall t :: t in Spawns(j, Tick(now)) ==> t == now)
      && j'.runs == j.runs + j.copies && !j'.cancelled
      && (j'.copies > 0 ==> j'.nextRun == Some(NextRun(j.trigger, now)))
      && (j.copies == 1 ==> j'.copies == if j.maxRuns.None? || j.runs + 1 < j.maxRuns.value then 1 else 0)
  {
    assert Rearms(j.maxRuns, j.runs, 1) == if RunsAgain(j.maxRuns, j.runs + 1) then 1 else 0;
  }

  lemma FirstThenRest(j: JobState, events: seq<JobEvent>)
    requires events != []
    ensures RunTimes(j, events) == Spawns(j, events[0]) + RunTimes(After(j, events[0]), events[1..])
    ensures NoAdd(events) ==> NoAdd(events[1..]) && !events[0].Add?
  {
    assert [events[0]] + events[1..] == events;
    OneEvent(j, events[0]);
    RunTimesContinue(j, [events[0]], events[1..]);
    assert forall x :: x in events[1..] ==> x in events;
  }

  /** A job not listed, cancelled or without a next run is not spawned until it is added. */
  lemma {:induction false} UnlistedNeverRuns(j: JobState, events: seq<JobEvent>)
    requires (j.copies == 0 || j.cancelled || j.nextRun.None?) && NoAdd(events)
    ensures RunTimes(j, events) == []
    decreases |events|
  {
    if events != [] {
      FirstThenRest(j, events);
      UnlistedNeverRuns(After(j, events[0]), events[1..]);
    }
  }

  /** The runs of a job listed once, from its trigger, its limit, its runs so far and its planned run: it
      runs at the first reading that is not before the planned time, and again from there, until its limit
      is reached, it is cancelled, or it loses its next run. */
  function ExpectedRuns(trigger: Trigger, maxRuns: Option<int>, runs: nat, planned: int, events: seq<JobEvent>)
    : seq<int>
    decreases |events|
  {
    if events == [] || events[0].Cancel? || events[0].LoseNextRun? then []
    else if events[0].Tick? && planned <= events[0].now then
      var now := events[0].now;
      [now] + if maxRuns.None? || runs + 1 < maxRuns.value
              then ExpectedRuns(trigger, maxRuns, runs + 1, NextRun(trigger, now), events[1..])
              else []
    else ExpectedRuns(trigger, maxRuns, runs, planned, events[1..])
  }

  lemma {:induction false} RunsAsExpected(j: JobState, events: seq<JobEvent>)
    requires j.copies == 1 && !j.cancelled && j.nextRun.Some? && NoAdd(events)
    ensures RunTimes(j, events) == ExpectedRuns(j.trigger, j.maxRuns, j.runs, j.nextRun.value, events)
    decreases |events|
  {
    if events != [] {
      var e, rest := events[0], events[1..];
      FirstThenRest(j, events);
      if e.Tick? && j.nextRun.value <= e.now {
        ReachedIsSpawned(j, e.now);
        assert Spawns(j, e) == [e.now];
      } else if e.Tick? {
        AheadOfTheClockIsKept(j, e.now);
      }
      var j' := After(j, e);
      if j'.copies == 0 || j'.cancelled || j'.nextRun.None? {
        UnlistedNeverRuns(j', rest);
      } else {
        RunsAsExpected(j', rest);
      }
    }
  }

  function Ticks(clock: seq<int>): (events: seq<JobEvent>)
    ensures |events| == |clock| && NoAdd(events)
  {
    seq(|clock|, i requires 0 <= i < |clock| => Tick(clock[i]))
  }

  /** From one reading to the next the clock gains at most `gap`. */
  ghost predicate Steps(clock: seq<int>, gap: int) {
    forall i, j :: 0 <= i < |clock| - 1 && j == i + 1 ==> clock[j] <= clock[i] + gap
  }

  /** `times` has enough runs, as far as the limit allows, for the clock to have reached `now`. */
  ghost predicate EnoughRuns(times: seq<int>, first: int, pace: int, maxRuns: Option<int>, runs: nat, now: int) {
    forall k: nat :: now >= Pace(first, pace, k) && (maxRuns.None? || runs + k + 1 <= maxRuns.value) ==> |times| > k
  }

  ghost predicate NoneLate(times: seq<int>, first: int, pace: int) {
    forall k :: 0 <= k < |times| ==> times[k] < Pace(first, pace, k)
  }

  lemma {:induction false} PaceMoves(a: int, b: int, d: int, n: nat)
    requires a <= b
    ensures Pace(a, d, n) <= Pace(b, d, n) && Pace(a + d, d, n) == Pace(a, d, n + 1)
  {
    if n > 0 { PaceMoves(a, b, d, n - 1); }
  }

  lemma OneMoreInTime(t: int, rest: seq<int>, later: int, first: int, pace: int)
    requires t < first && later <= first + pace && NoneLate(rest, later, pace)
    ensures NoneLate([t] + rest, first, pace)
  {
    var times := [t] + rest;
    forall k | 0 <= k < |times| ensures times[k] < Pace(first, pace, k) {
      if k > 0 {
        PaceMoves(later, first + pace, pace, k - 1);
        PaceMoves(first, first, pace, k - 1);
      }
    }
  }

  lemma OneMoreIsEnough(t: int, rest: seq<int>, later: int, first: int, pace: int, maxRuns: Option<int>, runs: nat,
                        now: int)
    requires later <= first + pace
    requires maxRuns.None? || runs + 1 < maxRuns.value ==> EnoughRuns(rest, later, pace, maxRuns, runs + 1, now)
    ensures EnoughRuns([t] + rest, first, pace, maxRuns, runs, now)
  {
    forall k: nat | now >= Pace(first, pace, k) && (maxRuns.None? || runs + k + 1 <= maxRuns.value)
      ensures |[t] + rest| > k
    {
      if k > 0 {
        PaceMoves(later, first + pace, pace, k - 1);
        PaceMoves(first, first, pace, k - 1);
        assert now >= Pace(later, pace, k - 1);
      }
    }
  }

  lemma {:induction false} ExpectedRunsAreTimely(delta: int, gap: int, maxRuns: Option<int>, runs: nat, planned: int,
                                                 clock: seq<int>)
    requires delta > 0 && gap >= 0 && Steps(clock, gap) && clock != [] && clock[0] < planned + gap
    ensures var times := ExpectedRuns(Interval(delta), maxRuns, runs, planned, Ticks(clock));
      && NoneLate(times, planned + gap, delta + gap)
      && EnoughRuns(times, planned + gap, delta + gap, maxRuns, runs, clock[|clock| - 1])
    decreases |clock|
  {
    var t, rest, first, pace := clock[0], clock[1..], planned + gap, delta + gap;
    assert Ticks(clock)[1..] == Ticks(rest);
    forall k: nat ensures Pace(first, pace, k) >= first { PaceGrows(first, pace, 0, k); }
    if t < planned {
      if rest != [] { ExpectedRunsAreTimely(delta, gap, maxRuns, runs, planned, rest); }
    } else {
      var later := t + delta + gap;
      var times := ExpectedRuns(Interval(delta), maxRuns, runs + 1, t + delta, Ticks(rest));
      if rest != [] {
        ExpectedRunsAreTimely(delta, gap, maxRuns, runs + 1, t + delta, rest);
      } else {
        LastReading(t, later, pace, maxRuns, runs);
      }
      OneMoreInTime(t, times, later, first, pace);
      OneMoreInTime(t, [], later, first, pace);
      OneMoreIsEnough(t, times, later, first, pace, maxRuns, runs, clock[|clock| - 1]);
      if !(maxRuns.None? || runs + 1 < maxRuns.value) {
        OneMoreIsEnough(t, [], later, first, pace, maxRuns, runs, clock[|clock| - 1]);
      }
    }
  }

  lemma LastReading(t: int, later: int, pace: int, maxRuns: Option<int>, runs: nat)
    requires t < later && pace >= 0
    ensures EnoughRuns([], later, pace, maxRuns, runs + 1, t)
  {
    forall k: nat ensures Pace(later, pace, k) >= later { PaceGrows(later, pace, 0, k); }
  }

  /** If iterations come at most `gap` apart, no run of a job scheduled once is later than that: the k-th
      comes before creation plus k times interval and gap, and once the clock is there it has come. */
  lemma RunsAreNotLate(delta: int, gap: int, maxRuns: Option<int>, created: int, clock: seq<int>)
    requires delta > 0 && gap >= 0 && Steps(clock, gap) && clock != [] && clock[0] < created + delta + gap
    ensures var times := RunTimes(After(NewJob(Interval(delta), maxRuns, created), Add), Ticks(clock));
            var pace := delta + gap;
      && (forall k :: 0 <= k < |times| ==> times[k] < Pace(created, pace, k + 1))
      && (forall k: nat :: Pace(created, pace, k) <= clock[|clock| - 1] && (maxRuns.None? || k <= maxRuns.value) ==>
            k <= |times|)
  {
    var pace, last, first := delta + gap, clock[|clock| - 1], created + delta + gap;
    var j := After(NewJob(Interval(delta), maxRuns, created), Add);
    var times := ExpectedRuns(Interval(delta), maxRuns, 0, created + delta, Ticks(clock));
    RunsAsExpected(j, Ticks(clock));
    ExpectedRunsAreTimely(delta, gap, maxRuns, 0, created + delta, clock);
    CountedFromCreation(times, created, first, pace, maxRuns, last);
  }

  lemma CountedFromCreation(times: seq<int>, created: int, first: int, pace: int, maxRuns: Option<int>, last: int)
    requires first == created + pace && NoneLate(times, first, pace) && EnoughRuns(times, first, pace, maxRuns, 0, last)
    ensures forall k :: 0 <= k < |times| ==> times[k] < Pace(created, pace, k + 1)
    ensures forall k: nat :: Pace(created, pace, k) <= last && (maxRuns.None? || k <= maxRuns.value) ==> k <= |times|
  {
    forall k: nat ensures Pace(first, pace, k) == Pace(created, pace, k + 1) { PaceMoves(created, created, pace, k); }
    forall k: nat | Pace(created, pace, k) <= last && (maxRuns.None? || k <= maxRuns.value) ensures k <= |times| {
      if k > 0 { assert last >= Pace(first, pace, k - 1); }
    }
  }
}
