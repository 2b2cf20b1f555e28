/** The scheduler: one locked loop iteration as one step over the list of jobs. */
module Schedulers {
  import opened Prelude
  import opened Graphs
  import opened JobLives

  class ScheduledJob {
    const trigger: Trigger
    const maxRuns: Option<int>
    var runs: nat
    var nextRun: Option<int>
    var cancelled: bool

    constructor (trigger: Trigger, maxRuns: Option<int>, now: int)
      ensures View(0) == NewJob(trigger, maxRuns, now)
    {
      this.trigger, this.maxRuns := trigger, maxRuns;
      runs, cancelled := 0, false;
      nextRun := Some(NextRun(trigger, now));
    }

    function View(copies: nat): JobState
      reads this
    {
      JobState(trigger, maxRuns, runs, nextRun, cancelled, copies)
    }

    /** `cancel`. */
    method CancelJob()
      modifies this
      ensures forall copies :: View(copies) == After(old(View(copies)), Cancel)
    {
      cancelled := true;
    }
  }

  /** How often `x` occurs in `s`. */
  ghost function Copies<T>(s: seq<T>, x: T): nat {
    if s == [] then 0 else Copies(s[..|s| - 1], x) + if s[|s| - 1] == x then 1 else 0
  }

  lemma {:induction false} CopiesAdd<T>(a: seq<T>, b: seq<T>, x: T)
    ensures Copies(a + b, x) == Copies(a, x) + Copies(b, x)
  {
    if b == [] {
      assert a + b == a;
    } else {
      CopiesAdd(a, b[..|b| - 1], x);
      assert (a + b)[..|a + b| - 1] == a + b[..|b| - 1];
    }
  }

  lemma CopiesNext<T>(s: seq<T>, y: T, x: T)
    ensures Copies(s + [y], x) == Copies(s, x) + if y == x then 1 else 0
  {
    assert (s + [y])[..|s|] == s;
  }

  lemma {:induction false} CopiesFound<T>(s: seq<T>, x: T)
    ensures x in s <==> Copies(s, x) > 0
  {
    if s != [] {
      CopiesFound(s[..|s| - 1], x);
      assert s == s[..|s| - 1] + [s[|s| - 1]];
    }
  }

  lemma {:induction false} DistinctIsOneCopy<T>(s: seq<T>)
    ensures Distinct(s) <==> forall x :: x in s ==> Copies(s, x) == 1
  {
    if s != [] {
      var front, last := s[..|s| - 1], s[|s| - 1];
      DistinctIsOneCopy(front);
      assert s == front + [last];
      AppendedOnce(front, last);
      CopiesFound(front, last);
      if !Distinct(front) {
        var x :| x in front && Copies(front, x) != 1;
        CopiesFound(front, x);
        assert x in s && Copies(s, x) > 1;
      } else if last in front {
        assert last in s && Copies(s, last) > 1;
      }
    }
  }

  /** The jobs to spawn and the jobs to keep, in list order. */
  ghost function Due(jobs: seq<ScheduledJob>, now: int): (due: seq<ScheduledJob>)
    reads jobs
    ensures forall i :: 0 <= i < |due| ==> due[i] in jobs
  {
    if jobs == [] then []
    else Due(jobs[..|jobs| - 1], now) + if IsDue(jobs[|jobs| - 1].View(1), now) then [jobs[|jobs| - 1]] else []
  }

  ghost function Kept(jobs: seq<ScheduledJob>, now: int): (kept: seq<ScheduledJob>)
    reads jobs
    ensures forall i :: 0 <= i < |kept| ==> kept[i] in jobs
  {
    if jobs == [] then []
    else Kept(jobs[..|jobs| - 1], now) + if IsKept(jobs[|jobs| - 1].View(1), now) then [jobs[|jobs| - 1]] else []
  }

  lemma NextLooked(jobs: seq<ScheduledJob>, i: nat, now: int)
    requires i < |jobs|
    ensures Due(jobs[..i + 1], now) == Due(jobs[..i], now) + if IsDue(jobs[i].View(1), now) then [jobs[i]] else []
    ensures Kept(jobs[..i + 1], now) == Kept(jobs[..i], now) + if IsKept(jobs[i].View(1), now) then [jobs[i]] else []
  {
    assert jobs[..i + 1][..i] == jobs[..i];
  }

  /** Both lists are in list order: `due` and `kept` are the places of those to be spawned and those that
      stay; a cancelled job or one without a next run has a place in neither. */
  lemma {:induction false} ListOrderStays(jobs: seq<ScheduledJob>, now: int) returns (due: seq<nat>, kept: seq<nat>)
    ensures Stands(jobs, Due(jobs, now), due) && Stands(jobs, Kept(jobs, now), kept)
    ensures forall i :: 0 <= i < |jobs| ==>
      (i in due <==> !jobs[i].cancelled && jobs[i].nextRun.Some? && jobs[i].nextRun.value <= now)
    ensures forall i :: 0 <= i < |jobs| ==>
      (i in kept <==> !jobs[i].cancelled && jobs[i].nextRun.Some? && now < jobs[i].nextRun.value)
  {
    due, kept := [], [];
    if jobs != [] {
      var front, last := jobs[..|jobs| - 1], jobs[|jobs| - 1];
      due, kept := ListOrderStays(front, now);
      OneMoreStands(front, last, Due(front, now), due);
      OneMoreStands(front, last, Kept(front, now), kept);
      assert jobs == front + [last];
      if IsDue(last.View(1), now) { due := due + [|front|]; }
      if IsKept(last.View(1), now) { kept := kept + [|front|]; }
    }
  }

  /** The elements of `part` stand at the places `at` of `s`, in order. */
  ghost predicate Stands<T>(s: seq<T>, part: seq<T>, at: seq<nat>) {
    && |at| == |part| && (forall i, j :: 0 <= i < j < |at| ==> at[i] < at[j])
    && forall i :: 0 <= i < |at| ==> at[i] < |s| && s[at[i]] == part[i]
  }

  lemma OneMoreStands<T>(front: seq<T>, last: T, part: seq<T>, at: seq<nat>)
    requires Stands(front, part, at)
    ensures Stands(front + [last], part, at) && Stands(front + [last], part + [last], at + [|front|])
    ensures forall i :: i in at ==> i < |front|
  {}

  /** Of the spawned jobs, those listed again: a spawn that is the job's n-th in this iteration lists it
      again if the job is to run again after that many more runs. */
  ghost function Rearmed(jobs: seq<ScheduledJob>): (again: seq<ScheduledJob>)
    reads jobs
    ensures forall i :: 0 <= i < |again| ==> again[i] in jobs
  {
    if jobs == [] then []
    else
      var last := jobs[|jobs| - 1];
      Rearmed(jobs[..|jobs| - 1]) + if RunsAgain(last.maxRuns, last.runs + Copies(jobs, last)) then [last] else []
  }

  lemma {:induction false} DueCopies(jobs: seq<ScheduledJob>, now: int, j: ScheduledJob)
    ensures Copies(Due(jobs, now), j) == if IsDue(j.View(1), now) then Copies(jobs, j) else 0
  {
    if jobs != [] {
      var front, last := jobs[..|jobs| - 1], jobs[|jobs| - 1];
      DueCopies(front, now, j);
      assert Due(front, now) + [] == Due(front, now);
      CopiesNext(Due(front, now), last, j);
    }
  }

  lemma {:induction false} KeptCopies(jobs: seq<ScheduledJob>, now: int, j: ScheduledJob)
    ensures Copies(Kept(jobs, now), j) == if IsKept(j.View(1), now) then Copies(jobs, j) else 0
  {
    if jobs != [] {
      var front, last := jobs[..|jobs| - 1], jobs[|jobs| - 1];
      KeptCopies(front, now, j);
      assert Kept(front, now) + [] == Kept(front, now);
      CopiesNext(Kept(front, now), last, j);
    }
  }

  lemma {:induction false} RearmedCopies(jobs: seq<ScheduledJob>, j: ScheduledJob)
    ensures Copies(Rearmed(jobs), j) == Rearms(j.maxRuns, j.runs, Copies(jobs, j))
  {
    if jobs != [] {
      var front, last := jobs[..|jobs| - 1], jobs[|jobs| - 1];
      RearmedCopies(front, j);
      assert Rearmed(front) + [] == Rearmed(front);
      CopiesNext(Rearmed(front), last, j);
    }
  }

  /** The earlier of one second from now and the next run of every listed job. */
  ghost predicate IsWakeup(jobs: seq<ScheduledJob>, now: int, wakeup: int)
    reads jobs
  {
    && wakeup <= now + SECOND
    && (forall j :: j in jobs ==> j.nextRun.Some? && wakeup <= j.nextRun.value)
    && (wakeup == now + SECOND || exists j :: j in jobs && j.nextRun == Some(wakeup))
  }

  /** How often a job stands in the lists of one iteration, before it is run. */
  ghost predicate TickedLists(all: seq<ScheduledJob>, due: seq<ScheduledJob>, kept: seq<ScheduledJob>,
                              after: seq<ScheduledJob>, now: int, j: ScheduledJob)
    reads j
  {
    var n := Copies(all, j);
    && n > 0 && (j in due <==> IsDue(j.View(n), now))
    && (IsDue(j.View(n), now) ==> Copies(due, j) == n)
    && Copies(after, j) == TickJob(j.View(n), now).copies
  }

  ghost predicate AllTickedLists(all: seq<ScheduledJob>, due: seq<ScheduledJob>, kept: seq<ScheduledJob>,
                                 after: seq<ScheduledJob>, now: int)
    reads all
  {
    && (forall j :: j in all ==> TickedLists(all, due, kept, after, now, j))
    && forall j :: j in due ==> j in all && j !in kept
  }

  lemma ListsAfterTick(all: seq<ScheduledJob>, now: int)
    ensures AllTickedLists(all, Due(all, now), Kept(all, now), Kept(all, now) + Rearmed(Due(all, now)), now)
  {
    forall j | j in all
      ensures TickedLists(all, Due(all, now), Kept(all, now), Kept(all, now) + Rearmed(Due(all, now)), now, j)
    {
      JobListsAfterTick(all, now, j);
    }
    forall j | j in Due(all, now) ensures j in all && j !in Kept(all, now) {
      DueCopies(all, now, j);
      KeptCopies(all, now, j);
      CopiesFound(Due(all, now), j);
      CopiesFound(Kept(all, now), j);
    }
  }

  lemma JobListsAfterTick(all: seq<ScheduledJob>, now: int, j: ScheduledJob)
    requires j in all
    ensures TickedLists(all, Due(all, now), Kept(all, now), Kept(all, now) + Rearmed(Due(all, now)), now, j)
  {
    CopiesFound(all, j);
    CopiesFound(Due(all, now), j);
    DueCopies(all, now, j);
    KeptCopies(all, now, j);
    RearmedCopies(Due(all, now), j);
    CopiesAdd(Kept(all, now), Rearmed(Due(all, now)), j);
  }

  /** What `times` spawns at `now` make of a job: its runs are counted, and its next run is planned anew
      if one of them lists it again. */
  function Ran(j: JobState, times: nat, now: int): JobState {
    j.(runs := j.runs + times,
       nextRun := if Rearms(j.maxRuns, j.runs, times) > 0 then Some(NextRun(j.trigger, now)) else j.nextRun)
  }

  /** What the lists say and what the spawns did make up the whole tick of a job. */
  lemma JobHasTicked(before: JobState, after: JobState, copies: nat, now: int)
    requires copies == TickJob(before, now).copies
    requires after.(copies := 0)
              == (if IsDue(before, now) then Ran(before, before.copies, now) else before).(copies := 0)
    ensures after.(copies := copies) == TickJob(before, now)
  {}

  lemma RanAgain(j: JobState, times: nat, now: int)
    ensures Ran(Ran(j, times, now), 1, now) == Ran(j, times + 1, now)
  {
    assert Rearms(j.maxRuns, j.runs + times, 1) == if RunsAgain(j.maxRuns, j.runs + times + 1) then 1 else 0;
  }

  class Scheduler {
    var jobs: seq<ScheduledJob>

    constructor ()
      ensures jobs == []
    {
      jobs := [];
    }

    /** `add_job`: any job, listed or not. */
    method AddJob(job: ScheduledJob)
      modifies this
      ensures jobs == old(jobs) + [job]
      ensures job.View(Copies(jobs, job)) == After(old(job.View(Copies(jobs, job))), Add)
      ensures forall j :: j in jobs && j != job ==> Copies(jobs, j) == old(Copies(jobs, j))
      ensures Distinct(jobs) <==> old(Distinct(jobs)) && job !in old(jobs)
    {
      AppendedOnce(jobs, job);
      assert (jobs + [job])[..|jobs|] == jobs;
      jobs := jobs + [job];
    }

    /** `every`, `after` or `cron`, followed by `do`. */
    method Schedule(trigger: Trigger, maxRuns: Option<int>, now: int) returns (job: ScheduledJob)
      modifies this
      ensures fresh(job) && jobs == old(jobs) + [job]
      ensures job.View(Copies(jobs, job)) == After(NewJob(trigger, maxRuns, now), Add)
      ensures Distinct(jobs) <==> old(Distinct(jobs))
    {
      job := new ScheduledJob(trigger, maxRuns, now);
      CopiesFound(jobs, job);
      AddJob(job);
    }

    /** One locked iteration of `_run` at clock reading `now`: every job undergoes `TickJob`, the due
        ones are spawned in list order, the list is what stays followed by what is re-armed, and the
        planned wake-up is the earliest it has to be.  Jobs listed once stay so. */
    method RunTick(now: int) returns (spawned: seq<ScheduledJob>, wakeup: int)
      modifies this, set j | j in jobs
      ensures jobs == old(Kept(jobs, now) + Rearmed(Due(jobs, now)))
      ensures spawned == old(Due(jobs, now))
      ensures forall j :: j in old(jobs) ==>
                j.View(Copies(jobs, j)) == TickJob(old(j.View(Copies(jobs, j))), now)
      ensures old(Distinct(jobs)) ==> Distinct(jobs)
      ensures IsWakeup(jobs, now, wakeup)
    {
      var jobsToRun, activeJobs;
      jobsToRun, activeJobs, wakeup := Partition(now);
      ListsAfterTick(jobs, now);
      wakeup := Commit(jobsToRun, activeJobs, now, wakeup);
      spawned := jobsToRun;
      if old(Distinct(jobs)) { TickKeepsDistinct(now); }
    }

    twostate lemma TickKeepsDistinct(now: int)
      requires old(Distinct(jobs)) && forall i :: 0 <= i < |jobs| ==> jobs[i] in old(jobs)
      requires forall j :: j in old(jobs) ==>
                 j.View(Copies(jobs, j)) == TickJob(old(j.View(Copies(jobs, j))), now)
      ensures Distinct(jobs)
    {
      DistinctIsOneCopy(old(jobs));
      DistinctIsOneCopy(jobs);
      forall j | j in jobs ensures Copies(jobs, j) == 1 {
        CopiesFound(jobs, j);
        assert j.View(Copies(jobs, j)) == TickJob(old(j.View(Copies(jobs, j))), now);
        assert old(Copies(jobs, j)) == 1;
      }
    }

    /** The list is replaced by the active jobs, and the due ones run. */
    method Commit(jobsToRun: seq<ScheduledJob>, activeJobs: seq<ScheduledJob>, now: int, wakeup0: int)
      returns (wakeup: int)
      requires AllTickedLists(jobs, jobsToRun, activeJobs, activeJobs + Rearmed(jobsToRun), now)
      requires IsWakeup(activeJobs, now, wakeup0)
      modifies this, set j | j in jobs
      ensures jobs == activeJobs + old(Rearmed(jobsToRun))
      ensures forall j :: j in old(jobs) ==>
                j.View(Copies(jobs, j)) == TickJob(old(j.View(Copies(jobs, j))), now)
      ensures IsWakeup(jobs, now, wakeup)
    {
      ghost var all, after := jobs, activeJobs + Rearmed(jobsToRun);
      jobs := activeJobs;
      wakeup := RunDue(jobsToRun, now, wakeup0);
      assert jobs == after;
      forall j | j in all ensures j.View(Copies(after, j)) == TickJob(old(j.View(Copies(all, j))), now) {
        assert old(TickedLists(all, jobsToRun, activeJobs, after, now, j));
        JobHasTicked(old(j.View(Copies(all, j))), j.View(0), Copies(after, j), now);
      }
    }

    /** The first loop: cancelled and dead jobs are in neither list. */
    method Partition(now: int) returns (jobsToRun: seq<ScheduledJob>, activeJobs: seq<ScheduledJob>, wakeup: int)
      ensures jobsToRun == Due(jobs, now) && activeJobs == Kept(jobs, now)
      ensures IsWakeup(activeJobs, now, wakeup)
    {
      jobsToRun, activeJobs := [], [];
      wakeup := now + SECOND;
      for i := 0 to |jobs|
        invariant jobsToRun == Due(jobs[..i], now) && activeJobs == Kept(jobs[..i], now)
        invariant IsWakeup(activeJobs, now, wakeup)
      {
        NextLooked(jobs, i, now);
        jobsToRun, activeJobs, wakeup := LookAt(jobs[i], now, jobsToRun, activeJobs, wakeup);
      }
      assert jobs[..|jobs|] == jobs;
    }

    method LookAt(job: ScheduledJob, now: int, jobsToRun0: seq<ScheduledJob>, activeJobs0: seq<ScheduledJob>,
                  wakeup0: int)
      returns (jobsToRun: seq<ScheduledJob>, activeJobs: seq<ScheduledJob>, wakeup: int)
      requires IsWakeup(activeJobs0, now, wakeup0)
      ensures jobsToRun == jobsToRun0 + if IsDue(job.View(1), now) then [job] else []
      ensures activeJobs == activeJobs0 + if IsKept(job.View(1), now) then [job] else []
      ensures IsWakeup(activeJobs, now, wakeup)
    {
      jobsToRun, activeJobs, wakeup := jobsToRun0, activeJobs0, wakeup0;
      if !job.cancelled && job.nextRun.Some? {
        if job.nextRun.value <= now {
          jobsToRun := jobsToRun + [job];
        } else {
          wakeup := EarlierWakeup(activeJobs, job, now, wakeup);
          activeJobs := activeJobs + [job];
        }
      }
    }

    method EarlierWakeup(listed: seq<ScheduledJob>, job: ScheduledJob, now: int, wakeup0: int) returns (wakeup: int)
      requires IsWakeup(listed, now, wakeup0) && job.nextRun.Some?
      ensures IsWakeup(listed + [job], now, wakeup)
    {
      wakeup := wakeup0;
      assert (listed + [job])[|listed|] == job;
      if job.nextRun.value < wakeup {
        wakeup := job.nextRun.value;
      } else if wakeup != now + SECOND {
        ghost var j :| j in listed && j.nextRun == Some(wakeup);
        assert j in listed + [job];
      }
    }

    /** The second loop: a failing spawn counts as a run all the same. */
    method RunDue(jobsToRun: seq<ScheduledJob>, now: int, wakeup0: int) returns (wakeup: int)
      requires (forall j :: j in jobsToRun ==> j !in jobs) && IsWakeup(jobs, now, wakeup0)
      modifies this, set j | j in jobsToRun
      ensures jobs == old(jobs) + old(Rearmed(jobsToRun))
      ensures forall j :: j in jobsToRun ==> j.View(0) == Ran(old(j.View(0)), Copies(jobsToRun, j), now)
      ensures IsWakeup(jobs, now, wakeup)
    {
      wakeup := wakeup0;
      forall i | 0 <= i < |jobsToRun| ensures NextRearmed(jobsToRun, i) { RearmedNext(jobsToRun, i); }
      for i := 0 to |jobsToRun|
        invariant jobs == old(jobs) + old(Rearmed(jobsToRun[..i]))
        invariant forall j :: j in jobsToRun ==> j.View(0) == Ran(old(j.View(0)), Copies(jobsToRun[..i], j), now)
        invariant IsWakeup(jobs, now, wakeup)
      {
        var job := jobsToRun[i];
        assert old(NextRearmed(jobsToRun, i));
        assert job.View(0) == Ran(old(job.View(0)), Copies(jobsToRun[..i], job), now);
        RanAgain(old(job.View(0)), Copies(jobsToRun[..i], job), now);
        wakeup := RunJob(job, now, wakeup);
        forall j | j in jobsToRun
          ensures j.View(0) == Ran(old(j.View(0)), Copies(jobsToRun[..i + 1], j), now)
        {
          OneMoreCopy(jobsToRun, i, j);
        }
      }
      assert jobsToRun[..|jobsToRun|] == jobsToRun;
    }

    method RunJob(job: ScheduledJob, now: int, wakeup0: int) returns (wakeup: int)
      requires IsWakeup(jobs, now, wakeup0) && (job in jobs ==> job.nextRun == Some(NextRun(job.trigger, now)))
      modifies this, job
      ensures jobs == old(jobs) + if RunsAgain(job.maxRuns, old(job.runs) + 1) then [job] else []
      ensures job.View(0) == Ran(old(job.View(0)), 1, now)
      ensures IsWakeup(jobs, now, wakeup)
    {
      wakeup := wakeup0;
      job.runs := job.runs + 1;
      if RunsAgain(job.maxRuns, job.runs) {
        job.nextRun := Some(NextRun(job.trigger, now));
        wakeup := EarlierWakeup(jobs, job, now, wakeup);
        jobs := jobs + [job];
      }
    }
  }

  lemma OneMoreCopy(jobs: seq<ScheduledJob>, i: nat, j: ScheduledJob)
    requires i < |jobs|
    ensures Copies(jobs[..i + 1], j) == Copies(jobs[..i], j) + if j == jobs[i] then 1 else 0
  {
    assert jobs[..i + 1] == jobs[..i] + [jobs[i]];
    CopiesNext(jobs[..i], jobs[i], j);
  }

  /** What the next spawn adds to the list; a spawned job that an earlier copy of itself has listed again
      has its next run planned. */
  ghost predicate NextRearmed(jobs: seq<ScheduledJob>, i: nat)
    requires i < |jobs|
    reads jobs
  {
    var n := Copies(jobs[..i], jobs[i]);
    && Rearmed(jobs[..i + 1])
       == Rearmed(jobs[..i]) + (if RunsAgain(jobs[i].maxRuns, jobs[i].runs + n + 1) then [jobs[i]] else [])
    && (jobs[i] in Rearmed(jobs[..i]) ==> Rearms(jobs[i].maxRuns, jobs[i].runs, n) > 0)
  }

  lemma RearmedNext(jobs: seq<ScheduledJob>, i: nat)
    requires i < |jobs|
    ensures NextRearmed(jobs, i)
  {
    assert jobs[..i + 1][..i] == jobs[..i];
    CopiesFound(Rearmed(jobs[..i]), jobs[i]);
    RearmedCopies(jobs[..i], jobs[i]);
  }

  lemma AppendedOnce<T>(jobs: seq<T>, job: T)
    ensures Distinct(jobs + [job]) <==> Distinct(jobs) && job !in jobs
  {
    var longer := jobs + [job];
    assert forall i :: 0 <= i < |jobs| ==> longer[i] == jobs[i];
    assert longer[|jobs|] == job;
    if job in jobs {
      var i :| 0 <= i < |jobs| && jobs[i] == job;
      assert longer[i] == longer[|jobs|];
    }
  }
}
