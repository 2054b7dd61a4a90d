/** The in-process scheduler (app/services/scheduler.py). Time is in whole microseconds; how far
    a sleep overshoots, how long a tick's work takes, which jobs exist and what their HTTP calls
    do are inputs. Sleeping is never short and the clock never runs backwards. */
module Scheduler {
  import opened Text
  import opened Common
  import opened Cron

  const Second := 1_000_000
  const Minute := 60_000_000

  // ------------------------------------------------------------ one tick's jobs

  datatype Job = Job(
    id: nat, enabled: bool, cron: string, lastRunAt: Option<nat>, lastStatus: string, lastDetail: string)

  datatype JobRun = JobRun(job: nat, status: string, detail: string)

  /** `Raised` is an exception that `_execute` does not catch: anything but httpx.HTTPError. */
  datatype Outcome = Recorded(status: string, detail: string) | Raised

  /** Whether an expression fires in a minute. */
  type Matcher = (string, nat) -> bool

  /** The matcher in use; `calendar` turns a minute into its date fields. */
  function CronMatcher(calendar: nat -> Moment): Matcher {
    (expr: string, minute: nat) => CronMatches(expr, calendar(minute))
  }

  /** Enabled jobs whose expression matches. */
  function Due(jobs: seq<Job>, matches: Matcher, minute: nat): seq<Job> {
    if jobs == [] then []
    else
      (if jobs[0].enabled && matches(jobs[0].cron, minute) then [jobs[0]] else [])
      + Due(jobs[1..], matches, minute)
  }

  /** The jobs whose HTTP call is made: all up to and including the first that raises. */
  function Called(due: seq<Job>, outcome: nat -> Outcome): seq<nat> {
    if due == [] then []
    else [due[0].id] + (if outcome(due[0].id).Raised? then [] else Called(due[1..], outcome))
  }

  predicate SomeRaise(due: seq<Job>, outcome: nat -> Outcome) {
    exists i :: 0 <= i < |due| && outcome(due[i].id).Raised?
  }

  function RunOf(job: Job, outcome: nat -> Outcome): JobRun
    requires outcome(job.id).Recorded?
  {
    JobRun(job.id, outcome(job.id).status, outcome(job.id).detail)
  }

  function RunsOf(due: seq<Job>, outcome: nat -> Outcome): (runs: seq<JobRun>)
    requires !SomeRaise(due, outcome)
    ensures |runs| == |due|
  {
    seq(|due|, i requires 0 <= i < |due| => RunOf(due[i], outcome))
  }

  function Updated(jobs: seq<Job>, due: seq<Job>, outcome: nat -> Outcome, minute: nat): (after: seq<Job>)
    requires !SomeRaise(due, outcome)
    ensures |after| == |jobs|
  {
    seq(|jobs|, i requires 0 <= i < |jobs| =>
      if jobs[i] in due then
        var o := outcome(jobs[i].id);
        assert exists k :: 0 <= k < |due| && due[k] == jobs[i];
        jobs[i].(lastRunAt := Some(minute), lastStatus := o.status, lastDetail := o.detail)
      else jobs[i])
  }

  lemma CalledFrom(due: seq<Job>, outcome: nat -> Outcome, i: nat)
    requires i < |due|
    ensures Called(due[i..], outcome) ==
            [due[i].id] + (if outcome(due[i].id).Raised? then [] else Called(due[i + 1..], outcome))
  {
    assert due[i..][1..] == due[i + 1..];
  }

  /** The loop over the due jobs, up to an exception. */
  method CallDue(due: seq<Job>, outcome: nat -> Outcome) returns (called: seq<nat>, raised: bool)
    ensures called == Called(due, outcome)
    ensures raised == SomeRaise(due, outcome)
  {
    hide Called;
    called, raised := [], false;
    assert due[0..] == due;
    for i := 0 to |due|
      invariant forall k :: 0 <= k < i ==> !outcome(due[k].id).Raised?
      invariant called + Called(due[i..], outcome) == Called(due, outcome)
    {
      CalledFrom(due, outcome, i);
      called := called + [due[i].id];
      if outcome(due[i].id).Raised? {
        return called, true;
      }
    }
    assert due[|due|..] == [];
    NoneCalled(outcome);
  }

  lemma NoneCalled(outcome: nat -> Outcome)
    ensures Called([], outcome) == []
  {
  }

  /** The database and the outside world as the scheduler changes them. */
  class JobStore {
    var jobs: seq<Job>
    var runs: seq<JobRun>
    var calls: seq<nat>   // HTTP calls made, by job, in order

    constructor (jobs: seq<Job>)
      ensures this.jobs == jobs && runs == [] && calls == []
    {
      this.jobs, runs, calls := jobs, [], [];
    }

    /** `run_due_jobs`. When a call raises, the session rolls back: the calls made stay made,
        but no run and no job change is kept. */
    method RunDueJobs(matches: Matcher, minute: nat, outcome: nat -> Outcome) returns (fired: Option<nat>)
      modifies this
      ensures var due := Due(old(jobs), matches, minute);
              && calls == old(calls) + Called(due, outcome)
              && (if SomeRaise(due, outcome) then fired == None && runs == old(runs) && jobs == old(jobs)
                  else
                    && fired == Some(|due|)
                    && runs == old(runs) + RunsOf(due, outcome)
                    && jobs == Updated(old(jobs), due, outcome, minute))
    {
      var due := Due(jobs, matches, minute);
      var called, raised := CallDue(due, outcome);
      calls := calls + called;
      if raised {
        return None;
      }
      runs := runs + RunsOf(due, outcome);
      jobs := Updated(jobs, due, outcome, minute);
      fired := Some(|due|);
    }
  }

  lemma {:induction false} DueExactly(jobs: seq<Job>, matches: Matcher, minute: nat, job: Job)
    ensures job in Due(jobs, matches, minute) <==>
            job in jobs && job.enabled && matches(job.cron, minute)
  {
    if jobs != [] {
      DueExactly(jobs[1..], matches, minute, job);
      assert jobs == [jobs[0]] + jobs[1..];
    }
  }

  ghost predicate DistinctIds(jobs: seq<Job>) {
    forall i, j :: 0 <= i < j < |jobs| ==> jobs[i].id != jobs[j].id
  }

  lemma {:induction false} DueKeepsDistinct(jobs: seq<Job>, matches: Matcher, minute: nat)
    requires DistinctIds(jobs)
    ensures DistinctIds(Due(jobs, matches, minute))
  {
    if jobs != [] {
      var rest := Due(jobs[1..], matches, minute);
      DueKeepsDistinct(jobs[1..], matches, minute);
      forall k | 0 <= k < |rest|
        ensures rest[k].id != jobs[0].id
      {
        DueExactly(jobs[1..], matches, minute, rest[k]);
      }
    }
  }

  lemma {:induction false} CalledPrefix(due: seq<Job>, outcome: nat -> Outcome)
    ensures |Called(due, outcome)| <= |due|
    ensures forall i :: 0 <= i < |Called(due, outcome)| ==> Called(due, outcome)[i] == due[i].id
    ensures !SomeRaise(due, outcome) ==> |Called(due, outcome)| == |due|
  {
    if due != [] {
      CalledPrefix(due[1..], outcome);
      if !SomeRaise(due, outcome) {
        forall i | 0 <= i < |due[1..]|
          ensures !outcome(due[1..][i].id).Raised?
        {
          assert due[1..][i] == due[i + 1];
        }
      }
    }
  }

  /** What a tick records when no call raises: a job that is due gets one run row, with its own
      status and detail, and carries them with that minute; any other job gets none and stays as
      it was. */
  lemma TickRecords(jobs: seq<Job>, matches: Matcher, minute: nat, outcome: nat -> Outcome, i: nat)
    requires DistinctIds(jobs) && i < |jobs| && !SomeRaise(Due(jobs, matches, minute), outcome)
    ensures var job, due := jobs[i], Due(jobs, matches, minute);
            var runs, after := RunsOf(due, outcome), Updated(jobs, due, outcome, minute)[i];
            if job.enabled && matches(job.cron, minute) then
              && outcome(job.id).Recorded?
              && after == job.(lastRunAt := Some(minute),
                               lastStatus := outcome(job.id).status, lastDetail := outcome(job.id).detail)
              && OneRun(runs, JobRun(job.id, outcome(job.id).status, outcome(job.id).detail))
            else
              after == job && forall k :: 0 <= k < |runs| ==> runs[k].job != job.id
  {
    var job, due := jobs[i], Due(jobs, matches, minute);
    DueExactly(jobs, matches, minute, job);
    DueKeepsDistinct(jobs, matches, minute);
    hide Due;
    var runs := RunsOf(due, outcome);
    if job in due {
      var k :| 0 <= k < |due| && due[k] == job;
      assert runs[k] == RunOf(job, outcome);
      assert forall l :: 0 <= l < |runs| && l != k ==> due[l].id != job.id;
    } else {
      forall k | 0 <= k < |runs|
        ensures runs[k].job != job.id
      {
        DueAreJobs(jobs, matches, minute, due[k]);
      }
    }
  }

  lemma DueAreJobs(jobs: seq<Job>, matches: Matcher, minute: nat, job: Job)
    requires DistinctIds(jobs) && job in Due(jobs, matches, minute)
    ensures forall other :: other in jobs && other.id == job.id ==> other == job
  {
    DueExactly(jobs, matches, minute, job);
  }

  /** This row, and no other one of the same job. */
  ghost predicate OneRun(runs: seq<JobRun>, run: JobRun) {
    exists k :: 0 <= k < |runs| && runs[k] == run &&
                forall l :: 0 <= l < |runs| && l != k ==> runs[l].job != run.job
  }

  // ------------------------------------------------------------ the loop

  /** One round of the loop, as the world shapes it. */
  datatype Round = Round(overshoot: nat, work: nat, jobs: seq<Job>, outcome: nat -> Outcome)

  function MinuteOf(t: nat): nat { t / Minute }

  function ToNextMinute(now: nat): nat { Minute - now % Minute }

  /** `max(1.0, 60 - now.second - now.microsecond / 1_000_000)` */
  function SleepTime(now: nat): nat {
    Max(Second, ToNextMinute(now))
  }

  /** When round k goes to sleep, and when it wakes up. */
  function Now(start: nat, world: nat -> Round, k: nat): nat
    decreases k, 0
  {
    if k == 0 then start else Wake(start, world, k - 1) + world(k - 1).work
  }

  function Wake(start: nat, world: nat -> Round, k: nat): nat
    decreases k, 1
  {
    var now := Now(start, world, k);
    now + SleepTime(now) + world(k).overshoot
  }

  /** The whole minute that round k runs its jobs for. */
  function Tick(start: nat, world: nat -> Round, k: nat): nat {
    MinuteOf(Wake(start, world, k))
  }

  datatype Call = Call(job: nat, minute: nat)

  function RoundCalls(matches: Matcher, minute: nat, r: Round): (calls: seq<Call>) {
    var ids := Called(Due(r.jobs, matches, minute), r.outcome);
    seq(|ids|, i requires 0 <= i < |ids| => Call(ids[i], minute))
  }

  function AllCalls(start: nat, matches: Matcher, world: nat -> Round, rounds: nat): seq<Call> {
    if rounds == 0 then []
    else
      AllCalls(start, matches, world, rounds - 1)
      + RoundCalls(matches, Tick(start, world, rounds - 1), world(rounds - 1))
  }

  /** The first `rounds` rounds of the endless loop. */
  method SchedulerLoop(start: nat, matches: Matcher, world: nat -> Round, rounds: nat)
    returns (ticks: seq<nat>, calls: seq<Call>)
    ensures |ticks| == rounds && forall k :: 0 <= k < rounds ==> ticks[k] == Tick(start, world, k)
    ensures calls == AllCalls(start, matches, world, rounds)
  {
    hide SleepTime, RoundCalls, MinuteOf;
    ticks, calls := [], [];
    var now := start;
    for k := 0 to rounds
      invariant now == Now(start, world, k)
      invariant |ticks| == k && forall j :: 0 <= j < k ==> ticks[j] == Tick(start, world, j)
      invariant calls == AllCalls(start, matches, world, k)
    {
      var wake := now + SleepTime(now) + world(k).overshoot;
      assert wake == Wake(start, world, k);
      var minute := MinuteOf(wake);
      assert minute == Tick(start, world, k);
      ticks := ticks + [minute];
      calls := calls + RoundCalls(matches, minute, world(k));
      now := wake + world(k).work;
    }
  }

  // ------------------------------------------------------------ ticks

  lemma MinuteBounds(t: nat)
    ensures MinuteOf(t) * Minute <= t < MinuteOf(t) * Minute + Minute
    ensures t + ToNextMinute(t) == MinuteOf(t) * Minute + Minute
  {
  }

  lemma MinuteIs(t: nat, m: nat)
    requires m * Minute <= t < m * Minute + Minute
    ensures MinuteOf(t) == m
  {
  }

  lemma MinuteMonotone(s: nat, t: nat)
    requires s <= t
    ensures MinuteOf(s) <= MinuteOf(t)
  {
  }

  lemma WakesInLaterMinute(start: nat, world: nat -> Round, k: nat)
    ensures MinuteOf(Now(start, world, k)) < Tick(start, world, k)
  {
    var now := Now(start, world, k);
    MinuteBounds(now);
    MinuteMonotone(now + ToNextMinute(now), Wake(start, world, k));
    MinuteIs(now + ToNextMinute(now), MinuteOf(now) + 1);
  }

  /** Every tick is a later minute than the one before, whatever the overshoot and the work. */
  lemma {:induction false} TicksIncrease(start: nat, world: nat -> Round, i: nat, j: nat)
    requires i < j
    ensures Tick(start, world, i) < Tick(start, world, j)
    decreases j
  {
    WakesInLaterMinute(start, world, j);
    MinuteMonotone(Wake(start, world, j - 1), Now(start, world, j));
    if i < j - 1 {
      TicksIncrease(start, world, i, j - 1);
    }
  }

  /** How far into the next minute the one-second minimum pushes a sleep. */
  function Push(now: nat): nat {
    Max(0, Second - ToNextMinute(now))
  }

  /** No minute is skipped between two ticks exactly when the work ended within its minute and
      the sleep did not overshoot the whole of the next. */
  lemma NextMinuteExactly(start: nat, world: nat -> Round, k: nat)
    ensures Tick(start, world, k + 1) == Tick(start, world, k) + 1 <==>
            && MinuteOf(Now(start, world, k + 1)) == Tick(start, world, k)
            && Push(Now(start, world, k + 1)) + world(k + 1).overshoot < Minute
  {
    var now, wake := Now(start, world, k + 1), Wake(start, world, k + 1);
    MinuteMonotone(Wake(start, world, k), now);
    WakesInLaterMinute(start, world, k + 1);
    MinuteBounds(now);
    MinuteBounds(wake);
    assert wake == (MinuteOf(now) + 1) * Minute + Push(now) + world(k + 1).overshoot;
    if Push(now) + world(k + 1).overshoot < Minute {
      MinuteIs(wake, MinuteOf(now) + 1);
    }
  }

  /** Every tick's work ends within its minute, and no sleep overshoots by 59 seconds. */
  ghost predicate Punctual(start: nat, world: nat -> Round, rounds: nat) {
    && (forall k :: 0 <= k < rounds ==> world(k).overshoot < 59 * Second)
    && (forall k :: 0 <= k < rounds - 1 ==> MinuteOf(Now(start, world, k + 1)) == Tick(start, world, k))
  }

  /** Then the ticks are consecutive minutes. */
  lemma {:induction false} NoMinuteSkipped(start: nat, world: nat -> Round, rounds: nat, k: nat)
    requires Punctual(start, world, rounds) && k < rounds
    ensures Tick(start, world, k) == Tick(start, world, 0) + k
  {
    if k > 0 {
      NoMinuteSkipped(start, world, rounds, k - 1);
      NextMinuteExactly(start, world, k - 1);
    }
  }

  // ------------------------------------------------------------ calls

  ghost predicate DistinctWorld(world: nat -> Round, rounds: nat) {
    forall k :: 0 <= k < rounds ==> DistinctIds(world(k).jobs)
  }

  ghost predicate Once(calls: seq<Call>) {
    forall i, j :: 0 <= i < j < |calls| ==> calls[i] != calls[j]
  }

  lemma {:induction false} CallsAreOfEarlierTicks(start: nat, matches: Matcher, world: nat -> Round, rounds: nat)
    ensures forall c :: c in AllCalls(start, matches, world, rounds) ==>
              exists k :: 0 <= k < rounds && c.minute == Tick(start, world, k)
  {
    if rounds > 0 {
      CallsAreOfEarlierTicks(start, matches, world, rounds - 1);
    }
  }

  lemma RoundCallsOnce(matches: Matcher, minute: nat, r: Round)
    requires DistinctIds(r.jobs)
    ensures Once(RoundCalls(matches, minute, r))
    ensures forall c :: c in RoundCalls(matches, minute, r) ==> c.minute == minute
  {
    var due := Due(r.jobs, matches, minute);
    DueKeepsDistinct(r.jobs, matches, minute);
    CalledPrefix(due, r.outcome);
  }

  /** In any run, however late or slow, no job is called twice for the same minute. */
  lemma {:induction false} AtMostOncePerMinute(start: nat, matches: Matcher, world: nat -> Round, rounds: nat)
    requires DistinctWorld(world, rounds)
    ensures Once(AllCalls(start, matches, world, rounds))
  {
    if rounds > 0 {
      var before, minute := AllCalls(start, matches, world, rounds - 1), Tick(start, world, rounds - 1);
      var now := RoundCalls(matches, minute, world(rounds - 1));
      AtMostOncePerMinute(start, matches, world, rounds - 1);
      RoundCallsOnce(matches, minute, world(rounds - 1));
      CallsAreOfEarlierTicks(start, matches, world, rounds - 1);
      forall c | c in before
        ensures c.minute != minute
      {
        var k :| 0 <= k < rounds - 1 && c.minute == Tick(start, world, k);
        TicksIncrease(start, world, k, rounds - 1);
      }
      JoinOnce(before, now, minute);
    }
  }

  lemma JoinOnce(before: seq<Call>, now: seq<Call>, minute: nat)
    requires Once(before) && Once(now)
    requires forall c :: c in before ==> c.minute != minute
    requires forall c :: c in now ==> c.minute == minute
    ensures Once(before + now)
  {
  }

  /** No due job of the round raises, except perhaps the last one. */
  ghost predicate NoneRaisesEarly(due: seq<Job>, outcome: nat -> Outcome) {
    forall i :: 0 <= i < |due| - 1 ==> !outcome(due[i].id).Raised?
  }

  /** All due jobs of a tick are called exactly when none but the last raises. */
  lemma {:induction false} AllDueCalledExactly(due: seq<Job>, outcome: nat -> Outcome)
    ensures |Called(due, outcome)| == |due| <==> NoneRaisesEarly(due, outcome)
  {
    CalledPrefix(due, outcome);
    if due != [] {
      var rest := due[1..];
      CalledPrefix(rest, outcome);
      AllDueCalledExactly(rest, outcome);
      if NoneRaisesEarly(due, outcome) {
        assert forall i :: 0 <= i < |rest| - 1 ==> rest[i] == due[i + 1];
      } else if NoneRaisesEarly(rest, outcome) {
        assert forall i :: 0 < i < |due| ==> due[i] == rest[i - 1];
        assert outcome(due[0].id).Raised? && |due| > 1;
      }
    }
  }

  lemma {:induction false} RoundCallsStay(start: nat, matches: Matcher, world: nat -> Round, rounds: nat, k: nat)
    requires k < rounds
    ensures forall c :: c in RoundCalls(matches, Tick(start, world, k), world(k)) ==>
              c in AllCalls(start, matches, world, rounds)
  {
    if k < rounds - 1 {
      RoundCallsStay(start, matches, world, rounds - 1, k);
    }
  }

  /** A punctual run calls every enabled, matching job for every minute it covers: none skipped,
      and by AtMostOncePerMinute none repeated. */
  lemma EveryDueJobFires(start: nat, matches: Matcher, world: nat -> Round, rounds: nat, k: nat, job: Job)
    requires Punctual(start, world, rounds) && DistinctWorld(world, rounds) && k < rounds
    requires NoneRaisesEarly(Due(world(k).jobs, matches, Tick(start, world, k)), world(k).outcome)
    requires job in world(k).jobs && job.enabled && matches(job.cron, Tick(start, world, 0) + k)
    ensures Call(job.id, Tick(start, world, 0) + k) in AllCalls(start, matches, world, rounds)
    ensures Once(AllCalls(start, matches, world, rounds))
  {
    hide Tick, Due, Called, AllCalls, Punctual, NoneRaisesEarly, DistinctIds, Once;
    var minute := Tick(start, world, k);
    NoMinuteSkipped(start, world, rounds, k);
    var due := Due(world(k).jobs, matches, minute);
    DueExactly(world(k).jobs, matches, minute, job);
    AllDueCalledExactly(due, world(k).outcome);
    CalledPrefix(due, world(k).outcome);
    var i :| 0 <= i < |due| && due[i] == job;
    assert RoundCalls(matches, minute, world(k))[i] == Call(job.id, minute);
    RoundCallsStay(start, matches, world, rounds, k);
    AtMostOncePerMinute(start, matches, world, rounds);
  }

  /** With the cron matcher: a job with an expression of the documented grammar is called in
      every covered minute at which the expression fires. */
  lemma CronJobFires(start: nat, calendar: nat -> Moment, world: nat -> Round, rounds: nat, k: nat, job: Job, e: Expr)
    requires Punctual(start, world, rounds) && DistinctWorld(world, rounds) && k < rounds
    requires NoneRaisesEarly(Due(world(k).jobs, CronMatcher(calendar), Tick(start, world, k)), world(k).outcome)
    requires job in world(k).jobs && job.enabled && job.cron == PrintExpr(e)
    requires WellFormedExpr(e)
    requires var when := calendar(Tick(start, world, 0) + k);
             Fires(e, when) && (when.dow == 0 ==> DayField(e.dow) && FaithfulOnSunday(e.dow))
    ensures Call(job.id, Tick(start, world, 0) + k) in AllCalls(start, CronMatcher(calendar), world, rounds)
  {
    ExprMeaning(e, calendar(Tick(start, world, 0) + k));
    EveryDueJobFires(start, CronMatcher(calendar), world, rounds, k, job);
  }
}
