/** What every run of the queue keeps. */
module JobQueueProofs {
  import opened Prelude
  import opened JobQueueModel

  // ----- One job -----

  function MaxRuns(job: Job): int {
    Max(1, job.maxRetries)
  }

  ghost function SumOfSquares(n: nat): nat {
    if n == 0 then 0 else SumOfSquares(n - 1) + n * n
  }

  lemma {:induction false} SumOfSquaresClosed(n: nat)
    ensures 6 * SumOfSquares(n) == n * (n + 1) * (2 * n + 1)
  {
    if n > 0 {
      SumOfSquaresClosed(n - 1);
      var m := n - 1;
      assert n * (n + 1) * (2 * n + 1) == m * n * (2 * m + 1) + 6 * (n * n);
    }
  }

  /** Total backoff, in microseconds, once a job has been retried `n` times. */
  ghost function BackoffSoFar(n: nat): int {
    5 * SECOND * SumOfSquares(n)
  }

  ghost predicate RunsAddUp(job: Job, past: Past) {
    && job.retryCount < MaxRuns(job)
    && past.runs == job.retryCount + (if job.status in {Completed, Purged} || past.gaveUp then 1 else 0)
    && (past.gaveUp ==> job.status == Failed && job.retryCount + 1 == MaxRuns(job))
    && (job.status == Completed ==> job.completedAt.Some?)
    && (job.status in {Pending, Running, Cancelled} ==> job.completedAt.None?)
  }

  /** The job was first started at least the backoffs so far ago. */
  ghost predicate DelayKept(job: Job, past: Past) {
    && (job.retryCount > 0 || job.status in {Running, Completed, Failed, Purged} ==> past.firstStart.Some?)
    && (past.firstStart.Some? ==>
          var first := past.firstStart.value;
          && (job.status == Pending ==> job.scheduledAt >= first + BackoffSoFar(job.retryCount))
          && (job.status == Running ==>
                job.startedAt.Some? && job.startedAt.value >= first + BackoffSoFar(job.retryCount))
          && (past.gaveUp ==> job.completedAt.Some? && job.completedAt.value >= first + BackoffSoFar(job.retryCount)))
    && (job.status == Pending && past.firstStart.None? ==> job.retryCount == 0)
    && (job.status == Pending && past.firstStart.Some? ==> job.retryCount > 0)
  }

  ghost predicate JobOk(job: Job, past: Past) {
    RunsAddUp(job, past) && DelayKept(job, past)
  }

  lemma NewJobOk(jobType: string, payload: string, priority: int, maxRetries: int, delay: int, now: int, later: int)
    ensures JobOk(NewJob(jobType, payload, priority, maxRetries, delay, now, later), Past(0, None, false))
  {
  }

  lemma ClaimOk(job: Job, past: Past, now: int)
    requires JobOk(job, past) && Eligible(job, now)
    ensures var first := if past.firstStart.None? then Some(now) else past.firstStart;
            JobOk(Started(job, now), past.(firstStart := first))
  {
  }

  lemma FinishOk(job: Job, past: Past, outcome: Outcome, now: int)
    requires JobOk(job, past) && job.status == Running && EndsAfterStart(job, now)
    ensures JobOk(Finished(job, outcome, now), PastAfter(past, job, outcome))
  {
    if outcome.Raised? && RetriesLeft(job) {
      var n := job.retryCount + 1;
      assert SumOfSquares(n) == SumOfSquares(job.retryCount) + n * n;
      assert BackoffSoFar(n) == BackoffSoFar(job.retryCount) + Backoff(n);
    }
  }

  // ----- One job's clock readings -----

  predicate EndsAfterStart(job: Job, now: int) {
    job.startedAt.Some? ==> job.startedAt.value <= now
  }

  /**
   No attempt of the job is recorded as ended before it started. That is all a clock has to do here:
   readings of other threads may be later and still be committed earlier.
   */
  predicate AttemptsTakeTime(q: Queue, events: seq<Event>, id: nat)
    requires |q.past| == |q.rows|
  {
    if events == [] then true
    else
      var before, e := events[..|events| - 1], events[|events| - 1];
      var rows := RunFrom(q, before).rows;
      && AttemptsTakeTime(q, before, id)
      && (e.Finish? && e.id == id && id < |rows| ==> EndsAfterStart(rows[id], e.now))
  }

  // ----- Totals -----

  /** The quantities that are summed over all jobs ever enqueued. */
  datatype Weight = Runs | Retries | Done | Abandoned | Budget

  ghost function Weigh(w: Weight, job: Job, past: Past): int {
    match w
    case Runs => past.runs
    case Retries => job.retryCount
    case Done => if job.status in {Completed, Purged} then 1 else 0
    case Abandoned => if past.gaveUp then 1 else 0
    case Budget => if job.status in {Pending, Running} then MaxRuns(job) - job.retryCount else 0
  }

  ghost function Total(w: Weight, rows: seq<Job>, past: seq<Past>): int
    requires |past| == |rows|
  {
    if rows == [] then 0
    else Total(w, rows[..|rows| - 1], past[..|rows| - 1]) + Weigh(w, rows[|rows| - 1], past[|rows| - 1])
  }

  lemma {:induction false} TotalUpdate(w: Weight, rows: seq<Job>, past: seq<Past>, i: nat, job: Job, p: Past)
    requires |past| == |rows| && i < |rows|
    ensures Total(w, rows[i := job], past[i := p]) == Total(w, rows, past) - Weigh(w, rows[i], past[i]) + Weigh(w, job, p)
  {
    var n := |rows| - 1;
    if i == n {
      assert rows[i := job][..n] == rows[..n] && past[i := p][..n] == past[..n];
    } else {
      assert rows[i := job][..n] == rows[..n][i := job] && past[i := p][..n] == past[..n][i := p];
      TotalUpdate(w, rows[..n], past[..n], i, job, p);
    }
  }

  lemma {:induction false} TotalSame(w: Weight, rows: seq<Job>, rows': seq<Job>, past: seq<Past>)
    requires |past| == |rows| == |rows'|
    requires forall i :: 0 <= i < |rows| ==> Weigh(w, rows[i], past[i]) == Weigh(w, rows'[i], past[i])
    ensures Total(w, rows, past) == Total(w, rows', past)
  {
    if rows != [] {
      TotalSame(w, rows[..|rows| - 1], rows'[..|rows| - 1], past[..|rows| - 1]);
    }
  }

  lemma {:induction false} BudgetNonNegative(rows: seq<Job>, past: seq<Past>)
    requires |past| == |rows|
    requires forall i :: 0 <= i < |rows| ==> RunsAddUp(rows[i], past[i])
    ensures Total(Budget, rows, past) >= 0
  {
    if rows != [] {
      BudgetNonNegative(rows[..|rows| - 1], past[..|rows| - 1]);
    }
  }

  // ----- The invariant -----

  ghost predicate JobsOk(q: Queue) {
    && |q.past| == |q.rows|
    && forall i :: 0 <= i < |q.rows| ==> RunsAddUp(q.rows[i], q.past[i])
  }

  ghost predicate OneRunning(q: Queue) {
    forall i, j :: 0 <= i < j < |q.rows| ==> !(q.rows[i].status == Running && q.rows[j].status == Running)
  }

  ghost predicate Balanced(q: Queue)
    requires |q.past| == |q.rows|
  {
    && q.stats.enqueued == |q.rows|
    && q.stats.completed == Total(Done, q.rows, q.past)
    && q.stats.retried == Total(Retries, q.rows, q.past)
    && q.stats.failed == Total(Abandoned, q.rows, q.past)
    && Total(Runs, q.rows, q.past) == q.stats.completed + q.stats.retried + q.stats.failed
  }

  ghost predicate Inv(q: Queue) {
    JobsOk(q) && OneRunning(q) && Balanced(q)
  }

  lemma JobsOkStep(q: Queue, e: Event)
    requires JobsOk(q) && Enabled(q, e)
    ensures JobsOk(Apply(q, e))
  {
    ApplyKeepsShape(q, e);
    if e.Purge? {
      PurgedRowsAt(q.rows, e.cutoff);
    }
  }

  /** One row through one event. */
  lemma JobOkStep(q: Queue, e: Event, id: nat)
    requires |q.past| == |q.rows| && Enabled(q, e)
    requires id < |q.rows| ==> JobOk(q.rows[id], q.past[id])
    requires e.Finish? && e.id == id ==> EndsAfterStart(q.rows[id], e.now)
    ensures |Apply(q, e).past| == |Apply(q, e).rows|
    ensures id < |Apply(q, e).rows| ==> JobOk(Apply(q, e).rows[id], Apply(q, e).past[id])
  {
    ApplyKeepsShape(q, e);
    match e
    case Enqueue(jobType, payload, priority, maxRetries, delay, now, later) =>
      NewJobOk(jobType, payload, priority, maxRetries, delay, now, later);
    case Claim(i, now) =>
      if i == id {
        ClaimOk(q.rows[id], q.past[id], now);
      }
    case Finish(i, outcome, now) =>
      if i == id {
        FinishOk(q.rows[id], q.past[id], outcome, now);
      }
    case Cancel(i) =>
    case Purge(cutoff) => PurgedRowsAt(q.rows, cutoff);
  }

  lemma OneRunningStep(q: Queue, e: Event)
    requires JobsOk(q) && OneRunning(q) && Enabled(q, e)
    ensures OneRunning(Apply(q, e))
  {
    if e.Purge? {
      PurgedRowsAt(q.rows, e.cutoff);
    }
  }

  /** The row an event changes or adds; a purge moves no total. */
  ghost function RowOf(q: Queue, e: Event): nat
    requires !e.Purge?
  {
    if e.Enqueue? then |q.rows| else e.id
  }

  /** What that row contributes after the event, less what it contributed before. */
  ghost function Change(w: Weight, q: Queue, e: Event): int
    requires |q.past| == |q.rows| && Enabled(q, e) && !e.Purge?
  {
    var (q', i) := (Apply(q, e), RowOf(q, e));
    Weigh(w, q'.rows[i], q'.past[i]) - (if e.Enqueue? then 0 else Weigh(w, q.rows[i], q.past[i]))
  }

  lemma TotalStep(w: Weight, q: Queue, e: Event)
    requires |q.past| == |q.rows| && Enabled(q, e) && !e.Purge?
    ensures |Apply(q, e).past| == |Apply(q, e).rows|
    ensures Total(w, Apply(q, e).rows, Apply(q, e).past) == Total(w, q.rows, q.past) + Change(w, q, e)
  {
    var q' := Apply(q, e);
    ApplyKeepsShape(q, e);
    match e
    case Enqueue(_, _, _, _, _, _, _) =>
      assert q'.rows[..|q.rows|] == q.rows && q'.past[..|q.rows|] == q.past;
    case Claim(id, _) => TotalUpdate(w, q.rows, q.past, id, q'.rows[id], q'.past[id]);
    case Finish(id, _, _) => TotalUpdate(w, q.rows, q.past, id, q'.rows[id], q'.past[id]);
    case Cancel(id) =>
      TotalUpdate(w, q.rows, q.past, id, q'.rows[id], q.past[id]);
      assert q.past[id := q.past[id]] == q.past;
  }

  lemma TotalPurge(w: Weight, q: Queue, cutoff: int)
    requires JobsOk(q)
    ensures |PurgedRows(q.rows, cutoff)| == |q.rows|
    ensures Total(w, PurgedRows(q.rows, cutoff), q.past) == Total(w, q.rows, q.past)
  {
    PurgedRowsAt(q.rows, cutoff);
    TotalSame(w, q.rows, PurgedRows(q.rows, cutoff), q.past);
  }

  /** Each counter moves as the row does. */
  lemma ChangesMatchCounters(q: Queue, e: Event)
    requires JobsOk(q) && Enabled(q, e) && !e.Purge?
    ensures var (old', new') := (q.stats, Apply(q, e).stats);
            && Change(Done, q, e) == new'.completed - old'.completed
            && Change(Retries, q, e) == new'.retried - old'.retried
            && Change(Abandoned, q, e) == new'.failed - old'.failed
            && Change(Runs, q, e) == Change(Done, q, e) + Change(Retries, q, e) + Change(Abandoned, q, e)
  {
    var i := RowOf(q, e);
    assert !e.Enqueue? ==> RunsAddUp(q.rows[i], q.past[i]);
  }

  lemma BalancedStep(q: Queue, e: Event)
    requires JobsOk(q) && Balanced(q) && Enabled(q, e)
    ensures |Apply(q, e).past| == |Apply(q, e).rows| && Balanced(Apply(q, e))
  {
    if e.Purge? {
      TotalPurge(Runs, q, e.cutoff);
      TotalPurge(Retries, q, e.cutoff);
      TotalPurge(Done, q, e.cutoff);
      TotalPurge(Abandoned, q, e.cutoff);
    } else {
      ChangesMatchCounters(q, e);
      ApplyKeepsShape(q, e);
      TotalStep(Runs, q, e);
      TotalStep(Retries, q, e);
      TotalStep(Done, q, e);
      TotalStep(Abandoned, q, e);
    }
  }

  lemma {:induction false} RunKeepsInv(q: Queue, events: seq<Event>)
    requires Inv(q) && Possible(q, events)
    ensures Inv(RunFrom(q, events))
  {
    if events != [] {
      var before, e := events[..|events| - 1], events[|events| - 1];
      RunKeepsInv(q, before);
      JobsOkStep(RunFrom(q, before), e);
      OneRunningStep(RunFrom(q, before), e);
      BalancedStep(RunFrom(q, before), e);
    }
  }

  // ----- Main results -----

  lemma EmptyInv(q: Queue)
    requires Empty(q)
    ensures Inv(q)
  {
  }

  /**
   After any run from an empty queue: at most one job is running, handler runs are the completed,
   retried and failed counters together, and `retried` is the sum of all retry counts.
   */
  lemma LedgerHolds(q0: Queue, events: seq<Event>)
    requires Empty(q0) && Possible(q0, events)
    ensures var q := RunFrom(q0, events);
            && OneRunning(q)
            && q.stats.enqueued == |q.rows|
            && Total(Runs, q.rows, q.past) == q.stats.completed + q.stats.retried + q.stats.failed
            && q.stats.retried == Total(Retries, q.rows, q.past)
            && q.stats.completed == Total(Done, q.rows, q.past)
            && q.stats.failed == Total(Abandoned, q.rows, q.past)
  {
    EmptyInv(q0);
    RunKeepsInv(q0, events);
  }

  lemma {:induction false} RunKeepsDelay(q: Queue, events: seq<Event>, id: nat)
    requires Empty(q) && Possible(q, events) && AttemptsTakeTime(q, events, id)
    ensures var r := RunFrom(q, events); id < |r.rows| ==> JobOk(r.rows[id], r.past[id])
  {
    if events != [] {
      var before, e := events[..|events| - 1], events[|events| - 1];
      RunKeepsDelay(q, before, id);
      ApplyKeepsShape(RunFrom(q, before), e);
      JobOkStep(RunFrom(q, before), e, id);
    }
  }

  /** No handler runs more often than allowed, and a job given up on has used every run. */
  lemma RunsAreBounded(q0: Queue, events: seq<Event>, id: nat)
    requires Empty(q0) && Possible(q0, events) && id < |RunFrom(q0, events).rows|
    ensures var (job, past) := (RunFrom(q0, events).rows[id], RunFrom(q0, events).past[id]);
            var most := if job.maxRetries < 1 then 1 else job.maxRetries;
            past.runs <= most && (past.gaveUp ==> job.status == Failed && past.runs == most)
  {
    EmptyInv(q0);
    RunKeepsInv(q0, events);
    assert RunsAddUp(RunFrom(q0, events).rows[id], RunFrom(q0, events).past[id]);
  }

  /** If the job was given up on, it failed at least 5(m-1)m(2m-1)/6 seconds after its first start. */
  ghost predicate FailedLate(job: Job, past: Past) {
    var m := job.maxRetries;
    past.gaveUp && m >= 1 ==>
      && past.firstStart.Some? && job.completedAt.Some?
      && 6 * (job.completedAt.value - past.firstStart.value) >= 5 * (m - 1) * m * (2 * m - 1) * SECOND
  }

  lemma DelayOfAbandoned(job: Job, past: Past)
    requires JobOk(job, past)
    ensures FailedLate(job, past)
  {
    if past.gaveUp && job.maxRetries >= 1 {
      var n := job.retryCount;
      assert n == job.maxRetries - 1;
      SumOfSquaresClosed(n);
      var cubic := n * (n + 1) * (2 * n + 1);
      assert 6 * BackoffSoFar(n) == 5 * SECOND * cubic;
      assert 5 * (job.maxRetries - 1) * job.maxRetries * (2 * job.maxRetries - 1) == 5 * cubic;
    }
  }

  /**
   A job that exhausted m >= 1 attempts failed at least 5(m-1)m(2m-1)/6 seconds after its first start,
   provided none of its attempts is recorded as ended before it started.
   */
  lemma GivingUpTakesTime(q0: Queue, events: seq<Event>, id: nat)
    requires Empty(q0) && Possible(q0, events) && AttemptsTakeTime(q0, events, id) && id < |RunFrom(q0, events).rows|
    ensures FailedLate(RunFrom(q0, events).rows[id], RunFrom(q0, events).past[id])
  {
    RunKeepsDelay(q0, events, id);
    DelayOfAbandoned(RunFrom(q0, events).rows[id], RunFrom(q0, events).past[id]);
  }

  // ----- Termination -----

  function Finishes(events: seq<Event>): nat {
    if events == [] then 0
    else Finishes(events[..|events| - 1]) + (if events[|events| - 1].Finish? then 1 else 0)
  }

  /** The remaining budget never grows without new jobs, and every finished attempt lowers it. */
  lemma BudgetStep(q: Queue, e: Event)
    requires Inv(q) && Enabled(q, e) && !e.Enqueue?
    ensures |Apply(q, e).past| == |Apply(q, e).rows|
    ensures Total(Budget, Apply(q, e).rows, Apply(q, e).past) + (if e.Finish? then 1 else 0)
              <= Total(Budget, q.rows, q.past)
  {
    if e.Purge? {
      TotalPurge(Budget, q, e.cutoff);
    } else {
      TotalStep(Budget, q, e);
    }
  }

  /** With no new jobs, at most as many attempts can be finished as the budget allows. */
  lemma {:induction false} RetriesTerminate(q: Queue, events: seq<Event>)
    requires Inv(q) && Possible(q, events)
    requires forall e :: e in events ==> !e.Enqueue?
    ensures Finishes(events) + Total(Budget, RunFrom(q, events).rows, RunFrom(q, events).past)
              <= Total(Budget, q.rows, q.past)
    ensures Finishes(events) <= Total(Budget, q.rows, q.past)
  {
    RunKeepsInv(q, events);
    BudgetNonNegative(RunFrom(q, events).rows, RunFrom(q, events).past);
    if events != [] {
      var before, e := events[..|events| - 1], events[|events| - 1];
      RetriesTerminate(q, before);
      RunKeepsInv(q, before);
      BudgetStep(RunFrom(q, before), e);
    }
  }

  // ----- Final states -----

  ghost predicate Final(job: Job) {
    job.status in {Completed, Failed, Cancelled, Purged}
  }

  lemma FinalStep(q: Queue, e: Event, id: nat)
    requires |q.past| == |q.rows| && Enabled(q, e) && id < |q.rows| && Final(q.rows[id])
    ensures var q' := Apply(q, e);
            && |q'.past| == |q'.rows| > id && q'.past[id] == q.past[id] && Final(q'.rows[id])
            && (q'.rows[id] == q.rows[id] || (q.rows[id].completedAt.Some? && q.rows[id].status in {Completed, Cancelled}
                                              && q'.rows[id] == q.rows[id].(status := Purged)))
    ensures e.Claim? || e.Finish? || e.Cancel? ==> e.id != id
  {
    ApplyKeepsShape(q, e);
    if e.Purge? {
      PurgedRowsAt(q.rows, e.cutoff);
    }
  }

  /** A completed, failed or cancelled job never runs again; only completed rows are ever purged. */
  lemma {:induction false} FinalForever(q: Queue, events: seq<Event>, id: nat)
    requires Inv(q) && Possible(q, events) && id < |q.rows| && Final(q.rows[id])
    ensures var q' := RunFrom(q, events);
            && q'.past[id] == q.past[id]
            && (q'.rows[id] == q.rows[id] || (q.rows[id].status == Completed && q'.rows[id] == q.rows[id].(status := Purged)))
    ensures forall e :: e in events && (e.Claim? || e.Finish? || e.Cancel?) ==> e.id != id
  {
    assert RunsAddUp(q.rows[id], q.past[id]);
    if events != [] {
      var before, e := events[..|events| - 1], events[|events| - 1];
      FinalForever(q, before, id);
      FinalStep(RunFrom(q, before), e, id);
      assert events == before + [e];
    }
  }
}
