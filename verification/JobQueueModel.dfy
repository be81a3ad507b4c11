/**
 The persistent job queue with one worker.

 `process_next` is two steps, the claim that selects a row and marks it running, and the finish
 that records what the handler did; other threads may enqueue, cancel and purge between them.
 A run is a sequence of events, and nothing is asked of their clock readings here: a thread may read
 the clock before and commit after another.
 */
module JobQueueModel {
  import opened Prelude

  datatype Status = Pending | Running | Completed | Failed | Cancelled | Purged

  /** A row of the jobs table. `Purged` stands for a row that has been deleted. */
  datatype Job = Job(jobType: string, payload: string, status: Status, priority: int, maxRetries: int,
                     retryCount: nat, error: Option<string>, scheduledAt: int, startedAt: Option<int>,
                     completedAt: Option<int>, createdAt: int)

  /** What the table forgets: handler runs, the first start, whether the last run gave up. */
  datatype Past = Past(runs: nat, firstStart: Option<int>, gaveUp: bool)

  datatype Stats = Stats(enqueued: nat, completed: nat, retried: nat, failed: nat)

  /** Every job ever enqueued, in order, with its past; a job's id is its index. */
  datatype Queue = Queue(rows: seq<Job>, past: seq<Past>, stats: Stats, clock: int)  // clock: the furthest reading

  datatype Outcome = NoHandler | Returned | Raised(message: string)

  datatype Event =
    | Enqueue(jobType: string, payload: string, priority: int, maxRetries: int, delaySeconds: int, now: int, later: int)
    | Claim(id: nat, now: int)
    | Finish(id: nat, outcome: Outcome, now: int)
    | Cancel(id: nat)
    | Purge(cutoff: int)

  /** A queue to which nothing has happened, at any clock reading. */
  ghost predicate Empty(q: Queue) {
    q.rows == [] && q.past == [] && q.stats == Stats(0, 0, 0, 0)
  }

  // ----- Selection -----

  predicate Eligible(job: Job, now: int) {
    job.status == Pending && job.scheduledAt <= now
  }

  /** ORDER BY priority DESC, created_at ASC */
  predicate Before(a: Job, b: Job) {
    a.priority > b.priority || (a.priority == b.priority && a.createdAt < b.createdAt)
  }

  /** `id` may be the row that the SELECT returns; rows that tie are equally possible. */
  ghost predicate IsNext(rows: seq<Job>, now: int, id: nat) {
    && id < |rows| && Eligible(rows[id], now)
    && forall j :: 0 <= j < |rows| && Eligible(rows[j], now) ==> !Before(rows[j], rows[id])
  }

  /**
   What the SELECT answers, in the columns of the table: of the pending rows that are due, one with the
   highest priority, and among those with that priority one created first.
   */
  lemma NextInColumns(rows: seq<Job>, now: int, id: nat)
    ensures IsNext(rows, now, id) <==>
              && id < |rows| && rows[id].status == Pending && rows[id].scheduledAt <= now
              && forall j :: 0 <= j < |rows| && rows[j].status == Pending && rows[j].scheduledAt <= now ==>
                   rows[j].priority < rows[id].priority
                   || (rows[j].priority == rows[id].priority && rows[j].createdAt >= rows[id].createdAt)
  {
    if id < |rows| {
      forall j | 0 <= j < |rows|
        ensures Eligible(rows[j], now) && !Before(rows[j], rows[id]) <==>
                  rows[j].status == Pending && rows[j].scheduledAt <= now
                  && (rows[j].priority < rows[id].priority
                      || (rows[j].priority == rows[id].priority && rows[j].createdAt >= rows[id].createdAt))
      {
      }
    }
  }

  // ----- Row updates -----

  function NewJob(jobType: string, payload: string, priority: int, maxRetries: int, delaySeconds: int,
                  now: int, later: int): Job {
    Job(jobType, payload, Pending, priority, maxRetries, 0, None,
        if delaySeconds > 0 then later + delaySeconds * SECOND else now, None, None, now)
  }

  function Clip(error: string): string {
    if |error| <= 500 then error else error[..500]
  }

  function Started(job: Job, now: int): Job {
    job.(status := Running, startedAt := Some(now))
  }

  function Succeeded(job: Job, now: int): Job {
    job.(status := Completed, completedAt := Some(now))
  }

  function GivenUp(job: Job, error: string, now: int): Job {
    job.(status := Failed, error := Some(Clip(error)), completedAt := Some(now))
  }

  function Backoff(retryCount: nat): int {
    retryCount * retryCount * 5 * SECOND
  }

  function Retried(job: Job, error: string, now: int): Job {
    var n := job.retryCount + 1;
    job.(status := Pending, retryCount := n, error := Some(Clip(error)), scheduledAt := now + Backoff(n))
  }

  predicate RetriesLeft(job: Job) {
    job.retryCount + 1 < job.maxRetries
  }

  function NoHandlerMessage(jobType: string): string {
    "No handler for job_type '" + jobType + "'"
  }

  function Finished(job: Job, outcome: Outcome, now: int): Job {
    match outcome
    case NoHandler => GivenUp(job, NoHandlerMessage(job.jobType), now)
    case Returned => Succeeded(job, now)
    case Raised(message) => if RetriesLeft(job) then Retried(job, message, now) else GivenUp(job, message, now)
  }

  function StatsAfter(stats: Stats, job: Job, outcome: Outcome): Stats {
    match outcome
    case NoHandler => stats
    case Returned => stats.(completed := stats.completed + 1)
    case Raised(_) =>
      if RetriesLeft(job) then stats.(retried := stats.retried + 1) else stats.(failed := stats.failed + 1)
  }

  /** `status IN ('completed', 'cancelled') AND completed_at < cutoff`; NULL compares as unknown. */
  predicate Purgeable(job: Job, cutoff: int) {
    (job.status == Completed || job.status == Cancelled) && job.completedAt.Some? && job.completedAt.value < cutoff
  }

  function PurgedRows(rows: seq<Job>, cutoff: int): seq<Job> {
    if rows == [] then []
    else [if Purgeable(rows[0], cutoff) then rows[0].(status := Purged) else rows[0]] + PurgedRows(rows[1..], cutoff)
  }

  // ----- The state machine -----

  /** Which events can happen with one worker, whatever the clock says. */
  ghost predicate Enabled(q: Queue, e: Event) {
    match e
    case Enqueue(_, _, _, _, _, _, _) => true
    case Claim(id, now) => IsNext(q.rows, now, id) && forall j :: 0 <= j < |q.rows| ==> q.rows[j].status != Running
    case Finish(id, _, _) => id < |q.rows| && q.rows[id].status == Running
    case Cancel(id) => id < |q.rows| && q.rows[id].status == Pending
    case Purge(_) => true
  }

  /** The event's clock readings are no earlier than any before it. */
  predicate Forward(q: Queue, e: Event) {
    match e
    case Enqueue(_, _, _, _, _, now, later) => q.clock <= now <= later
    case Claim(_, now) => q.clock <= now
    case Finish(_, _, now) => q.clock <= now
    case _ => true
  }

  function PastAfter(past: Past, job: Job, outcome: Outcome): Past {
    if outcome == NoHandler then past
    else past.(runs := past.runs + 1, gaveUp := outcome.Raised? && !RetriesLeft(job))
  }

  function Apply(q: Queue, e: Event): Queue
    requires |q.past| == |q.rows|
  {
    match e
    case Enqueue(jobType, payload, priority, maxRetries, delay, now, later) =>
      Queue(q.rows + [NewJob(jobType, payload, priority, maxRetries, delay, now, later)],
            q.past + [Past(0, None, false)], q.stats.(enqueued := q.stats.enqueued + 1), Max(q.clock, later))
    case Claim(id, now) =>
      if id >= |q.rows| then q
      else
        var first := if q.past[id].firstStart.None? then Some(now) else q.past[id].firstStart;
        Queue(q.rows[id := Started(q.rows[id], now)], q.past[id := q.past[id].(firstStart := first)],
              q.stats, Max(q.clock, now))
    case Finish(id, outcome, now) =>
      if id >= |q.rows| then q
      else
        Queue(q.rows[id := Finished(q.rows[id], outcome, now)],
              q.past[id := PastAfter(q.past[id], q.rows[id], outcome)],
              StatsAfter(q.stats, q.rows[id], outcome), Max(q.clock, now))
    case Cancel(id) =>
      if id < |q.rows| && q.rows[id].status == Pending
      then q.(rows := q.rows[id := q.rows[id].(status := Cancelled)])
      else q
    case Purge(cutoff) =>
      PurgedRowsAt(q.rows, cutoff);
      q.(rows := PurgedRows(q.rows, cutoff))
  }

  lemma {:induction false} PurgedRowsAt(rows: seq<Job>, cutoff: int)
    ensures |PurgedRows(rows, cutoff)| == |rows|
    ensures forall i :: 0 <= i < |rows| ==>
              PurgedRows(rows, cutoff)[i] == if Purgeable(rows[i], cutoff) then rows[i].(status := Purged) else rows[i]
  {
    if rows != [] {
      PurgedRowsAt(rows[1..], cutoff);
    }
  }

  lemma ApplyKeepsShape(q: Queue, e: Event)
    requires |q.past| == |q.rows|
    ensures |Apply(q, e).past| == |Apply(q, e).rows| == |q.rows| + (if e.Enqueue? then 1 else 0)
  {
    if e.Purge? {
      PurgedRowsAt(q.rows, e.cutoff);
    }
  }

  /** The queue after the given events, started from `q`. */
  function RunFrom(q: Queue, events: seq<Event>): (r: Queue)
    requires |q.past| == |q.rows|
    ensures |r.past| == |r.rows| >= |q.rows|
  {
    if events == [] then q
    else
      var before := RunFrom(q, events[..|events| - 1]);
      ApplyKeepsShape(before, events[|events| - 1]);
      Apply(before, events[|events| - 1])
  }

  ghost predicate Possible(q: Queue, events: seq<Event>)
    requires |q.past| == |q.rows|
  {
    if events == [] then true
    else
      var before := events[..|events| - 1];
      Possible(q, before) && Enabled(RunFrom(q, before), events[|events| - 1])
  }
}
