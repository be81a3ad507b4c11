/**
 The queue object: a table of rows, counters, and the methods that run the SQL statements.

 The ghost history remembers deleted rows and what the table forgets. `Mirrors` ties it to the
 table, and every method says what it does to it in terms of `JobQueueModel.Apply`, so the
 theorems about runs of events hold of the object.
 */
module JobQueueClass {
  import opened Prelude
  import opened JobQueueModel

  /** What the handler will do with the claimed job. */
  datatype Handling = Returns | Raises(message: string)

  /** The table holds the rows that have not been deleted. */
  ghost predicate Mirrors(table: map<nat, Job>, rows: seq<Job>) {
    && (forall id: nat :: id in table <==> id < |rows| && rows[id].status != Purged)
    && (forall id: nat :: id in table ==> table[id] == rows[id])
  }

  lemma MirrorsPurge(rows: seq<Job>, table: map<nat, Job>, table': map<nat, Job>, cutoff: int)
    requires Mirrors(table, rows)
    requires forall i: nat :: i in table' <==> i in table && !Purgeable(table[i], cutoff)
    requires forall i: nat :: i in table' ==> table'[i] == table[i]
    ensures |PurgedRows(rows, cutoff)| == |rows| && Mirrors(table', PurgedRows(rows, cutoff))
  {
    PurgedRowsAt(rows, cutoff);
  }

  lemma RemovedOne<K, V>(m: map<K, V>, k: K)
    requires k in m
    ensures |m - {k}| == |m| - 1
  {
    assert m.Keys == (m - {k}).Keys + {k};
    assert |m.Keys| == |m| && |(m - {k}).Keys| == |m - {k}|;
  }

  class JobQueue {
    var table: map<nat, Job>
    var issued: nat  // ids handed out so far; the source draws fresh UUIDs
    var handlers: set<string>
    var stats: Stats
    ghost var ever: seq<Job>
    ghost var past: seq<Past>
    ghost var clock: int  // the furthest reading

    ghost predicate Valid()
      reads this
    {
      |past| == |ever| == issued && Mirrors(table, ever)
    }

    ghost function Contents(): Queue
      reads this
    {
      Queue(ever, past, stats, clock)
    }

    /** The single worker is between jobs. */
    ghost predicate Idle()
      reads this
    {
      forall id :: 0 <= id < |ever| ==> ever[id].status != Running
    }

    constructor ()
      ensures Valid() && Empty(Contents()) && handlers == {}
    {
      table, issued, handlers, stats := map[], 0, {}, JobQueueModel.Stats(0, 0, 0, 0);
      ever, past, clock := [], [], 0;
    }

    method Enqueue(jobType: string, payload: string, priority: int, maxRetries: int, delaySeconds: int,
                   now: int, later: int) returns (id: nat)
      requires Valid()
      modifies this
      ensures Valid() && id == |old(ever)| && handlers == old(handlers)
      ensures Contents() == Apply(old(Contents()), JobQueueModel.Enqueue(jobType, payload, priority, maxRetries, delaySeconds, now, later))
      ensures id !in old(table) && stats == old(stats).(enqueued := old(stats).enqueued + 1)
      ensures table == old(table)[id := Job(jobType, payload, Pending, priority, maxRetries, 0, None,
                                            if delaySeconds > 0 then later + delaySeconds * 1_000_000 else now,
                                            None, None, now)]
    {
      var scheduledAt := now;
      if delaySeconds > 0 {
        scheduledAt := later + delaySeconds * SECOND;
      }
      id := issued;
      var job := Job(jobType, payload, Pending, priority, maxRetries, 0, None, scheduledAt, None, None, now);
      table, issued := table[id := job], issued + 1;
      ever, past, clock := ever + [job], past + [Past(0, None, false)], Max(clock, later);
      stats := stats.(enqueued := stats.enqueued + 1);
    }

    method RegisterHandler(jobType: string)
      modifies `handlers
      ensures handlers == old(handlers) + {jobType}
    {
      handlers := handlers + {jobType};
    }

    /** The SELECT: the best eligible row, or none. */
    method Select(now: int) returns (found: Option<nat>)
      requires Valid()
      ensures found.Some? ==> IsNext(ever, now, found.value)
      ensures found.Some? ==>
                && found.value in table && table[found.value].status == Pending && table[found.value].scheduledAt <= now
                && forall j: nat :: j in table && table[j].status == Pending && table[j].scheduledAt <= now ==>
                     table[j].priority < table[found.value].priority
                     || (table[j].priority == table[found.value].priority && table[j].createdAt >= table[found.value].createdAt)
      ensures found.None? ==> forall id :: 0 <= id < |ever| ==> !Eligible(ever[id], now)
      ensures found.None? ==> forall j: nat :: j in table ==> table[j].status != Pending || table[j].scheduledAt > now
    {
      found := None;
      for id := 0 to issued
        invariant found.Some? ==> found.value < id && Eligible(ever[found.value], now)
        invariant found.Some? ==> forall j :: 0 <= j < id && Eligible(ever[j], now) ==> !Before(ever[j], ever[found.value])
        invariant found.None? ==> forall j :: 0 <= j < id ==> !Eligible(ever[j], now)
      {
        if id in table && Eligible(table[id], now) {
          if found.None? || Before(table[id], table[found.value]) {
            found := Some(id);
          }
        }
      }
    }

    method Replace(id: nat, job: Job, ghost p: Past)
      requires Valid() && id in table && job.status != Purged
      modifies `table, `ever, `past
      ensures Valid()
      ensures ever == old(ever)[id := job] && past == old(past)[id := p]
    {
      table := table[id := job];
      ever, past := ever[id := job], past[id := p];
    }

    /** The select and the update that marks the row as running, one step. */
    method ClaimNext(now: int) returns (found: Option<nat>)
      requires Valid() && Idle()
      modifies this
      ensures Valid() && handlers == old(handlers)
      ensures found.None? ==> Contents() == old(Contents())
                              && forall id :: 0 <= id < |ever| ==> !Eligible(ever[id], now)
      ensures found.Some? ==> Enabled(old(Contents()), Claim(found.value, now))
                              && Contents() == Apply(old(Contents()), Claim(found.value, now))
      ensures found.Some? ==> found.value in old(table)
                              && table == old(table)[found.value := old(table)[found.value].(status := Running, startedAt := Some(now))]
    {
      found := Select(now);
      if found.Some? {
        var id := found.value;
        ghost var first := if past[id].firstStart.None? then Some(now) else past[id].firstStart;
        Replace(id, table[id].(status := Running, startedAt := Some(now)), past[id].(firstStart := first));
        clock := Max(clock, now);
      }
    }

    method CompleteJob(id: nat, now: int)
      requires Valid() && id in table && table[id].status == Running
      modifies this
      ensures Valid() && handlers == old(handlers)
      ensures Contents() == Apply(old(Contents()), Finish(id, Returned, now)).(stats := old(stats))
      ensures table == old(table)[id := old(table)[id].(status := Completed, completedAt := Some(now))]
    {
      Replace(id, table[id].(status := Completed, completedAt := Some(now)), PastAfter(past[id], ever[id], Returned));
      clock := Max(clock, now);
    }

    method FailJob(id: nat, error: string, ghost outcome: Outcome, now: int)
      requires Valid() && id in table && table[id].status == Running
      requires (outcome == NoHandler && error == NoHandlerMessage(table[id].jobType))
               || (outcome == Raised(error) && !RetriesLeft(table[id]))
      modifies this
      ensures Valid() && handlers == old(handlers)
      ensures Contents() == Apply(old(Contents()), Finish(id, outcome, now)).(stats := old(stats))
      ensures table == old(table)[id := old(table)[id].(status := Failed, completedAt := Some(now),
                                                        error := Some(if |error| <= 500 then error else error[..500]))]
    {
      Replace(id, table[id].(status := Failed, error := Some(Clip(error)), completedAt := Some(now)),
              PastAfter(past[id], ever[id], outcome));
      clock := Max(clock, now);
    }

    method RetryJob(id: nat, retryCount: nat, error: string, now: int)
      requires Valid() && id in table && table[id].status == Running
      requires retryCount == table[id].retryCount + 1 < table[id].maxRetries
      modifies this
      ensures Valid() && handlers == old(handlers)
      ensures Contents() == Apply(old(Contents()), Finish(id, Raised(error), now)).(stats := old(stats))
      ensures table == old(table)[id := old(table)[id].(status := Pending, retryCount := old(table)[id].retryCount + 1,
                                                        error := Some(if |error| <= 500 then error else error[..500]),
                                                        scheduledAt := now + retryCount * retryCount * 5 * 1_000_000)]
    {
      var backoff := retryCount * retryCount * 5;
      Replace(id, table[id].(status := Pending, retryCount := retryCount, error := Some(Clip(error)),
                             scheduledAt := now + backoff * SECOND),
              PastAfter(past[id], ever[id], Raised(error)));
      clock := Max(clock, now);
    }

    ghost function OutcomeOf(job: Job, handling: Handling): Outcome
      reads `handlers
    {
      if job.jobType !in handlers then NoHandler
      else if handling.Returns? then Returned
      else Raised(handling.message)
    }

    /** What follows the claim: find the handler, run it, record the result. */
    method Settle(id: nat, handling: Handling, later: int)
      requires Valid() && id in table && table[id].status == Running
      modifies this
      ensures Valid() && handlers == old(handlers)
      ensures Contents() == Apply(old(Contents()), Finish(id, old(OutcomeOf(table[id], handling)), later))
      ensures id in table && table == old(table)[id := table[id]]
      ensures old(table)[id].jobType !in handlers ==> table[id].status == Failed && stats == old(stats)
      ensures old(table)[id].jobType !in handlers ==>
                var message := "No handler for job_type '" + old(table)[id].jobType + "'";
                table[id].error == Some(if |message| <= 500 then message else message[..500])
                && table[id].completedAt == Some(later)
      ensures old(table)[id].jobType in handlers && handling.Returns? ==>
                table[id].status == Completed && stats == old(stats).(completed := old(stats).completed + 1)
      ensures old(table)[id].jobType in handlers && handling.Raises? ==>
                var n := old(table)[id].retryCount + 1;
                if n < old(table)[id].maxRetries then
                  table[id].status == Pending && table[id].retryCount == n
                  && table[id].scheduledAt == later + n * n * 5 * 1_000_000
                  && stats == old(stats).(retried := old(stats).retried + 1)
                else
                  table[id].status == Failed && stats == old(stats).(failed := old(stats).failed + 1)
    {
      var job := table[id];
      if job.jobType !in handlers {
        FailJob(id, NoHandlerMessage(job.jobType), NoHandler, later);
        return;
      }
      match handling
      case Returns =>
        CompleteJob(id, later);
        stats := stats.(completed := stats.completed + 1);
      case Raises(message) =>
        var retryCount := job.retryCount + 1;
        if retryCount < job.maxRetries {
          RetryJob(id, retryCount, message, later);
          stats := stats.(retried := stats.retried + 1);
        } else {
          FailJob(id, message, Raised(message), later);
          stats := stats.(failed := stats.failed + 1);
        }
    }

    /** `now` is read for the select, `later` when the result is recorded. */
    method ProcessNext(handling: Handling, now: int, later: int) returns (processed: bool, ghost id: nat)
      requires Valid() && Idle()
      modifies this
      ensures Valid() && Idle() && handlers == old(handlers)
      ensures !processed ==> Contents() == old(Contents())
                             && forall i :: 0 <= i < |ever| ==> !Eligible(ever[i], now)
      ensures processed ==>
                && Enabled(old(Contents()), Claim(id, now)) && id < |old(ever)|
                && Contents() == Apply(Apply(old(Contents()), Claim(id, now)),
                                       Finish(id, old(OutcomeOf(ever[id], handling)), later))
      ensures processed ==>
                && id in old(table) && old(table)[id].status == Pending && old(table)[id].scheduledAt <= now
                && (forall j: nat :: j in old(table) && old(table)[j].status == Pending && old(table)[j].scheduledAt <= now ==>
                      old(table)[j].priority < old(table)[id].priority
                      || (old(table)[j].priority == old(table)[id].priority && old(table)[j].createdAt >= old(table)[id].createdAt))
                && id in table && table == old(table)[id := table[id]]
    {
      var found := ClaimNext(now);
      id := 0;
      if found.None? {
        return false, id;
      }
      id := found.value;
      Settle(found.value, handling, later);
      return true, id;
    }

    method CancelJob(id: nat) returns (cancelled: bool)
      requires Valid()
      modifies this
      ensures Valid() && handlers == old(handlers)
      ensures cancelled <==> Enabled(old(Contents()), Cancel(id))
      ensures Contents() == Apply(old(Contents()), Cancel(id))
      ensures cancelled <==> id in old(table) && old(table)[id].status == Pending
      ensures table == if cancelled then old(table)[id := old(table)[id].(status := Cancelled)] else old(table)
    {
      if id in table && table[id].status == Pending {
        Replace(id, table[id].(status := Cancelled), past[id]);
        return true;
      }
      return false;
    }

    /** DELETE FROM jobs WHERE ... */
    method DeletePurgeable(cutoff: int) returns (deleted: nat)
      requires forall id: nat :: id in table ==> id < issued
      modifies `table
      ensures forall i: nat :: i in table <==> i in old(table) && !Purgeable(old(table)[i], cutoff)
      ensures forall i: nat :: i in table ==> table[i] == old(table)[i]
      ensures deleted == |old(table)| - |table|
    {
      deleted := 0;
      for id := 0 to issued
        invariant forall i: nat :: i in table <==> i in old(table) && !(i < id && Purgeable(old(table)[i], cutoff))
        invariant forall i: nat :: i in table ==> table[i] == old(table)[i]
        invariant |table| + deleted == |old(table)|
      {
        if id in table && Purgeable(table[id], cutoff) {
          RemovedOne(table, id);
          table := table - {id};
          deleted := deleted + 1;
        }
      }
    }

    /** `cutoff` is the clock reading less the retention period. */
    method PurgeCompleted(cutoff: int) returns (deleted: nat)
      requires Valid()
      modifies this
      ensures Valid() && handlers == old(handlers)
      ensures Contents() == Apply(old(Contents()), Purge(cutoff))
      ensures deleted == |old(table)| - |table| && stats == old(stats)
      ensures forall i: nat :: i in table <==>
                i in old(table) && !(old(table)[i].status in {Completed, Cancelled} && old(table)[i].completedAt.Some?
                                     && old(table)[i].completedAt.value < cutoff)
      ensures forall i: nat :: i in table ==> table[i] == old(table)[i]
    {
      deleted := DeletePurgeable(cutoff);
      MirrorsPurge(old(ever), old(table), table, cutoff);
      ever := PurgedRows(ever, cutoff);
    }
  }
}
