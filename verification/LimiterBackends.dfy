/**
 The two back ends of the distributed limiter side by side, for one key of one worker whose
 calls do not overlap: the sorted set with its undo and its EXPIRE, and the plain list.
 */
module LimiterBackends {
  import opened Prelude
  import opened RedisLimiter

  datatype Call = Ask(limit: nat, now: Time) | Inspect(now: Time) | Reset

  datatype Answer = Decision(allowed: bool) | Counts(requestsInWindow: nat, totalBlocked: nat) | Done

  datatype RedisSide = RedisSide(slot: Slot, blocked: nat)

  datatype LocalSide = LocalSide(bucket: seq<Time>, blocked: nat)

  /** The server's clock is the worker's. */
  function OnRedis(r: RedisSide, id: int, call: Call): (RedisSide, Answer) {
    match call
    case Ask(limit, now) =>
      var (z, allowed) := AskRedis(Visible(r.slot, now), Member(now, id), limit);
      (RedisSide(Slot(z, now + EXPIRE_SECONDS), r.blocked + (if allowed then 0 else 1)), Decision(allowed))
    case Inspect(now) =>
      var z := Trim(Visible(r.slot, now), now - WINDOW_SECONDS);
      (r.(slot := r.slot.(zset := z)), Counts(|z|, r.blocked))
    case Reset => (RedisSide(VACANT, 0), Done)
  }

  function OnLocal(l: LocalSide, call: Call): (LocalSide, Answer) {
    match call
    case Ask(limit, now) =>
      var (b, allowed) := AskLocal(l.bucket, limit, now);
      (LocalSide(b, l.blocked + (if allowed then 0 else 1)), Decision(allowed))
    case Inspect(now) =>
      var b := After(l.bucket, now - WINDOW_SECONDS);
      (l.(bucket := b), Counts(|b|, l.blocked))
    case Reset => (LocalSide([], 0), Done)
  }

  /** Both sides count their refusals and report the count; a reset forgets it. */
  lemma RefusalsAreCounted(r: RedisSide, l: LocalSide, id: int, limit: nat, now: Time)
    ensures var (r', answer) := OnRedis(r, id, Ask(limit, now));
            answer == Decision(r'.blocked == r.blocked) && r.blocked <= r'.blocked <= r.blocked + 1
            && r'.slot.deadline == now + 65.0
    ensures var (l', answer) := OnLocal(l, Ask(limit, now));
            answer == Decision(l'.blocked == l.blocked) && l.blocked <= l'.blocked <= l.blocked + 1
    ensures OnRedis(r, id, Inspect(now)).1.totalBlocked == OnRedis(r, id, Inspect(now)).0.blocked == r.blocked
    ensures OnLocal(l, Inspect(now)).1.totalBlocked == OnLocal(l, Inspect(now)).0.blocked == l.blocked
    ensures OnRedis(r, id, Reset).0.blocked == 0 && OnLocal(l, Reset).0.blocked == 0
  {
  }

  function RedisRun(id: int, calls: seq<Call>): RedisSide {
    if calls == [] then RedisSide(VACANT, 0)
    else OnRedis(RedisRun(id, calls[..|calls| - 1]), id, calls[|calls| - 1]).0
  }

  function LocalRun(calls: seq<Call>): LocalSide {
    if calls == [] then LocalSide([], 0) else OnLocal(LocalRun(calls[..|calls| - 1]), calls[|calls| - 1]).0
  }

  /** The clock does not go back, and its last reading is at most `t`. */
  ghost predicate Clocked(calls: seq<Call>, t: Time) {
    if calls == [] then true
    else
      var before, last := calls[..|calls| - 1], calls[|calls| - 1];
      if last.Reset? then Clocked(before, t) else last.now <= t && Clocked(before, last.now)
  }

  /** A request's reading is that of no request in the list. */
  predicate IsNew(l: LocalSide, call: Call) {
    call.Ask? ==> call.now !in l.bucket
  }

  predicate NewReadings(calls: seq<Call>) {
    if calls == [] then true
    else
      var before := calls[..|calls| - 1];
      NewReadings(before) && IsNew(LocalRun(before), calls[|calls| - 1])
  }

  // ----- The list as a sorted set -----

  ghost predicate StrictlyAscending(times: seq<Time>) {
    forall i, j :: 0 <= i < j < |times| ==> times[i] < times[j]
  }

  ghost function AsSet(bucket: seq<Time>, id: int): ZSet {
    if bucket == [] then map[]
    else AsSet(bucket[..|bucket| - 1], id)[Member(bucket[|bucket| - 1], id) := bucket[|bucket| - 1]]
  }

  lemma {:induction false} AsSetMembers(bucket: seq<Time>, id: int)
    ensures forall m :: m in AsSet(bucket, id) <==> m.id == id && m.now in bucket
    ensures forall m :: m in AsSet(bucket, id) ==> AsSet(bucket, id)[m] == m.now
  {
    if bucket != [] {
      var front, last := bucket[..|bucket| - 1], bucket[|bucket| - 1];
      AsSetMembers(front, id);
      assert bucket == front + [last];
    }
  }

  lemma {:induction false} AfterAscends(bucket: seq<Time>, windowStart: Time)
    requires StrictlyAscending(bucket)
    ensures StrictlyAscending(After(bucket, windowStart))
  {
    if bucket != [] {
      AfterAscends(bucket[1..], windowStart);
      AfterMembers(bucket[1..], windowStart);
      var rest := After(bucket[1..], windowStart);
      forall j | 0 <= j < |rest| ensures bucket[0] < rest[j] {
        assert rest[j] in rest && rest[j] in bucket[1..];
      }
    }
  }

  lemma TrimIsAfter(bucket: seq<Time>, id: int, windowStart: Time)
    ensures Trim(AsSet(bucket, id), windowStart) == AsSet(After(bucket, windowStart), id)
  {
    AfterMembers(bucket, windowStart);
    AsSetMembers(bucket, id);
    AsSetMembers(After(bucket, windowStart), id);
  }

  lemma {:induction false} AsSetSize(bucket: seq<Time>, id: int)
    requires StrictlyAscending(bucket)
    ensures |AsSet(bucket, id)| == |bucket|
  {
    if bucket != [] {
      var front, last := bucket[..|bucket| - 1], bucket[|bucket| - 1];
      AsSetSize(front, id);
      AsSetMembers(front, id);
      assert last !in front;
    }
  }

  // ----- The simulation -----

  ghost predicate Alike(r: RedisSide, l: LocalSide, id: int, t: Time) {
    && r.slot.zset == AsSet(l.bucket, id)
    && r.blocked == l.blocked
    && StrictlyAscending(l.bucket)
    && (forall x :: x in l.bucket ==> x <= t && x + EXPIRE_SECONDS <= r.slot.deadline)
  }

  /** Expiry on the server only ever drops what the next trim would drop anyway. */
  lemma VisibleTrimmed(r: RedisSide, l: LocalSide, id: int, t: Time, now: Time)
    requires Alike(r, l, id, t)
    ensures Trim(Visible(r.slot, now), now - WINDOW_SECONDS) == AsSet(After(l.bucket, now - WINDOW_SECONDS), id)
    ensures |Trim(Visible(r.slot, now), now - WINDOW_SECONDS)| == |After(l.bucket, now - WINDOW_SECONDS)|
  {
    AfterMembers(l.bucket, now - WINDOW_SECONDS);
    AfterAscends(l.bucket, now - WINDOW_SECONDS);
    TrimIsAfter(l.bucket, id, now - WINDOW_SECONDS);
    AsSetSize(After(l.bucket, now - WINDOW_SECONDS), id);
    if now >= r.slot.deadline {
      HeadIsMember(After(l.bucket, now - WINDOW_SECONDS));
    }
  }

  lemma AppendAlike(live: seq<Time>, id: int, now: Time)
    requires forall x :: x in live ==> x < now
    ensures var z := AsSet(live, id);
            && z[Member(now, id) := now] == AsSet(live + [now], id)
            && z[Member(now, id) := now] - {Member(now, id)} == z
  {
    AsSetMembers(live, id);
    assert (live + [now])[..|live|] == live;
  }

  /** From related states every call is answered alike, whatever the clock says. */
  lemma AnsweredAlike(r: RedisSide, l: LocalSide, id: int, t: Time, call: Call)
    requires Alike(r, l, id, t)
    ensures OnRedis(r, id, call).1 == OnLocal(l, call).1
  {
    if !call.Reset? {
      VisibleTrimmed(r, l, id, t, call.now);
    }
  }

  lemma AskSame(r: RedisSide, l: LocalSide, id: int, t: Time, limit: nat, now: Time)
    requires Alike(r, l, id, t) && t <= now && now !in l.bucket
    ensures var (b, allowed) := AskLocal(l.bucket, limit, now);
            AskRedis(Visible(r.slot, now), Member(now, id), limit) == (AsSet(b, id), allowed)
  {
    var live, z := After(l.bucket, now - WINDOW_SECONDS), Trim(Visible(r.slot, now), now - WINDOW_SECONDS);
    VisibleTrimmed(r, l, id, t, now);
    assert z == AsSet(live, id) && |z| == |live|;
    AfterMembers(l.bucket, now - WINDOW_SECONDS);
    AppendAlike(live, id, now);
  }

  lemma AskAscends(bucket: seq<Time>, limit: nat, now: Time)
    requires StrictlyAscending(bucket) && forall x :: x in bucket ==> x < now
    ensures StrictlyAscending(AskLocal(bucket, limit, now).0)
    ensures forall x :: x in AskLocal(bucket, limit, now).0 ==> x <= now
  {
    var live := After(bucket, now - WINDOW_SECONDS);
    AfterMembers(bucket, now - WINDOW_SECONDS);
    AfterAscends(bucket, now - WINDOW_SECONDS);
    forall i | 0 <= i < |live| ensures live[i] < now {
      assert live[i] in live;
    }
  }

  lemma NewAskAlike(r: RedisSide, l: LocalSide, id: int, t: Time, limit: nat, now: Time)
    requires Alike(r, l, id, t) && t <= now && now !in l.bucket
    ensures Alike(OnRedis(r, id, Ask(limit, now)).0, OnLocal(l, Ask(limit, now)).0, id, now)
  {
    AskSame(r, l, id, t, limit, now);
    AnsweredAlike(r, l, id, t, Ask(limit, now));
    AskAscends(l.bucket, limit, now);
  }

  /** The set of a repeated reading: nothing gained when admitted, the earlier entry lost when refused. */
  lemma RepeatedMember(live: seq<Time>, id: int, now: Time)
    requires StrictlyAscending(live) && now in live
    ensures |AsSet(live, id)[Member(now, id) := now]| == |live|
    ensures |AsSet(live, id)[Member(now, id) := now] - {Member(now, id)}| == |live| - 1
  {
    var z, m := AsSet(live, id), Member(now, id);
    AsSetMembers(live, id);
    AsSetSize(live, id);
    assert z[m := now] == z;
    assert z.Keys == (z - {m}).Keys + {m};
    assert |z| == |z.Keys| && |z - {m}| == |(z - {m}).Keys|;
  }

  /** After a repeated reading the set has one entry less than the list. */
  lemma RepeatLosesOne(r: RedisSide, l: LocalSide, id: int, t: Time, limit: nat, now: Time)
    requires Alike(r, l, id, t) && now in l.bucket
    ensures |OnRedis(r, id, Ask(limit, now)).0.slot.zset| == |OnLocal(l, Ask(limit, now)).0.bucket| - 1
  {
    VisibleTrimmed(r, l, id, t, now);
    AfterMembers(l.bucket, now - WINDOW_SECONDS);
    AfterAscends(l.bucket, now - WINDOW_SECONDS);
    RepeatedMember(After(l.bucket, now - WINDOW_SECONDS), id, now);
  }

  /** Nothing a request leaves behind is stale, so a report at the same reading counts all of it. */
  lemma NothingStaleInSet(r: RedisSide, id: int, limit: nat, now: Time)
    ensures var r' := OnRedis(r, id, Ask(limit, now)).0;
            OnRedis(r', id, Inspect(now)).1 == Counts(|r'.slot.zset|, r'.blocked)
  {
    var r' := OnRedis(r, id, Ask(limit, now)).0;
    assert Trim(Visible(r'.slot, now), now - WINDOW_SECONDS) == r'.slot.zset;
  }

  lemma NothingStaleInList(l: LocalSide, limit: nat, now: Time)
    ensures var l' := OnLocal(l, Ask(limit, now)).0;
            OnLocal(l', Inspect(now)).1 == Counts(|l'.bucket|, l'.blocked)
  {
    var live := After(l.bucket, now - WINDOW_SECONDS);
    AfterMembers(l.bucket, now - WINDOW_SECONDS);
    AfterAll(live, now - WINDOW_SECONDS);
    AfterSnoc(live, now, now - WINDOW_SECONDS);
  }

  lemma {:induction false} AfterAll(bucket: seq<Time>, windowStart: Time)
    requires forall x :: x in bucket ==> x > windowStart
    ensures After(bucket, windowStart) == bucket
  {
    if bucket != [] {
      assert bucket[0] in bucket && forall x :: x in bucket[1..] ==> x in bucket;
      AfterAll(bucket[1..], windowStart);
    }
  }

  /** A request leaves the two sides related if and only if its reading is new to the list. */
  lemma AskAlikeIffNew(r: RedisSide, l: LocalSide, id: int, t: Time, limit: nat, now: Time)
    requires Alike(r, l, id, t) && t <= now
    ensures Alike(OnRedis(r, id, Ask(limit, now)).0, OnLocal(l, Ask(limit, now)).0, id, now) <==> now !in l.bucket
  {
    if now in l.bucket {
      RepeatLosesOne(r, l, id, t, limit, now);
      AsSetSizeOf(OnRedis(r, id, Ask(limit, now)).0, OnLocal(l, Ask(limit, now)).0, id, now);
    } else {
      NewAskAlike(r, l, id, t, limit, now);
    }
  }

  lemma AsSetSizeOf(r: RedisSide, l: LocalSide, id: int, t: Time)
    ensures Alike(r, l, id, t) ==> |r.slot.zset| == |l.bucket|
  {
    if Alike(r, l, id, t) {
      AsSetSize(l.bucket, id);
    }
  }

  lemma InspectAlike(r: RedisSide, l: LocalSide, id: int, t: Time, now: Time)
    requires Alike(r, l, id, t) && t <= now
    ensures Alike(OnRedis(r, id, Inspect(now)).0, OnLocal(l, Inspect(now)).0, id, now)
  {
    VisibleTrimmed(r, l, id, t, now);
    AfterMembers(l.bucket, now - WINDOW_SECONDS);
    AfterAscends(l.bucket, now - WINDOW_SECONDS);
  }

  lemma {:induction false} RunsAlike(id: int, calls: seq<Call>, t: Time)
    requires Clocked(calls, t) && NewReadings(calls)
    ensures Alike(RedisRun(id, calls), LocalRun(calls), id, t)
  {
    if calls != [] {
      var before, last := calls[..|calls| - 1], calls[|calls| - 1];
      match last
      case Reset => RunsAlike(id, before, t);
      case Ask(limit, now) =>
        RunsAlike(id, before, now);
        NewAskAlike(RedisRun(id, before), LocalRun(before), id, now, limit, now);
      case Inspect(now) =>
        RunsAlike(id, before, now);
        InspectAlike(RedisRun(id, before), LocalRun(before), id, now, now);
    }
  }

  // ----- When the back ends agree -----

  /** After the given calls, whatever is called next is answered alike. */
  ghost predicate Indistinguishable(id: int, calls: seq<Call>) {
    forall call :: OnRedis(RedisRun(id, calls), id, call).1 == OnLocal(LocalRun(calls), call).1
  }

  /** At no point of the run could a call have told the two apart. */
  ghost predicate AgreeThroughout(id: int, calls: seq<Call>) {
    Indistinguishable(id, calls) && (calls != [] ==> AgreeThroughout(id, calls[..|calls| - 1]))
  }

  lemma {:induction false} NewReadingsAgree(id: int, calls: seq<Call>, t: Time)
    requires Clocked(calls, t) && NewReadings(calls)
    ensures AgreeThroughout(id, calls)
  {
    RunsAlike(id, calls, t);
    forall call ensures OnRedis(RedisRun(id, calls), id, call).1 == OnLocal(LocalRun(calls), call).1 {
      AnsweredAlike(RedisRun(id, calls), LocalRun(calls), id, t, call);
    }
    if calls != [] {
      var last := calls[|calls| - 1];
      NewReadingsAgree(id, calls[..|calls| - 1], if last.Reset? then t else last.now);
    }
  }

  /** Right after the first repeated reading, the usage report tells the two apart. */
  lemma RepeatIsReported(id: int, calls: seq<Call>, t: Time)
    requires calls != [] && Clocked(calls, t)
    requires NewReadings(calls[..|calls| - 1]) && !NewReadings(calls)
    ensures !Indistinguishable(id, calls)
  {
    var before, last := calls[..|calls| - 1], calls[|calls| - 1];
    RunsAlike(id, before, last.now);
    var r, l := RedisRun(id, before), LocalRun(before);
    RepeatLosesOne(r, l, id, last.now, last.limit, last.now);
    NothingStaleInSet(r, id, last.limit, last.now);
    NothingStaleInList(l, last.limit, last.now);
    assert OnRedis(RedisRun(id, calls), id, Inspect(last.now)).1 != OnLocal(LocalRun(calls), Inspect(last.now)).1;
  }

  /**
   On a clock that does not go back, the two back ends admit the same requests and report the same
   usage and refusals at every point of a run if and only if no request repeats the reading of a
   request that is still listed.
   */
  lemma {:induction false} BackendsAgree(id: int, calls: seq<Call>, t: Time)
    requires Clocked(calls, t)
    ensures AgreeThroughout(id, calls) <==> NewReadings(calls)
  {
    if NewReadings(calls) {
      NewReadingsAgree(id, calls, t);
    } else {
      var before, last := calls[..|calls| - 1], calls[|calls| - 1];
      BackendsAgree(id, before, if last.Reset? then t else last.now);
      if NewReadings(before) {
        RepeatIsReported(id, calls, t);
      }
    }
  }
}
