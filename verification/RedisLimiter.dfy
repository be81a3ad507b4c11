/**
 The distributed rate limiter: a sorted set per API key on the Redis server, one atomic
 transaction per request, and a separate removal when the request turns out to be over the
 limit. The in-memory fallback keeps a list of instants instead.
 */
module RedisLimiter {
  import opened Prelude

  const EXPIRE_SECONDS := WINDOW_SECONDS + 5.0

  function LimitFor(tier: string): nat {
    match tier
    case "starter" => 50
    case "pro" => 120
    case "professional" => 200
    case "enterprise" => 9999
    case _ => 30
  }

  /** The text `now:id` is determined by, and determines, these two parts. */
  datatype Member = Member(now: Time, id: int)

  /** A sorted set: members with their scores. */
  type ZSet = map<Member, Time>

  /** What the server keeps under one name: the set, and when EXPIRE lets the server drop it. */
  datatype Slot = Slot(zset: ZSet, deadline: Time)

  const VACANT := Slot(map[], 0.0)

  /** The set that a command running at server time `at` finds. */
  function Visible(slot: Slot, at: Time): ZSet {
    if at >= slot.deadline then map[] else slot.zset
  }

  /** ZREMRANGEBYSCORE key -inf windowStart */
  function Trim(z: ZSet, windowStart: Time): ZSet {
    map m | m in z && z[m] > windowStart :: z[m]
  }

  /** Trim, count and add; the count is taken before the member is added. */
  function Transact(z: ZSet, m: Member): (ZSet, nat) {
    var live := Trim(z, m.now - WINDOW_SECONDS);
    (live[m := m.now], |live|)
  }

  /** A whole request when nothing runs between the transaction and its undo. */
  function AskRedis(z: ZSet, m: Member, limit: nat): (ZSet, bool) {
    var (z', count) := Transact(z, m);
    if count >= limit then (z' - {m}, false) else (z', true)
  }

  /** The members of the last 60 seconds stay; a request with room among them is added, one without is not. */
  lemma AskEffect(z: ZSet, m: Member, limit: nat)
    ensures var live := map x | x in z && z[x] > m.now - 60.0 :: z[x];
            && Transact(z, m) == (live[m := m.now], |live|)
            && AskRedis(z, m, limit) == if |live| < limit then (live[m := m.now], true) else (live - {m}, false)
  {
    var live := map x | x in z && z[x] > m.now - 60.0 :: z[x];
    assert live[m := m.now] - {m} == live - {m};
  }

  /** The tiers' limits; a tier that is not known is a free one. */
  lemma TierLimits(tier: string)
    ensures LimitFor("starter") == 50 && LimitFor("pro") == 120 && LimitFor("professional") == 200
    ensures LimitFor("enterprise") == 9999
    ensures tier !in {"starter", "pro", "professional", "enterprise"} ==> LimitFor(tier) == 30
  {
  }

  function After(bucket: seq<Time>, windowStart: Time): seq<Time> {
    if bucket == [] then []
    else if bucket[0] > windowStart then [bucket[0]] + After(bucket[1..], windowStart)
    else After(bucket[1..], windowStart)
  }

  lemma {:induction false} AfterSnoc(bucket: seq<Time>, t: Time, windowStart: Time)
    ensures After(bucket + [t], windowStart) == After(bucket, windowStart) + (if t > windowStart then [t] else [])
  {
    if bucket == [] {
      assert bucket + [t] == [t];
    } else {
      assert (bucket + [t])[1..] == bucket[1..] + [t];
      AfterSnoc(bucket[1..], t, windowStart);
    }
  }

  /** The instants of the last 60 seconds stay; a request with room among them is added. */
  lemma AskLocalEffect(bucket: seq<Time>, limit: nat, now: Time)
    ensures var live := After(bucket, now - 60.0);
            && AskLocal(bucket, limit, now) == (if |live| < limit then (live + [now], true) else (live, false))
            && forall t :: t in live <==> t in bucket && t > now - 60.0
  {
    AfterMembers(bucket, now - 60.0);
  }

  lemma {:induction false} AfterMembers(bucket: seq<Time>, windowStart: Time)
    ensures forall t :: t in After(bucket, windowStart) <==> t in bucket && t > windowStart
  {
    if bucket != [] {
      assert bucket == [bucket[0]] + bucket[1..];
      AfterMembers(bucket[1..], windowStart);
    }
  }

  function AskLocal(bucket: seq<Time>, limit: nat, now: Time): (seq<Time>, bool) {
    var live := After(bucket, now - WINDOW_SECONDS);
    if |live| >= limit then (live, false) else (live + [now], true)
  }

  class Redis {
    var slots: map<string, Slot>

    ghost function Of(key: string): Slot
      reads this
    {
      if key in slots then slots[key] else VACANT
    }

    constructor ()
      ensures forall key :: Of(key) == VACANT
    {
      slots := map[];
    }

    /** What is stored under the key at server time `at`. */
    method Load(key: string, at: Time) returns (z: ZSet)
      ensures z == Visible(Of(key), at)
      ensures z == if key in slots && at < slots[key].deadline then slots[key].zset else map[]
    {
      z := if key in slots && at < slots[key].deadline then slots[key].zset else map[];
      assert key !in slots ==> VACANT.zset == map[];
    }

    /** The pipeline of `_check_redis`, executed atomically: four commands. */
    method Transaction(key: string, m: Member, at: Time) returns (count: nat)
      modifies this
      ensures (Of(key).zset, count) == Transact(Visible(old(Of(key)), at), m)
      ensures Of(key).deadline == at + 65.0
      ensures forall k :: k != key ==> Of(k) == old(Of(k))
    {
      var z := Load(key, at);
      var live := map x | x in z && z[x] > m.now - WINDOW_SECONDS :: z[x];
      count := |live|;
      slots := slots[key := Slot(live[m := m.now], at + EXPIRE_SECONDS)];
    }

    method ZRem(key: string, m: Member)
      modifies this
      ensures Of(key) == old(Of(key)).(zset := old(Of(key)).zset - {m})
      ensures forall k :: k != key ==> Of(k) == old(Of(k))
    {
      if key in slots {
        slots := slots[key := slots[key].(zset := slots[key].zset - {m})];
      }
    }

    method ZRemRangeByScore(key: string, windowStart: Time, at: Time)
      modifies this
      ensures Of(key) == old(Of(key)).(zset := Trim(Visible(old(Of(key)), at), windowStart))
      ensures forall k :: k != key ==> Of(k) == old(Of(k))
    {
      var z := Load(key, at);
      var live := map x | x in z && z[x] > windowStart :: z[x];
      slots := slots[key := (if key in slots then slots[key] else VACANT).(zset := live)];
    }

    method ZCard(key: string, at: Time) returns (count: nat)
      ensures count == |Visible(Of(key), at)|
    {
      var z := Load(key, at);
      count := |z|;
    }

    method Delete(key: string)
      modifies this
      ensures Of(key) == VACANT
      ensures forall k :: k != key ==> Of(k) == old(Of(k))
    {
      slots := slots - {key};
    }
  }

  /** Which call to the server raises, if any does. */
  datatype Fault = NoFault | FirstFails | SecondFails

  /** One worker. Without a server it keeps the buckets itself. */
  class RedisRateLimiter {
    const redis: Redis?
    const id: int
    var buckets: map<string, seq<Time>>
    var blocked: map<string, nat>

    ghost function Bucket(key: string): seq<Time>
      reads this
    {
      if key in buckets then buckets[key] else []
    }

    ghost function Blocked(key: string): nat
      reads this
    {
      if key in blocked then blocked[key] else 0
    }

    constructor (redis: Redis?, id: int)
      ensures this.redis == redis && this.id == id
      ensures forall key :: Bucket(key) == [] && Blocked(key) == 0
    {
      this.redis, this.id := redis, id;
      buckets, blocked := map[], map[];
    }

    /** `at` is the server's clock when it runs the transaction. */
    method IsAllowed(key: string, tier: string, now: Time, at: Time, fault: Fault) returns (allowed: bool)
      modifies this, redis
      ensures redis != null && fault == NoFault ==>
                (redis.Of(key).zset, allowed) == AskRedis(Visible(old(redis.Of(key)), at), Member(now, id), LimitFor(tier))
                && redis.Of(key).deadline == at + 65.0
      ensures redis != null && fault != NoFault ==> allowed
      ensures redis == null ==> (Bucket(key), allowed) == AskLocal(old(Bucket(key)), LimitFor(tier), now)
      ensures Blocked(key) == old(Blocked(key)) + (if allowed then 0 else 1)
      ensures forall k :: k != key ==> Bucket(k) == old(Bucket(k)) && Blocked(k) == old(Blocked(k))
      ensures redis != null ==> forall k :: k != key ==> redis.Of(k) == old(redis.Of(k))
    {
      var limit := LimitFor(tier);
      if redis != null {
        allowed := CheckRedis(key, limit, now, at, fault);
      } else {
        allowed := CheckLocal(key, limit, now);
      }
    }

    /** Fails open: on an error the request passes, and without its undo its member stays in the set. */
    method CheckRedis(key: string, limit: nat, now: Time, at: Time, fault: Fault) returns (allowed: bool)
      requires redis != null
      modifies `blocked, redis
      ensures fault == NoFault ==>
                (redis.Of(key).zset, allowed) == AskRedis(Visible(old(redis.Of(key)), at), Member(now, id), limit)
      ensures fault != NoFault ==> allowed
      ensures fault == SecondFails ==> redis.Of(key).zset == Transact(Visible(old(redis.Of(key)), at), Member(now, id)).0
      ensures if fault == FirstFails then redis.Of(key) == old(redis.Of(key))
              else redis.Of(key).deadline == at + 65.0
      ensures Blocked(key) == old(Blocked(key)) + (if allowed then 0 else 1)
      ensures forall k :: k != key ==> redis.Of(k) == old(redis.Of(k)) && Blocked(k) == old(Blocked(k))
    {
      if fault == FirstFails {
        return true;
      }
      var count := redis.Transaction(key, Member(now, id), at);
      if count >= limit {
        if fault == SecondFails {
          return true;
        }
        redis.ZRem(key, Member(now, id));
        blocked := blocked[key := (if key in blocked then blocked[key] else 0) + 1];
        return false;
      }
      return true;
    }

    method CheckLocal(key: string, limit: nat, now: Time) returns (allowed: bool)
      modifies `buckets, `blocked
      ensures (Bucket(key), allowed) == AskLocal(old(Bucket(key)), limit, now)
      ensures Blocked(key) == old(Blocked(key)) + (if allowed then 0 else 1)
      ensures forall k :: k != key ==> Bucket(k) == old(Bucket(k)) && Blocked(k) == old(Blocked(k))
    {
      var bucket := Prune(if key in buckets then buckets[key] else [], now - WINDOW_SECONDS);
      buckets := buckets[key := bucket];
      if |bucket| >= limit {
        blocked := blocked[key := (if key in blocked then blocked[key] else 0) + 1];
        return false;
      }
      buckets := buckets[key := bucket + [now]];
      return true;
    }

    /** `[t for t in bucket if t > window_start]` */
    static method Prune(bucket: seq<Time>, windowStart: Time) returns (live: seq<Time>)
      ensures live == After(bucket, windowStart)
    {
      live := [];
      for i := 0 to |bucket|
        invariant live == After(bucket[..i], windowStart)
      {
        AfterSnoc(bucket[..i], bucket[i], windowStart);
        assert bucket[..i + 1] == bucket[..i] + [bucket[i]];
        if bucket[i] > windowStart {
          live := live + [bucket[i]];
        }
      }
      assert bucket[..|bucket|] == bucket;
    }

    /** `at` and `later` are the server's clock when it runs the two commands; an error reads as no usage. */
    method GetUsage(key: string, tier: string, now: Time, at: Time, later: Time, fault: Fault) returns (usage: Usage)
      modifies `buckets, redis
      ensures redis != null ==>
                redis.Of(key) == (if fault == FirstFails then old(redis.Of(key))
                                  else old(redis.Of(key)).(zset := Trim(Visible(old(redis.Of(key)), at), now - WINDOW_SECONDS)))
                && usage.requestsInWindow == if fault == NoFault then |Visible(redis.Of(key), later)| else 0
      ensures redis == null ==>
                Bucket(key) == After(old(Bucket(key)), now - WINDOW_SECONDS)
                && usage.requestsInWindow == |Bucket(key)|
      ensures usage.limit == LimitFor(tier) && usage.totalBlocked == Blocked(key)
      ensures usage.remaining == if usage.requestsInWindow < usage.limit then usage.limit - usage.requestsInWindow else 0
      ensures forall k :: k != key ==> Bucket(k) == old(Bucket(k))
      ensures redis != null ==> forall k :: k != key ==> redis.Of(k) == old(redis.Of(k))
    {
      var limit := LimitFor(tier);
      var current: nat := 0;
      if redis != null {
        if fault != FirstFails {
          redis.ZRemRangeByScore(key, now - WINDOW_SECONDS, at);
          if fault == NoFault {
            current := redis.ZCard(key, later);
          }
        }
      } else {
        var bucket := Prune(if key in buckets then buckets[key] else [], now - WINDOW_SECONDS);
        buckets := buckets[key := bucket];
        current := |bucket|;
      }
      usage := Usage(current, limit, Max(0, limit - current), if key in blocked then blocked[key] else 0);
    }

    /** An error while deleting the key is swallowed. */
    method Reset(key: string, fault: Fault)
      modifies this, redis
      ensures Bucket(key) == [] && Blocked(key) == 0
      ensures redis != null ==> redis.Of(key) == if fault == NoFault then VACANT else old(redis.Of(key))
      ensures forall k :: k != key ==> Bucket(k) == old(Bucket(k)) && Blocked(k) == old(Blocked(k))
      ensures redis != null ==> forall k :: k != key ==> redis.Of(k) == old(redis.Of(k))
    {
      if redis != null && fault == NoFault {
        redis.Delete(key);
      }
      buckets, blocked := buckets - {key}, blocked - {key};
    }
  }
}
