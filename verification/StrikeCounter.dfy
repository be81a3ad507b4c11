/**
 The abusive-IP blocker: a strike counter per address that lives for one window from its first
 strike, and a block that is set while the counter is at or over the threshold. All deadlines are
 on the Redis server's clock.
 */
module StrikeCounter {
  import opened Prelude

  datatype Policy = Policy(threshold: int, window: Time, blockDuration: Time)

  /** `strikes_ip:` with its expiry */
  datatype Counter = Counter(count: nat, deadline: Time)

  datatype Record = Record(counter: Option<Counter>, blockedUntil: Option<Time>)

  const CLEAN := Record(None, None)

  function Strikes(r: Record, now: Time): nat {
    if r.counter.Some? && now < r.counter.value.deadline then r.counter.value.count else 0
  }

  predicate Blocked(r: Record, now: Time) {
    r.blockedUntil.Some? && now < r.blockedUntil.value
  }

  /** INCR, EXPIRE on the first strike, SETEX at the threshold */
  function Strike(p: Policy, r: Record, now: Time): Record {
    var current := Strikes(r, now) + 1;
    var deadline := if current == 1 then now + p.window else r.counter.value.deadline;
    Record(Some(Counter(current, deadline)),
           if current >= p.threshold then Some(now + p.blockDuration) else r.blockedUntil)
  }

  predicate Punishable(status: int) {
    status == 401 || status == 403 || status == 429
  }

  /** A request is checked against the block, or an admitted one, checked at `arrived`, is answered. */
  datatype Event = Arrive(now: Time) | Answer(status: int, arrived: Time, now: Time)

  /** What happens to one address: its record, the strikes so far, and the arrivals being served. */
  datatype Traffic = Traffic(record: Record, strikes: seq<Time>, serving: multiset<Time>)

  function Apply(p: Policy, s: Traffic, e: Event): Traffic {
    match e
    case Arrive(now) => if Blocked(s.record, now) then s else s.(serving := s.serving + multiset{now})
    case Answer(status, arrived, now) =>
      if arrived !in s.serving then s
      else if Punishable(status) then Traffic(Strike(p, s.record, now), s.strikes + [now], s.serving - multiset{arrived})
      else s.(serving := s.serving - multiset{arrived})
  }

  /** A running counter goes up; otherwise a new one runs for a window. At the threshold a block is set. */
  lemma StrikeEffect(p: Policy, r: Record, now: Time)
    requires r.counter.Some? ==> r.counter.value.count > 0
    ensures var counter := if r.counter.Some? && now < r.counter.value.deadline
                           then Counter(r.counter.value.count + 1, r.counter.value.deadline)
                           else Counter(1, now + p.window);
            Strike(p, r, now) ==
              Record(Some(counter), if counter.count >= p.threshold then Some(now + p.blockDuration) else r.blockedUntil)
  {
  }

  /** Requests are let in outside blocks; only answers 401, 403 and 429 to those let in are strikes. */
  lemma ApplyEffect(p: Policy, s: Traffic, now: Time, status: int, arrived: Time)
    ensures s.record.blockedUntil.Some? && now < s.record.blockedUntil.value ==> Apply(p, s, Arrive(now)) == s
    ensures s.record.blockedUntil.None? || now >= s.record.blockedUntil.value ==>
              Apply(p, s, Arrive(now)) == Traffic(s.record, s.strikes, s.serving + multiset{now})
    ensures arrived !in s.serving ==> Apply(p, s, Answer(status, arrived, now)) == s
    ensures arrived in s.serving ==>
              Apply(p, s, Answer(status, arrived, now)) ==
                if status == 401 || status == 403 || status == 429
                then Traffic(Strike(p, s.record, now), s.strikes + [now], s.serving - multiset{arrived})
                else Traffic(s.record, s.strikes, s.serving - multiset{arrived})
  {
  }

  /** A request that nothing overlaps, as `Dispatch` serves it. */
  lemma ServedAlone(p: Policy, s: Traffic, status: int, now: Time, later: Time)
    requires s.serving == multiset{}
    ensures Apply(p, Apply(p, s, Arrive(now)), Answer(status, now, later)).record ==
              if !Blocked(s.record, now) && Punishable(status) then Strike(p, s.record, later) else s.record
  {
  }

  class AbusiveIPBlocker {
    const policy: Policy
    var counters: map<string, Counter>
    var blocks: map<string, Time>

    ghost function Of(ip: string): Record
      reads this
    {
      Record(if ip in counters then Some(counters[ip]) else None, if ip in blocks then Some(blocks[ip]) else None)
    }

    constructor (policy: Policy)
      ensures this.policy == policy && forall ip :: Of(ip) == CLEAN
    {
      this.policy, counters, blocks := policy, map[], map[];
    }

    /** `status` is what the application answers when it is asked; `later` is when it answers. */
    method Dispatch(ip: string, status: int, now: Time, later: Time) returns (response: int)
      modifies this
      ensures ip == "" ==> response == status && Of(ip) == old(Of(ip))
      ensures ip != "" && old(ip in blocks && now < blocks[ip]) ==> response == 403 && Of(ip) == old(Of(ip))
      ensures ip != "" && !old(ip in blocks && now < blocks[ip]) ==>
                response == status
                && Of(ip) == if status == 401 || status == 403 || status == 429
                             then Strike(policy, old(Of(ip)), later) else old(Of(ip))
      ensures ip != "" ==>
                var arrived := Apply(policy, Traffic(old(Of(ip)), [], multiset{}), Arrive(now));
                Of(ip) == Apply(policy, arrived, Answer(status, now, later)).record
      ensures forall k :: k != ip ==> Of(k) == old(Of(k))
    {
      ServedAlone(policy, Traffic(Of(ip), [], multiset{}), status, now, later);
      if ip == "" {
        return status;
      }
      if ip in blocks && now < blocks[ip] {
        return 403;
      }
      if Punishable(status) {
        RecordStrike(ip, later);
      }
      return status;
    }

    method RecordStrike(ip: string, now: Time)
      modifies this
      ensures Of(ip) == Strike(policy, old(Of(ip)), now)
      ensures ip in counters && (old(ip in counters && now < counters[ip].deadline && counters[ip].count > 0) ==>
                counters[ip] == Counter(old(counters)[ip].count + 1, old(counters)[ip].deadline))
      ensures old(ip !in counters || counters[ip].deadline <= now) ==> counters[ip] == Counter(1, now + policy.window)
      ensures blocks == if counters[ip].count >= policy.threshold then old(blocks)[ip := now + policy.blockDuration]
                        else old(blocks)
      ensures forall k :: k != ip ==> Of(k) == old(Of(k))
    {
      var current := (if ip in counters && now < counters[ip].deadline then counters[ip].count else 0) + 1;
      if current == 1 {
        counters := counters[ip := Counter(current, now + policy.window)];
      } else {
        counters := counters[ip := counters[ip].(count := current)];
      }
      if current >= policy.threshold {
        blocks := blocks[ip := now + policy.blockDuration];
      }
    }
  }

  // ----- Runs: the strikes recorded against one address -----

  function RunTo(p: Policy, strikes: seq<Time>): Record {
    if strikes == [] then CLEAN
    else Strike(p, RunTo(p, strikes[..|strikes| - 1]), strikes[|strikes| - 1])
  }

  ghost predicate Ascending(times: seq<Time>) {
    forall i, j :: 0 <= i < j < |times| ==> times[i] <= times[j]
  }

  /** The last strike of the run reached the threshold. */
  ghost predicate SetsBlock(p: Policy, strikes: seq<Time>)
    requires strikes != []
  {
    Strikes(RunTo(p, strikes[..|strikes| - 1]), strikes[|strikes| - 1]) + 1 >= p.threshold
  }

  ghost predicate NeverBlocked(p: Policy, strikes: seq<Time>) {
    if strikes == [] then true else !SetsBlock(p, strikes) && NeverBlocked(p, strikes[..|strikes| - 1])
  }

  // ----- The shape of a run before the first block -----

  ghost function CountFrom(times: seq<Time>, lo: Time): nat {
    if times == [] then 0
    else CountFrom(times[..|times| - 1], lo) + (if lo <= times[|times| - 1] then 1 else 0)
  }

  lemma {:induction false} CountInFrom(times: seq<Time>, lo: Time, hi: Time)
    ensures CountIn(times, lo, hi) <= CountFrom(times, lo)
  {
    if times != [] {
      CountInFrom(times[..|times| - 1], lo, hi);
    }
  }

  lemma {:induction false} CountFromLater(times: seq<Time>, lo: Time, lo': Time)
    requires lo <= lo'
    ensures CountFrom(times, lo') <= CountFrom(times, lo)
  {
    if times != [] {
      CountFromLater(times[..|times| - 1], lo, lo');
    }
  }

  /** At most everything from index `k` on, and what the part before contributes. */
  lemma {:induction false} CountFromSplit(times: seq<Time>, k: nat, lo: Time)
    requires k <= |times|
    ensures CountFrom(times, lo) <= CountFrom(times[..k], lo) + (|times| - k)
    decreases |times|
  {
    if k < |times| {
      assert times[..|times| - 1][..k] == times[..k];
      CountFromSplit(times[..|times| - 1], k, lo);
    } else {
      assert times[..k] == times;
    }
  }

  lemma {:induction false} CountFromNone(times: seq<Time>, lo: Time)
    requires forall i :: 0 <= i < |times| ==> times[i] < lo
    ensures CountFrom(times, lo) == 0
  {
    if times != [] {
      CountFromNone(times[..|times| - 1], lo);
    }
  }

  /**
   With counter window [s, s + window) running: the last `count` strikes lie in it, all others came
   before `s`, and of those fewer than the threshold are less than a window old at `s`.
   */
  ghost predicate WindowShape(p: Policy, strikes: seq<Time>) {
    var r := RunTo(p, strikes);
    strikes != [] ==>
      && r.counter.Some?
      && var (k, s) := (r.counter.value.count, r.counter.value.deadline - p.window);
         && 1 <= k <= |strikes| && k < p.threshold
         && strikes[|strikes| - k] == s
         && (forall i :: 0 <= i < |strikes| - k ==> strikes[i] < s)
         && CountFrom(strikes[..|strikes| - k], s - p.window) < p.threshold
  }

  lemma SameWindowShape(p: Policy, strikes: seq<Time>, t: Time)
    requires WindowShape(p, strikes) && strikes != []
    requires t < RunTo(p, strikes).counter.value.deadline && !SetsBlock(p, strikes + [t])
    ensures WindowShape(p, strikes + [t])
  {
    var c := RunTo(p, strikes).counter.value;
    var all := strikes + [t];
    assert all[..|strikes|] == strikes;
    assert RunTo(p, all).counter == Some(Counter(c.count + 1, c.deadline)) && c.count + 1 < p.threshold;
    var n := |strikes| - c.count;
    assert n == |all| - (c.count + 1) && all[n] == strikes[n] && all[..n] == strikes[..n];
  }

  lemma NewWindowShape(p: Policy, strikes: seq<Time>, t: Time)
    requires WindowShape(p, strikes) && Ascending(strikes + [t])
    requires strikes != [] ==> t >= RunTo(p, strikes).counter.value.deadline
    requires p.window > 0.0 && !SetsBlock(p, strikes + [t])
    ensures WindowShape(p, strikes + [t])
  {
    assert (strikes + [t])[..|strikes|] == strikes;
    if strikes != [] {
      var k := RunTo(p, strikes).counter.value.count;
      CountFromSplit(strikes, |strikes| - k, t - p.window);
      CountFromNone(strikes[..|strikes| - k], t - p.window);
      forall i | 0 <= i < |strikes| ensures strikes[i] < t {
        EveryStrikeBeforeDeadline(p, strikes, i);
      }
    }
  }

  lemma {:induction false} EveryStrikeBeforeDeadline(p: Policy, strikes: seq<Time>, i: nat)
    requires p.window > 0.0 && i < |strikes| && Ascending(strikes)
    ensures RunTo(p, strikes).counter.Some? && strikes[i] < RunTo(p, strikes).counter.value.deadline
    decreases |strikes|
  {
    var before, t := strikes[..|strikes| - 1], strikes[|strikes| - 1];
    if i < |before| {
      EveryStrikeBeforeDeadline(p, before, i);
      assert strikes[i] <= t;
    }
  }

  lemma {:induction false} ShapeHolds(p: Policy, strikes: seq<Time>)
    requires p.window > 0.0 && Ascending(strikes) && NeverBlocked(p, strikes)
    ensures WindowShape(p, strikes)
  {
    if strikes != [] {
      var before, t := strikes[..|strikes| - 1], strikes[|strikes| - 1];
      assert strikes == before + [t];
      ShapeHolds(p, before);
      if before != [] && t < RunTo(p, before).counter.value.deadline {
        SameWindowShape(p, before, t);
      } else {
        NewWindowShape(p, before, t);
      }
    }
  }

  // ----- Main results -----

  /** An interval that ends with the newest strike reaches into at most two counter windows. */
  lemma NewestInterval(p: Policy, strikes: seq<Time>, a: Time)
    requires p.window > 0.0 && strikes != [] && WindowShape(p, strikes) && Ascending(strikes)
    requires strikes[|strikes| - 1] <= a + p.window
    ensures CountIn(strikes, a, a + p.window) <= 2 * (p.threshold - 1)
  {
    var r := RunTo(p, strikes);
    var (k, s) := (r.counter.value.count, r.counter.value.deadline - p.window);
    var older := strikes[..|strikes| - k];
    assert strikes[|strikes| - k] == s <= strikes[|strikes| - 1];
    CountInFrom(strikes, a, a + p.window);
    CountFromSplit(strikes, |strikes| - k, a);
    CountFromLater(older, s - p.window, a);
  }

  /** Before the first block, every interval of one window holds at most 2(threshold - 1) strikes. */
  lemma {:induction false} StrikesBeforeBlock(p: Policy, strikes: seq<Time>, a: Time)
    requires p.window > 0.0 && Ascending(strikes) && NeverBlocked(p, strikes)
    ensures CountIn(strikes, a, a + p.window) <= 2 * Max(0, p.threshold - 1)
  {
    if strikes != [] {
      ShapeHolds(p, strikes);
      if strikes[|strikes| - 1] <= a + p.window {
        NewestInterval(p, strikes, a);
      } else {
        StrikesBeforeBlock(p, strikes[..|strikes| - 1], a);
      }
    }
  }

  lemma RunSnoc(p: Policy, strikes: seq<Time>, t: Time)
    ensures RunTo(p, strikes + [t]) == Strike(p, RunTo(p, strikes), t)
  {
    assert (strikes + [t])[..|strikes|] == strikes;
  }

  /** What one more strike does to everything that is observed of a run. */
  lemma Snoc(p: Policy, strikes: seq<Time>, t: Time, lo: Time, hi: Time)
    ensures NeverBlocked(p, strikes + [t]) <==>
              NeverBlocked(p, strikes) && Strikes(RunTo(p, strikes), t) + 1 < p.threshold
    ensures CountIn(strikes + [t], lo, hi) == CountIn(strikes, lo, hi) + (if lo <= t <= hi then 1 else 0)
  {
    assert (strikes + [t])[..|strikes|] == strikes;
  }

  ghost predicate Below(p: Policy, strikes: seq<Time>, total: nat, counter: Option<Counter>) {
    NeverBlocked(p, strikes) && CountIn(strikes, 0.0, p.window) == total && RunTo(p, strikes).counter == counter
  }

  lemma BelowNext(p: Policy, strikes: seq<Time>, total: nat, counter: Option<Counter>, t: Time)
    requires Below(p, strikes, total, counter) && 0.0 <= t <= p.window
    requires Strikes(Record(counter, None), t) + 1 < p.threshold
    ensures Below(p, strikes + [t], total + 1, Strike(p, Record(counter, None), t).counter)
  {
    RunSnoc(p, strikes, t);
    Snoc(p, strikes, t, 0.0, p.window);
  }

  /** m strikes at time zero and n strikes one window later. */
  lemma {:induction false} TwoBursts(p: Policy, m: nat, n: nat) returns (strikes: seq<Time>)
    requires p.window > 0.0 && m < p.threshold && n < p.threshold
    ensures Below(p, strikes, m + n, BurstCounter(p, m, n))
    ensures Ascending(strikes) && forall i :: 0 <= i < |strikes| ==> strikes[i] <= if n > 0 then p.window else 0.0
    decreases n, m
  {
    if n > 0 {
      var before := TwoBursts(p, m, n - 1);
      BelowNext(p, before, m + n - 1, BurstCounter(p, m, n - 1), p.window);
      strikes := before + [p.window];
    } else if m > 0 {
      var before := TwoBursts(p, m - 1, 0);
      BelowNext(p, before, m - 1, BurstCounter(p, m - 1, 0), 0.0);
      strikes := before + [0.0];
    } else {
      strikes := [];
    }
  }

  ghost function BurstCounter(p: Policy, m: nat, n: nat): Option<Counter> {
    if n > 0 then Some(Counter(n, p.window + p.window)) else if m > 0 then Some(Counter(m, p.window)) else None
  }

  /** The factor two is real: for every threshold the bound is reached without a block. */
  lemma BoundIsReached(p: Policy)
    requires p.window > 0.0 && p.threshold >= 1
    ensures exists strikes :: Ascending(strikes) && NeverBlocked(p, strikes)
                              && CountIn(strikes, 0.0, p.window) == 2 * (p.threshold - 1)
  {
    var n := p.threshold - 1;
    var strikes := TwoBursts(p, n, n);
  }

  /** The running counter counts strikes of its own window, no more and no fewer. */
  lemma {:induction false} CounterIsHonest(p: Policy, strikes: seq<Time>)
    requires p.window > 0.0 && Ascending(strikes) && strikes != []
    ensures RunTo(p, strikes).counter.Some?
    ensures var c := RunTo(p, strikes).counter.value;
            && 1 <= c.count <= |strikes|
            && strikes[|strikes| - c.count] == c.deadline - p.window
            && (forall i :: |strikes| - c.count <= i < |strikes| ==> c.deadline - p.window <= strikes[i] < c.deadline)
  {
    var before, t := strikes[..|strikes| - 1], strikes[|strikes| - 1];
    if before != [] {
      CounterIsHonest(p, before);
    }
  }

  /** The strikes before those of the running counter were counted by one that had expired. */
  lemma {:induction false} CounterStartsFresh(p: Policy, strikes: seq<Time>)
    requires p.window > 0.0 && Ascending(strikes) && strikes != []
    ensures RunTo(p, strikes).counter.Some? && 1 <= RunTo(p, strikes).counter.value.count <= |strikes|
    ensures var first := |strikes| - RunTo(p, strikes).counter.value.count;
            var earlier := RunTo(p, strikes[..first]).counter;
            first > 0 ==> earlier.Some? && earlier.value.deadline <= strikes[first]
  {
    var before := strikes[..|strikes| - 1];
    if before != [] {
      CounterStartsFresh(p, before);
      var first := |strikes| - RunTo(p, strikes).counter.value.count;
      assert strikes[..first] == before[..first];
    }
  }

  /** A block is set only by the threshold-th or a later strike within one window. */
  lemma BlockNeedsThreshold(p: Policy, strikes: seq<Time>)
    requires p.window > 0.0 && Ascending(strikes) && strikes != [] && SetsBlock(p, strikes)
    ensures RunTo(p, strikes).blockedUntil == Some(strikes[|strikes| - 1] + p.blockDuration)
    ensures p.threshold <= |strikes|
    ensures p.threshold >= 1 ==> strikes[|strikes| - 1] - strikes[|strikes| - p.threshold] < p.window
  {
    CounterIsHonest(p, strikes);
  }

  // ----- Release -----

  /** The block set by the last strike ends after the counter it was counted on. */
  lemma BlockOutlivesCounter(p: Policy, strikes: seq<Time>, t: Time)
    requires 0.0 < p.window <= p.blockDuration && Ascending(strikes) && strikes != [] && SetsBlock(p, strikes)
    requires !Blocked(RunTo(p, strikes), t)
    ensures Strikes(RunTo(p, strikes), t) == 0
  {
    CounterIsHonest(p, strikes);
    BlockNeedsThreshold(p, strikes);
  }

  function TrafficAfter(p: Policy, events: seq<Event>): Traffic {
    if events == [] then Traffic(CLEAN, [], multiset{})
    else Apply(p, TrafficAfter(p, events[..|events| - 1]), events[|events| - 1])
  }

  /**
   How an address can be served: at most `width` requests at a time, each answered, if ever, within
   `service` of its arrival.
   */
  datatype Load = Load(width: nat, service: Time)

  predicate Fits(load: Load, s: Traffic, e: Event) {
    if e.Arrive? then |s.serving| < load.width else e.arrived in s.serving && e.now <= e.arrived + load.service
  }

  /** The clock does not go back, and not beyond `t`. */
  ghost predicate Possible(p: Policy, events: seq<Event>, load: Load, t: Time) {
    if events == [] then true
    else
      var before, e := events[..|events| - 1], events[|events| - 1];
      e.now <= t && Possible(p, before, load, e.now) && Fits(load, TrafficAfter(p, before), e)
  }

  /** No strike is recorded while the address is blocked. */
  ghost predicate StrikesOutsideBlocks(p: Policy, strikes: seq<Time>) {
    if strikes == [] then true
    else
      var before := strikes[..|strikes| - 1];
      StrikesOutsideBlocks(p, before) && !Blocked(RunTo(p, before), strikes[|strikes| - 1])
  }

  ghost predicate UpTo(strikes: seq<Time>, t: Time) {
    forall i :: 0 <= i < |strikes| ==> strikes[i] <= t
  }

  ghost predicate Recorded(p: Policy, s: Traffic, t: Time) {
    && s.record == RunTo(p, s.strikes)
    && Ascending(s.strikes) && UpTo(s.strikes, t)
    && (forall a :: a in s.serving ==> a <= t)
  }

  lemma AscendingSnoc(times: seq<Time>, t: Time, now: Time)
    requires Ascending(times) && UpTo(times, t) && t <= now
    ensures Ascending(times + [now]) && UpTo(times + [now], now)
  {
  }

  lemma RecordedStep(p: Policy, s: Traffic, e: Event, t: Time)
    requires Recorded(p, s, t) && t <= e.now
    ensures Recorded(p, Apply(p, s, e), e.now)
  {
    if e.Answer? && e.arrived in s.serving && Punishable(e.status) {
      AscendingSnoc(s.strikes, t, e.now);
      RunSnoc(p, s.strikes, e.now);
    }
  }

  lemma {:induction false} TrafficRecorded(p: Policy, events: seq<Event>, load: Load, t: Time)
    requires Possible(p, events, load, t)
    ensures Recorded(p, TrafficAfter(p, events), t)
  {
    if events != [] {
      var before, e := events[..|events| - 1], events[|events| - 1];
      TrafficRecorded(p, before, load, e.now);
      RecordedStep(p, TrafficAfter(p, before), e, e.now);
    }
  }

  /** When the block ends, nothing has come in since it was set or the counter would show it. */
  ghost predicate CleanAtRelease(s: Traffic) {
    s.record.blockedUntil.Some? && (forall i :: 0 <= i < |s.strikes| ==> s.strikes[i] < s.record.blockedUntil.value) ==>
      Strikes(s.record, s.record.blockedUntil.value) == 0
  }

  /** A released address always starts from zero. */
  ghost predicate ReleasesClean(p: Policy, load: Load) {
    forall events, t :: Possible(p, events, load, t) ==> CleanAtRelease(TrafficAfter(p, events))
  }

  // ----- One request at a time, or every strike blocks -----

  /** With one request at a time, the one being served was let in after the last block. */
  ghost predicate Sequential(p: Policy, s: Traffic, t: Time) {
    && StrikesOutsideBlocks(p, s.strikes) && |s.serving| <= 1
    && (s.serving != multiset{} ==> !Blocked(s.record, t))
  }

  lemma SequentialStep(p: Policy, load: Load, s: Traffic, e: Event, t: Time)
    requires load.width <= 1 && Recorded(p, s, t) && Sequential(p, s, t) && Fits(load, s, e) && t <= e.now
    ensures Sequential(p, Apply(p, s, e), e.now)
  {
    assert (s.strikes + [e.now])[..|s.strikes|] == s.strikes;
    if e.Answer? {
      assert s.serving == multiset{e.arrived} + (s.serving - multiset{e.arrived});
      assert |s.serving - multiset{e.arrived}| == 0;
    }
  }

  /** Requests that do not overlap never strike a blocked address. */
  lemma {:induction false} SequentialStrikes(p: Policy, events: seq<Event>, load: Load, t: Time)
    requires load.width <= 1 && Possible(p, events, load, t)
    ensures Sequential(p, TrafficAfter(p, events), t)
  {
    if events != [] {
      var before, e := events[..|events| - 1], events[|events| - 1];
      SequentialStrikes(p, before, load, e.now);
      TrafficRecorded(p, before, load, e.now);
      SequentialStep(p, load, TrafficAfter(p, before), e, e.now);
    }
  }

  /** A strike below the threshold leaves the block alone, so under a block the last strike has set it. */
  lemma LastStrikeSetBlock(p: Policy, strikes: seq<Time>)
    requires RunTo(p, strikes).blockedUntil.Some?
    requires StrikesOutsideBlocks(p, strikes) || p.threshold <= 1
    requires forall i :: 0 <= i < |strikes| ==> strikes[i] < RunTo(p, strikes).blockedUntil.value
    ensures strikes != [] && SetsBlock(p, strikes)
  {
  }

  lemma CleanRuns(p: Policy, load: Load, events: seq<Event>, t: Time)
    requires 0.0 < p.window <= p.blockDuration && (load.width <= 1 || p.threshold <= 1) && Possible(p, events, load, t)
    ensures CleanAtRelease(TrafficAfter(p, events))
  {
    var s := TrafficAfter(p, events);
    TrafficRecorded(p, events, load, t);
    if s.record.blockedUntil.Some? && forall i :: 0 <= i < |s.strikes| ==> s.strikes[i] < s.record.blockedUntil.value {
      if p.threshold > 1 {
        SequentialStrikes(p, events, load, t);
      }
      LastStrikeSetBlock(p, s.strikes);
      BlockOutlivesCounter(p, s.strikes, s.record.blockedUntil.value);
    }
  }

  // ----- Any overlap, but prompt answers -----

  /**
   Whatever is being served was let in when the block was set or earlier, or after its end; and until
   something strikes after its end, the counter expires with the block.
   */
  ghost predicate Prompt(p: Policy, s: Traffic) {
    s.record.blockedUntil.Some? ==>
      var end := s.record.blockedUntil.value;
      && (forall a :: a in s.serving ==> a <= end - p.blockDuration || end <= a)
      && ((forall i :: 0 <= i < |s.strikes| ==> s.strikes[i] < end) ==>
            s.record.counter.Some? && s.record.counter.value.deadline <= end)
  }

  lemma PromptStrike(p: Policy, load: Load, s: Traffic, e: Event, t: Time)
    requires p.window > 0.0 && load.service >= 0.0 && p.window + load.service <= p.blockDuration
    requires Recorded(p, s, t) && Prompt(p, s) && Fits(load, s, e) && t <= e.now
    requires e.Answer? && Punishable(e.status)
    ensures Prompt(p, Apply(p, s, e))
  {
    var strikes' := s.strikes + [e.now];
    assert strikes'[..|s.strikes|] == s.strikes;
    RecordedStep(p, s, e, t);
    CounterIsHonest(p, strikes');
    if SetsBlock(p, strikes') {
      BlockNeedsThreshold(p, strikes');
    } else if s.record.blockedUntil.Some? && e.now < s.record.blockedUntil.value {
      assert e.arrived in s.serving;
      assert e.now + p.window <= s.record.blockedUntil.value;
    }
  }

  lemma {:induction false} PromptRuns(p: Policy, load: Load, events: seq<Event>, t: Time)
    requires p.window > 0.0 && load.service >= 0.0 && p.window + load.service <= p.blockDuration
    requires Possible(p, events, load, t)
    ensures Prompt(p, TrafficAfter(p, events))
  {
    if events != [] {
      var before, e := events[..|events| - 1], events[|events| - 1];
      PromptRuns(p, load, before, e.now);
      TrafficRecorded(p, before, load, e.now);
      if e.Answer? && Punishable(e.status) {
        PromptStrike(p, load, TrafficAfter(p, before), e, e.now);
      }
    }
  }

  // ----- Runs that leave a strike behind -----

  const DENIED := 401

  /** The events can happen by time `t` and lead to `s`. */
  ghost predicate Leads(p: Policy, load: Load, events: seq<Event>, s: Traffic, t: Time) {
    Possible(p, events, load, t) && TrafficAfter(p, events) == s
  }

  lemma Next(p: Policy, load: Load, events: seq<Event>, s: Traffic, t: Time, e: Event) returns (events': seq<Event>)
    requires Leads(p, load, events, s, t) && t <= e.now && Fits(load, s, e)
    ensures Leads(p, load, events', Apply(p, s, e), e.now)
  {
    events' := events + [e];
    assert events'[..|events|] == events;
    Later(p, events, load, t, e.now);
  }

  lemma Later(p: Policy, events: seq<Event>, load: Load, t: Time, t': Time)
    requires Possible(p, events, load, t) && t <= t'
    ensures Possible(p, events, load, t')
  {
  }

  lemma NextArrival(p: Policy, load: Load, events: seq<Event>, s: Traffic, t: Time, now: Time)
    returns (events': seq<Event>, s': Traffic)
    requires Leads(p, load, events, s, t) && t <= now && |s.serving| < load.width && !Blocked(s.record, now)
    requires UpTo(s.strikes, t)
    ensures Leads(p, load, events', s', now) && UpTo(s'.strikes, now)
    ensures s'.record == s.record && s'.serving == s.serving + multiset{now}
  {
    events' := Next(p, load, events, s, t, Arrive(now));
    s' := Apply(p, s, Arrive(now));
  }

  /** The answer to a denied request leaves the others in service. */
  lemma NextStrike(p: Policy, load: Load, events: seq<Event>, s: Traffic, t: Time, arrived: Time, now: Time,
                   others: multiset<Time>) returns (events': seq<Event>, s': Traffic)
    requires Leads(p, load, events, s, t) && t <= now <= arrived + load.service
    requires s.serving == others + multiset{arrived} && UpTo(s.strikes, t)
    ensures Leads(p, load, events', s', now) && UpTo(s'.strikes, now)
    ensures s'.record == Strike(p, s.record, now) && s'.serving == others
  {
    events' := Next(p, load, events, s, t, Answer(DENIED, arrived, now));
    s' := Apply(p, s, Answer(DENIED, arrived, now));
    assert s.serving - multiset{arrived} == others;
  }

  /** One request that is denied at once. */
  lemma NextDenial(p: Policy, load: Load, events: seq<Event>, s: Traffic, t: Time, now: Time)
    returns (events': seq<Event>, s': Traffic)
    requires Leads(p, load, events, s, t) && t <= now && |s.serving| < load.width && !Blocked(s.record, now)
    requires load.service >= 0.0 && UpTo(s.strikes, t)
    ensures Leads(p, load, events', s', now) && UpTo(s'.strikes, now)
    ensures s'.record == Strike(p, s.record, now) && s'.serving == s.serving
  {
    var e, mid := NextArrival(p, load, events, s, t, now);
    events', s' := NextStrike(p, load, e, mid, now, now, now, s.serving);
  }

  /** One more strike of a burst, below the threshold. */
  lemma StrikeAdds(p: Policy, n: nat)
    requires p.window > 0.0 && 0 < n < p.threshold
    ensures Strike(p, Record(BurstCounter(p, n - 1, 0), None), 0.0) == Record(BurstCounter(p, n, 0), None)
  {
  }

  /** The strike after those of a burst, inside their window, sets the block if it reaches the threshold. */
  lemma StrikeBlocks(p: Policy, n: nat, now: Time)
    requires 0.0 <= now < p.window && n + 1 >= p.threshold && (n == 0 ==> now == 0.0)
    ensures Strike(p, Record(BurstCounter(p, n, 0), None), now) ==
              Record(Some(Counter(n + 1, p.window)), Some(now + p.blockDuration))
  {
  }

  /** A strike after the counter's end starts a new one, which a threshold above one does not notice. */
  lemma StrikeStartsAnew(p: Policy, expired: Counter, end: Time, now: Time)
    requires expired.deadline <= now && p.threshold >= 2
    ensures Strike(p, Record(Some(expired), Some(end)), now) == Record(Some(Counter(1, now + p.window)), Some(end))
  {
  }

  lemma Nothing(p: Policy, load: Load)
    ensures Leads(p, load, [], Traffic(CLEAN, [], multiset{}), 0.0)
  {
  }

  /** `n` strikes at time zero, one short of the threshold at most. */
  lemma {:induction false} Burst(p: Policy, load: Load, n: nat) returns (events: seq<Event>, s: Traffic)
    requires p.window > 0.0 && load.width >= 1 && load.service >= 0.0 && (n == 0 || n < p.threshold)
    ensures Leads(p, load, events, s, 0.0) && UpTo(s.strikes, 0.0)
    ensures s.record == Record(BurstCounter(p, n, 0), None) && s.serving == multiset{}
  {
    if n == 0 {
      events, s := [], Traffic(CLEAN, [], multiset{});
      Nothing(p, load);
    } else {
      StrikeAdds(p, n);
      var before, s0 := Burst(p, load, n - 1);
      events, s := NextDenial(p, load, before, s0, 0.0, 0.0);
    }
  }

  /** At the end of a block that every strike came before, the counter is still running. */
  lemma NotClean(p: Policy, load: Load, events: seq<Event>, s: Traffic, t: Time, counter: Counter, end: Time)
    requires Leads(p, load, events, s, t) && s.record == Record(Some(counter), Some(end))
    requires UpTo(s.strikes, t) && t < end < counter.deadline && counter.count > 0
    ensures !ReleasesClean(p, load)
  {
    assert !CleanAtRelease(s);
  }

  /** A block shorter than the window ends while the counter that set it is still running. */
  lemma ShortBlock(p: Policy, load: Load)
    requires 0.0 < p.blockDuration < p.window && load.width >= 1 && load.service >= 0.0
    ensures !ReleasesClean(p, load)
  {
    var n := Max(0, p.threshold - 1);
    StrikeBlocks(p, n, 0.0);
    var before, s0 := Burst(p, load, n);
    var events, s := NextDenial(p, load, before, s0, 0.0, 0.0);
    NotClean(p, load, events, s, 0.0, Counter(n + 1, p.window), p.blockDuration);
  }

  /** One strike short of the threshold, two more requests are let in at `now`. */
  lemma OnTheBrink(p: Policy, load: Load, now: Time) returns (events: seq<Event>, s: Traffic)
    requires p.window > 0.0 && load.width >= 2 && load.service >= 0.0 && p.threshold >= 2 && 0.0 <= now
    ensures Leads(p, load, events, s, now) && UpTo(s.strikes, now)
    ensures s.record == Record(BurstCounter(p, p.threshold - 1, 0), None)
    ensures s.serving == multiset{now} + multiset{now}
  {
    var before, s0 := Burst(p, load, p.threshold - 1);
    var one, s1 := NextArrival(p, load, before, s0, 0.0, now);
    events, s := NextArrival(p, load, one, s1, now, now);
  }

  /** The first of the two sets the block. */
  lemma OneSetsBlock(p: Policy, load: Load, now: Time) returns (events: seq<Event>, s: Traffic)
    requires 0.0 <= now < p.window && load.width >= 2 && load.service >= 0.0 && p.threshold >= 2
    ensures Leads(p, load, events, s, now) && UpTo(s.strikes, now)
    ensures s.record == Record(Some(Counter(p.threshold, p.window)), Some(now + p.blockDuration))
    ensures s.serving == multiset{now}
  {
    StrikeBlocks(p, p.threshold - 1, now);
    var before, s0 := OnTheBrink(p, load, now);
    events, s := NextStrike(p, load, before, s0, now, now, now, multiset{now});
  }

  lemma NothingElse(now: Time)
    ensures multiset{now} == multiset{} + multiset{now}
  {
  }

  /** The second, answered after the window and before the release, outlives the block as a strike. */
  lemma Straggler(p: Policy, load: Load, now: Time, late: Time)
    requires 0.0 <= now < p.window <= late < now + p.blockDuration < late + p.window
    requires load.width >= 2 && p.threshold >= 2 && late <= now + load.service
    ensures !ReleasesClean(p, load)
  {
    var end := now + p.blockDuration;
    StrikeStartsAnew(p, Counter(p.threshold, p.window), end, late);
    var before, s0 := OneSetsBlock(p, load, now);
    NothingElse(now);
    var events, s := NextStrike(p, load, before, s0, now, now, late, multiset{});
    NotClean(p, load, events, s, late, Counter(1, late + p.window), end);
  }

  /** If service may take longer than the block outlasts the window, there is a straggler. */
  lemma SlowAnswers(p: Policy, load: Load)
    requires 0.0 < p.window <= p.blockDuration < p.window + load.service
    requires load.width >= 2 && p.threshold >= 2
    ensures !ReleasesClean(p, load)
  {
    var half := p.window / 2.0;
    var taken := if load.service < p.blockDuration - half then load.service else p.blockDuration - half;
    var now := if taken < half then p.window - taken else half;
    Straggler(p, load, now, now + taken);
  }

  /**
   A released address always starts from zero if and only if blocks last at least as long as the
   window and, besides, one request is served at a time, or every strike blocks, or blocks outlast the
   window by the longest service time.
   */
  lemma ReleasesCleanIff(p: Policy, load: Load)
    requires p.window > 0.0 && p.blockDuration > 0.0 && load.width >= 1 && load.service >= 0.0
    ensures ReleasesClean(p, load) <==>
              p.window <= p.blockDuration
              && (load.width == 1 || p.threshold <= 1 || p.window + load.service <= p.blockDuration)
  {
    if p.blockDuration < p.window {
      ShortBlock(p, load);
    } else if load.width >= 2 && p.threshold >= 2 && p.blockDuration < p.window + load.service {
      SlowAnswers(p, load);
    } else {
      forall events, t | Possible(p, events, load, t) ensures CleanAtRelease(TrafficAfter(p, events)) {
        if load.width <= 1 || p.threshold <= 1 {
          CleanRuns(p, load, events, t);
        } else {
          PromptRuns(p, load, events, t);
        }
      }
    }
  }
}
