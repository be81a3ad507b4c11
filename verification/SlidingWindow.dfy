/**
 The in-process rate limiter: one deque of admitted instants per API key, popped from the
 front while stale. The window is closed: an instant exactly 60 seconds old still counts.
 */
module SlidingWindow {
  import opened Prelude

  function LimitFor(tier: string): nat {
    if tier == "pro" then 120 else if tier == "enterprise" then 9999 else 30
  }

  /** One key's deque and its count of refused requests. */
  datatype Window = Window(bucket: seq<Time>, blocked: nat)

  function PopStale(bucket: seq<Time>, cutoff: Time): seq<Time> {
    if bucket != [] && bucket[0] < cutoff then PopStale(bucket[1..], cutoff) else bucket
  }

  function Allow(w: Window, limit: nat, now: Time): (Window, bool) {
    var live := PopStale(w.bucket, now - WINDOW_SECONDS);
    if |live| >= limit then (Window(live, w.blocked + 1), false)
    else (Window(live + [now], w.blocked), true)
  }

  function Report(w: Window, limit: nat, now: Time): (Window, Usage) {
    var live := PopStale(w.bucket, now - WINDOW_SECONDS);
    (w.(bucket := live), Usage(|live|, limit, Max(0, limit - |live|), w.blocked))
  }

  class RateLimiter {
    var buckets: map<string, seq<Time>>
    var stats: map<string, nat>

    ghost function Of(key: string): Window
      reads this
    {
      Window(if key in buckets then buckets[key] else [], if key in stats then stats[key] else 0)
    }

    constructor ()
      ensures forall key :: Of(key) == Window([], 0)
    {
      buckets, stats := map[], map[];
    }

    /** The eviction loop shared by `is_allowed` and `get_usage`. */
    method Evict(key: string, now: Time) returns (bucket: seq<Time>)
      modifies `buckets
      ensures key in buckets && buckets[key] == bucket
      ensures bucket == PopStale(old(Of(key)).bucket, now - WINDOW_SECONDS)
      ensures forall k :: k != key ==> Of(k) == old(Of(k))
    {
      bucket := if key in buckets then buckets[key] else [];
      ghost var all := bucket;
      while bucket != [] && bucket[0] < now - WINDOW_SECONDS
        invariant PopStale(bucket, now - WINDOW_SECONDS) == PopStale(all, now - WINDOW_SECONDS)
        decreases |bucket|
      {
        bucket := bucket[1..];
      }
      buckets := buckets[key := bucket];
    }

    method IsAllowed(key: string, tier: string, now: Time) returns (allowed: bool)
      modifies this
      ensures (Of(key), allowed) == Allow(old(Of(key)), LimitFor(tier), now)
      ensures forall k :: k != key ==> Of(k) == old(Of(k))
    {
      var limit := LimitFor(tier);
      var bucket := Evict(key, now);
      if |bucket| >= limit {
        stats := stats[key := (if key in stats then stats[key] else 0) + 1];
        return false;
      }
      buckets := buckets[key := bucket + [now]];
      return true;
    }

    method GetUsage(key: string, tier: string, now: Time) returns (usage: Usage)
      modifies this
      ensures (Of(key), usage) == Report(old(Of(key)), LimitFor(tier), now)
      ensures forall k :: k != key ==> Of(k) == old(Of(k))
    {
      var limit := LimitFor(tier);
      var bucket := Evict(key, now);
      usage := Usage(|bucket|, limit, Max(0, limit - |bucket|), if key in stats then stats[key] else 0);
    }

    method Reset(key: string)
      modifies this
      ensures Of(key) == Window([], 0)
      ensures forall k :: k != key ==> Of(k) == old(Of(k))
    {
      buckets, stats := buckets[key := []], stats[key := 0];
    }
  }

  // ----- Runs on one key -----

  datatype Call = Ask(tier: string, now: Time) | Inspect(tier: string, now: Time) | Reset

  function After(w: Window, call: Call): Window {
    match call
    case Ask(tier, now) => Allow(w, LimitFor(tier), now).0
    case Inspect(tier, now) => Report(w, LimitFor(tier), now).0
    case Reset => Window([], 0)
  }

  function RunTo(calls: seq<Call>): Window {
    if calls == [] then Window([], 0) else After(RunTo(calls[..|calls| - 1]), calls[|calls| - 1])
  }

  /** The instants of the requests admitted since the last reset, as the caller saw them. */
  ghost function Admitted(calls: seq<Call>): seq<Time> {
    if calls == [] then []
    else
      var before, last := Admitted(calls[..|calls| - 1]), calls[|calls| - 1];
      match last
      case Ask(tier, now) =>
        if Allow(RunTo(calls[..|calls| - 1]), LimitFor(tier), now).1 then before + [now] else before
      case Inspect(_, _) => before
      case Reset => []
  }

  /** How many requests were refused since the last reset. */
  ghost function Refused(calls: seq<Call>): nat {
    if calls == [] then 0
    else
      var before, last := Refused(calls[..|calls| - 1]), calls[|calls| - 1];
      match last
      case Ask(tier, now) =>
        if Allow(RunTo(calls[..|calls| - 1]), LimitFor(tier), now).1 then before else before + 1
      case Inspect(_, _) => before
      case Reset => 0
  }

  /** The clock never goes back, and no reading is later than `t`. */
  ghost predicate Clocked(calls: seq<Call>, t: Time) {
    if calls == [] then true
    else
      var before := calls[..|calls| - 1];
      match calls[|calls| - 1]
      case Reset => Clocked(before, t)
      case Ask(_, now) => now <= t && Clocked(before, now)
      case Inspect(_, now) => now <= t && Clocked(before, now)
  }

  ghost predicate Ascending(times: seq<Time>) {
    forall i, j :: 0 <= i < j < |times| ==> times[i] <= times[j]
  }

  // ----- The popping loop filters -----

  ghost function NotBefore(times: seq<Time>, cutoff: Time): seq<Time> {
    if times == [] then []
    else if times[0] >= cutoff then [times[0]] + NotBefore(times[1..], cutoff)
    else NotBefore(times[1..], cutoff)
  }

  /** Popping stale instants from the front of an ascending deque removes every stale instant. */
  lemma {:induction false} PoppingIsFiltering(bucket: seq<Time>, cutoff: Time)
    requires Ascending(bucket)
    ensures PopStale(bucket, cutoff) == NotBefore(bucket, cutoff)
  {
    if bucket != [] {
      if bucket[0] < cutoff {
        PoppingIsFiltering(bucket[1..], cutoff);
      } else {
        AllKept(bucket, cutoff);
      }
    }
  }

  lemma {:induction false} AllKept(times: seq<Time>, cutoff: Time)
    requires forall i :: 0 <= i < |times| ==> cutoff <= times[i]
    ensures NotBefore(times, cutoff) == times
  {
    if times != [] {
      AllKept(times[1..], cutoff);
    }
  }

  lemma {:induction false} PopStaleSuffix(bucket: seq<Time>, cutoff: Time)
    requires Ascending(bucket)
    ensures var live := PopStale(bucket, cutoff);
            && |live| <= |bucket| && live == bucket[|bucket| - |live|..]
            && (forall i :: 0 <= i < |bucket| - |live| ==> bucket[i] < cutoff)
            && (forall i :: 0 <= i < |live| ==> cutoff <= live[i])
  {
    if bucket != [] && bucket[0] < cutoff {
      PopStaleSuffix(bucket[1..], cutoff);
    }
  }

  // ----- What the deque holds -----

  /** The deque is the end of the admitted sequence; what is missing was stale by time `t`. */
  ghost predicate Tracks(w: Window, admitted: seq<Time>, t: Time) {
    && Ascending(admitted)
    && (forall i :: 0 <= i < |admitted| ==> admitted[i] <= t)
    && |w.bucket| <= |admitted|
    && w.bucket == admitted[|admitted| - |w.bucket|..]
    && (forall i :: 0 <= i < |admitted| - |w.bucket| ==> admitted[i] < t - WINDOW_SECONDS)
  }

  lemma PopTracks(w: Window, admitted: seq<Time>, t: Time, now: Time)
    requires Tracks(w, admitted, t) && t <= now
    ensures Tracks(w.(bucket := PopStale(w.bucket, now - WINDOW_SECONDS)), admitted, now)
  {
    var live := PopStale(w.bucket, now - WINDOW_SECONDS);
    PopStaleSuffix(w.bucket, now - WINDOW_SECONDS);
    var gone := |admitted| - |live|;
    assert live == admitted[gone..];
    forall i | 0 <= i < gone ensures admitted[i] < now - WINDOW_SECONDS {
      if i >= |admitted| - |w.bucket| {
        assert admitted[i] == w.bucket[i - (|admitted| - |w.bucket|)];
      }
    }
  }

  /** After popping, the length of the deque is the true count of the window. */
  lemma PopCounts(w: Window, admitted: seq<Time>, now: Time)
    requires Tracks(w, admitted, now)
    ensures |PopStale(w.bucket, now - WINDOW_SECONDS)| == CountIn(admitted, now - WINDOW_SECONDS, now)
  {
    PopTracks(w, admitted, now, now);
    PopStaleSuffix(w.bucket, now - WINDOW_SECONDS);
    var live := PopStale(w.bucket, now - WINDOW_SECONDS);
    var gone := |admitted| - |live|;
    forall i | gone <= i < |admitted| ensures now - WINDOW_SECONDS <= admitted[i] {
      assert admitted[i] == live[i - gone];
    }
    CountSplit(admitted, gone, now - WINDOW_SECONDS, now);
  }

  /** Both answers are those of the true count. */
  lemma AnswersExactly(w: Window, admitted: seq<Time>, limit: nat, now: Time)
    requires Tracks(w, admitted, now)
    ensures var count := CountIn(admitted, now - 60.0, now);
            && (Allow(w, limit, now).1 <==> count < limit)
            && Report(w, limit, now).1 == Usage(count, limit, if count < limit then limit - count else 0, w.blocked)
  {
    PopCounts(w, admitted, now);
  }

  lemma AllowTracks(w: Window, admitted: seq<Time>, limit: nat, now: Time)
    requires Tracks(w, admitted, now)
    ensures var (w', allowed) := Allow(w, limit, now);
            Tracks(w', if allowed then admitted + [now] else admitted, now)
  {
    PopTracks(w, admitted, now, now);
  }

  /** Exactly the instants from index `k` on lie in the interval. */
  lemma {:induction false} CountSplit(times: seq<Time>, k: nat, lo: Time, hi: Time)
    requires k <= |times|
    requires forall i :: 0 <= i < k ==> times[i] < lo
    requires forall i :: k <= i < |times| ==> lo <= times[i] <= hi
    ensures CountIn(times, lo, hi) == |times| - k
  {
    if times != [] {
      if k == |times| {
        CountSplit(times[..|times| - 1], k - 1, lo, hi);
      } else {
        CountSplit(times[..|times| - 1], k, lo, hi);
      }
    }
  }

  /** What the run leaves is what was admitted and refused, as seen at time `t`. */
  ghost predicate RunIsTracked(calls: seq<Call>, t: Time) {
    Tracks(RunTo(calls), Admitted(calls), t) && RunTo(calls).blocked == Refused(calls)
  }

  lemma TrackedNow(calls: seq<Call>, now: Time, t: Time)
    requires Tracks(RunTo(calls), Admitted(calls), now) && RunTo(calls).blocked == Refused(calls) && now <= t
    ensures RunIsTracked(calls, t)
  {
    TracksLater(RunTo(calls), Admitted(calls), now, t);
  }

  lemma AskIsTracked(before: seq<Call>, tier: string, now: Time, t: Time)
    requires RunIsTracked(before, now) && now <= t
    ensures RunIsTracked(before + [Ask(tier, now)], t)
  {
    AllowTracks(RunTo(before), Admitted(before), LimitFor(tier), now);
    AskSnoc(before, tier, now);
    TrackedNow(before + [Ask(tier, now)], now, t);
  }

  lemma AskSnoc(before: seq<Call>, tier: string, now: Time)
    ensures var calls := before + [Ask(tier, now)];
            var (w, allowed) := Allow(RunTo(before), LimitFor(tier), now);
            && RunTo(calls) == w
            && Admitted(calls) == (if allowed then Admitted(before) + [now] else Admitted(before))
            && Refused(calls) == Refused(before) + (if allowed then 0 else 1)
  {
    assert (before + [Ask(tier, now)])[..|before|] == before;
  }

  lemma TracksLater(w: Window, admitted: seq<Time>, now: Time, t: Time)
    requires Tracks(w, admitted, now) && now <= t
    ensures Tracks(w, admitted, t)
  {
  }

  lemma InspectIsTracked(before: seq<Call>, tier: string, now: Time, t: Time)
    requires RunIsTracked(before, now) && now <= t
    ensures RunIsTracked(before + [Inspect(tier, now)], t)
  {
    PopTracks(RunTo(before), Admitted(before), now, now);
    InspectSnoc(before, tier, now);
    TrackedNow(before + [Inspect(tier, now)], now, t);
  }

  lemma InspectSnoc(before: seq<Call>, tier: string, now: Time)
    ensures var calls := before + [Inspect(tier, now)];
            && RunTo(calls) == RunTo(before).(bucket := PopStale(RunTo(before).bucket, now - WINDOW_SECONDS))
            && Admitted(calls) == Admitted(before) && Refused(calls) == Refused(before)
  {
    assert (before + [Inspect(tier, now)])[..|before|] == before;
  }

  lemma ResetIsTracked(before: seq<Call>, t: Time)
    ensures RunIsTracked(before + [Reset], t)
  {
  }

  lemma {:induction false} RunTracks(calls: seq<Call>, t: Time)
    requires Clocked(calls, t)
    ensures RunIsTracked(calls, t)
  {
    if calls != [] {
      var before, last := calls[..|calls| - 1], calls[|calls| - 1];
      assert before + [last] == calls;
      match last
      case Ask(tier, now) =>
        RunTracks(before, now);
        AskIsTracked(before, tier, now, t);
      case Inspect(tier, now) =>
        RunTracks(before, now);
        InspectIsTracked(before, tier, now, t);
      case Reset => ResetIsTracked(before, t);
    }
  }

  // ----- Main results -----

  /** A request is admitted exactly when fewer than its tier's limit were admitted in the last 60 seconds. */
  lemma DecisionIsExact(calls: seq<Call>, tier: string, now: Time)
    requires Clocked(calls, now)
    ensures var limit := if tier == "enterprise" then 9999 else if tier == "pro" then 120 else 30;
            Allow(RunTo(calls), LimitFor(tier), now).1 <==> CountIn(Admitted(calls), now - 60.0, now) < limit
  {
    RunTracks(calls, now);
    AnswersExactly(RunTo(calls), Admitted(calls), LimitFor(tier), now);
  }

  /** `get_usage` reports the true window count, the tier's limit, the room left and the refusals since the reset. */
  lemma UsageIsExact(calls: seq<Call>, tier: string, now: Time)
    requires Clocked(calls, now)
    ensures var usage := Report(RunTo(calls), LimitFor(tier), now).1;
            var limit := if tier == "enterprise" then 9999 else if tier == "pro" then 120 else 30;
            && usage.requestsInWindow == CountIn(Admitted(calls), now - 60.0, now)
            && usage.totalBlocked == Refused(calls) && usage.limit == limit
            && usage.remaining == (if usage.requestsInWindow < limit then limit - usage.requestsInWindow else 0)
            && (usage.remaining > 0 <==> Allow(RunTo(calls), LimitFor(tier), now).1)
  {
    RunTracks(calls, now);
    AnswersExactly(RunTo(calls), Admitted(calls), LimitFor(tier), now);
  }

  /** On any deque and any clock: instants go from the front while older than 60 seconds, then one is added if there is room. */
  lemma AllowEffect(w: Window, limit: nat, now: Time) returns (gone: nat)
    ensures gone <= |w.bucket| && (gone < |w.bucket| ==> now - 60.0 <= w.bucket[gone])
    ensures forall i :: 0 <= i < gone ==> w.bucket[i] < now - 60.0
    ensures Allow(w, limit, now) ==
              if |w.bucket| - gone < limit then (Window(w.bucket[gone..] + [now], w.blocked), true)
              else (Window(w.bucket[gone..], w.blocked + 1), false)
    ensures Report(w, limit, now).0 == Window(w.bucket[gone..], w.blocked)
  {
    gone := Popped(w.bucket, now - 60.0);
  }

  lemma {:induction false} Popped(bucket: seq<Time>, cutoff: Time) returns (gone: nat)
    ensures gone <= |bucket| && PopStale(bucket, cutoff) == bucket[gone..]
    ensures (forall i :: 0 <= i < gone ==> bucket[i] < cutoff) && (gone < |bucket| ==> cutoff <= bucket[gone])
  {
    gone := 0;
    if bucket != [] && bucket[0] < cutoff {
      var more := Popped(bucket[1..], cutoff);
      gone := more + 1;
    }
  }

  lemma {:induction false} CountUpTo(times: seq<Time>, lo: Time, hi: Time, now: Time)
    requires forall i :: 0 <= i < |times| ==> times[i] <= now
    ensures CountIn(times, lo, hi) <= CountIn(times, lo, now)
  {
    if times != [] {
      CountUpTo(times[..|times| - 1], lo, hi, now);
    }
  }

  /** What lies in an interval around `now` was admitted within the last 60 seconds. */
  lemma IntervalWithinWindow(calls: seq<Call>, now: Time, a: Time)
    requires Clocked(calls, now) && a <= now <= a + WINDOW_SECONDS
    ensures CountIn(Admitted(calls), a, a + WINDOW_SECONDS) <= CountIn(Admitted(calls), now - WINDOW_SECONDS, now)
  {
    RunTracks(calls, now);
    CountUpTo(Admitted(calls), a, a + WINDOW_SECONDS, now);
    CountInMonotone(Admitted(calls), a, now, now - WINDOW_SECONDS, now);
  }

  ghost predicate LimitsWithin(calls: seq<Call>, limit: nat) {
    if calls == [] then true
    else
      LimitsWithin(calls[..|calls| - 1], limit) &&
      (calls[|calls| - 1].Ask? ==> LimitFor(calls[|calls| - 1].tier) <= limit)
  }

  /** One more admitted request still fits every interval around it. */
  lemma AdmissionFits(before: seq<Call>, tier: string, now: Time, limit: nat, a: Time)
    requires Clocked(before, now) && LimitFor(tier) <= limit && a <= now <= a + WINDOW_SECONDS
    requires Allow(RunTo(before), LimitFor(tier), now).1
    ensures CountIn(Admitted(before), a, a + WINDOW_SECONDS) + 1 <= limit
  {
    DecisionIsExact(before, tier, now);
    IntervalWithinWindow(before, now, a);
  }

  /** Every closed interval of 60 seconds holds at most `limit` admitted requests. */
  lemma {:induction false} ClosedWindowBound(calls: seq<Call>, t: Time, limit: nat, a: Time)
    requires Clocked(calls, t) && LimitsWithin(calls, limit)
    ensures CountIn(Admitted(calls), a, a + 60.0) <= limit
  {
    if calls != [] {
      var before, last := calls[..|calls| - 1], calls[|calls| - 1];
      match last
      case Reset =>
      case Inspect(tier, now) => ClosedWindowBound(before, now, limit, a);
      case Ask(tier, now) =>
        ClosedWindowBound(before, now, limit, a);
        if a <= now <= a + WINDOW_SECONDS && Allow(RunTo(before), LimitFor(tier), now).1 {
          AdmissionFits(before, tier, now, limit, a);
        }
        assert Allow(RunTo(before), LimitFor(tier), now).1 ==>
                 Admitted(calls) == Admitted(before) + [now] && (Admitted(before) + [now])[..|Admitted(before)|] == Admitted(before);
    }
  }
}
