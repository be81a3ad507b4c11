/**
 Many workers, one sorted set. A request is one atomic transaction; a refused one removes its member
 later, and anything may happen in between. Worker clocks lag by up to `skew` seconds.
 */
module LimiterProtocol {
  import opened Prelude
  import opened RedisLimiter

  datatype Step =
    | Ask(member: Member, limit: nat)  // the transaction, and the decision taken on its count
    | Undo(member: Member)             // the ZREM of a request that was over the limit
    | LateUndo(member: Member)         // the same, but the key has been reset since the request
    | Sweep(now: Time)                 // get_usage
    | Expire(now: Time)                // the server drops the key, all of whose entries are stale at `now`
    | Reset

  /**
   The server's set and what has happened to it: the members of admitted requests since the last
   reset, in order; blocked requests whose undo is outstanding, split into those from before the
   last reset (`stray`) and the others; the furthest clock reading.
   */
  datatype Protocol = Protocol(zset: ZSet, admitted: seq<Member>, pending: multiset<Member>, stray: multiset<Member>,
                               furthest: Time)

  function Begin(start: Time): Protocol {
    Protocol(map[], [], multiset{}, multiset{}, start)
  }

  ghost predicate Enabled(p: Protocol, step: Step, skew: Time) {
    match step
    case Ask(m, limit) => m.now >= p.furthest - skew
    case Undo(m) => m in p.pending
    case LateUndo(m) => m in p.stray
    case Sweep(now) => now >= p.furthest - skew
    case Expire(now) => now >= p.furthest - skew && forall m :: m in p.zset ==> p.zset[m] <= now - WINDOW_SECONDS
    case Reset => true
  }

  function Later(s: Time, t: Time): Time {
    if s < t then t else s
  }

  predicate Admits(p: Protocol, m: Member, limit: nat) {
    Transact(p.zset, m).1 < limit
  }

  function Apply(p: Protocol, step: Step): Protocol {
    match step
    case Ask(m, limit) =>
      var asked := p.(zset := Transact(p.zset, m).0, furthest := Later(p.furthest, m.now));
      if Admits(p, m, limit) then asked.(admitted := p.admitted + [m]) else asked.(pending := p.pending + multiset{m})
    case Undo(m) => p.(zset := p.zset - {m}, pending := p.pending - multiset{m})
    case LateUndo(m) => p.(zset := p.zset - {m}, stray := p.stray - multiset{m})
    case Sweep(now) => p.(zset := Trim(p.zset, now - WINDOW_SECONDS), furthest := Later(p.furthest, now))
    case Expire(now) => p.(zset := map[], furthest := Later(p.furthest, now))
    case Reset => p.(zset := map[], admitted := [], pending := multiset{}, stray := p.stray + p.pending)
  }

  function RunTo(start: Time, steps: seq<Step>): Protocol {
    if steps == [] then Begin(start) else Apply(RunTo(start, steps[..|steps| - 1]), steps[|steps| - 1])
  }

  ghost predicate Possible(start: Time, steps: seq<Step>, skew: Time) {
    if steps == [] then true
    else
      var before := steps[..|steps| - 1];
      Possible(start, before, skew) && Enabled(RunTo(start, before), steps[|steps| - 1], skew)
  }

  // ----- Undos -----

  /** The removals owed after a step: a refused request owes one, until it is done. */
  ghost function StillOwed(owed: multiset<Member>, zset: ZSet, step: Step): multiset<Member> {
    match step
    case Ask(m, limit) => if Transact(zset, m).1 >= limit then owed + multiset{m} else owed
    case Undo(m) => owed - multiset{m}
    case LateUndo(m) => owed - multiset{m}
    case Sweep(_) => owed
    case Expire(_) => owed
    case Reset => owed
  }

  ghost function Owed(start: Time, steps: seq<Step>): multiset<Member> {
    if steps == [] then multiset{}
    else
      var before := steps[..|steps| - 1];
      StillOwed(Owed(start, before), RunTo(start, before).zset, steps[|steps| - 1])
  }

  lemma StepOwes(p: Protocol, step: Step, skew: Time)
    requires Enabled(p, step, skew)
    ensures Apply(p, step).pending + Apply(p, step).stray == StillOwed(p.pending + p.stray, p.zset, step)
  {
  }

  /** None is lost, over resets either, and none is done twice. */
  lemma {:induction false} UndosAreOwed(start: Time, steps: seq<Step>, skew: Time)
    requires Possible(start, steps, skew)
    ensures RunTo(start, steps).pending + RunTo(start, steps).stray == Owed(start, steps)
  {
    if steps != [] {
      var before := steps[..|steps| - 1];
      UndosAreOwed(start, before, skew);
      StepOwes(RunTo(start, before), steps[|steps| - 1], skew);
    }
  }

  // ----- What the set holds -----

  predicate Unexpired(p: Protocol, m: Member) {
    m.now > p.furthest - WINDOW_SECONDS
  }

  /** Every request since the last reset that still counts: admitted, or blocked and in flight. */
  ghost function Requests(p: Protocol): multiset<Member> {
    multiset(p.admitted) + p.pending
  }

  /** The set has exactly one entry for each unexpired request, and no other entry. */
  ghost predicate CountsEveryRequest(p: Protocol) {
    && (forall m :: Unexpired(p, m) ==> Requests(p)[m] == if m in p.zset then 1 else 0)
    && (forall m :: m in p.zset ==> Unexpired(p, m) && p.zset[m] == m.now)
  }

  /** The step does not concern an entry that belongs to another request. */
  predicate Harmless(p: Protocol, step: Step) {
    match step
    case Ask(m, limit) => m !in p.zset
    case LateUndo(m) => m !in p.zset
    case _ => true
  }

  lemma AskCountsIff(p: Protocol, m: Member, limit: nat, skew: Time)
    requires 0.0 <= skew < WINDOW_SECONDS && CountsEveryRequest(p) && Enabled(p, Ask(m, limit), skew)
    ensures CountsEveryRequest(Apply(p, Ask(m, limit))) <==> m !in p.zset
  {
    var p' := Apply(p, Ask(m, limit));
    assert multiset(p.admitted + [m]) == multiset(p.admitted) + multiset{m};
    assert Requests(p') == Requests(p) + multiset{m};
    assert Unexpired(p, m) && Unexpired(p', m) && m in p'.zset;
    if m in p.zset {
      assert Requests(p')[m] == 2;
    } else {
      forall x | Unexpired(p', x) ensures Requests(p')[x] == if x in p'.zset then 1 else 0 {
        assert Unexpired(p, x);
      }
    }
  }

  lemma UndoCounts(p: Protocol, m: Member)
    requires CountsEveryRequest(p) && m in p.pending
    ensures CountsEveryRequest(Apply(p, Undo(m)))
  {
    var p' := Apply(p, Undo(m));
    forall x | Unexpired(p', x) ensures Requests(p')[x] == if x in p'.zset then 1 else 0 {
      assert Requests(p')[x] == Requests(p)[x] - (if x == m then 1 else 0);
    }
  }

  lemma LateUndoCountsIff(p: Protocol, m: Member)
    requires CountsEveryRequest(p)
    ensures CountsEveryRequest(Apply(p, LateUndo(m))) <==> m !in p.zset
  {
    var p' := Apply(p, LateUndo(m));
    assert Requests(p') == Requests(p);
    if m in p.zset {
      assert Unexpired(p', m) && m !in p'.zset;
    } else {
      assert p'.zset == p.zset;
    }
  }

  /** One step keeps the count right if and only if it is harmless. */
  lemma StepCountsIff(p: Protocol, step: Step, skew: Time)
    requires 0.0 <= skew < WINDOW_SECONDS && CountsEveryRequest(p) && Enabled(p, step, skew)
    ensures CountsEveryRequest(Apply(p, step)) <==> Harmless(p, step)
  {
    match step
    case Ask(m, limit) => AskCountsIff(p, m, limit, skew);
    case Undo(m) => UndoCounts(p, m);
    case LateUndo(m) => LateUndoCountsIff(p, m);
    case Sweep(now) => assert Requests(Apply(p, step)) == Requests(p);
    case Expire(now) => assert Requests(Apply(p, step)) == Requests(p);
    case Reset =>
  }

  ghost predicate CountsThroughout(start: Time, steps: seq<Step>) {
    CountsEveryRequest(RunTo(start, steps)) && (steps != [] ==> CountsThroughout(start, steps[..|steps| - 1]))
  }

  predicate AllHarmless(start: Time, steps: seq<Step>) {
    if steps == [] then true
    else
      var before := steps[..|steps| - 1];
      AllHarmless(start, before) && Harmless(RunTo(start, before), steps[|steps| - 1])
  }

  /**
   However transactions, undos, sweeps, expiries and resets interleave: the set has one entry for each
   unexpired request at every point of a run if and only if no request and no late undo of the run
   finds its member in the set.
   */
  lemma {:induction false} SetStaysExact(start: Time, steps: seq<Step>, skew: Time)
    requires 0.0 <= skew < WINDOW_SECONDS && Possible(start, steps, skew)
    ensures CountsThroughout(start, steps) <==> AllHarmless(start, steps)
  {
    if steps != [] {
      var before := steps[..|steps| - 1];
      SetStaysExact(start, before, skew);
      if CountsThroughout(start, before) {
        CountsNow(start, before);
        StepCountsIff(RunTo(start, before), steps[|steps| - 1], skew);
      }
    }
  }

  lemma CountsNow(start: Time, steps: seq<Step>)
    requires CountsThroughout(start, steps)
    ensures CountsEveryRequest(RunTo(start, steps))
  {
  }

  // ----- Distinct members are harmless -----

  ghost function AskedBy(steps: seq<Step>): seq<Member> {
    if steps == [] then []
    else
      var last := steps[|steps| - 1];
      AskedBy(steps[..|steps| - 1]) + (if last.Ask? then [last.member] else [])
  }

  /** All members at hand have been asked with; those of outstanding late undos are not in the set. */
  ghost predicate KnownMembers(p: Protocol, asked: seq<Member>) {
    && (forall m :: m in p.zset || m in p.pending || m in p.stray ==> m in asked)
    && (forall m :: m in p.stray ==> m !in p.zset && m !in p.pending)
  }

  lemma KnownStep(p: Protocol, step: Step, asked: seq<Member>, skew: Time)
    requires KnownMembers(p, asked) && Enabled(p, step, skew) && (step.Ask? ==> step.member !in asked)
    ensures KnownMembers(Apply(p, step), asked + (if step.Ask? then [step.member] else []))
    ensures Harmless(p, step)
  {
  }

  /** If no two requests of a run share a member, all of its steps are harmless. */
  lemma {:induction false} DistinctAreHarmless(start: Time, steps: seq<Step>, skew: Time)
    requires Possible(start, steps, skew) && Distinct(AskedBy(steps))
    ensures AllHarmless(start, steps) && KnownMembers(RunTo(start, steps), AskedBy(steps))
  {
    if steps != [] {
      var before, last := steps[..|steps| - 1], steps[|steps| - 1];
      if last.Ask? {
        DistinctFront(AskedBy(before), last.member);
      } else {
        assert AskedBy(steps) == AskedBy(before);
      }
      DistinctAreHarmless(start, before, skew);
      KnownStep(RunTo(start, before), last, AskedBy(before), skew);
    }
  }

  lemma DistinctFront(front: seq<Member>, last: Member)
    requires Distinct(front + [last])
    ensures Distinct(front) && last !in front
  {
    var all := front + [last];
    assert forall i :: 0 <= i < |front| ==> all[i] == front[i];
    assert all[|front|] == last;
  }

  // ----- Safety -----

  /** Members whose instant lies in the half-open interval [lo, hi). */
  ghost function CountWithin(ms: seq<Member>, lo: Time, hi: Time): nat {
    if ms == [] then 0
    else CountWithin(ms[..|ms| - 1], lo, hi) + (if lo <= ms[|ms| - 1].now < hi then 1 else 0)
  }

  lemma {:induction false} CountFitsSet(ms: seq<Member>, lo: Time, hi: Time, s: set<Member>)
    requires forall m :: m in ms && lo <= m.now < hi ==> m in s && multiset(ms)[m] == 1
    ensures CountWithin(ms, lo, hi) <= |s|
  {
    if ms != [] {
      var front, last := ms[..|ms| - 1], ms[|ms| - 1];
      assert ms == front + [last] && multiset(ms) == multiset(front) + multiset{last};
      forall m | m in front && lo <= m.now < hi ensures m in s && multiset(front)[m] == 1 && m != last {
        assert m in ms && m in multiset(front);
      }
      if lo <= last.now < hi {
        CountFitsSet(front, lo, hi, s - {last});
        assert |s - {last}| == |s| - 1;
      } else {
        CountFitsSet(front, lo, hi, s);
      }
    }
  }

  lemma AdmittedIsCounted(p: Protocol, now: Time, skew: Time, lo: Time, hi: Time, x: Member)
    requires 0.0 <= skew < WINDOW_SECONDS && CountsEveryRequest(p) && now >= p.furthest - skew
    requires lo <= now < hi <= lo + WINDOW_SECONDS - skew
    requires x in p.admitted && lo <= x.now < hi
    ensures x in Trim(p.zset, now - WINDOW_SECONDS) && multiset(p.admitted)[x] == 1
  {
    assert x in multiset(p.admitted) && Unexpired(p, x);
    assert Requests(p)[x] >= multiset(p.admitted)[x];
  }

  /** What an interval around the new instant already holds has been counted by the transaction. */
  lemma AdmissionSeesInterval(p: Protocol, m: Member, skew: Time, lo: Time, hi: Time)
    requires 0.0 <= skew < WINDOW_SECONDS && CountsEveryRequest(p) && m.now >= p.furthest - skew
    requires lo <= m.now < hi <= lo + WINDOW_SECONDS - skew
    ensures CountWithin(p.admitted, lo, hi) <= Transact(p.zset, m).1
  {
    var live := Trim(p.zset, m.now - WINDOW_SECONDS);
    forall x | x in p.admitted && lo <= x.now < hi ensures x in live.Keys && multiset(p.admitted)[x] == 1 {
      AdmittedIsCounted(p, m.now, skew, lo, hi, x);
    }
    CountFitsSet(p.admitted, lo, hi, live.Keys);
    assert |live.Keys| == |live|;
  }

  ghost predicate LimitsWithin(steps: seq<Step>, limit: nat) {
    forall step :: step in steps && step.Ask? ==> step.limit <= limit
  }

  lemma StepIsSafe(p: Protocol, step: Step, skew: Time, limit: nat, a: Time)
    requires 0.0 <= skew < 60.0 && CountsEveryRequest(p) && Enabled(p, step, skew)
    requires step.Ask? ==> step.limit <= limit
    requires CountWithin(p.admitted, a, a + 60.0 - skew) <= limit
    ensures CountWithin(Apply(p, step).admitted, a, a + 60.0 - skew) <= limit
  {
    if step.Ask? && Admits(p, step.member, step.limit) {
      var admitted' := Apply(p, step).admitted;
      assert admitted'[..|admitted'| - 1] == p.admitted;
      if a <= step.member.now < a + 60.0 - skew {
        AdmissionSeesInterval(p, step.member, skew, a, a + 60.0 - skew);
      }
    }
  }

  /** Every half-open window of 60 - skew seconds holds at most `limit` admitted requests. */
  lemma {:induction false} WindowIsSafe(start: Time, steps: seq<Step>, skew: Time, limit: nat, a: Time)
    requires 0.0 <= skew < 60.0 && Possible(start, steps, skew) && AllHarmless(start, steps)
    requires LimitsWithin(steps, limit)
    ensures CountWithin(RunTo(start, steps).admitted, a, a + 60.0 - skew) <= limit
  {
    if steps != [] {
      var before, step := steps[..|steps| - 1], steps[|steps| - 1];
      WindowIsSafe(start, before, skew, limit, a);
      SetStaysExact(start, before, skew);
      CountsNow(start, before);
      StepIsSafe(RunTo(start, before), step, skew, limit, a);
    }
  }

  /** The entries a request at `now` is counted against. */
  ghost function Counted(p: Protocol, now: Time): set<Member> {
    set m | m in p.zset && m.now > now - WINDOW_SECONDS
  }

  lemma DecisionCounts(p: Protocol, m: Member, limit: nat)
    requires CountsEveryRequest(p)
    ensures Admits(p, m, limit) <==> |Counted(p, m.now)| < limit
  {
    var live := Trim(p.zset, m.now - WINDOW_SECONDS);
    assert live.Keys == Counted(p, m.now);
    assert |live.Keys| == |live|;
  }

  /** A request is refused exactly against `limit` unexpired entries, admitted or still in flight. */
  lemma RefusalHasCause(start: Time, steps: seq<Step>, skew: Time, m: Member, limit: nat)
    requires 0.0 <= skew < 60.0 && Possible(start, steps, skew) && AllHarmless(start, steps)
    ensures var p := RunTo(start, steps);
            && (Admits(p, m, limit) <==> |Counted(p, m.now)| < limit)
            && forall x :: x in Counted(p, m.now) <==>
                 x in Requests(p) && Unexpired(p, x) && x.now > m.now - 60.0
  {
    SetStaysExact(start, steps, skew);
    CountsNow(start, steps);
    DecisionCounts(RunTo(start, steps), m, limit);
  }

  // ----- The skew is needed -----

  /** With the right end included the bound fails: for every skew, two admissions under limit one. */
  lemma SkewBoundIsTight(skew: Time)
    requires 0.0 <= skew < 60.0
    ensures var steps := [Ask(Member(0.0, 1), 1), Sweep(60.0), Ask(Member(60.0 - skew, 2), 1)];
            && Possible(0.0, steps, skew) && AllHarmless(0.0, steps)
            && RunTo(0.0, steps).admitted == [Member(0.0, 1), Member(60.0 - skew, 2)]
  {
    var m1, m2 := Member(0.0, 1), Member(WINDOW_SECONDS - skew, 2);
    var s1, s2, s3 := Ask(m1, 1), Sweep(WINDOW_SECONDS), Ask(m2, 1);
    assert [s1, s2, s3][..2] == [s1, s2] && [s1, s2][..1] == [s1] && [s1][..0] == [];
    var p1 := Protocol(map[m1 := 0.0], [m1], multiset{}, multiset{}, 0.0);
    EmptySetAdmits(Begin(0.0), m1);
    assert RunTo(0.0, []) == Begin(0.0);
    assert RunTo(0.0, [s1]) == Apply(Begin(0.0), s1) == p1;
    var p2 := p1.(zset := map[], furthest := WINDOW_SECONDS);
    SweepsAway(p1, m1);
    assert RunTo(0.0, [s1, s2]) == Apply(p1, s2) == p2;
    EmptySetAdmits(p2, m2);
    assert Possible(0.0, [s1], skew) && Possible(0.0, [s1, s2], skew);
    assert AllHarmless(0.0, [s1]) && AllHarmless(0.0, [s1, s2]);
  }

  lemma SweepsAway(p: Protocol, m: Member)
    requires p.zset == map[m := 0.0] && p.furthest == 0.0
    ensures Apply(p, Sweep(WINDOW_SECONDS)) == p.(zset := map[], furthest := WINDOW_SECONDS)
  {
  }

  lemma EmptySetAdmits(p: Protocol, m: Member)
    requires p.zset == map[]
    ensures Apply(p, Ask(m, 1)) == p.(zset := map[m := m.now], admitted := p.admitted + [m],
                                      furthest := Later(p.furthest, m.now))
  {
    assert Trim(p.zset, m.now - WINDOW_SECONDS) == map[];
  }

  // ----- Shared members -----

  /** A whole request whose undo, if it needs one, follows at once. */
  function Serve(p: Protocol, m: Member, limit: nat): Protocol {
    var (z, allowed) := AskRedis(p.zset, m, limit);
    p.(zset := z, admitted := if allowed then p.admitted + [m] else p.admitted, furthest := Later(p.furthest, m.now))
  }

  /** Those are the two protocol steps in a row. */
  lemma ServeIsAskThenUndo(p: Protocol, m: Member, limit: nat)
    ensures Serve(p, m, limit) ==
              if Admits(p, m, limit) then Apply(p, Ask(m, limit)) else Apply(Apply(p, Ask(m, limit)), Undo(m))
  {
  }

  /**
   After a request's transaction and, if refused, its undo the count is right if and only if the
   member was not in the set: an admitted repeat has no entry of its own, and a refused one removes
   that of the request it repeats.
   */
  lemma CountedIffNotLive(p: Protocol, m: Member, limit: nat, skew: Time)
    requires 0.0 <= skew < WINDOW_SECONDS && CountsEveryRequest(p) && m.now >= p.furthest - skew
    ensures CountsEveryRequest(Serve(p, m, limit)) <==> m !in p.zset
    ensures m in p.zset && !Admits(p, m, limit) ==> m in Requests(Serve(p, m, limit)) && m !in Serve(p, m, limit).zset
  {
    AskCountsIff(p, m, limit, skew);
    ServeIsAskThenUndo(p, m, limit);
    if !Admits(p, m, limit) {
      var asked := Apply(p, Ask(m, limit));
      if m in p.zset {
        assert Unexpired(Serve(p, m, limit), m);
        assert Requests(Serve(p, m, limit)) == Requests(p);
      } else {
        UndoCounts(asked, m);
      }
    }
  }

  // ----- Shared members defeat every limit -----

  /** `n` workers ask at one instant. */
  function Crowd(now: Time, limit: nat, n: nat): Protocol {
    if n == 0 then Begin(now) else Serve(Crowd(now, limit, n - 1), Member(now, n), limit)
  }

  ghost predicate AllIn(p: Protocol, now: Time, n: nat) {
    && (forall m :: m in p.zset <==> m.now == now && 1 <= m.id <= n)
    && (forall m :: m in p.zset ==> p.zset[m] == now)
    && |p.zset| == n && p.furthest == now
    && |p.admitted| == n && CountWithin(p.admitted, now, now + WINDOW_SECONDS) == n
  }

  lemma NothingTrimmed(p: Protocol, now: Time)
    requires forall m :: m in p.zset ==> p.zset[m] == now
    ensures Trim(p.zset, now - WINDOW_SECONDS) == p.zset
  {
  }

  lemma CountLast(ms: seq<Member>, m: Member, lo: Time, hi: Time)
    ensures CountWithin(ms + [m], lo, hi) == CountWithin(ms, lo, hi) + (if lo <= m.now < hi then 1 else 0)
  {
    assert (ms + [m])[..|ms|] == ms;
  }

  lemma AddOne(z: ZSet, m: Member)
    requires m !in z
    ensures |z[m := m.now]| == |z| + 1
  {
    assert z[m := m.now].Keys == z.Keys + {m};
    assert |z| == |z.Keys| && |z[m := m.now]| == |z[m := m.now].Keys|;
  }

  lemma ServeAppends(p: Protocol, m: Member, limit: nat)
    requires |p.zset| < limit && p.furthest == m.now && forall x :: x in p.zset ==> p.zset[x] == m.now
    ensures Serve(p, m, limit) == p.(zset := p.zset[m := m.now], admitted := p.admitted + [m])
  {
    NothingTrimmed(p, m.now);
  }

  lemma OneMore(p: Protocol, now: Time, n: nat, limit: nat)
    requires 1 <= n <= limit && AllIn(p, now, n - 1)
    ensures AllIn(Serve(p, Member(now, n), limit), now, n)
  {
    ServeAppends(p, Member(now, n), limit);
    CountLast(p.admitted, Member(now, n), now, now + WINDOW_SECONDS);
    AddOne(p.zset, Member(now, n));
  }

  lemma {:induction false} CrowdAdmitted(now: Time, limit: nat, n: nat)
    requires n <= limit
    ensures AllIn(Crowd(now, limit, n), now, n)
  {
    if n > 0 {
      var p := Crowd(now, limit, n - 1);
      CrowdAdmitted(now, limit, n - 1);
      OneMore(p, now, n, limit);
    }
  }

  /**
   For every limit: `limit` workers are admitted, the first asks again at the same reading and is
   refused, and its undo makes room for one more than the limit in the same window.
   */
  lemma RefusedRepeatMakesRoom(now: Time, limit: nat)
    requires limit >= 1
    ensures var full := Crowd(now, limit, limit);
            var erased := Serve(full, Member(now, 1), limit);
            var over := Serve(erased, Member(now, limit + 1), limit);
            && CountWithin(full.admitted, now, now + 60.0) == limit
            && !Admits(full, Member(now, 1), limit)
            && CountWithin(over.admitted, now, now + 60.0) == limit + 1
  {
    var full, m := Crowd(now, limit, limit), Member(now, 1);
    CrowdAdmitted(now, limit, limit);
    NothingTrimmed(full, now);
    var erased := Serve(full, m, limit);
    assert erased.zset == full.zset - {m} by { assert full.zset[m := now] == full.zset; }
    assert full.zset.Keys == erased.zset.Keys + {m};
    assert |full.zset| == |full.zset.Keys| && |erased.zset| == |erased.zset.Keys|;
    NothingTrimmed(erased, now);
    CountLast(full.admitted, Member(now, limit + 1), now, now + WINDOW_SECONDS);
  }

  /** The same request `n` times over. */
  function Again(p: Protocol, m: Member, limit: nat, n: nat): Protocol {
    if n == 0 then p else Serve(Again(p, m, limit, n - 1), m, limit)
  }

  lemma TrimTwice(z: ZSet, since: Time)
    ensures Trim(Trim(z, since), since) == Trim(z, since)
  {
  }

  /** A repeat that is admitted leaves the set as the transaction trimmed it. */
  lemma RepeatLeavesSet(p: Protocol, m: Member, limit: nat)
    requires m in p.zset && p.zset[m] == m.now && Admits(p, m, limit)
    ensures Serve(p, m, limit).zset == Trim(p.zset, m.now - WINDOW_SECONDS)
    ensures Serve(p, m, limit).admitted == p.admitted + [m]
    ensures m in Serve(p, m, limit).zset && Serve(p, m, limit).zset[m] == m.now && Admits(Serve(p, m, limit), m, limit)
  {
    var live := Trim(p.zset, m.now - WINDOW_SECONDS);
    assert live[m := m.now] == live;
    TrimTwice(p.zset, m.now - WINDOW_SECONDS);
  }

  /**
   From any state: once a repeat is admitted, any number of further ones is, because the set no longer
   grows. One process at one clock reading makes such repeats.
   */
  lemma {:induction false} RepeatsAreNeverRefused(p: Protocol, m: Member, limit: nat, n: nat)
    requires m in p.zset && p.zset[m] == m.now && Admits(p, m, limit)
    ensures var p' := Again(p, m, limit, n);
            && |p'.admitted| == |p.admitted| + n
            && m in p'.zset && p'.zset[m] == m.now && Admits(p', m, limit)
  {
    if n > 0 {
      RepeatsAreNeverRefused(p, m, limit, n - 1);
      RepeatLeavesSet(Again(p, m, limit, n - 1), m, limit);
    }
  }

  // ----- On the server's clock -----

  /** How far a worker's clock may be ahead of the server's and behind it. */
  datatype Band = Band(ahead: Time, behind: Time)

  predicate InBand(now: Time, at: Time, band: Band) {
    at - band.behind <= now <= at + band.ahead
  }

  /** The protocol with the server's clock and the time at which it drops the key. */
  datatype Server = Server(p: Protocol, clock: Time, deadline: Time)

  /** A step and when the server runs it. */
  datatype Timed = Timed(step: Step, at: Time)

  ghost predicate ServerEnabled(s: Server, e: Timed, band: Band) {
    && s.clock <= e.at
    && match e.step
       case Ask(m, limit) => InBand(m.now, e.at, band)
       case Undo(m) => m in s.p.pending
       case LateUndo(m) => m in s.p.stray
       case Sweep(now) => InBand(now, e.at, band)
       case Expire(now) => s.deadline <= e.at && now == e.at + band.ahead
       case Reset => true
  }

  function ServerApply(s: Server, e: Timed): Server {
    Server(Apply(s.p, e.step), e.at, if e.step.Ask? then e.at + EXPIRE_SECONDS else s.deadline)
  }

  function ServerRun(start: Time, es: seq<Timed>): Server {
    if es == [] then Server(Begin(start), start, start)
    else ServerApply(ServerRun(start, es[..|es| - 1]), es[|es| - 1])
  }

  ghost predicate ServerPossible(start: Time, es: seq<Timed>, band: Band) {
    if es == [] then true
    else
      var before := es[..|es| - 1];
      ServerPossible(start, before, band) && ServerEnabled(ServerRun(start, before), es[|es| - 1], band)
  }

  function Steps(es: seq<Timed>): seq<Step> {
    if es == [] then [] else Steps(es[..|es| - 1]) + [es[|es| - 1].step]
  }

  /** No reading has been further than the band allows, and entries are as old as the deadline says. */
  ghost predicate ServerOk(s: Server, band: Band) {
    && s.p.furthest <= s.clock + band.ahead
    && s.deadline <= s.clock + EXPIRE_SECONDS
    && forall m :: m in s.p.zset ==> s.p.zset[m] <= s.deadline - EXPIRE_SECONDS + band.ahead
  }

  lemma ServerStep(s: Server, e: Timed, band: Band)
    requires band.ahead >= 0.0 && band.behind >= 0.0 && ServerOk(s, band) && ServerEnabled(s, e, band)
    ensures Enabled(s.p, e.step, band.ahead + band.behind) && ServerOk(ServerApply(s, e), band)
  {
  }

  /**
   With worker clocks in a band around the server's, every run is one of the protocol with the width
   of the band as skew; dropping the key at its deadline is an expiry in the protocol's sense.
   */
  lemma {:induction false} ServerRunIsPossible(start: Time, es: seq<Timed>, band: Band)
    requires band.ahead >= 0.0 && band.behind >= 0.0 && ServerPossible(start, es, band)
    ensures Possible(start, Steps(es), band.ahead + band.behind)
    ensures ServerRun(start, es).p == RunTo(start, Steps(es)) && ServerOk(ServerRun(start, es), band)
  {
    if es != [] {
      var before, e := es[..|es| - 1], es[|es| - 1];
      ServerRunIsPossible(start, before, band);
      ServerStep(ServerRun(start, before), e, band);
      assert Steps(es)[..|Steps(es)| - 1] == Steps(before);
    }
  }

  /** So the limit holds on the server's clock, expiries included. */
  lemma ServerWindowIsSafe(start: Time, es: seq<Timed>, band: Band, skew: Time, limit: nat, a: Time)
    requires band.ahead >= 0.0 && band.behind >= 0.0 && skew == band.ahead + band.behind < 60.0
    requires ServerPossible(start, es, band) && AllHarmless(start, Steps(es)) && LimitsWithin(Steps(es), limit)
    ensures CountWithin(ServerRun(start, es).p.admitted, a, a + 60.0 - skew) <= limit
  {
    ServerRunIsPossible(start, es, band);
    WindowIsSafe(start, Steps(es), skew, limit, a);
  }

  /** Whatever is in the set at its deadline, the next transaction would trim it anyway. */
  ghost predicate ExpiryIsHarmless(band: Band) {
    forall start, es, at, now ::
      ServerPossible(start, es, band) && ServerRun(start, es).clock <= at && ServerRun(start, es).deadline <= at
      && InBand(now, at, band) ==>
        Trim(ServerRun(start, es).p.zset, now - WINDOW_SECONDS) == map[]
  }

  /** The five seconds by which the key outlives the window are for the clocks: exactly that much is harmless. */
  lemma ExpiryIsHarmlessIff(band: Band)
    requires band.ahead >= 0.0 && band.behind >= 0.0
    ensures ExpiryIsHarmless(band) <==> band.ahead + band.behind <= 5.0
  {
    if band.ahead + band.behind <= EXPIRE_SECONDS - WINDOW_SECONDS {
      forall start, es, at, now |
        ServerPossible(start, es, band) && ServerRun(start, es).clock <= at && ServerRun(start, es).deadline <= at
        && InBand(now, at, band)
        ensures Trim(ServerRun(start, es).p.zset, now - WINDOW_SECONDS) == map[]
      {
        ServerRunIsPossible(start, es, band);
      }
    } else {
      EarlyExpiry(band);
    }
  }

  /** Otherwise one request suffices: asked by the fastest clock, still counted by the slowest. */
  lemma EarlyExpiry(band: Band)
    requires band.ahead >= 0.0 && band.behind >= 0.0 && band.ahead + band.behind > EXPIRE_SECONDS - WINDOW_SECONDS
    ensures !ExpiryIsHarmless(band)
  {
    var m := Member(band.ahead, 1);
    var e := Timed(Ask(m, 1), 0.0);
    assert [e][..0] == [];
    EmptySetAdmits(Begin(0.0), m);
    var s := ServerRun(0.0, [e]);
    assert ServerRun(0.0, []) == Server(Begin(0.0), 0.0, 0.0);
    assert s.p.zset == map[m := m.now] && s.deadline == EXPIRE_SECONDS;
    assert ServerPossible(0.0, [e], band);
    assert m in Trim(s.p.zset, EXPIRE_SECONDS - band.behind - WINDOW_SECONDS);
    assert InBand(EXPIRE_SECONDS - band.behind, EXPIRE_SECONDS, band);
  }
}
