/** LRU inclusion: the same operations on a small and on a large cache, on any clock. */
module LruInclusion {
  import opened Prelude
  import opened TtlCacheModel

  /** `s` can be obtained from `l` by deleting elements. */
  ghost predicate Subsequence<T(!new)>(s: seq<T>, l: seq<T>) {
    if s == [] then true
    else if l == [] then false
    else if s[0] == l[0] then Subsequence(s[1..], l[1..])
    else Subsequence(s, l[1..])
  }

  lemma {:induction false} SubsequenceRest<T(!new)>(s: seq<T>, l: seq<T>)
    requires s != [] && Subsequence(s, l)
    ensures Subsequence(s[1..], l)
    ensures Subsequence(s[1..], l[1..])
    decreases |l|, 0
  {
    if s[0] == l[0] {
      if s[1..] != [] && s[1] != l[0] {
      } else if s[1..] != [] {
        SubsequenceRest(s[1..], l[1..]);
      }
    } else {
      SubsequenceRest(s, l[1..]);
      SubsequenceWiden(s[1..], l[0], l[1..]);
      assert [l[0]] + l[1..] == l;
    }
  }

  lemma {:induction false} SubsequenceWiden<T(!new)>(s: seq<T>, x: T, l: seq<T>)
    requires Subsequence(s, l)
    ensures Subsequence(s, [x] + l)
    decreases |l|, 1
  {
    assert ([x] + l)[1..] == l;
    if s != [] && s[0] == x {
      SubsequenceRest(s, l);
    }
  }

  lemma {:induction false} SubsequenceSuffix<T(!new)>(s: seq<T>, l: seq<T>, n: nat)
    requires n <= |s| && Subsequence(s, l)
    ensures Subsequence(s[n..], l)
    decreases n
  {
    if n > 0 {
      SubsequenceRest(s, l);
      SubsequenceSuffix(s[1..], l, n - 1);
      assert s[1..][n - 1..] == s[n..];
    } else {
      assert s[0..] == s;
    }
  }

  lemma {:induction false} SubsequenceAppend<T(!new)>(s: seq<T>, l: seq<T>, x: T)
    requires Subsequence(s, l)
    ensures Subsequence(s + [x], l + [x])
    decreases |l|
  {
    if l == [] {
      assert s + [x] == [x] && l + [x] == [x];
    } else {
      assert (l + [x])[1..] == l[1..] + [x];
      if s != [] && s[0] == l[0] {
        assert (s + [x])[1..] == s[1..] + [x];
        SubsequenceAppend(s[1..], l[1..], x);
      } else {
        SubsequenceAppend(s, l[1..], x);
        if s == [] && x == l[0] {
          assert (s + [x])[1..] == [];
        }
      }
    }
  }

  lemma {:induction false} SubsequenceBeforeLast<T(!new)>(s: seq<T>, l: seq<T>, x: T)
    requires Subsequence(s, l)
    ensures Subsequence(s, l + [x])
    decreases |l|
  {
    if s != [] {
      assert (l + [x])[1..] == l[1..] + [x];
      if s[0] == l[0] {
        SubsequenceBeforeLast(s[1..], l[1..], x);
      } else {
        SubsequenceBeforeLast(s, l[1..], x);
      }
    }
  }

  lemma {:induction false} SubsequenceMember<T(!new)>(s: seq<T>, l: seq<T>, x: T)
    requires Subsequence(s, l) && x in s
    ensures x in l
    decreases |l|
  {
    assert l == [l[0]] + l[1..] && s == [s[0]] + s[1..];
    if s[0] == l[0] {
      if x != s[0] {
        SubsequenceMember(s[1..], l[1..], x);
      }
    } else {
      SubsequenceMember(s, l[1..], x);
    }
  }

  /** Dropping the oldest of the large store is harmless when the small one drops too. */
  lemma {:induction false} SubsequenceBothRest<T(!new)>(s: seq<T>, l: seq<T>, n: nat)
    requires Subsequence(s, l) && n <= |s| && n <= |l|
    ensures Subsequence(s[n..], l[n..])
    decreases n
  {
    if n == 0 {
      assert s[0..] == s && l[0..] == l;
    } else {
      SubsequenceRest(s, l);
      SubsequenceBothRest(s[1..], l[1..], n - 1);
      assert s[1..][n - 1..] == s[n..] && l[1..][n - 1..] == l[n..];
    }
  }

  /** A removal rule keeps the inclusion and does not widen the difference in size. */
  lemma {:induction false} SubsequenceRetain<V(!new)>(rule: Rule, s: seq<Entry<V>>, l: seq<Entry<V>>)
    requires Subsequence(s, l)
    ensures Subsequence(Retain(rule, s), Retain(rule, l))
    ensures |Retain(rule, l)| - |Retain(rule, s)| <= |l| - |s|
    decreases |l|
  {
    if s == [] {
      RetainCountedBound(rule, l);
    } else if s[0] == l[0] {
      SubsequenceRetain(rule, s[1..], l[1..]);
      if Keeps(rule, s[0]) {
        assert Retain(rule, s)[1..] == Retain(rule, s[1..]);
        assert Retain(rule, l)[1..] == Retain(rule, l[1..]);
      }
    } else {
      SubsequenceRetain(rule, s, l[1..]);
      if Keeps(rule, l[0]) {
        SubsequenceWiden(Retain(rule, s), l[0], Retain(rule, l[1..]));
      }
    }
  }

  // ----- The relation kept by every operation -----

  /**
   How the small cache (capacity m) sits inside the large one (capacity n): its store is a
   subsequence, so a hit in the small cache is a hit with the same value in the large one.
   */
  ghost predicate Included<V(!new)>(m: int, n: int, small: Cache<V>, large: Cache<V>) {
    && UniqueKeys(large.store)
    && Subsequence(small.store, large.store)
    && |small.store| <= m
    && |large.store| <= n
    && |large.store| - |small.store| <= n - m
    && small.stats.sets == large.stats.sets
    && small.stats.hits <= large.stats.hits
    && small.stats.hits + small.stats.misses == large.stats.hits + large.stats.misses
  }

  lemma SharedEntry<V(!new)>(m: int, n: int, small: Cache<V>, large: Cache<V>, key: string)
    requires Included(m, n, small, large)
    ensures Find(small.store, key).Some? ==> Find(large.store, key) == Find(small.store, key)
  {
    if Find(small.store, key).Some? {
      FindMeaning(small.store, key);
      var e := Find(small.store, key).value;
      SubsequenceMember(small.store, large.store, e);
      UniqueMember(large.store, e);
    }
  }

  lemma {:induction false} SubsequenceUnique<V(!new)>(s: seq<Entry<V>>, l: seq<Entry<V>>)
    requires Subsequence(s, l) && UniqueKeys(l)
    ensures UniqueKeys(s)
    decreases |l|
  {
    if s != [] {
      if s[0] == l[0] {
        SubsequenceUnique(s[1..], l[1..]);
        forall j | 0 < j < |s| ensures s[j].key != s[0].key {
          SubsequenceMember(s[1..], l[1..], s[j]);
        }
      } else {
        SubsequenceUnique(s, l[1..]);
      }
    }
  }

  lemma GetInclusion<V(!new)>(m: int, n: int, small: Cache<V>, large: Cache<V>, key: string, now: Time)
    requires Included(m, n, small, large)
    ensures Included(m, n, GetStep(small, key, now).0, GetStep(large, key, now).0)
    ensures GetStep(small, key, now).1.Some? ==> GetStep(large, key, now).1 == GetStep(small, key, now).1
  {
    SharedEntry(m, n, small, large, key);
    SubsequenceUnique(small.store, large.store);
    SubsequenceRetain(OtherThan(key), small.store, large.store);
    RetainOthersSize(small.store, key);
    RetainOthersSize(large.store, key);
    StepKeepsUnique(Config(0, n), large, Get(key, now));
    match Find(large.store, key)
    case None =>
    case Some(e) =>
      var rest := Retain(OtherThan(key), large.store);
      var touched := e.(hitCount := e.hitCount + 1);
      if now <= e.expiresAt {
        if Find(small.store, key).Some? {
          SubsequenceAppend(Retain(OtherThan(key), small.store), rest, touched);
        } else {
          SubsequenceBeforeLast(small.store, rest, touched);
        }
      }
  }

  lemma WriteDoneInclusion<V(!new)>(m: int, n: int, small: Cache<V>, large: Cache<V>, later: Time)
    requires Included(m, n, small, large)
    ensures Included(m, n, WriteDone(small, later), WriteDone(large, later))
  {
    SubsequenceRetain(FreshAt(later), small.store, large.store);
    RetainCountedBound(FreshAt(later), small.store);
    RetainCountedBound(FreshAt(later), large.store);
    RetainUnique(FreshAt(later), large.store);
  }

  lemma RoomInclusion<V(!new)>(m: int, n: int, small: Cache<V>, large: Cache<V>, key: string)
    requires 1 <= m <= n && Included(m, n, small, large)
    ensures var s, l := Room(small.store, key, m), Room(large.store, key, n);
            Subsequence(s, l) && |s| < m && |l| < n && |l| - |s| <= n - m
  {
    var s, l := small.store, large.store;
    SharedEntry(m, n, small, large, key);
    SubsequenceUnique(s, l);
    RetainOthersSize(s, key);
    RetainOthersSize(l, key);
    if Find(large.store, key).None? {
      EvictInclusion(m, n, s, l);
    } else {
      SubsequenceRetain(OtherThan(key), s, l);
      if Find(small.store, key).None? && m <= |s| {
        SubsequenceSuffix(s, Retain(OtherThan(key), l), |s| - m + 1);
      }
    }
  }

  lemma SetInclusion<V(!new)>(ttl0: int, m: int, n: int, small: Cache<V>, large: Cache<V>, key: string,
                              value: V, ttl: Option<int>, sizeHint: int, now: Time, later: Time)
    requires 1 <= m <= n && Included(m, n, small, large)
    ensures var s := SetStep(Config(ttl0, m), small, key, value, ttl, sizeHint, now, later);
            var l := SetStep(Config(ttl0, n), large, key, value, ttl, sizeHint, now, later);
            Included(m, n, s.0, l.0) && s.1 && l.1
  {
    var entry := NewEntry(Config(ttl0, m), key, value, ttl, sizeHint, now);
    var s, l := Room(small.store, key, m), Room(large.store, key, n);
    RoomInclusion(m, n, small, large, key);
    SubsequenceAppend(s, l, entry);
    RoomUnique(large.store, key, n, entry);
    var small' := Cache(s + [entry], StatsAfterRoom(small, key, m));
    var large' := Cache(l + [entry], StatsAfterRoom(large, key, n));
    WriteDoneInclusion(m, n, small', large', later);
  }

  /** The size bound is what keeps the two evictions compatible. */
  lemma EvictInclusion<V(!new)>(m: int, n: int, s: seq<Entry<V>>, l: seq<Entry<V>>)
    requires 1 <= m <= n && Subsequence(s, l) && |s| <= m && |l| <= n && |l| - |s| <= n - m
    ensures Subsequence(Evict(s, m), Evict(l, n))
    ensures |Evict(s, m)| < m && |Evict(l, n)| < n
    ensures |Evict(l, n)| - |Evict(s, m)| <= n - m
  {
    if |l| == n {
      SubsequenceBothRest(s, l, 1);
    } else if |s| == m {
      SubsequenceSuffix(s, l, 1);
    }
  }

  lemma StepInclusion<V(!new)>(ttl0: int, m: int, n: int, small: Cache<V>, large: Cache<V>, op: Op<V>)
    requires 1 <= m <= n && Included(m, n, small, large)
    ensures Included(m, n, Step(Config(ttl0, m), small, op).0, Step(Config(ttl0, n), large, op).0)
    ensures Step(Config(ttl0, m), small, op).1.Hit? ==>
              Step(Config(ttl0, n), large, op).1 == Step(Config(ttl0, m), small, op).1
  {
    StepKeepsUnique(Config(ttl0, n), large, op);
    match op
    case Get(key, now) => GetInclusion(m, n, small, large, key, now);
    case Put(key, value, ttl, sizeHint, now, later) =>
      SetInclusion(ttl0, m, n, small, large, key, value, ttl, sizeHint, now, later);
    case Delete(key) =>
      SubsequenceRetain(OtherThan(key), small.store, large.store);
      RetainCountedBound(OtherThan(key), small.store);
      RetainCountedBound(OtherThan(key), large.store);
    case Clear =>
    case Invalidate(namespace) =>
      var rule := OutsidePrefix(namespace + ":");
      SubsequenceRetain(rule, small.store, large.store);
      RetainCountedBound(rule, small.store);
      RetainCountedBound(rule, large.store);
  }

  /** Inclusion holds after every run. */
  lemma {:induction false} InclusionHolds<V(!new)>(ttl0: int, m: int, n: int, ops: seq<Op<V>>)
    requires 1 <= m <= n
    ensures Included(m, n, RunTo(Config(ttl0, m), ops), RunTo(Config(ttl0, n), ops))
  {
    if ops != [] {
      var before := ops[..|ops| - 1];
      InclusionHolds(ttl0, m, n, before);
      StepInclusion(ttl0, m, n, RunTo(Config(ttl0, m), before), RunTo(Config(ttl0, n), before), ops[|ops| - 1]);
    }
  }

  /** Every hit of the small cache is the same hit in the large cache. */
  lemma SmallHitsAreLargeHits<V(!new)>(ttl0: int, m: int, n: int, ops: seq<Op<V>>, i: nat)
    requires 1 <= m <= n && i < |ops|
    ensures ReplyAt(Config(ttl0, m), ops, i).Hit? ==>
              ReplyAt(Config(ttl0, n), ops, i) == ReplyAt(Config(ttl0, m), ops, i)
  {
    InclusionHolds(ttl0, m, n, ops[..i]);
    StepInclusion(ttl0, m, n, RunTo(Config(ttl0, m), ops[..i]), RunTo(Config(ttl0, n), ops[..i]), ops[i]);
  }
}
