/**
 Where the fallback of the Redis cache is an LRU cache and where it is not: its dictionary is in
 order of insertion.
 */
module CacheDivergence {
  import opened Prelude
  import opened TtlCacheModel
  import opened RedisCacheFallback
  import opened LruInclusion
  import opened LruLedger
  import opened CacheRefinement

  lemma RunSnoc<V>(cfg: Config, ops: seq<Op<V>>, op: Op<V>)
    ensures RunTo(cfg, ops + [op]) == Step(cfg, RunTo(cfg, ops), op).0
    ensures LocalRun(cfg, ops + [op]) == LocalStep(cfg, LocalRun(cfg, ops), op).0
    ensures ReplyAt(cfg, ops + [op], |ops|) == Step(cfg, RunTo(cfg, ops), op).1
    ensures LocalReplyAt(cfg, ops + [op], |ops|) == LocalStep(cfg, LocalRun(cfg, ops), op).1
    ensures MapRun(cfg.defaultTtl, ops + [op]) == MapAfter(cfg.defaultTtl, MapRun(cfg.defaultTtl, ops), op)
    ensures WrittenKeys(ops + [op]) == WrittenKeys(ops) + (if op.Put? then {op.key} else {})
  {
    assert (ops + [op])[..|ops|] == ops;
  }

  // ----- The dictionary is in order of insertion -----

  /** Index of the operation that put the key into the dictionary the last time it came in, or -1. */
  ghost function InsertedAt<V>(cfg: Config, ops: seq<Op<V>>, key: string): int {
    if ops == [] then -1
    else
      var before := ops[..|ops| - 1];
      if key in LocalRun(cfg, ops).dict.order && key !in LocalRun(cfg, before).dict.order then |ops| - 1
      else InsertedAt(cfg, before, key)
  }

  lemma {:induction false} InsertedAtRange<V>(cfg: Config, ops: seq<Op<V>>, key: string)
    ensures -1 <= InsertedAt(cfg, ops, key) < |ops|
  {
    if ops != [] {
      InsertedAtRange(cfg, ops[..|ops| - 1], key);
    }
  }

  ghost predicate ByInsertion<V>(cfg: Config, ops: seq<Op<V>>, order: seq<string>) {
    && (forall i :: 0 <= i < |order| ==> 0 <= InsertedAt(cfg, ops, order[i]))
    && (forall i, j :: 0 <= i < j < |order| ==> InsertedAt(cfg, ops, order[i]) < InsertedAt(cfg, ops, order[j]))
  }

  lemma {:induction false} ByInsertionThins<V>(cfg: Config, ops: seq<Op<V>>, s: seq<string>, l: seq<string>)
    requires Subsequence(s, l) && ByInsertion(cfg, ops, l)
    ensures ByInsertion(cfg, ops, s)
    decreases |l|
  {
    if s != [] {
      assert ByInsertion(cfg, ops, l[1..]);
      if s[0] == l[0] {
        ByInsertionThins(cfg, ops, s[1..], l[1..]);
        forall j | 0 < j < |s| ensures InsertedAt(cfg, ops, s[0]) < InsertedAt(cfg, ops, s[j]) {
          assert s[j] in s[1..];
          SubsequenceMember(s[1..], l[1..], s[j]);
        }
      } else {
        ByInsertionThins(cfg, ops, s, l[1..]);
      }
    }
  }

  lemma {:induction false} WithoutThins(order: seq<string>, key: string)
    ensures Subsequence(Without(order, key), order)
  {
    if order != [] {
      assert [order[0]] + order[1..] == order;
      if order[0] == key {
        SubsequenceSelf(order[1..]);
        SubsequenceWiden(order[1..], order[0], order[1..]);
      } else {
        WithoutThins(order[1..], key);
      }
    }
  }

  lemma {:induction false} OutsideThins(order: seq<string>, prefix: string)
    ensures Subsequence(Outside(order, prefix), order)
  {
    if order != [] {
      OutsideThins(order[1..], prefix);
      if prefix <= order[0] {
        SubsequenceWiden(Outside(order[1..], prefix), order[0], order[1..]);
        assert [order[0]] + order[1..] == order;
      }
    }
  }

  /** Keys that stay keep their rank. */
  lemma KeptStay<V>(cfg: Config, ops: seq<Op<V>>, kept: seq<string>)
    requires ops != [] && Subsequence(kept, LocalRun(cfg, ops[..|ops| - 1]).dict.order)
    requires ByInsertion(cfg, ops[..|ops| - 1], LocalRun(cfg, ops[..|ops| - 1]).dict.order)
    ensures ByInsertion(cfg, ops, kept)
    ensures forall i :: 0 <= i < |kept| ==> InsertedAt(cfg, ops, kept[i]) < |ops| - 1
  {
    var before := ops[..|ops| - 1];
    ByInsertionThins(cfg, before, kept, LocalRun(cfg, before).dict.order);
    forall i | 0 <= i < |kept|
      ensures InsertedAt(cfg, ops, kept[i]) == InsertedAt(cfg, before, kept[i]) < |before|
    {
      SubsequenceMember(kept, LocalRun(cfg, before).dict.order, kept[i]);
      InsertedAtRange(cfg, before, kept[i]);
    }
  }

  /** A write leaves the old order, perhaps without its head, and a new key goes to the end. */
  lemma PutOrder<V>(cfg: Config, s: Local<V>, op: Op<V>)
    requires op.Put? && Coherent(s.dict)
    ensures var (order, order') := (s.dict.order, LocalStep(cfg, s, op).0.dict.order);
            if op.key in order then order' == order || (order != [] && order' == order[1..])
            else order' == order + [op.key] || (order == [] && order' == []) || (order != [] && order' == order[1..] + [op.key])
  {
    var order := s.dict.order;
    if op.key !in order && order != [] {
      assert (order + [op.key])[0] == order[0] && (order + [op.key])[1..] == order[1..] + [op.key];
    }
  }

  /** A new key ranks last. */
  lemma NewKeyLast<V>(cfg: Config, ops: seq<Op<V>>, kept: seq<string>, key: string)
    requires ops != [] && Subsequence(kept, LocalRun(cfg, ops[..|ops| - 1]).dict.order)
    requires ByInsertion(cfg, ops[..|ops| - 1], LocalRun(cfg, ops[..|ops| - 1]).dict.order)
    requires key in LocalRun(cfg, ops).dict.order && key !in LocalRun(cfg, ops[..|ops| - 1]).dict.order
    ensures ByInsertion(cfg, ops, kept + [key])
  {
    KeptStay(cfg, ops, kept);
    assert InsertedAt(cfg, ops, key) == |ops| - 1;
  }

  lemma PutByInsertion<V>(cfg: Config, ops: seq<Op<V>>)
    requires ops != [] && ops[|ops| - 1].Put?
    requires ByInsertion(cfg, ops[..|ops| - 1], LocalRun(cfg, ops[..|ops| - 1]).dict.order)
    ensures ByInsertion(cfg, ops, LocalRun(cfg, ops).dict.order)
  {
    var before, key := ops[..|ops| - 1], ops[|ops| - 1].key;
    var order, order' := LocalRun(cfg, before).dict.order, LocalRun(cfg, ops).dict.order;
    LocalRunCoherent(cfg, before);
    PutOrder(cfg, LocalRun(cfg, before), ops[|ops| - 1]);
    if order' == [] {
      return;
    }
    var kept := if key in order then order' else order'[..|order'| - 1];
    assert kept == order || (order != [] && kept == order[1..]);
    assert Subsequence(kept, order) by {
      SubsequenceSelf(order);
      if kept != order {
        SubsequenceSuffix(order, order, 1);
      }
    }
    if key in order {
      KeptStay(cfg, ops, kept);
    } else {
      assert order' == kept + [key];
      NewKeyLast(cfg, ops, kept, key);
    }
  }

  /** In every reachable state the dictionary is in order of insertion: a rewrite or a hit moves nothing. */
  lemma {:induction false} DictByInsertion<V>(cfg: Config, ops: seq<Op<V>>)
    ensures ByInsertion(cfg, ops, LocalRun(cfg, ops).dict.order)
  {
    if ops != [] {
      var before := ops[..|ops| - 1];
      var order := LocalRun(cfg, before).dict.order;
      DictByInsertion(cfg, before);
      match ops[|ops| - 1]
      case Get(key, now) =>
        WithoutThins(order, key);
        SubsequenceSelf(order);
        KeptStay(cfg, ops, LocalRun(cfg, ops).dict.order);
      case Put(_, _, _, _, _, _) => PutByInsertion(cfg, ops);
      case Delete(key) =>
        WithoutThins(order, key);
        SubsequenceSelf(order);
        KeptStay(cfg, ops, LocalRun(cfg, ops).dict.order);
      case Clear =>
      case Invalidate(namespace) =>
        OutsideThins(order, namespace + ":");
        KeptStay(cfg, ops, LocalRun(cfg, ops).dict.order);
    }
  }

  // ----- Capacity and the victim -----

  lemma {:induction false} LocalCapacity<V>(cfg: Config, ops: seq<Op<V>>)
    ensures |LocalRun(cfg, ops).dict.order| <= Max(0, cfg.maxSize)
  {
    if ops != [] {
      var before, op := ops[..|ops| - 1], ops[|ops| - 1];
      LocalCapacity(cfg, before);
      LocalStepCapacity(cfg, LocalRun(cfg, before), op);
    }
  }

  lemma LocalStepCapacity<V>(cfg: Config, s: Local<V>, op: Op<V>)
    requires |s.dict.order| <= Max(0, cfg.maxSize)
    ensures |LocalStep(cfg, s, op).0.dict.order| <= Max(0, cfg.maxSize)
  {
    match op
    case Get(key, now) => WithoutBound(s.dict.order, key);
    case Put(key, value, ttl, sizeHint, now, later) =>
      var written := DictWrite(s.dict, key, value, now + EffectiveTtl(cfg, ttl) as real);
    case Delete(key) => WithoutBound(s.dict.order, key);
    case Clear =>
    case Invalidate(namespace) => OutsideBound(s.dict.order, namespace + ":");
  }

  lemma {:induction false} WithoutBound(order: seq<string>, key: string)
    ensures |Without(order, key)| <= |order|
  {
    if order != [] {
      WithoutBound(order[1..], key);
    }
  }

  /**
   Writing a key that is not there evicts nothing while there is room, and otherwise exactly one key,
   whose insertion is older than that of every other key, however recently it was read or rewritten.
   */
  lemma EvictsOldestInsertion<V>(cfg: Config, ops: seq<Op<V>>, op: Op<V>)
    requires cfg.maxSize >= 1 && op.Put? && op.key !in LocalRun(cfg, ops).dict.order
    ensures var order := LocalRun(cfg, ops).dict.order;
            && LocalRun(cfg, ops + [op]).dict.order == (if |order| < cfg.maxSize then order else order[1..]) + [op.key]
            && forall j :: 0 < j < |order| ==> InsertedAt(cfg, ops, order[0]) < InsertedAt(cfg, ops, order[j])
  {
    var s := LocalRun(cfg, ops);
    DictByInsertion(cfg, ops);
    LocalCapacity(cfg, ops);
    LocalRunCoherent(cfg, ops);
    RunSnoc(cfg, ops, op);
    PutOrder(cfg, s, op);
    PutEvictsWhenFull(cfg, s, op);
  }

  lemma PutEvictsWhenFull<V>(cfg: Config, s: Local<V>, op: Op<V>)
    requires op.Put? && Coherent(s.dict) && op.key !in s.dict.order && |s.dict.order| <= cfg.maxSize
    ensures |LocalStep(cfg, s, op).0.dict.order| == if |s.dict.order| < cfg.maxSize then |s.dict.order| + 1 else |s.dict.order|
  {
    var written := DictWrite(s.dict, op.key, op.value, op.now + EffectiveTtl(cfg, op.ttl) as real);
    assert written.order == s.dict.order + [op.key];
  }

  // ----- With room for at most one entry both are the same cache -----

  /** The cache that remembers only the last key written, or nothing. */
  function OneAfter<V>(cfg: Config, m: TtlMap<V>, op: Op<V>): TtlMap<V> {
    if op.Put? && cfg.maxSize < 1 then map[]
    else if op.Put? then map[op.key := Bound(op.value, op.now + EffectiveTtl(cfg, op.ttl) as real)]
    else MapAfter(cfg.defaultTtl, m, op)
  }

  function OneRun<V>(cfg: Config, ops: seq<Op<V>>): TtlMap<V> {
    if ops == [] then map[] else OneAfter(cfg, OneRun(cfg, ops[..|ops| - 1]), ops[|ops| - 1])
  }

  /** Either cache holds what `m` holds, except perhaps what has expired by `t`. */
  ghost predicate Matches<V>(c: Cache<V>, m: TtlMap<V>, t: Time) {
    Sound(c, m) && forall k :: k in m && t <= m[k].expiresAt ==> Find(c.store, k).Some?
  }

  ghost predicate LocalMatches<V>(d: Dict<V>, m: TtlMap<V>, t: Time) {
    LocalSound(d, m) && forall k :: k in m && t <= m[k].expiresAt ==> k in d.values
  }

  ghost function StoredKeys<V>(store: seq<Entry<V>>): set<string> {
    set e | e in store :: e.key
  }

  lemma MatchesComplete<V>(c: Cache<V>, m: TtlMap<V>, t: Time)
    requires Matches(c, m, t)
    ensures Complete(c.store, m, t, StoredKeys(c.store))
  {
  }

  lemma OnePutStore<V>(cfg: Config, c: Cache<V>, op: Op<V>)
    requires op.Put? && cfg.maxSize <= 1 && UniqueKeys(c.store) && |c.store| <= Max(0, cfg.maxSize)
    ensures var entry := NewEntry(cfg, op.key, op.value, op.ttl, op.sizeHint, op.now);
            var store' := Step(cfg, c, op).0.store;
            if cfg.maxSize < 1 then store' == [] else store' == [entry] || (store' == [] && entry.expiresAt < op.later)
  {
    RetainOthersSize(c.store, op.key);
    var room := Room(c.store, op.key, cfg.maxSize);
    assert room == [];
    var entry := NewEntry(cfg, op.key, op.value, op.ttl, op.sizeHint, op.now);
    assert room + [entry] == [entry] && [entry][1..] == [];
    assert Retain(FreshAt(op.later), [entry]) == if op.later <= entry.expiresAt then [entry] else [];
  }

  lemma OnePut<V>(cfg: Config, c: Cache<V>, m: TtlMap<V>, op: Op<V>, t: Time)
    requires op.Put? && cfg.maxSize <= 1 && UniqueKeys(c.store) && |c.store| <= Max(0, cfg.maxSize)
    requires op.later <= t
    ensures Matches(Step(cfg, c, op).0, OneAfter(cfg, m, op), t)
  {
    OnePutStore(cfg, c, op);
    FindMeaning(Step(cfg, c, op).0.store, op.key);
  }

  lemma OneStep<V>(cfg: Config, c: Cache<V>, m: TtlMap<V>, op: Op<V>, t: Time)
    requires !op.Put? && Matches(c, m, if op.Get? then op.now else t) && (op.Get? ==> op.now <= t)
    ensures Matches(Step(cfg, c, op).0, OneAfter(cfg, m, op), t)
  {
    StepSound(cfg, c, m, op);
    if op.Get? {
      MatchesComplete(c, m, op.now);
      GetComplete(c, m, op.key, op.now, t, StoredKeys(c.store));
    } else {
      MatchesComplete(c, m, t);
      StepComplete(cfg, c, m, op, t, StoredKeys(c.store));
    }
  }

  lemma {:induction false} OneRunMatches<V>(cfg: Config, ops: seq<Op<V>>, t: Time)
    requires Clocked(ops, t) && cfg.maxSize <= 1
    ensures Matches(RunTo(cfg, ops), OneRun(cfg, ops), t)
  {
    if ops != [] {
      var before, op := ops[..|ops| - 1], ops[|ops| - 1];
      if op.Put? {
        RunKeepsUnique(cfg, before);
        CapacityHolds(cfg, before);
        OnePut(cfg, RunTo(cfg, before), OneRun(cfg, before), op, t);
      } else {
        OneRunMatches(cfg, before, if op.Get? then op.now else t);
        OneStep(cfg, RunTo(cfg, before), OneRun(cfg, before), op, t);
      }
    }
  }

  /** If the written key is there after a write, it has what was written. */
  lemma PutBinds<V>(cfg: Config, s: Local<V>, op: Op<V>)
    requires op.Put? && Coherent(s.dict)
    ensures var d := LocalStep(cfg, s, op).0.dict;
            op.key in d.values && op.key in d.expiry ==>
              Bound(d.values[op.key], d.expiry[op.key]) == Bound(op.value, op.now + EffectiveTtl(cfg, op.ttl) as real)
  {
  }

  lemma OneKeyDict<V>(d: Dict<V>, m: TtlMap<V>, key: string, bound: Bound<V>, t: Time)
    requires Coherent(d) && m == map[key := bound] && d.order == [key]
    requires key in d.values && key in d.expiry ==> Bound(d.values[key], d.expiry[key]) == bound
    ensures LocalMatches(d, m, t)
  {
    assert key in d.order;
    assert forall k :: k in d.values <==> k == key;
  }

  lemma LocalOnePut<V>(cfg: Config, s: Local<V>, m: TtlMap<V>, op: Op<V>, t: Time)
    requires op.Put? && cfg.maxSize <= 1 && Coherent(s.dict) && |s.dict.order| <= Max(0, cfg.maxSize)
    ensures LocalMatches(LocalStep(cfg, s, op).0.dict, OneAfter(cfg, m, op), t)
  {
    var d' := LocalStep(cfg, s, op).0.dict;
    LocalStepCoherent(cfg, s, op);
    PutOrder(cfg, s, op);
    LocalStepCapacity(cfg, s, op);
    if cfg.maxSize < 1 {
      assert d'.order == [];
    } else {
      PutBinds(cfg, s, op);
      OneKeyDict(d', OneAfter(cfg, m, op), op.key, Bound(op.value, op.now + EffectiveTtl(cfg, op.ttl) as real), t);
    }
  }

  lemma LocalOneStep<V>(cfg: Config, s: Local<V>, m: TtlMap<V>, op: Op<V>, t: Time)
    requires !op.Put? && LocalMatches(s.dict, m, if op.Get? then op.now else t) && (op.Get? ==> op.now <= t)
    ensures LocalMatches(LocalStep(cfg, s, op).0.dict, OneAfter(cfg, m, op), t)
  {
    LocalStepSound(cfg, s, m, op);
  }

  lemma {:induction false} LocalOneRunMatches<V>(cfg: Config, ops: seq<Op<V>>, t: Time)
    requires Clocked(ops, t) && cfg.maxSize <= 1
    ensures LocalMatches(LocalRun(cfg, ops).dict, OneRun(cfg, ops), t)
  {
    if ops != [] {
      var before, op := ops[..|ops| - 1], ops[|ops| - 1];
      if op.Put? {
        LocalRunCoherent(cfg, before);
        LocalCapacity(cfg, before);
        LocalOnePut(cfg, LocalRun(cfg, before), OneRun(cfg, before), op, t);
      } else {
        LocalOneRunMatches(cfg, before, if op.Get? then op.now else t);
        LocalOneStep(cfg, LocalRun(cfg, before), OneRun(cfg, before), op, t);
      }
    }
  }

  ghost predicate GetsAgree<V>(cfg: Config, ops: seq<Op<V>>) {
    forall i :: 0 <= i < |ops| && ops[i].Get? ==> ReplyAt(cfg, ops, i) == LocalReplyAt(cfg, ops, i)
  }

  lemma TinyCachesAgree<V>(cfg: Config, ops: seq<Op<V>>, t: Time)
    requires Clocked(ops, t) && cfg.maxSize <= 1
    ensures GetsAgree(cfg, ops)
  {
    forall i | 0 <= i < |ops| && ops[i].Get? ensures ReplyAt(cfg, ops, i) == LocalReplyAt(cfg, ops, i) {
      ClockedPrefix(ops, t, i);
      OneRunMatches(cfg, ops[..i], ops[i].now);
      LocalOneRunMatches(cfg, ops[..i], ops[i].now);
      SameAnswer(cfg, RunTo(cfg, ops[..i]), LocalRun(cfg, ops[..i]), OneRun(cfg, ops[..i]), ops[i]);
    }
  }

  lemma SameAnswer<V>(cfg: Config, c: Cache<V>, s: Local<V>, m: TtlMap<V>, op: Op<V>)
    requires op.Get? && Matches(c, m, op.now) && LocalMatches(s.dict, m, op.now)
    ensures Step(cfg, c, op).1 == LocalStep(cfg, s, op).1
  {
    FindMeaning(c.store, op.key);
  }

  // ----- With room for more the two part ways -----

  /** Pairwise different keys: the i-th has length i. */
  function Name(i: nat): (name: string)
    ensures |name| == i
  {
    seq(i, _ => 'k')
  }

  function Write<V>(i: nat, v: V): Op<V> {
    Put(Name(i), v, Some(1), 0, 0.0, 0.0)
  }

  function Read<V>(i: nat): Op<V> {
    Get(Name(i), 0.0)
  }

  /** Write keys 1 to n. */
  function Fill<V>(n: nat, v: V): seq<Op<V>> {
    if n == 0 then [] else Fill(n - 1, v) + [Write(n, v)]
  }

  const FIRST: nat := 1

  /** With room for n: write n keys, read the first, write one more. */
  function Setup<V>(n: nat, v: V): seq<Op<V>> {
    Fill(n, v) + [Read(FIRST)] + [Write(n + 1, v)]
  }

  function Names(n: nat): seq<string> {
    if n == 0 then [] else Names(n - 1) + [Name(n)]
  }

  lemma {:induction false} NamesAre(n: nat)
    ensures |Names(n)| == n && forall i :: 0 <= i < n ==> Names(n)[i] == Name(i + 1)
  {
    if n > 0 {
      NamesAre(n - 1);
    }
  }

  lemma ClockedSnoc<V>(ops: seq<Op<V>>, op: Op<V>)
    requires Clocked(ops, 0.0)
    requires (op.Get? && op.now == 0.0) || (op.Put? && op.now == op.later == 0.0)
    ensures Clocked(ops + [op], 0.0)
  {
    assert (ops + [op])[..|ops|] == ops;
  }

  lemma {:induction false} FillClocked<V>(n: nat, v: V)
    ensures Clocked(Fill(n, v), 0.0)
  {
    if n > 0 {
      FillClocked(n - 1, v);
      ClockedSnoc(Fill(n - 1, v), Write(n, v));
    }
  }

  lemma OneMoreKey(keys: set<string>, i: nat)
    requires |keys| == i && forall k :: k in keys ==> |k| <= i
    ensures |keys + {Name(i + 1)}| == i + 1 && forall k :: k in keys + {Name(i + 1)} ==> |k| <= i + 1
  {
  }

  lemma {:induction false} FillKeys<V>(cfg: Config, n: nat, v: V)
    ensures |WrittenKeys(Fill(n, v))| == n
    ensures forall k :: k in WrittenKeys(Fill(n, v)) ==> |k| <= n
  {
    if n > 0 {
      FillKeys(cfg, n - 1, v);
      var keys := WrittenKeys(Fill(n - 1, v));
      OneMoreKey(keys, n - 1);
      RunSnoc(cfg, Fill(n - 1, v), Write(n, v));
      assert WrittenKeys(Fill(n, v)) == keys + {Name(n)};
    }
  }

  lemma MapAfterWrite<V>(cfg: Config, m: TtlMap<V>, i: nat, v: V)
    ensures MapAfter(cfg.defaultTtl, m, Write(i, v)) == m[Name(i) := Bound(v, 1.0)]
  {
  }

  ghost predicate Binds<V>(m: TtlMap<V>, key: string, v: V) {
    key in m && m[key] == Bound(v, 1.0)
  }

  lemma {:induction false} FillMap<V>(cfg: Config, n: nat, v: V)
    requires n >= FIRST
    ensures Binds(MapRun(cfg.defaultTtl, Fill(n, v)), Name(FIRST), v)
  {
    var before := Fill(n - 1, v);
    if n > FIRST {
      FillMap(cfg, n - 1, v);
    }
    RunSnoc(cfg, before, Write(n, v));
    BindsAfterWrite(cfg, MapRun(cfg.defaultTtl, before), n, v, Name(FIRST));
  }

  lemma BindsAfterWrite<V>(cfg: Config, m: TtlMap<V>, i: nat, v: V, key: string)
    requires Binds(m, key, v) || Name(i) == key
    ensures Binds(MapAfter(cfg.defaultTtl, m, Write(i, v)), key, v)
  {
    MapAfterWrite(cfg, m, i, v);
  }

  lemma NameIsNew(n: nat)
    requires n > 0
    ensures Name(n) !in Names(n - 1) && |Names(n - 1)| == n - 1
  {
    NamesAre(n - 1);
  }

  lemma DictGrows<V>(cfg: Config, ops: seq<Op<V>>, op: Op<V>)
    requires op.Put? && op.key !in LocalRun(cfg, ops).dict.order && |LocalRun(cfg, ops).dict.order| < cfg.maxSize
    ensures LocalRun(cfg, ops + [op]).dict.order == LocalRun(cfg, ops).dict.order + [op.key]
  {
    EvictsOldestInsertion(cfg, ops, op);
  }

  ghost predicate Lists<V>(cfg: Config, ops: seq<Op<V>>, names: seq<string>) {
    LocalRun(cfg, ops).dict.order == names
  }

  lemma ListsOneMore<V>(cfg: Config, ops: seq<Op<V>>, names: seq<string>, op: Op<V>)
    requires Lists(cfg, ops, names) && op.Put? && op.key !in names && |names| < cfg.maxSize
    ensures Lists(cfg, ops + [op], names + [op.key])
  {
    DictGrows(cfg, ops, op);
  }

  /** The fallback lists the keys as they were written. */
  lemma {:induction false} FillDict<V>(cfg: Config, n: nat, v: V)
    requires n <= cfg.maxSize
    ensures Lists(cfg, Fill(n, v), Names(n))
  {
    if n > 0 {
      FillDict(cfg, n - 1, v);
      NameIsNew(n);
      ListsOneMore(cfg, Fill(n - 1, v), Names(n - 1), Write(n, v));
    }
  }

  /** The LRU cache moves a key that is read to the recent end. */
  lemma ReadGoesLast<V>(c: Cache<V>, m: TtlMap<V>, key: string, v: V)
    requires Sound(c, m) && Find(c.store, key).Some? && Binds(m, key, v)
    ensures RecentlyRead(GetStep(c, key, 0.0).0.store, key, v)
  {
    FindMeaning(c.store, key);
  }

  ghost predicate RecentlyRead<V>(store: seq<Entry<V>>, key: string, v: V) {
    store != [] && var e := store[|store| - 1]; e.key == key && e.value == v && e.expiresAt == 1.0
  }

  /** With room for two or more, the most recent entry survives a write. */
  lemma LastSurvives<V>(cfg: Config, c: Cache<V>, op: Op<V>, key: string, v: V)
    requires op.Put? && op.now == op.later == 0.0 && cfg.maxSize >= 2 && UniqueKeys(c.store) && |c.store| <= cfg.maxSize
    requires RecentlyRead(c.store, key, v) && Find(c.store, op.key).None?
    ensures GetStep(Step(cfg, c, op).0, key, 0.0).1 == Some(v)
  {
    var e := c.store[|c.store| - 1];
    var room := Room(c.store, op.key, cfg.maxSize);
    assert room[|room| - 1] == e;
    var entry := NewEntry(cfg, op.key, op.value, op.ttl, op.sizeHint, op.now);
    assert e in room + [entry];
    RetainMembers(FreshAt(0.0), room + [entry], e);
    StepKeepsUnique(cfg, c, op);
    UniqueMember(Step(cfg, c, op).0.store, e);
  }

  lemma FilledThenRead<V>(cfg: Config, v: V)
    requires cfg.maxSize >= 1
    ensures RecentlyRead(RunTo(cfg, Fill(cfg.maxSize, v) + [Read(FIRST)]).store, Name(FIRST), v)
  {
    var a := Fill(cfg.maxSize, v);
    FillClocked(cfg.maxSize, v);
    FillKeys(cfg, cfg.maxSize, v);
    FillMap(cfg, cfg.maxSize, v);
    RunSound(cfg, a);
    RunComplete(cfg, a, 0.0);
    RunSnoc(cfg, a, Read(FIRST));
    ReadGoesLast(RunTo(cfg, a), MapRun(cfg.defaultTtl, a), Name(FIRST), v);
  }

  lemma NotWritten<V>(cfg: Config, ops: seq<Op<V>>, i: nat)
    requires Clocked(ops, 0.0) && |WrittenKeys(ops)| <= cfg.maxSize
    requires forall k :: k in WrittenKeys(ops) ==> |k| < i
    ensures Find(RunTo(cfg, ops).store, Name(i)).None?
  {
    RunComplete(cfg, ops, 0.0);
    FindMeaning(RunTo(cfg, ops).store, Name(i));
  }

  lemma RecentSurvives<V>(cfg: Config, ops: seq<Op<V>>, op: Op<V>, key: string, v: V)
    requires op.Put? && op.now == op.later == 0.0 && cfg.maxSize >= 2
    requires RecentlyRead(RunTo(cfg, ops).store, key, v) && Find(RunTo(cfg, ops).store, op.key).None?
    ensures Step(cfg, RunTo(cfg, ops + [op]), Get(key, 0.0)).1 == Hit(v)
  {
    RunKeepsUnique(cfg, ops);
    CapacityHolds(cfg, ops);
    RunSnoc(cfg, ops, op);
    LastSurvives(cfg, RunTo(cfg, ops), op, key, v);
  }

  /** Reading writes no key. */
  lemma FilledKeys<V>(cfg: Config, n: nat, v: V)
    ensures var ops := Fill(n, v) + [Read(FIRST)];
            Clocked(ops, 0.0) && |WrittenKeys(ops)| == n && forall k :: k in WrittenKeys(ops) ==> |k| <= n
  {
    FillClocked(n, v);
    FillKeys(cfg, n, v);
    ClockedSnoc(Fill(n, v), Read(FIRST));
    RunSnoc(cfg, Fill(n, v), Read(FIRST));
  }

  lemma LruHits<V>(cfg: Config, v: V)
    requires cfg.maxSize >= 2
    ensures Step(cfg, RunTo(cfg, Setup(cfg.maxSize, v)), Read(FIRST)).1 == Hit(v)
  {
    var n := cfg.maxSize;
    FilledThenRead(cfg, v);
    FilledKeys(cfg, n, v);
    NotWritten(cfg, Fill(n, v) + [Read(FIRST)], n + 1);
    RecentSurvives(cfg, Fill(n, v) + [Read(FIRST)], Write(n + 1, v), Name(FIRST), v);
  }

  /** Reading changes nothing in the fallback's dictionary unless the key has expired. */
  lemma ReadKeepsDict<V>(cfg: Config, n: nat, v: V)
    requires FIRST <= n <= cfg.maxSize
    ensures Lists(cfg, Fill(n, v) + [Read(FIRST)], Names(n))
  {
    FillDict(cfg, n, v);
    FillMap(cfg, n, v);
    LocalRunSound(cfg, Fill(n, v));
    RunSnoc(cfg, Fill(n, v), Read(FIRST));
  }

  lemma FirstName(n: nat)
    requires n > 0
    ensures |Names(n)| == n && Names(n)[0] == Name(FIRST)
  {
    NamesAre(n);
  }

  /** In a full dictionary a new key takes the place of the first one. */
  lemma FirstGoes<V>(cfg: Config, ops: seq<Op<V>>, names: seq<string>, op: Op<V>)
    requires Lists(cfg, ops, names) && op.Put? && op.key !in names && |names| == cfg.maxSize >= 1
    ensures LocalStep(cfg, LocalRun(cfg, ops + [op]), Get(names[0], 0.0)).1 == Miss
  {
    LocalRunCoherent(cfg, ops);
    LocalRunCoherent(cfg, ops + [op]);
    EvictsOldestInsertion(cfg, ops, op);
    assert names[0] !in names[1..] + [op.key];
    assert LocalRun(cfg, ops + [op]).dict.order == names[1..] + [op.key];
  }

  lemma FallbackMisses<V>(cfg: Config, v: V)
    requires cfg.maxSize >= 1
    ensures LocalStep(cfg, LocalRun(cfg, Setup(cfg.maxSize, v)), Read(FIRST)).1 == Miss
  {
    var n := cfg.maxSize;
    ReadKeepsDict(cfg, n, v);
    NameIsNew(n + 1);
    FirstName(n);
    FirstGoes(cfg, Fill(n, v) + [Read(FIRST)], Names(n), Write(n + 1, v));
  }

  /** With room for n >= 2: write n keys, read the first, write one more, read the first again. */
  function Diverging<V>(n: nat, v: V): seq<Op<V>> {
    Setup(n, v) + [Read(FIRST)]
  }

  lemma DivergingRun<V>(cfg: Config, v: V)
    requires cfg.maxSize >= 2
    ensures Clocked(Diverging(cfg.maxSize, v), 0.0)
    ensures |WrittenKeys(Diverging(cfg.maxSize, v))| == cfg.maxSize + 1
    ensures !GetsAgree(cfg, Diverging(cfg.maxSize, v))
  {
    var n := cfg.maxSize;
    var a, setup := Fill(n, v), Setup(n, v);
    FillClocked(n, v);
    ClockedSnoc(a, Read(FIRST));
    ClockedSnoc(a + [Read(FIRST)], Write(n + 1, v));
    ClockedSnoc(setup, Read(FIRST));
    FillKeys(cfg, n, v);
    assert Name(n + 1) !in WrittenKeys(a);
    RunSnoc(cfg, a, Read(FIRST));
    RunSnoc(cfg, a + [Read(FIRST)], Write(n + 1, v));
    RunSnoc(cfg, setup, Read(FIRST));
    LruHits(cfg, v);
    FallbackMisses(cfg, v);
    assert Diverging(n, v)[|setup|] == Read(FIRST);
  }

  // ----- The exact condition -----

  /** Every get of every run with at most `keys` distinct keys is answered alike. */
  ghost predicate DropIn<V(!new)>(cfg: Config, keys: nat) {
    forall ops: seq<Op<V>>, t :: Clocked(ops, t) && |WrittenKeys(ops)| <= keys ==> GetsAgree(cfg, ops)
  }

  /**
   The fallback is a drop-in replacement for all runs with at most `keys` keys if and only if they
   fit, or there is room for at most one entry.
   */
  lemma DropInIff<V(!new)>(cfg: Config, keys: nat, v: V)
    ensures DropIn<V>(cfg, keys) <==> keys <= cfg.maxSize || cfg.maxSize <= 1
  {
    if keys <= cfg.maxSize || cfg.maxSize <= 1 {
      forall ops: seq<Op<V>>, t | Clocked(ops, t) && |WrittenKeys(ops)| <= keys ensures GetsAgree(cfg, ops) {
        if cfg.maxSize <= 1 {
          TinyCachesAgree(cfg, ops, t);
        } else {
          forall i | 0 <= i < |ops| && ops[i].Get? ensures ReplyAt(cfg, ops, i) == LocalReplyAt(cfg, ops, i) {
            DropInReplacement(cfg, ops, t, i);
          }
        }
      }
    } else {
      DivergingRun(cfg, v);
      assert Clocked(Diverging(cfg.maxSize, v), 0.0);
    }
  }

  ghost predicate AlwaysDropIn<V(!new)>(cfg: Config) {
    forall ops: seq<Op<V>>, t :: Clocked(ops, t) ==> GetsAgree(cfg, ops)
  }

  /** Whatever is written, they answer alike if and only if there is room for at most one entry. */
  lemma AlwaysDropInIff<V(!new)>(cfg: Config, v: V)
    ensures AlwaysDropIn<V>(cfg) <==> cfg.maxSize <= 1
  {
    if cfg.maxSize <= 1 {
      forall ops: seq<Op<V>>, t | Clocked(ops, t) ensures GetsAgree(cfg, ops) {
        TinyCachesAgree(cfg, ops, t);
      }
    } else {
      DivergingRun(cfg, v);
      assert Clocked(Diverging(cfg.maxSize, v), 0.0);
    }
  }

  // ----- Writes as well -----

  /** Gets and writes are answered alike; a write of the LRU cache may raise KeyError. */
  ghost predicate AnswersAgree<V>(cfg: Config, ops: seq<Op<V>>) {
    GetsAgree(cfg, ops) && forall i :: 0 <= i < |ops| && ops[i].Put? ==> ReplyAt(cfg, ops, i) == LocalReplyAt(cfg, ops, i)
  }

  ghost predicate StandsIn<V(!new)>(cfg: Config, keys: nat) {
    forall ops: seq<Op<V>>, t :: Clocked(ops, t) && |WrittenKeys(ops)| <= keys ==> AnswersAgree(cfg, ops)
  }

  lemma WriteRepliesAgreeIff<V>(cfg: Config, ops: seq<Op<V>>, i: nat)
    requires i < |ops| && ops[i].Put?
    ensures ReplyAt(cfg, ops, i) == LocalReplyAt(cfg, ops, i) <==> cfg.maxSize >= 1
  {
    SetFailsIffNoCapacity(cfg, ops, i);
  }

  lemma WrittenIsKey<V>(ops: seq<Op<V>>, i: nat)
    requires i < |ops| && ops[i].Put?
    ensures |WrittenKeys(ops)| >= 1
  {
    WrittenKeysMonotone(ops, i + 1);
    assert ops[..i + 1][..i] == ops[..i];
    assert ops[i].key in WrittenKeys(ops[..i + 1]);
  }

  /**
   With writes included, the fallback stands in for the LRU cache on all runs with at most `keys` keys
   if and only if nothing is written, or there is room and the keys fit or the room is for one.
   */
  lemma StandsInIff<V(!new)>(cfg: Config, keys: nat, v: V)
    ensures StandsIn<V>(cfg, keys) <==> keys == 0 || (cfg.maxSize >= 1 && (keys <= cfg.maxSize || cfg.maxSize == 1))
  {
    if keys == 0 || (cfg.maxSize >= 1 && (keys <= cfg.maxSize || cfg.maxSize == 1)) {
      DropInIff(cfg, keys, v);
      forall ops: seq<Op<V>>, t | Clocked(ops, t) && |WrittenKeys(ops)| <= keys ensures AnswersAgree(cfg, ops) {
        assert GetsAgree(cfg, ops);
        forall i | 0 <= i < |ops| && ops[i].Put? ensures ReplyAt(cfg, ops, i) == LocalReplyAt(cfg, ops, i) {
          WrittenIsKey(ops, i);
          WriteRepliesAgreeIff(cfg, ops, i);
        }
      }
    } else if cfg.maxSize < 1 {
      FailingWrite(cfg, v);
    } else {
      DivergingRun(cfg, v);
      assert Clocked(Diverging(cfg.maxSize, v), 0.0);
    }
  }

  lemma FailingWrite<V(!new)>(cfg: Config, v: V)
    requires cfg.maxSize < 1
    ensures Clocked(Fill(FIRST, v), 0.0) && |WrittenKeys(Fill(FIRST, v))| == 1 && !AnswersAgree(cfg, Fill(FIRST, v))
  {
    FillClocked(FIRST, v);
    FillKeys(cfg, FIRST, v);
    assert Fill(FIRST, v) == Fill(FIRST - 1, v) + [Write(FIRST, v)] && Fill(FIRST - 1, v) == [];
    assert Fill(FIRST, v)[0].Put?;
    WriteRepliesAgreeIff(cfg, Fill(FIRST, v), 0);
  }
}
