/**
 Both caches against the simplest possible cache: an unbounded map that remembers, for each
 key, the last value written and when it expires.
 */
module CacheRefinement {
  import opened Prelude
  import opened TtlCacheModel
  import opened RedisCacheFallback

  datatype Bound<V> = Bound(value: V, expiresAt: Time)

  type TtlMap<V> = map<string, Bound<V>>

  function MapAfter<V>(defaultTtl: int, m: TtlMap<V>, op: Op<V>): TtlMap<V> {
    match op
    case Get(_, _) => m
    case Put(key, value, Some(n), _, now, _) => m[key := Bound(value, now + n as real)]
    case Put(key, value, None, _, now, _) => m[key := Bound(value, now + defaultTtl as real)]
    case Delete(key) => m - {key}
    case Clear => map[]
    case Invalidate(namespace) => map k | k in m && !(namespace + ":" <= k) :: m[k]
  }

  function MapRun<V>(defaultTtl: int, ops: seq<Op<V>>): TtlMap<V> {
    if ops == [] then map[] else MapAfter(defaultTtl, MapRun(defaultTtl, ops[..|ops| - 1]), ops[|ops| - 1])
  }

  /** What the unbounded map answers to the `i`-th operation. */
  function MapReplyAt<V>(defaultTtl: int, ops: seq<Op<V>>, i: nat): Reply<V>
    requires i < |ops| && ops[i].Get?
  {
    var m := MapRun(defaultTtl, ops[..i]);
    if ops[i].key in m && ops[i].now <= m[ops[i].key].expiresAt then Hit(m[ops[i].key].value) else Miss
  }

  // ----- Hits are truthful: no assumption on the clock or on the capacity -----

  ghost predicate Sound<V>(c: Cache<V>, m: TtlMap<V>) {
    && UniqueKeys(c.store)
    && forall e :: e in c.store ==> e.key in m && m[e.key] == Bound(e.value, e.expiresAt)
  }

  lemma StepSound<V>(cfg: Config, c: Cache<V>, m: TtlMap<V>, op: Op<V>)
    requires Sound(c, m)
    ensures Sound(Step(cfg, c, op).0, MapAfter(cfg.defaultTtl, m, op))
  {
    StepKeepsUnique(cfg, c, op);
    var c' := Step(cfg, c, op).0;
    forall e | e in c'.store
      ensures var m' := MapAfter(cfg.defaultTtl, m, op); e.key in m' && m'[e.key] == Bound(e.value, e.expiresAt)
    {
      match op
      case Get(key, now) =>
        FindMeaning(c.store, key);
        RetainMembers(OtherThan(key), c.store, e);
      case Put(key, value, ttl, sizeHint, now, later) => PutMember(cfg, c, op, e);
      case Delete(key) => RetainMembers(OtherThan(key), c.store, e);
      case Clear =>
      case Invalidate(namespace) => RetainMembers(OutsidePrefix(namespace + ":"), c.store, e);
    }
  }

  /** After a write the store holds the new entry and old entries with other keys. */
  lemma PutMember<V>(cfg: Config, c: Cache<V>, op: Op<V>, e: Entry<V>)
    requires op.Put? && e in Step(cfg, c, op).0.store
    ensures var entry := NewEntry(cfg, op.key, op.value, op.ttl, op.sizeHint, op.now);
            e == entry || (e in c.store && e.key != op.key)
  {
    var entry := NewEntry(cfg, op.key, op.value, op.ttl, op.sizeHint, op.now);
    var room := Room(c.store, op.key, cfg.maxSize);
    RetainMembers(FreshAt(op.later), room + [entry], e);
    if e != entry {
      assert e in room;
      RoomMember(c.store, op.key, cfg.maxSize, e);
    }
  }

  lemma RoomMember<V>(store: seq<Entry<V>>, key: string, maxSize: int, e: Entry<V>)
    requires e in Room(store, key, maxSize)
    ensures e in store && e.key != key
  {
    RetainMembers(OtherThan(key), store, e);
    FindMeaning(store, key);
  }

  lemma {:induction false} RunSound<V>(cfg: Config, ops: seq<Op<V>>)
    ensures Sound(RunTo(cfg, ops), MapRun(cfg.defaultTtl, ops))
  {
    if ops != [] {
      RunSound(cfg, ops[..|ops| - 1]);
      StepSound(cfg, RunTo(cfg, ops[..|ops| - 1]), MapRun(cfg.defaultTtl, ops[..|ops| - 1]), ops[|ops| - 1]);
    }
  }

  /** A hit returns the value last written under the key, unexpired and not removed since. */
  lemma HitsAreTruthful<V>(cfg: Config, ops: seq<Op<V>>, i: nat)
    requires i < |ops| && ops[i].Get?
    ensures ReplyAt(cfg, ops, i).Hit? ==> ReplyAt(cfg, ops, i) == MapReplyAt(cfg.defaultTtl, ops, i)
  {
    RunSound(cfg, ops[..i]);
    FindMeaning(RunTo(cfg, ops[..i]).store, ops[i].key);
  }

  // ----- Few enough keys: the cache is the map -----

  /** The clock readings in `ops` never decrease and none is later than `t`. */
  ghost predicate Clocked<V>(ops: seq<Op<V>>, t: Time) {
    if ops == [] then true
    else
      var before := ops[..|ops| - 1];
      match ops[|ops| - 1]
      case Get(_, now) => now <= t && Clocked(before, now)
      case Put(_, _, _, _, now, later) => now <= later <= t && Clocked(before, now)
      case _ => Clocked(before, t)
  }

  /** The keys ever written. */
  ghost function WrittenKeys<V>(ops: seq<Op<V>>): set<string> {
    if ops == [] then {}
    else WrittenKeys(ops[..|ops| - 1]) + (if ops[|ops| - 1].Put? then {ops[|ops| - 1].key} else {})
  }

  lemma {:induction false} WrittenKeysMonotone<V>(ops: seq<Op<V>>, i: nat)
    requires i <= |ops|
    ensures WrittenKeys(ops[..i]) <= WrittenKeys(ops)
    decreases |ops|
  {
    if i < |ops| {
      assert ops[..|ops| - 1][..i] == ops[..i];
      WrittenKeysMonotone(ops[..|ops| - 1], i);
    } else {
      assert ops[..i] == ops;
    }
  }

  lemma {:induction false} ClockedPrefix<V>(ops: seq<Op<V>>, t: Time, i: nat)
    requires i < |ops| && Clocked(ops, t)
    ensures ops[i].Get? ==> Clocked(ops[..i], ops[i].now)
    decreases |ops|
  {
    if i < |ops| - 1 {
      var before := ops[..|ops| - 1];
      assert before[..i] == ops[..i];
      match ops[|ops| - 1]
      case Get(_, now) => ClockedPrefix(before, now, i);
      case Put(_, _, _, _, now, later) => ClockedPrefix(before, now, i);
      case _ => ClockedPrefix(before, t, i);
    }
  }

  /** Whatever the map still considers unexpired at `t` is in the store; nothing was ever evicted. */
  ghost predicate Complete<V>(store: seq<Entry<V>>, m: TtlMap<V>, t: Time, keys: set<string>) {
    && (forall k :: k in m && t <= m[k].expiresAt ==> Find(store, k).Some?)
    && (forall e :: e in store ==> e.key in keys)
  }

  lemma {:induction false} UniqueKeysCount<V>(store: seq<Entry<V>>, keys: set<string>)
    requires UniqueKeys(store) && forall e :: e in store ==> e.key in keys
    ensures |store| <= |keys|
  {
    if store != [] {
      var key := store[0].key;
      assert store == [store[0]] + store[1..];
      forall e | e in store[1..] ensures e.key in keys - {key} {
      }
      UniqueKeysCount(store[1..], keys - {key});
      assert |keys - {key}| == |keys| - 1;
    }
  }

  lemma FindRetained<V>(rule: Rule, store: seq<Entry<V>>, key: string)
    requires UniqueKeys(store) && Find(store, key).Some? && Keeps(rule, Find(store, key).value)
    ensures Find(Retain(rule, store), key).Some?
  {
    FindMeaning(store, key);
    RetainMembers(rule, store, Find(store, key).value);
    FindMeaning(Retain(rule, store), key);
  }

  lemma {:induction false} FindAppend<V>(s: seq<Entry<V>>, e: Entry<V>, key: string)
    ensures Find(s + [e], key) == if Find(s, key).Some? then Find(s, key) else if e.key == key then Some(e) else None
  {
    if s == [] {
      assert s + [e] == [e];
    } else {
      assert (s + [e])[1..] == s[1..] + [e];
      FindAppend(s[1..], e, key);
    }
  }

  lemma GetComplete<V>(c: Cache<V>, m: TtlMap<V>, key: string, now: Time, t: Time, keys: set<string>)
    requires Sound(c, m) && Complete(c.store, m, now, keys) && now <= t
    ensures Complete(GetStep(c, key, now).0.store, m, t, keys)
  {
    var store' := GetStep(c, key, now).0.store;
    var others := Retain(OtherThan(key), c.store);
    FindMeaning(c.store, key);
    forall k | k in m && t <= m[k].expiresAt ensures Find(store', k).Some? {
      FindMeaning(c.store, k);
      if k != key {
        FindRetained(OtherThan(key), c.store, k);
      }
      if Find(c.store, key).Some? {
        var e := Find(c.store, key).value;
        FindAppend(others, e.(hitCount := e.hitCount + 1), k);
      }
    }
    forall e | e in store' ensures e.key in keys {
      RetainMembers(OtherThan(key), c.store, e);
    }
  }

  lemma PutComplete<V>(cfg: Config, c: Cache<V>, m: TtlMap<V>, op: Op<V>, t: Time, keys: set<string>)
    requires op.Put? && op.now <= op.later <= t
    requires Sound(c, m) && Complete(c.store, m, op.now, keys)
    requires |keys + {op.key}| <= cfg.maxSize
    ensures Complete(Step(cfg, c, op).0.store, MapAfter(cfg.defaultTtl, m, op), t, keys + {op.key})
  {
    var m' := MapAfter(cfg.defaultTtl, m, op);
    var entry := NewEntry(cfg, op.key, op.value, op.ttl, op.sizeHint, op.now);
    var room := Room(c.store, op.key, cfg.maxSize);
    var store' := Step(cfg, c, op).0.store;
    FindMeaning(c.store, op.key);
    assert |c.store| < cfg.maxSize || Find(c.store, op.key).Some? by {
      if Find(c.store, op.key).None? {
        AppendUnique(c.store, entry);
        UniqueKeysCount(c.store + [entry], keys + {op.key});
      }
    }
    assert cfg.maxSize >= 1 by { assert op.key in keys + {op.key}; }
    RoomUnique(c.store, op.key, cfg.maxSize, entry);
    StepSound(cfg, c, m, op);
    forall k | k in m' && t <= m'[k].expiresAt ensures Find(store', k).Some? {
      if k != op.key {
        FindMeaning(c.store, k);
        FindRetained(OtherThan(op.key), c.store, k);
        RoomMember(c.store, op.key, cfg.maxSize, RoomFinds(c.store, op.key, cfg.maxSize, k));
      } else {
        RoomKeyGone(c.store, op.key, cfg.maxSize);
      }
      FindAppend(room, entry, k);
      var e := Find(room + [entry], k).value;
      FindMeaning(room + [entry], k);
      assert e == entry || (e in room && e in c.store) by {
        if e != entry {
          assert e in room;
          RoomMember(c.store, op.key, cfg.maxSize, e);
        }
      }
      FindRetained(FreshAt(op.later), room + [entry], k);
    }
    forall e | e in store' ensures e.key in keys + {op.key} {
      PutMember(cfg, c, op, e);
    }
  }

  /** With room to spare, another key's entry is still found. */
  ghost function RoomFinds<V>(store: seq<Entry<V>>, key: string, maxSize: int, k: string): (e: Entry<V>)
    requires UniqueKeys(store) && k != key && Find(store, k).Some?
    requires |store| < maxSize || Find(store, key).Some?
    ensures e in Room(store, key, maxSize) && Find(Room(store, key, maxSize), k) == Some(e)
  {
    FindMeaning(store, k);
    FindRetained(OtherThan(key), store, k);
    FindMeaning(Retain(OtherThan(key), store), k);
    Find(Room(store, key, maxSize), k).value
  }

  lemma StepComplete<V>(cfg: Config, c: Cache<V>, m: TtlMap<V>, op: Op<V>, t: Time, keys: set<string>)
    requires !op.Put? && !op.Get?
    requires Sound(c, m) && Complete(c.store, m, t, keys)
    ensures Complete(Step(cfg, c, op).0.store, MapAfter(cfg.defaultTtl, m, op), t, keys)
  {
    if op.Clear? {
      return;
    }
    var rule := if op.Delete? then OtherThan(op.key) else OutsidePrefix(op.namespace + ":");
    var m' := MapAfter(cfg.defaultTtl, m, op);
    forall k | k in m' && t <= m'[k].expiresAt ensures Find(Retain(rule, c.store), k).Some? {
      FindMeaning(c.store, k);
      FindRetained(rule, c.store, k);
    }
    forall e | e in Retain(rule, c.store) ensures e.key in keys {
      RetainMembers(rule, c.store, e);
    }
  }

  lemma {:induction false} RunComplete<V>(cfg: Config, ops: seq<Op<V>>, t: Time)
    requires Clocked(ops, t) && |WrittenKeys(ops)| <= cfg.maxSize
    ensures Complete(RunTo(cfg, ops).store, MapRun(cfg.defaultTtl, ops), t, WrittenKeys(ops))
  {
    if ops != [] {
      var before, op := ops[..|ops| - 1], ops[|ops| - 1];
      var c, m, keys := RunTo(cfg, before), MapRun(cfg.defaultTtl, before), WrittenKeys(before);
      RunSound(cfg, before);
      SubsetSize(keys, WrittenKeys(ops));
      match op
      case Get(key, now) =>
        RunComplete(cfg, before, now);
        GetComplete(c, m, key, now, t, keys);
      case Put(_, _, _, _, now, later) =>
        RunComplete(cfg, before, now);
        PutComplete(cfg, c, m, op, t, keys);
      case _ =>
        RunComplete(cfg, before, t);
        StepComplete(cfg, c, m, op, t, keys);
    }
  }

  lemma SubsetSize<T>(a: set<T>, b: set<T>)
    requires a <= b
    ensures |a| <= |b|
  {
    assert b == a + (b - a);
  }

  /** On a non-decreasing clock, with at most `maxSize` distinct keys, every get answers as the map. */
  lemma CacheIsTheMap<V>(cfg: Config, ops: seq<Op<V>>, t: Time, i: nat)
    requires Clocked(ops, t) && |WrittenKeys(ops)| <= cfg.maxSize
    requires i < |ops| && ops[i].Get?
    ensures ReplyAt(cfg, ops, i) == MapReplyAt(cfg.defaultTtl, ops, i)
  {
    ClockedPrefix(ops, t, i);
    WrittenKeysMonotone(ops, i);
    SubsetSize(WrittenKeys(ops[..i]), WrittenKeys(ops));
    RunComplete(cfg, ops[..i], ops[i].now);
    RunSound(cfg, ops[..i]);
    FindMeaning(RunTo(cfg, ops[..i]).store, ops[i].key);
  }

  // ----- The in-memory fallback of the Redis cache -----

  ghost predicate LocalSound<V>(d: Dict<V>, m: TtlMap<V>) {
    && Coherent(d)
    && forall k :: k in d.values ==> k in m && m[k] == Bound(d.values[k], d.expiry[k])
  }

  ghost predicate LocalComplete<V>(d: Dict<V>, m: TtlMap<V>, t: Time, keys: set<string>) {
    && (forall k :: k in m && t <= m[k].expiresAt ==> k in d.values)
    && d.values.Keys <= keys
  }

  lemma WriteSound<V>(d: Dict<V>, m: TtlMap<V>, key: string, value: V, expiresAt: Time)
    requires LocalSound(d, m)
    ensures LocalSound(DictWrite(d, key, value, expiresAt), m[key := Bound(value, expiresAt)])
  {
    WriteCoherent(d, key, value, expiresAt);
  }

  lemma TrimSound<V>(d: Dict<V>, m: TtlMap<V>, maxSize: int)
    requires LocalSound(d, m)
    ensures LocalSound(DictTrim(d, maxSize), m)
  {
    TrimCoherent(d, maxSize);
  }

  lemma RemoveSound<V>(d: Dict<V>, m: TtlMap<V>, key: string)
    requires LocalSound(d, m)
    ensures LocalSound(Remove(d, key), m) && LocalSound(Remove(d, key), m - {key})
  {
    RemoveCoherent(d, key);
  }

  lemma InvalidateSound<V>(s: Local<V>, m: TtlMap<V>, namespace: string)
    requires LocalSound(s.dict, m)
    ensures LocalSound(LocalInvalidate(s, namespace).0.dict, MapAfter(0, m, Invalidate(namespace)))
  {
    OutsideMembers(s.dict.order, namespace + ":");
  }

  lemma PutSound<V>(cfg: Config, s: Local<V>, m: TtlMap<V>, op: Op<V>)
    requires LocalSound(s.dict, m) && op.Put?
    ensures LocalSound(LocalStep(cfg, s, op).0.dict, MapAfter(cfg.defaultTtl, m, op))
  {
    var expiresAt := op.now + EffectiveTtl(cfg, op.ttl) as real;
    var d' := DictTrim(DictWrite(s.dict, op.key, op.value, expiresAt), cfg.maxSize);
    var m' := m[op.key := Bound(op.value, expiresAt)];
    assert LocalSound(d', m') by { WriteTrimSound(s.dict, m, op.key, op.value, expiresAt, cfg.maxSize); }
    assert LocalStep(cfg, s, op).0.dict == d';
    assert EffectiveTtl(Config(cfg.defaultTtl, 0), op.ttl) == EffectiveTtl(cfg, op.ttl);
    assert MapAfter(cfg.defaultTtl, m, op) == m';
  }

  lemma WriteTrimSound<V>(d: Dict<V>, m: TtlMap<V>, key: string, value: V, expiresAt: Time, maxSize: int)
    requires LocalSound(d, m)
    ensures LocalSound(DictTrim(DictWrite(d, key, value, expiresAt), maxSize), m[key := Bound(value, expiresAt)])
  {
    assert LocalSound(DictWrite(d, key, value, expiresAt), m[key := Bound(value, expiresAt)]) by {
      WriteSound(d, m, key, value, expiresAt);
    }
    TrimSound(DictWrite(d, key, value, expiresAt), m[key := Bound(value, expiresAt)], maxSize);
  }

  lemma LocalStepSound<V>(cfg: Config, s: Local<V>, m: TtlMap<V>, op: Op<V>)
    requires LocalSound(s.dict, m)
    ensures LocalSound(LocalStep(cfg, s, op).0.dict, MapAfter(cfg.defaultTtl, m, op))
  {
    match op
    case Get(key, now) => RemoveSound(s.dict, m, key);
    case Put(key, value, ttl, sizeHint, now, later) => PutSound(cfg, s, m, op);
    case Delete(key) => RemoveSound(s.dict, m, key);
    case Clear =>
    case Invalidate(namespace) => InvalidateSound(s, m, namespace);
  }

  lemma {:induction false} LocalRunSound<V>(cfg: Config, ops: seq<Op<V>>)
    ensures LocalSound(LocalRun(cfg, ops).dict, MapRun(cfg.defaultTtl, ops))
  {
    if ops != [] {
      var before := ops[..|ops| - 1];
      LocalRunSound(cfg, before);
      LocalStepSound(cfg, LocalRun(cfg, before), MapRun(cfg.defaultTtl, before), ops[|ops| - 1]);
    }
  }

  /** Insertion-order eviction never makes the fallback answer with a stale or removed value. */
  lemma LocalHitsAreTruthful<V>(cfg: Config, ops: seq<Op<V>>, i: nat)
    requires i < |ops| && ops[i].Get?
    ensures LocalReplyAt(cfg, ops, i).Hit? ==> LocalReplyAt(cfg, ops, i) == MapReplyAt(cfg.defaultTtl, ops, i)
  {
    LocalRunSound(cfg, ops[..i]);
  }

  lemma {:induction false} DistinctSize(order: seq<string>, keys: set<string>)
    requires Distinct(order) && forall k :: k in order ==> k in keys
    ensures |order| <= |keys|
  {
    if order != [] {
      assert order == [order[0]] + order[1..];
      DistinctSize(order[1..], keys - {order[0]});
      assert |keys - {order[0]}| == |keys| - 1;
    }
  }

  lemma LocalPutComplete<V>(cfg: Config, s: Local<V>, m: TtlMap<V>, op: Op<V>, t: Time, keys: set<string>)
    requires op.Put? && op.now <= t
    requires LocalSound(s.dict, m) && LocalComplete(s.dict, m, op.now, keys)
    requires |keys + {op.key}| <= cfg.maxSize
    ensures LocalComplete(LocalStep(cfg, s, op).0.dict, MapAfter(cfg.defaultTtl, m, op), t, keys + {op.key})
  {
    var expiresAt := op.now + EffectiveTtl(cfg, op.ttl) as real;
    var written := DictWrite(s.dict, op.key, op.value, expiresAt);
    assert Coherent(written) by { WriteCoherent(s.dict, op.key, op.value, expiresAt); }
    assert written.values.Keys == s.dict.values.Keys + {op.key};
    DistinctSize(written.order, keys + {op.key});
    assert LocalStep(cfg, s, op).0.dict == written;
  }

  lemma {:induction false} LocalRunComplete<V>(cfg: Config, ops: seq<Op<V>>, t: Time)
    requires Clocked(ops, t) && |WrittenKeys(ops)| <= cfg.maxSize
    ensures LocalComplete(LocalRun(cfg, ops).dict, MapRun(cfg.defaultTtl, ops), t, WrittenKeys(ops))
  {
    if ops != [] {
      var before, op := ops[..|ops| - 1], ops[|ops| - 1];
      LocalRunSound(cfg, before);
      SubsetSize(WrittenKeys(before), WrittenKeys(ops));
      match op
      case Get(key, now) => LocalRunComplete(cfg, before, now);
      case Put(_, _, _, _, now, later) =>
        LocalRunComplete(cfg, before, now);
        LocalPutComplete(cfg, LocalRun(cfg, before), MapRun(cfg.defaultTtl, before), op, t, WrittenKeys(before));
      case _ => LocalRunComplete(cfg, before, t);
    }
  }

  lemma FallbackIsTheMap<V>(cfg: Config, ops: seq<Op<V>>, t: Time, i: nat)
    requires Clocked(ops, t) && |WrittenKeys(ops)| <= cfg.maxSize
    requires i < |ops| && ops[i].Get?
    ensures LocalReplyAt(cfg, ops, i) == MapReplyAt(cfg.defaultTtl, ops, i)
  {
    ClockedPrefix(ops, t, i);
    WrittenKeysMonotone(ops, i);
    SubsetSize(WrittenKeys(ops[..i]), WrittenKeys(ops));
    LocalRunComplete(cfg, ops[..i], ops[i].now);
    LocalRunSound(cfg, ops[..i]);
  }

  /** The drop-in promise: the two caches answer every get alike when nothing has to be evicted. */
  lemma DropInReplacement<V>(cfg: Config, ops: seq<Op<V>>, t: Time, i: nat)
    requires Clocked(ops, t) && |WrittenKeys(ops)| <= cfg.maxSize
    requires i < |ops| && ops[i].Get?
    ensures ReplyAt(cfg, ops, i) == LocalReplyAt(cfg, ops, i)
  {
    CacheIsTheMap(cfg, ops, t, i);
    FallbackIsTheMap(cfg, ops, t, i);
  }
}
