/**
 The meaning of the TTL cache.

 The store is an ordered sequence of entries, least recently used first, and every operation has
 a function that says what it does to it. `TtlCache` refines these functions with the ordered
 dictionary and the loops; the lemmas about whole runs are stated over `RunTo`.
 */
module TtlCacheModel {
  import opened Prelude

  datatype Entry<V> = Entry(key: string, value: V, createdAt: Time, expiresAt: Time, hitCount: nat, sizeHint: int)

  datatype Stats = Stats(hits: nat, misses: nat, evictions: nat, expirations: nat, sets: nat)

  datatype Config = Config(defaultTtl: int, maxSize: int)

  /** The store in eviction order: `store[0]` goes first. */
  datatype Cache<V> = Cache(store: seq<Entry<V>>, stats: Stats)

  const EMPTY_STATS := Stats(0, 0, 0, 0, 0)
  const CLEANUP_PERIOD := 50

  // ----- Views of the store -----

  /** The reasons for which an entry survives a bulk or single removal. */
  datatype Rule = OtherThan(key: string) | FreshAt(now: Time) | OutsidePrefix(prefix: string)

  predicate Keeps<V>(rule: Rule, e: Entry<V>) {
    match rule
    case OtherThan(key) => e.key != key
    case FreshAt(now) => now <= e.expiresAt
    case OutsidePrefix(prefix) => !(prefix <= e.key)
  }

  function Retain<V>(rule: Rule, store: seq<Entry<V>>): seq<Entry<V>> {
    if store == [] then []
    else if Keeps(rule, store[0]) then [store[0]] + Retain(rule, store[1..])
    else Retain(rule, store[1..])
  }

  function Find<V>(store: seq<Entry<V>>, key: string): Option<Entry<V>> {
    if store == [] then None
    else if store[0].key == key then Some(store[0])
    else Find(store[1..], key)
  }

  ghost predicate UniqueKeys<V>(store: seq<Entry<V>>) {
    forall i, j :: 0 <= i < j < |store| ==> store[i].key != store[j].key
  }

  // ----- Operations -----

  /** What is left after evicting from the front until an insertion fits. */
  function Evict<V>(store: seq<Entry<V>>, maxSize: int): seq<Entry<V>> {
    if |store| < maxSize then store
    else if maxSize < 1 then []
    else store[|store| - maxSize + 1..]
  }

  function GetStep<V>(c: Cache<V>, key: string, now: Time): (Cache<V>, Option<V>) {
    match Find(c.store, key)
    case None => (c.(stats := c.stats.(misses := c.stats.misses + 1)), None)
    case Some(e) =>
      var others := Retain(OtherThan(key), c.store);
      if now > e.expiresAt then
        (Cache(others, c.stats.(misses := c.stats.misses + 1, expirations := c.stats.expirations + 1)), None)
      else
        (Cache(others + [e.(hitCount := e.hitCount + 1)], c.stats.(hits := c.stats.hits + 1)), Some(e.value))
  }

  function EffectiveTtl(cfg: Config, ttl: Option<int>): int {
    if ttl.Some? then ttl.value else cfg.defaultTtl
  }

  function NewEntry<V>(cfg: Config, key: string, value: V, ttl: Option<int>, sizeHint: int, now: Time): Entry<V> {
    Entry(key, value, now, now + EffectiveTtl(cfg, ttl) as real, 0, sizeHint)
  }

  function CleanupStep<V>(c: Cache<V>, now: Time): Cache<V> {
    RetainCountedBound(FreshAt(now), c.store);
    var kept := Retain(FreshAt(now), c.store);
    Cache(kept, c.stats.(expirations := c.stats.expirations + (|c.store| - |kept|)))
  }

  /** The last part of every successful write: count it, and clean up on each fiftieth. */
  function WriteDone<V>(c: Cache<V>, later: Time): Cache<V> {
    var counted := c.(stats := c.stats.(sets := c.stats.sets + 1));
    if counted.stats.sets % CLEANUP_PERIOD == 0 then CleanupStep(counted, later) else counted
  }

  /** The store just before a new entry for `key` is appended. */
  function Room<V>(store: seq<Entry<V>>, key: string, maxSize: int): seq<Entry<V>> {
    if Find(store, key).Some? then Retain(OtherThan(key), store) else Evict(store, maxSize)
  }

  function StatsAfterRoom<V>(c: Cache<V>, key: string, maxSize: int): Stats {
    if Find(c.store, key).Some? then c.stats
    else c.stats.(evictions := c.stats.evictions + (|c.store| - |Evict(c.store, maxSize)|))
  }

  /**
   `now` is the clock reading for the new entry, `later` the second reading, for the periodic cleanup.
   The result is false when the eviction loop pops from an empty dictionary (KeyError).
   */
  function SetStep<V>(cfg: Config, c: Cache<V>, key: string, value: V, ttl: Option<int>, sizeHint: int,
                      now: Time, later: Time): (Cache<V>, bool) {
    var room := Room(c.store, key, cfg.maxSize);
    var stats := StatsAfterRoom(c, key, cfg.maxSize);
    if Find(c.store, key).None? && cfg.maxSize < 1 then (Cache(room, stats), false)
    else (WriteDone(Cache(room + [NewEntry(cfg, key, value, ttl, sizeHint, now)], stats), later), true)
  }

  function DeleteStep<V>(c: Cache<V>, key: string): (Cache<V>, bool) {
    (c.(store := Retain(OtherThan(key), c.store)), Find(c.store, key).Some?)
  }

  function ClearStep<V>(c: Cache<V>): (Cache<V>, nat) {
    (c.(store := []), |c.store|)
  }

  function InvalidateStep<V>(c: Cache<V>, namespace: string): (Cache<V>, nat) {
    RetainCountedBound(OutsidePrefix(namespace + ":"), c.store);
    var kept := Retain(OutsidePrefix(namespace + ":"), c.store);
    (c.(store := kept), |c.store| - |kept|)
  }

  // ----- Runs -----

  datatype Op<V> =
    | Get(key: string, now: Time)
    | Put(key: string, value: V, ttl: Option<int>, sizeHint: int, now: Time, later: Time)
    | Delete(key: string)
    | Clear
    | Invalidate(namespace: string)

  datatype Reply<V> = Hit(value: V) | Miss | Written(ok: bool) | Removed(count: nat)

  function Step<V>(cfg: Config, c: Cache<V>, op: Op<V>): (Cache<V>, Reply<V>) {
    match op
    case Get(key, now) =>
      var (c', r) := GetStep(c, key, now);
      (c', if r.Some? then Hit(r.value) else Miss)
    case Put(key, value, ttl, sizeHint, now, later) =>
      var (c', ok) := SetStep(cfg, c, key, value, ttl, sizeHint, now, later);
      (c', Written(ok))
    case Delete(key) =>
      var (c', found) := DeleteStep(c, key);
      (c', Removed(if found then 1 else 0))
    case Clear =>
      var (c', n) := ClearStep(c);
      (c', Removed(n))
    case Invalidate(namespace) =>
      var (c', n) := InvalidateStep(c, namespace);
      (c', Removed(n))
  }

  function Start<V>(): Cache<V> {
    Cache([], EMPTY_STATS)
  }

  /** The cache reached from an empty one by the given operations. */
  function RunTo<V>(cfg: Config, ops: seq<Op<V>>): Cache<V> {
    if ops == [] then Start()
    else Step(cfg, RunTo(cfg, ops[..|ops| - 1]), ops[|ops| - 1]).0
  }

  /** What the `i`-th operation of a run answers. */
  function ReplyAt<V>(cfg: Config, ops: seq<Op<V>>, i: nat): Reply<V>
    requires i < |ops|
  {
    Step(cfg, RunTo(cfg, ops[..i]), ops[i]).1
  }

  // ----- Facts about the views -----

  lemma {:induction false} RetainCountedBound<V>(rule: Rule, store: seq<Entry<V>>)
    ensures |Retain(rule, store)| <= |store|
  {
    if store != [] {
      RetainCountedBound(rule, store[1..]);
    }
  }

  /** Exactly the entries the rule keeps survive. */
  lemma {:induction false} RetainMembers<V>(rule: Rule, store: seq<Entry<V>>, e: Entry<V>)
    ensures e in Retain(rule, store) <==> e in store && Keeps(rule, e)
  {
    if store != [] {
      RetainMembers(rule, store[1..], e);
      assert store == [store[0]] + store[1..];
    }
  }

  lemma {:induction false} RetainAll<V>(rule: Rule, s: seq<Entry<V>>)
    requires forall i :: 0 <= i < |s| ==> Keeps(rule, s[i])
    ensures Retain(rule, s) == s
  {
    if s != [] {
      RetainAll(rule, s[1..]);
    }
  }

  lemma {:induction false} FindMeaning<V>(store: seq<Entry<V>>, key: string)
    ensures Find(store, key).Some? ==> Find(store, key).value in store && Find(store, key).value.key == key
    ensures Find(store, key).None? <==> forall i :: 0 <= i < |store| ==> store[i].key != key
  {
    if store != [] && store[0].key != key {
      FindMeaning(store[1..], key);
      assert store == [store[0]] + store[1..];
    }
  }

  lemma {:induction false} UniqueMember<V>(store: seq<Entry<V>>, e: Entry<V>)
    requires UniqueKeys(store) && e in store
    ensures Find(store, e.key) == Some(e)
  {
    if store[0] != e {
      assert e in store[1..] by { assert store == [store[0]] + store[1..]; }
      assert store[0].key != e.key by {
        var i :| 0 <= i < |store| && store[i] == e;
        assert i > 0;
      }
      UniqueMember(store[1..], e);
    }
  }

  /** With unique keys, retaining every other key removes exactly one entry, or nothing. */
  lemma {:induction false} RetainOthersSize<V>(store: seq<Entry<V>>, key: string)
    requires UniqueKeys(store)
    ensures |Retain(OtherThan(key), store)| == |store| - (if Find(store, key).Some? then 1 else 0)
    ensures Find(store, key).None? ==> Retain(OtherThan(key), store) == store
  {
    if store != [] {
      if store[0].key == key {
        RetainAll(OtherThan(key), store[1..]);
      } else {
        RetainOthersSize(store[1..], key);
      }
    }
  }

  lemma {:induction false} RetainUnique<V>(rule: Rule, store: seq<Entry<V>>)
    requires UniqueKeys(store)
    ensures UniqueKeys(Retain(rule, store))
  {
    if store != [] {
      RetainUnique(rule, store[1..]);
      var rest := Retain(rule, store[1..]);
      forall i | 0 <= i < |rest| ensures rest[i].key != store[0].key {
        RetainMembers(rule, store[1..], rest[i]);
      }
    }
  }

  lemma AppendUnique<V>(store: seq<Entry<V>>, e: Entry<V>)
    requires UniqueKeys(store) && Find(store, e.key).None?
    ensures UniqueKeys(store + [e])
  {
    FindMeaning(store, e.key);
  }

  lemma RetainedKeyGone<V>(store: seq<Entry<V>>, key: string)
    ensures Find(Retain(OtherThan(key), store), key).None?
  {
    var others := Retain(OtherThan(key), store);
    FindMeaning(others, key);
    if Find(others, key).Some? {
      RetainMembers(OtherThan(key), store, Find(others, key).value);
    }
  }

  lemma RoomKeyGone<V>(store: seq<Entry<V>>, key: string, maxSize: int)
    ensures Find(Room(store, key, maxSize), key).None?
  {
    RetainedKeyGone(store, key);
    FindMeaning(store, key);
    FindMeaning(Room(store, key, maxSize), key);
  }

  lemma RoomUnique<V>(store: seq<Entry<V>>, key: string, maxSize: int, e: Entry<V>)
    requires UniqueKeys(store) && e.key == key
    ensures UniqueKeys(Room(store, key, maxSize) + [e])
  {
    RetainUnique(OtherThan(key), store);
    RoomKeyGone(store, key, maxSize);
    AppendUnique(Room(store, key, maxSize), e);
  }

  /** No sequence of operations makes two entries share a key. */
  lemma {:induction false} StepKeepsUnique<V>(cfg: Config, c: Cache<V>, op: Op<V>)
    requires UniqueKeys(c.store)
    ensures UniqueKeys(Step(cfg, c, op).0.store)
  {
    match op
    case Get(key, now) =>
      RetainUnique(OtherThan(key), c.store);
      RetainedKeyGone(c.store, key);
      if Find(c.store, key).Some? {
        FindMeaning(c.store, key);
        var e := Find(c.store, key).value;
        AppendUnique(Retain(OtherThan(key), c.store), e.(hitCount := e.hitCount + 1));
      }
    case Put(key, value, ttl, sizeHint, now, later) =>
      var entry := NewEntry(cfg, key, value, ttl, sizeHint, now);
      RoomUnique(c.store, key, cfg.maxSize, entry);
      RetainUnique(FreshAt(later), Room(c.store, key, cfg.maxSize) + [entry]);
    case Delete(key) => RetainUnique(OtherThan(key), c.store);
    case Clear =>
    case Invalidate(namespace) => RetainUnique(OutsidePrefix(namespace + ":"), c.store);
  }

  lemma {:induction false} RunKeepsUnique<V>(cfg: Config, ops: seq<Op<V>>)
    ensures UniqueKeys(RunTo(cfg, ops).store)
  {
    if ops != [] {
      var before := ops[..|ops| - 1];
      RunKeepsUnique(cfg, before);
      StepKeepsUnique(cfg, RunTo(cfg, before), ops[|ops| - 1]);
    }
  }
}
