/** What the operations of both caches answer and count, in their arguments. */
module CacheLaws {
  import opened Prelude
  import opened TtlCacheModel
  import opened RedisCacheFallback
  import opened LruLedger
  import opened CacheRefinement
  import opened CacheDivergence

  // ----- How long an entry lives -----

  /**
   Read back with nothing in between, not before the write's last clock reading: a hit with the value
   written, exactly until `now` plus the write's own time to live, or the default one if it gave none.
   */
  lemma LivesForItsTtl<V>(cfg: Config, ops: seq<Op<V>>, key: string, value: V, ttl: Option<int>, sizeHint: int,
                          now: Time, later: Time, t: Time)
    requires cfg.maxSize >= 1 && later <= t
    ensures var deadline := now + (match ttl case Some(n) => n case None => cfg.defaultTtl) as real;
            Step(cfg, RunTo(cfg, ops + [Put(key, value, ttl, sizeHint, now, later)]), Get(key, t)).1 ==
              if t <= deadline then Hit(value) else Miss
  {
    var op := Put(key, value, ttl, sizeHint, now, later);
    var c, c' := RunTo(cfg, ops), RunTo(cfg, ops + [op]);
    RunSnoc(cfg, ops, op);
    RunSound(cfg, ops + [op]);
    FindMeaning(c'.store, key);
    var entry := NewEntry(cfg, key, value, ttl, sizeHint, now);
    if t <= entry.expiresAt {
      var room := Room(c.store, key, cfg.maxSize);
      assert entry in room + [entry];
      RetainMembers(FreshAt(later), room + [entry], entry);
      assert entry in c'.store;
    }
  }

  lemma LocalLivesForItsTtl<V>(cfg: Config, ops: seq<Op<V>>, key: string, value: V, ttl: Option<int>, sizeHint: int,
                               now: Time, later: Time, t: Time)
    requires cfg.maxSize >= 1
    ensures var deadline := now + (match ttl case Some(n) => n case None => cfg.defaultTtl) as real;
            LocalStep(cfg, LocalRun(cfg, ops + [Put(key, value, ttl, sizeHint, now, later)]), Get(key, t)).1 ==
              if t <= deadline then Hit(value) else Miss
  {
    var op := Put(key, value, ttl, sizeHint, now, later);
    RunSnoc(cfg, ops, op);
    LocalRunCoherent(cfg, ops);
    LocalRunCoherent(cfg, ops + [op]);
    LocalRunSound(cfg, ops + [op]);
    LocalCapacity(cfg, ops);
    WrittenKeyIsThere(cfg, LocalRun(cfg, ops), op);
  }

  lemma WrittenKeyIsThere<V>(cfg: Config, s: Local<V>, op: Op<V>)
    requires op.Put? && cfg.maxSize >= 1 && Coherent(s.dict) && |s.dict.order| <= Max(0, cfg.maxSize)
    ensures op.key in LocalStep(cfg, s, op).0.dict.order
  {
    PutOrder(cfg, s, op);
    if op.key in s.dict.order {
      assert s.dict.order == [s.dict.order[0]] + s.dict.order[1..];
      var written := DictWrite(s.dict, op.key, op.value, op.now + EffectiveTtl(cfg, op.ttl) as real);
      assert !Overfull(written, cfg.maxSize);
    }
  }

  // ----- What the counters count -----

  ghost function Hits<V>(cfg: Config, ops: seq<Op<V>>): nat {
    if ops == [] then 0
    else Hits(cfg, ops[..|ops| - 1]) + (if ReplyAt(cfg, ops, |ops| - 1).Hit? then 1 else 0)
  }

  ghost function Writes<V>(ops: seq<Op<V>>): nat {
    if ops == [] then 0 else Writes(ops[..|ops| - 1]) + (if ops[|ops| - 1].Put? then 1 else 0)
  }

  /** `hits`, `misses` and `sets` are the gets answered, the other gets, and the writes. */
  lemma {:induction false} HitsAreCounted<V>(cfg: Config, ops: seq<Op<V>>)
    ensures RunTo(cfg, ops).stats.hits == Hits(cfg, ops)
    ensures RunTo(cfg, ops).stats.misses + Hits(cfg, ops) == Gets(ops)
    ensures RunTo(cfg, ops).stats.sets == if cfg.maxSize >= 1 then Writes(ops) else 0
  {
    if ops != [] {
      HitsAreCounted(cfg, ops[..|ops| - 1]);
      if ops[|ops| - 1].Put? {
        SetFailsIffNoCapacity(cfg, ops, |ops| - 1);
      }
    }
  }

  /** A get removes and counts an expiration exactly when it finds its key expired. */
  lemma ExpirationsOfGet<V>(cfg: Config, ops: seq<Op<V>>, key: string, now: Time)
    ensures var (c, c') := (RunTo(cfg, ops), Step(cfg, RunTo(cfg, ops), Get(key, now)).0);
            && c'.stats.evictions == c.stats.evictions
            && c'.stats.expirations == c.stats.expirations +
                 (if exists e :: e in c.store && e.key == key && e.expiresAt < now then 1 else 0)
  {
    RunKeepsUnique(cfg, ops);
    var c := RunTo(cfg, ops);
    FindMeaning(c.store, key);
    forall e | e in c.store && e.key == key ensures Find(c.store, key) == Some(e) {
      UniqueMember(c.store, e);
    }
  }

  ghost predicate IsNew<V>(store: seq<Entry<V>>, key: string) {
    forall e :: e in store ==> e.key != key
  }

  lemma IsNewMeans<V>(store: seq<Entry<V>>, key: string)
    ensures IsNew(store, key) <==> Find(store, key).None?
  {
    FindMeaning(store, key);
  }

  /** A write of a new key into a full cache counts one eviction, any other write none. */
  lemma EvictionsOfWrite<V>(cfg: Config, ops: seq<Op<V>>, key: string, value: V, ttl: Option<int>, sizeHint: int,
                            now: Time, later: Time)
    requires cfg.maxSize >= 1
    ensures var c := RunTo(cfg, ops);
            var c' := Step(cfg, c, Put(key, value, ttl, sizeHint, now, later)).0;
            && c'.stats.sets == c.stats.sets + 1
            && c'.stats.evictions == c.stats.evictions +
                 (if IsNew(c.store, key) && |c.store| == cfg.maxSize then 1 else 0)
            && |c'.store| + c'.stats.expirations - c.stats.expirations ==
                 |c.store| + (if IsNew(c.store, key) && |c.store| < cfg.maxSize then 1 else 0)
  {
    var c := RunTo(cfg, ops);
    RunKeepsUnique(cfg, ops);
    CapacityHolds(cfg, ops);
    RetainOthersSize(c.store, key);
    IsNewMeans(c.store, key);
  }

  lemma StoreOfWrite<V>(cfg: Config, c: Cache<V>, key: string, value: V, ttl: Option<int>, sizeHint: int, now: Time, later: Time)
    requires cfg.maxSize >= 1
    ensures var placed := Room(c.store, key, cfg.maxSize) + [NewEntry(cfg, key, value, ttl, sizeHint, now)];
            var c' := Step(cfg, c, Put(key, value, ttl, sizeHint, now, later)).0;
            if c'.stats.sets % 50 == 0 then c'.store == Retain(FreshAt(later), placed)
            else c'.store == placed && c'.stats.expirations == c.stats.expirations
  {
    var c' := Step(cfg, c, Put(key, value, ttl, sizeHint, now, later)).0;
    assert c'.stats.sets == c.stats.sets + 1;
  }

  /** Every fiftieth write, and no other, removes what has expired by its second reading, and counts that. */
  lemma ExpirationsOfWrite<V>(cfg: Config, ops: seq<Op<V>>, key: string, value: V, ttl: Option<int>, sizeHint: int,
                              now: Time, later: Time)
    requires cfg.maxSize >= 1
    ensures var c := RunTo(cfg, ops);
            var c' := Step(cfg, c, Put(key, value, ttl, sizeHint, now, later)).0;
            && (c'.stats.sets % 50 != 0 ==> c'.stats.expirations == c.stats.expirations)
            && (c'.stats.sets % 50 == 0 ==> forall e :: e in c'.store ==> later <= e.expiresAt)
            && forall e :: e in c.store && e.key != key && later <= e.expiresAt && |c.store| < cfg.maxSize ==> e in c'.store
  {
    var c := RunTo(cfg, ops);
    var placed := Room(c.store, key, cfg.maxSize) + [NewEntry(cfg, key, value, ttl, sizeHint, now)];
    var c' := Step(cfg, c, Put(key, value, ttl, sizeHint, now, later)).0;
    StoreOfWrite(cfg, c, key, value, ttl, sizeHint, now, later);
    OthersPlaced(cfg, c.store, key, NewEntry(cfg, key, value, ttl, sizeHint, now));
    forall e | e in c'.store && c'.stats.sets % 50 == 0 ensures later <= e.expiresAt {
      RetainMembers(FreshAt(later), placed, e);
    }
    forall e | e in c.store && e.key != key && later <= e.expiresAt && |c.store| < cfg.maxSize ensures e in c'.store {
      RetainMembers(FreshAt(later), placed, e);
    }
  }

  /** While there is room, a write leaves the entries of other keys. */
  lemma OthersPlaced<V>(cfg: Config, store: seq<Entry<V>>, key: string, entry: Entry<V>)
    ensures forall e :: e in store && e.key != key && |store| < cfg.maxSize ==> e in Room(store, key, cfg.maxSize) + [entry]
  {
    forall e | e in store && e.key != key && |store| < cfg.maxSize ensures e in Room(store, key, cfg.maxSize) {
      RetainMembers(OtherThan(key), store, e);
    }
  }

  // ----- What an entry remembers -----

  /** The last write of a key, and the hits since. */
  datatype Origin = Origin(createdAt: Time, sizeHint: int, hits: nat)

  ghost function OriginOf<V>(cfg: Config, ops: seq<Op<V>>, key: string): Option<Origin> {
    if ops == [] then None
    else
      var before, op := ops[..|ops| - 1], ops[|ops| - 1];
      var origin := OriginOf(cfg, before, key);
      if op.Put? && op.key == key then Some(Origin(op.now, op.sizeHint, 0))
      else if op.Get? && op.key == key && ReplyAt(cfg, ops, |before|).Hit? && origin.Some? then
        Some(origin.value.(hits := origin.value.hits + 1))
      else origin
  }

  ghost predicate Remembers<V>(e: Entry<V>, origin: Option<Origin>) {
    origin == Some(Origin(e.createdAt, e.sizeHint, e.hitCount))
  }

  /** Every stored entry has the creation time and size of its last write and has counted its hits since. */
  lemma {:induction false} EntriesRemember<V>(cfg: Config, ops: seq<Op<V>>)
    ensures forall e :: e in RunTo(cfg, ops).store ==> Remembers(e, OriginOf(cfg, ops, e.key))
  {
    if ops != [] {
      var before, op := ops[..|ops| - 1], ops[|ops| - 1];
      EntriesRemember(cfg, before);
      assert ops == before + [op];
      forall e | e in RunTo(cfg, ops).store ensures Remembers(e, OriginOf(cfg, ops, e.key)) {
        EntryRemembers(cfg, before, op, e);
      }
    }
  }

  lemma EntryRemembers<V>(cfg: Config, before: seq<Op<V>>, op: Op<V>, e: Entry<V>)
    requires forall x :: x in RunTo(cfg, before).store ==> Remembers(x, OriginOf(cfg, before, x.key))
    requires e in RunTo(cfg, before + [op]).store
    ensures Remembers(e, OriginOf(cfg, before + [op], e.key))
  {
    var c := RunTo(cfg, before);
    RunSnoc(cfg, before, op);
    assert (before + [op])[..|before|] == before;
    match op
    case Get(key, now) =>
      FindMeaning(c.store, key);
      RetainMembers(OtherThan(key), c.store, e);
    case Put(key, value, ttl, sizeHint, now, later) => PutMember(cfg, c, op, e);
    case Delete(key) => RetainMembers(OtherThan(key), c.store, e);
    case Clear =>
    case Invalidate(namespace) => RetainMembers(OutsidePrefix(namespace + ":"), c.store, e);
  }

  // ----- The fallback's counters -----

  ghost function LocalHits<V>(cfg: Config, ops: seq<Op<V>>): nat {
    if ops == [] then 0
    else LocalHits(cfg, ops[..|ops| - 1]) + (if LocalReplyAt(cfg, ops, |ops| - 1).Hit? then 1 else 0)
  }

  /** Writes to a key that is there. */
  ghost function LocalOverwrites<V>(cfg: Config, ops: seq<Op<V>>): nat {
    if ops == [] then 0
    else
      var before, op := ops[..|ops| - 1], ops[|ops| - 1];
      LocalOverwrites(cfg, before) + (if op.Put? && op.key in LocalRun(cfg, before).dict.order then 1 else 0)
  }

  ghost function LocalRemovals<V>(cfg: Config, ops: seq<Op<V>>): nat {
    if ops == [] then 0
    else
      var reply := LocalReplyAt(cfg, ops, |ops| - 1);
      LocalRemovals(cfg, ops[..|ops| - 1]) + (if reply.Removed? then reply.count else 0)
  }

  lemma {:induction false} WithoutSize(order: seq<string>, key: string)
    ensures |Without(order, key)| == |order| - (if key in order then 1 else 0)
  {
    if order != [] {
      assert order == [order[0]] + order[1..];
      WithoutSize(order[1..], key);
    }
  }

  /** The fallback's books: the same two equations as for the LRU cache. */
  lemma {:induction false} LocalLedgerBalances<V>(cfg: Config, ops: seq<Op<V>>)
    ensures var s := LocalRun(cfg, ops);
            && s.stats.sets == Writes(ops) && s.stats.hits == LocalHits(cfg, ops)
            && s.stats.misses + s.stats.hits == Gets(ops)
            && s.stats.sets == |s.dict.order| + LocalOverwrites(cfg, ops) + s.stats.evictions + s.stats.expirations
                               + LocalRemovals(cfg, ops)
  {
    if ops != [] {
      var before, op := ops[..|ops| - 1], ops[|ops| - 1];
      LocalLedgerBalances(cfg, before);
      LocalRunCoherent(cfg, before);
      LocalSizes(cfg, LocalRun(cfg, before), op);
    }
  }

  /** What one operation does to the fallback's size and counters. */
  lemma LocalSizes<V>(cfg: Config, s: Local<V>, op: Op<V>)
    requires Coherent(s.dict)
    ensures var (s', reply) := LocalStep(cfg, s, op);
            var known := op.Put? && op.key in s.dict.order;
            && |s'.dict.order| - |s.dict.order| ==
                 (if op.Put? && !known then 1 else 0) - (s'.stats.evictions - s.stats.evictions)
                 - (s'.stats.expirations - s.stats.expirations) - (if reply.Removed? then reply.count else 0)
            && s'.stats.expirations - s.stats.expirations ==
                 (if op.Get? && op.key in s.dict.order && s.dict.expiry[op.key] < op.now then 1 else 0)
            && s'.stats.evictions - s.stats.evictions ==
                 (if op.Put? && |s.dict.order| + (if known then 0 else 1) > Max(0, cfg.maxSize) then 1 else 0)
  {
    match op
    case Get(key, now) => WithoutSize(s.dict.order, key);
    case Put(key, value, ttl, sizeHint, now, later) =>
      var written := DictWrite(s.dict, key, value, now + EffectiveTtl(cfg, ttl) as real);
      if written.order != [] {
        WithoutSize(written.order, written.order[0]);
      }
    case Delete(key) => WithoutSize(s.dict.order, key);
    case Clear =>
    case Invalidate(namespace) =>
  }
}
