/** Recency order and book-keeping of the TTL cache, over every run from an empty cache. */
module LruLedger {
  import opened Prelude
  import opened TtlCacheModel
  import opened LruInclusion

  // ----- Order by last touch -----

  /** The key that the last operation of a run touched: a successful write or a hit. */
  ghost function Touched<V>(cfg: Config, ops: seq<Op<V>>): Option<string>
    requires ops != []
  {
    match ReplyAt(cfg, ops, |ops| - 1)
    case Hit(_) => if ops[|ops| - 1].Get? then Some(ops[|ops| - 1].key) else None
    case Written(ok) => if ok && ops[|ops| - 1].Put? then Some(ops[|ops| - 1].key) else None
    case _ => None
  }

  /** Index of the last operation that touched the key, or -1. */
  ghost function LastTouch<V>(cfg: Config, ops: seq<Op<V>>, key: string): int {
    if ops == [] then -1
    else if Touched(cfg, ops) == Some(key) then |ops| - 1
    else LastTouch(cfg, ops[..|ops| - 1], key)
  }

  lemma {:induction false} LastTouchRange<V>(cfg: Config, ops: seq<Op<V>>, key: string)
    ensures -1 <= LastTouch(cfg, ops, key) < |ops|
  {
    if ops != [] {
      LastTouchRange(cfg, ops[..|ops| - 1], key);
    }
  }

  ghost predicate ByLastTouch<V>(cfg: Config, ops: seq<Op<V>>, store: seq<Entry<V>>) {
    && (forall i :: 0 <= i < |store| ==> 0 <= LastTouch(cfg, ops, store[i].key))
    && (forall i, j :: 0 <= i < j < |store| ==> LastTouch(cfg, ops, store[i].key) < LastTouch(cfg, ops, store[j].key))
  }

  lemma {:induction false} ByLastTouchThins<V(!new)>(cfg: Config, ops: seq<Op<V>>, s: seq<Entry<V>>, l: seq<Entry<V>>)
    requires Subsequence(s, l) && ByLastTouch(cfg, ops, l)
    ensures ByLastTouch(cfg, ops, s)
    decreases |l|
  {
    if s != [] {
      assert ByLastTouch(cfg, ops, l[1..]);
      if s[0] == l[0] {
        ByLastTouchThins(cfg, ops, s[1..], l[1..]);
        forall j | 0 < j < |s| ensures LastTouch(cfg, ops, s[0].key) < LastTouch(cfg, ops, s[j].key) {
          assert s[j] in s[1..];
          SubsequenceMember(s[1..], l[1..], s[j]);
        }
      } else {
        ByLastTouchThins(cfg, ops, s, l[1..]);
      }
    }
  }

  lemma {:induction false} SubsequenceSelf<T(!new)>(s: seq<T>)
    ensures Subsequence(s, s)
  {
    if s != [] {
      SubsequenceSelf(s[1..]);
    }
  }

  lemma {:induction false} RetainThins<V(!new)>(rule: Rule, store: seq<Entry<V>>)
    ensures Subsequence(Retain(rule, store), store)
  {
    if store != [] {
      RetainThins(rule, store[1..]);
      if !Keeps(rule, store[0]) {
        SubsequenceWiden(Retain(rule, store[1..]), store[0], store[1..]);
        assert [store[0]] + store[1..] == store;
      }
    }
  }

  lemma RoomThins<V(!new)>(store: seq<Entry<V>>, key: string, maxSize: int)
    ensures Subsequence(Room(store, key, maxSize), store)
    ensures forall e :: e in Room(store, key, maxSize) ==> e.key != key
  {
    var room := Room(store, key, maxSize);
    RoomKeyGone(store, key, maxSize);
    FindMeaning(room, key);
    RetainThins(OtherThan(key), store);
    SubsequenceSelf(store);
    if Find(store, key).None? && |store| >= maxSize >= 1 {
      SubsequenceSuffix(store, store, |store| - maxSize + 1);
    }
  }

  /** Touching a key puts it after everything that stayed. */
  lemma TouchGoesLast<V(!new)>(cfg: Config, ops: seq<Op<V>>, stayed: seq<Entry<V>>, e: Entry<V>)
    requires ops != [] && Touched(cfg, ops) == Some(e.key)
    requires ByLastTouch(cfg, ops[..|ops| - 1], stayed)
    requires forall x :: x in stayed ==> x.key != e.key
    ensures ByLastTouch(cfg, ops, stayed + [e])
  {
    var store := stayed + [e];
    forall i | 0 <= i < |stayed|
      ensures LastTouch(cfg, ops, store[i].key) == LastTouch(cfg, ops[..|ops| - 1], stayed[i].key) < |ops| - 1
    {
      assert stayed[i] in stayed;
      LastTouchRange(cfg, ops[..|ops| - 1], stayed[i].key);
    }
  }

  /** Any thinning of the old store is still in order after an operation that touched nothing in it. */
  lemma UntouchedStays<V(!new)>(cfg: Config, ops: seq<Op<V>>, store: seq<Entry<V>>)
    requires ops != [] && ByLastTouch(cfg, ops[..|ops| - 1], store)
    requires forall x :: x in store ==> Touched(cfg, ops) != Some(x.key)
    ensures ByLastTouch(cfg, ops, store)
  {
    forall i | 0 <= i < |store|
      ensures LastTouch(cfg, ops, store[i].key) == LastTouch(cfg, ops[..|ops| - 1], store[i].key)
    {
      assert store[i] in store;
    }
  }

  lemma RetainedStays<V(!new)>(cfg: Config, ops: seq<Op<V>>, rule: Rule)
    requires ops != [] && Touched(cfg, ops) == None
    requires ByLastTouch(cfg, ops[..|ops| - 1], RunTo(cfg, ops[..|ops| - 1]).store)
    ensures ByLastTouch(cfg, ops, Retain(rule, RunTo(cfg, ops[..|ops| - 1]).store))
  {
    var store := RunTo(cfg, ops[..|ops| - 1]).store;
    RetainThins(rule, store);
    ByLastTouchThins(cfg, ops[..|ops| - 1], Retain(rule, store), store);
    UntouchedStays(cfg, ops, Retain(rule, store));
  }

  lemma GetByLastTouch<V(!new)>(cfg: Config, ops: seq<Op<V>>)
    requires ops != [] && ops[|ops| - 1].Get?
    requires ByLastTouch(cfg, ops[..|ops| - 1], RunTo(cfg, ops[..|ops| - 1]).store)
    ensures ByLastTouch(cfg, ops, RunTo(cfg, ops).store)
  {
    var before, key := ops[..|ops| - 1], ops[|ops| - 1].key;
    var store := RunTo(cfg, before).store;
    var others := Retain(OtherThan(key), store);
    FindMeaning(store, key);
    if ReplyAt(cfg, ops, |before|).Hit? {
      RetainThins(OtherThan(key), store);
      ByLastTouchThins(cfg, before, others, store);
      forall x | x in others ensures x.key != key {
        RetainMembers(OtherThan(key), store, x);
      }
      var e := Find(store, key).value;
      TouchGoesLast(cfg, ops, others, e.(hitCount := e.hitCount + 1));
    } else {
      RetainedStays(cfg, ops, OtherThan(key));
      UntouchedStays(cfg, ops, store);
    }
  }

  lemma PutByLastTouch<V(!new)>(cfg: Config, ops: seq<Op<V>>)
    requires ops != [] && ops[|ops| - 1].Put?
    requires ByLastTouch(cfg, ops[..|ops| - 1], RunTo(cfg, ops[..|ops| - 1]).store)
    ensures ByLastTouch(cfg, ops, RunTo(cfg, ops).store)
  {
    var before, op := ops[..|ops| - 1], ops[|ops| - 1];
    var store := RunTo(cfg, before).store;
    var room := Room(store, op.key, cfg.maxSize);
    RoomThins(store, op.key, cfg.maxSize);
    ByLastTouchThins(cfg, before, room, store);
    if ReplyAt(cfg, ops, |before|) == Written(true) {
      var entry := NewEntry(cfg, op.key, op.value, op.ttl, op.sizeHint, op.now);
      TouchGoesLast(cfg, ops, room, entry);
      RetainThins(FreshAt(op.later), room + [entry]);
      ByLastTouchThins(cfg, ops, Retain(FreshAt(op.later), room + [entry]), room + [entry]);
    } else {
      UntouchedStays(cfg, ops, room);
    }
  }

  /** In every reachable state the store is ordered by last touch. */
  lemma {:induction false} StoreByLastTouch<V(!new)>(cfg: Config, ops: seq<Op<V>>)
    ensures ByLastTouch(cfg, ops, RunTo(cfg, ops).store)
  {
    if ops != [] {
      StoreByLastTouch(cfg, ops[..|ops| - 1]);
      match ops[|ops| - 1]
      case Get(key, now) => GetByLastTouch(cfg, ops);
      case Put(_, _, _, _, _, _) => PutByLastTouch(cfg, ops);
      case Delete(key) => RetainedStays(cfg, ops, OtherThan(key));
      case Clear =>
      case Invalidate(namespace) => RetainedStays(cfg, ops, OutsidePrefix(namespace + ":"));
    }
  }

  // ----- Capacity and the victim of an eviction -----

  lemma StepCapacity<V>(cfg: Config, c: Cache<V>, op: Op<V>)
    requires UniqueKeys(c.store) && |c.store| <= Max(0, cfg.maxSize)
    ensures |Step(cfg, c, op).0.store| <= Max(0, cfg.maxSize)
  {
    match op
    case Get(key, now) => RetainOthersSize(c.store, key);
    case Put(key, value, ttl, sizeHint, now, later) =>
      RetainOthersSize(c.store, key);
      var entry := NewEntry(cfg, key, value, ttl, sizeHint, now);
      RetainCountedBound(FreshAt(later), Room(c.store, key, cfg.maxSize) + [entry]);
    case Delete(key) => RetainOthersSize(c.store, key);
    case Clear =>
    case Invalidate(namespace) => RetainCountedBound(OutsidePrefix(namespace + ":"), c.store);
  }

  lemma {:induction false} CapacityHolds<V>(cfg: Config, ops: seq<Op<V>>)
    ensures |RunTo(cfg, ops).store| <= Max(0, cfg.maxSize)
  {
    if ops != [] {
      CapacityHolds(cfg, ops[..|ops| - 1]);
      RunKeepsUnique(cfg, ops[..|ops| - 1]);
      StepCapacity(cfg, RunTo(cfg, ops[..|ops| - 1]), ops[|ops| - 1]);
    }
  }

  /**
   Writing a new key evicts nothing while there is room, and otherwise exactly one entry, whose
   last touch is older than that of every other entry.
   */
  lemma EvictsOldestTouch<V(!new)>(cfg: Config, ops: seq<Op<V>>, key: string)
    requires cfg.maxSize >= 1 && Find(RunTo(cfg, ops).store, key).None?
    ensures var store := RunTo(cfg, ops).store;
            && Room(store, key, cfg.maxSize) == (if |store| < cfg.maxSize then store else store[1..])
            && forall j :: 0 < j < |store| ==>
                 LastTouch(cfg, ops, store[0].key) < LastTouch(cfg, ops, store[j].key)
  {
    CapacityHolds(cfg, ops);
    StoreByLastTouch(cfg, ops);
  }

  /** A write raises KeyError exactly when the cache was configured without room for an entry. */
  lemma SetFailsIffNoCapacity<V>(cfg: Config, ops: seq<Op<V>>, i: nat)
    requires i < |ops| && ops[i].Put?
    ensures ReplyAt(cfg, ops, i) == Written(cfg.maxSize >= 1)
  {
    CapacityHolds(cfg, ops[..i]);
    FindMeaning(RunTo(cfg, ops[..i]).store, ops[i].key);
  }

  // ----- Ledger -----

  ghost function Gets<V>(ops: seq<Op<V>>): nat {
    if ops == [] then 0 else Gets(ops[..|ops| - 1]) + (if ops[|ops| - 1].Get? then 1 else 0)
  }

  /** Writes that replaced an entry. */
  ghost function Overwrites<V>(cfg: Config, ops: seq<Op<V>>): nat {
    if ops == [] then 0
    else
      var before, op := ops[..|ops| - 1], ops[|ops| - 1];
      Overwrites(cfg, before) + (if op.Put? && Find(RunTo(cfg, before).store, op.key).Some? then 1 else 0)
  }

  /** What delete, clear and invalidate_namespace reported as removed, in total. */
  ghost function Removals<V>(cfg: Config, ops: seq<Op<V>>): nat {
    if ops == [] then 0
    else
      var reply := ReplyAt(cfg, ops, |ops| - 1);
      Removals(cfg, ops[..|ops| - 1]) + (if reply.Removed? then reply.count else 0)
  }

  /** Every write is accounted for, and every get is a hit or a miss. */
  lemma {:induction false} LedgerBalances<V>(cfg: Config, ops: seq<Op<V>>)
    ensures var c := RunTo(cfg, ops);
            && c.stats.sets == |c.store| + Overwrites(cfg, ops) + c.stats.evictions + c.stats.expirations
                               + Removals(cfg, ops)
            && c.stats.hits + c.stats.misses == Gets(ops)
  {
    if ops != [] {
      var before, op := ops[..|ops| - 1], ops[|ops| - 1];
      var c := RunTo(cfg, before);
      LedgerBalances(cfg, before);
      RunKeepsUnique(cfg, before);
      CapacityHolds(cfg, before);
      match op
      case Get(key, now) => RetainOthersSize(c.store, key);
      case Put(key, value, ttl, sizeHint, now, later) =>
        RetainOthersSize(c.store, key);
        var entry := NewEntry(cfg, key, value, ttl, sizeHint, now);
        RetainCountedBound(FreshAt(later), Room(c.store, key, cfg.maxSize) + [entry]);
      case Delete(key) => RetainOthersSize(c.store, key);
      case Clear =>
      case Invalidate(namespace) => RetainCountedBound(OutsidePrefix(namespace + ":"), c.store);
    }
  }
}
