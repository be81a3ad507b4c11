/**
 The TTL cache with its ordered dictionary and its loops.

 The dictionary is kept as Python keeps it: a table of entries and an insertion order of keys.
 Every method is proved to do what the corresponding function of `TtlCacheModel` says, on the
 whole state, so the theorems about runs of operations hold of the object.
 */
module TtlCacheClass {
  import opened Prelude
  import opened TtlCacheModel

  /** The entries in dictionary order. */
  ghost function View<V>(order: seq<string>, table: map<string, Entry<V>>): seq<Entry<V>>
    requires forall k :: k in order ==> k in table
  {
    if order == [] then [] else [table[order[0]]] + View(order[1..], table)
  }

  ghost predicate Consistent<V>(order: seq<string>, table: map<string, Entry<V>>) {
    && Distinct(order)
    && (forall k :: k in order <==> k in table)
    && (forall k :: k in table ==> table[k].key == k)
  }

  lemma {:induction false} ViewAt<V>(order: seq<string>, table: map<string, Entry<V>>)
    requires forall k :: k in order ==> k in table
    ensures |View(order, table)| == |order|
    ensures forall i :: 0 <= i < |order| ==> View(order, table)[i] == table[order[i]]
  {
    if order != [] {
      ViewAt(order[1..], table);
    }
  }

  lemma {:induction false} ViewFind<V>(order: seq<string>, table: map<string, Entry<V>>, key: string)
    requires forall k :: k in order ==> k in table && table[k].key == k
    ensures Find(View(order, table), key) == if key in order then Some(table[key]) else None
  {
    if order != [] {
      ViewFind(order[1..], table, key);
    }
  }

  /** Tables that agree on the keys of `order` give the same view. */
  lemma {:induction false} ViewFrame<V>(order: seq<string>, t: map<string, Entry<V>>, t': map<string, Entry<V>>)
    requires forall k :: k in order ==> k in t && k in t' && t[k] == t'[k]
    ensures View(order, t) == View(order, t')
  {
    if order != [] {
      ViewFrame(order[1..], t, t');
    }
  }

  lemma {:induction false} ViewAppend<V>(order: seq<string>, table: map<string, Entry<V>>, key: string)
    requires forall k :: k in order ==> k in table
    requires key in table
    ensures View(order + [key], table) == View(order, table) + [table[key]]
  {
    if order == [] {
      assert order + [key] == [key];
    } else {
      assert (order + [key])[1..] == order[1..] + [key];
      ViewAppend(order[1..], table, key);
    }
  }

  /** Deleting a dictionary key is retaining the entries with another key. */
  lemma {:induction false} ViewWithout<V>(order: seq<string>, table: map<string, Entry<V>>, key: string)
    requires Distinct(order)
    requires forall k :: k in order ==> k in table && table[k].key == k
    ensures forall k :: k in Without(order, key) ==> k in order
    ensures View(Without(order, key), table) == Retain(OtherThan(key), View(order, table))
  {
    if order != [] {
      if order[0] == key {
        ViewAt(order[1..], table);
        RetainAll(OtherThan(key), View(order[1..], table));
      } else {
        ViewWithout(order[1..], table, key);
      }
    }
  }

  /** The keys a bulk removal collects, in dictionary order. */
  ghost function Matching<V>(rule: Rule, order: seq<string>, table: map<string, Entry<V>>): seq<string>
    requires forall k :: k in order ==> k in table
  {
    if order == [] then []
    else if Keeps(rule, table[order[0]]) then Matching(rule, order[1..], table)
    else [order[0]] + Matching(rule, order[1..], table)
  }

  /** Collecting the keys one by one is `Matching`. */
  lemma {:induction false} MatchingStep<V>(rule: Rule, order: seq<string>, table: map<string, Entry<V>>, i: nat)
    requires i < |order|
    requires forall k :: k in order ==> k in table
    ensures Matching(rule, order[..i + 1], table) ==
            Matching(rule, order[..i], table) + (if Keeps(rule, table[order[i]]) then [] else [order[i]])
  {
    if i == 0 {
      assert order[..1] == [order[0]];
    } else {
      MatchingStep(rule, order[1..], table, i - 1);
      assert order[..i + 1][1..] == order[1..][..i];
      assert order[..i][1..] == order[1..][..i - 1];
    }
  }

  /** Restricting the view to the keys the rule keeps is `Retain`. */
  ghost function Kept<V>(rule: Rule, order: seq<string>, table: map<string, Entry<V>>): seq<string>
    requires forall k :: k in order ==> k in table
  {
    if order == [] then []
    else if Keeps(rule, table[order[0]]) then [order[0]] + Kept(rule, order[1..], table)
    else Kept(rule, order[1..], table)
  }

  lemma {:induction false} KeptView<V>(rule: Rule, order: seq<string>, table: map<string, Entry<V>>)
    requires forall k :: k in order ==> k in table
    ensures forall k :: k in Kept(rule, order, table) <==> k in order && Keeps(rule, table[k])
    ensures View(Kept(rule, order, table), table) == Retain(rule, View(order, table))
    ensures |Kept(rule, order, table)| + |Matching(rule, order, table)| == |order|
    ensures forall k :: k in Matching(rule, order, table) <==> k in order && !Keeps(rule, table[k])
  {
    if order != [] {
      assert order == [order[0]] + order[1..];
      KeptView(rule, order[1..], table);
    }
  }

  lemma {:induction false} MatchingDistinct<V>(rule: Rule, order: seq<string>, table: map<string, Entry<V>>)
    requires Distinct(order)
    requires forall k :: k in order ==> k in table
    ensures Distinct(Matching(rule, order, table))
  {
    if order != [] {
      MatchingDistinct(rule, order[1..], table);
      KeptView(rule, order[1..], table);
      assert order[0] !in order[1..];
    }
  }

  lemma {:induction false} MinusMatching<V>(rule: Rule, order: seq<string>, table: map<string, Entry<V>>, gone: set<string>)
    requires forall k :: k in order ==> k in table
    requires forall k :: k in order ==> (k in gone <==> !Keeps(rule, table[k]))
    ensures Minus(order, gone) == Kept(rule, order, table)
  {
    if order != [] {
      MinusMatching(rule, order[1..], table, gone);
    }
  }

  class TTLCache<V> {
    const defaultTtl: int
    const maxSize: int
    var order: seq<string>
    var table: map<string, Entry<V>>
    var stats: Stats

    ghost predicate Valid()
      reads this
    {
      Consistent(order, table)
    }

    ghost function Config(): Config {
      TtlCacheModel.Config(defaultTtl, maxSize)
    }

    ghost function Contents(): Cache<V>
      reads this
      requires Valid()
    {
      Cache(View(order, table), stats)
    }

    constructor (defaultTtl: int, maxSize: int)
      ensures Valid() && Contents() == Start()
      ensures this.defaultTtl == defaultTtl && this.maxSize == maxSize
    {
      this.defaultTtl, this.maxSize := defaultTtl, maxSize;
      order, table, stats := [], map[], EMPTY_STATS;
    }

    /** `del self._store[key]` */
    method Drop(key: string)
      requires Valid() && key in table
      modifies `order, `table
      ensures Valid()
      ensures order == Without(old(order), key)
      ensures View(order, table) == Retain(OtherThan(key), old(View(order, table)))
      ensures table == old(table) - {key}
    {
      WithoutMembers(order, key);
      ViewWithout(order, table, key);
      ViewFrame(Without(order, key), table, table - {key});
      order, table := Without(order, key), table - {key};
    }

    method Get(key: string, now: Time) returns (r: Option<V>)
      requires Valid()
      modifies this
      ensures Valid()
      ensures (Contents(), r) == GetStep(old(Contents()), key, now)
    {
      ghost var before := Contents();
      ViewFind(order, table, key);
      if key !in table {
        assert Find(before.store, key) == None;
        stats := stats.(misses := stats.misses + 1);
        return None;
      }
      var entry := table[key];
      assert Find(before.store, key) == Some(entry);
      if now > entry.expiresAt {
        Drop(key);
        stats := stats.(expirations := stats.expirations + 1, misses := stats.misses + 1);
        return None;
      }
      MoveToEnd(key, entry.(hitCount := entry.hitCount + 1));
      stats := stats.(hits := stats.hits + 1);
      return Some(entry.value);
    }

    /** Replace the entry stored under `key` and make it the most recently used. */
    method MoveToEnd(key: string, entry: Entry<V>)
      requires Valid() && key in table && entry.key == key
      modifies `order, `table
      ensures Valid()
      ensures View(order, table) == Retain(OtherThan(key), old(View(order, table))) + [entry]
    {
      Drop(key);
      Append(key, entry);
    }

    /** Insert a new key at the recently used end. */
    method Append(key: string, entry: Entry<V>)
      requires Valid() && key !in table && entry.key == key
      modifies `order, `table
      ensures Valid()
      ensures View(order, table) == old(View(order, table)) + [entry]
    {
      ViewFrame(order, table, table[key := entry]);
      ViewAppend(order, table[key := entry], key);
      order, table := order + [key], table[key := entry];
    }

    /** `self._store.popitem(last=False)` on a dictionary that is not empty */
    method PopOldest()
      requires Valid() && order != []
      modifies `order, `table
      ensures Valid()
      ensures order == old(order)[1..]
      ensures View(order, table) == old(View(order, table))[1..]
    {
      var oldest := order[0];
      assert order == [oldest] + order[1..];
      assert oldest !in order[1..];
      ViewFrame(order[1..], table, table - {oldest});
      order, table := order[1..], table - {oldest};
    }

    /** The result is false when the source raises KeyError, which happens exactly for `maxSize < 1`. */
    method EvictIfNeeded() returns (ok: bool)
      requires Valid()
      modifies this
      ensures Valid()
      ensures View(order, table) == Evict(old(View(order, table)), maxSize)
      ensures ok <==> maxSize >= 1
      ensures |View(order, table)| <= |old(View(order, table))|
      ensures stats == old(stats).(evictions := old(stats).evictions + (|old(View(order, table))| - |View(order, table)|))
    {
      ViewAt(order, table);
      ghost var view := View(order, table);
      ghost var popped: nat := 0;
      while |order| >= maxSize
        invariant Valid() && popped <= |view|
        invariant |order| == |view| - popped
        invariant View(order, table) == view[popped..]
        invariant popped == 0 || |order| >= maxSize - 1
        invariant stats == old(stats).(evictions := old(stats).evictions + popped)
        decreases |order|
      {
        if order == [] {
          return false;
        }
        PopOldest();
        popped := popped + 1;
        stats := stats.(evictions := stats.evictions + 1);
      }
      return true;
    }

    /** The list comprehension: the keys the rule does not keep, in dictionary order. */
    method Collect(rule: Rule) returns (doomed: seq<string>)
      requires Valid()
      ensures doomed == Matching(rule, order, table)
    {
      doomed := [];
      for i := 0 to |order|
        invariant doomed == Matching(rule, order[..i], table)
      {
        MatchingStep(rule, order, table, i);
        if !Keeps(rule, table[order[i]]) {
          doomed := doomed + [order[i]];
        }
      }
      assert order[..|order|] == order;
    }

    method DropAll(doomed: seq<string>)
      requires Valid() && Distinct(doomed)
      requires forall k :: k in doomed ==> k in table
      modifies `order, `table
      ensures Valid()
      ensures order == WithoutAll(old(order), doomed)
      ensures forall k :: k in table ==> k in old(table) && table[k] == old(table)[k]
    {
      for i := 0 to |doomed|
        invariant Valid()
        invariant order == WithoutAll(old(order), doomed[..i])
        invariant forall k :: k in table ==> k in old(table) && table[k] == old(table)[k]
        invariant forall j :: i <= j < |doomed| ==> doomed[j] in table
      {
        Drop(doomed[i]);
        assert doomed[..i + 1][..i] == doomed[..i];
      }
      assert doomed[..|doomed|] == doomed;
    }

    /** Collect the keys that the rule does not keep, then delete them one by one. */
    method Purge(rule: Rule) returns (removed: nat)
      requires Valid()
      modifies `order, `table
      ensures Valid()
      ensures View(order, table) == Retain(rule, old(View(order, table)))
      ensures removed == |old(View(order, table))| - |View(order, table)|
    {
      ghost var order0, table0 := order, table;
      var doomed := Collect(rule);
      KeptView(rule, order, table);
      MatchingDistinct(rule, order, table);
      ViewAt(order, table);
      DropAll(doomed);
      WithoutAllIsMinus(order0, doomed);
      MinusMatching(rule, order0, table0, set k | k in doomed);
      ViewFrame(order, table, table0);
      ViewAt(order, table);
      removed := |doomed|;
    }

    method CleanupExpired(now: Time)
      requires Valid()
      modifies this
      ensures Valid() && Contents() == CleanupStep(old(Contents()), now)
    {
      var removed := Purge(FreshAt(now));
      stats := stats.(expirations := stats.expirations + removed);
    }

    /** Overwrite in place and move to the end, or make room and insert; false for KeyError. */
    method Place(key: string, entry: Entry<V>) returns (ok: bool)
      requires Valid() && entry.key == key
      modifies this
      ensures Valid()
      ensures var c := old(Contents());
              && ok == (Find(c.store, key).Some? || maxSize >= 1)
              && Contents() == Cache(if ok then Room(c.store, key, maxSize) + [entry] else Room(c.store, key, maxSize),
                                   StatsAfterRoom(c, key, maxSize))
    {
      ghost var view := View(order, table);
      ViewFind(order, table, key);
      if key in table {
        MoveToEnd(key, entry);
        return true;
      }
      ok := EvictIfNeeded();
      if ok {
        RoomKeyGone(view, key, maxSize);
        ViewFind(order, table, key);
        Append(key, entry);
      }
    }

    method CountWrite(later: Time)
      requires Valid()
      modifies this
      ensures Valid() && Contents() == WriteDone(old(Contents()), later)
    {
      stats := stats.(sets := stats.sets + 1);
      if stats.sets % CLEANUP_PERIOD == 0 {
        CleanupExpired(later);
      }
    }

    method Set(key: string, value: V, ttl: Option<int>, sizeHint: int, now: Time, later: Time) returns (ok: bool)
      requires Valid()
      modifies this
      ensures Valid()
      ensures (Contents(), ok) == SetStep(Config(), old(Contents()), key, value, ttl, sizeHint, now, later)
    {
      var effectiveTtl := if ttl.Some? then ttl.value else defaultTtl;
      var entry := Entry(key, value, now, now + effectiveTtl as real, 0, sizeHint);
      ok := Place(key, entry);
      if ok {
        CountWrite(later);
      }
    }

    method Delete(key: string) returns (found: bool)
      requires Valid()
      modifies this
      ensures Valid()
      ensures (Contents(), found) == DeleteStep(old(Contents()), key)
    {
      ViewFind(order, table, key);
      if key in table {
        Drop(key);
        return true;
      }
      ViewAt(order, table);
      RetainAll(OtherThan(key), View(order, table));
      return false;
    }

    method Clear() returns (count: nat)
      requires Valid()
      modifies this
      ensures Valid()
      ensures (Contents(), count) == ClearStep(old(Contents()))
    {
      ViewAt(order, table);
      count := |order|;
      order, table := [], map[];
    }

    method InvalidateNamespace(namespace: string) returns (count: nat)
      requires Valid()
      modifies this
      ensures Valid()
      ensures (Contents(), count) == InvalidateStep(old(Contents()), namespace)
    {
      count := Purge(OutsidePrefix(namespace + ":"));
    }
  }
}
