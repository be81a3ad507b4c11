/**
 The in-memory branches of the Redis-backed cache.

 There are two dictionaries, values and expiry times, and eviction is in insertion order.
 `Local` is the state; the class changes it in place. Operations and replies are those of the
 TTL cache, whose stand-in this cache is meant to be.
 */
module RedisCacheFallback {
  import opened Prelude
  import opened TtlCacheModel

  /** The two dictionaries; `order` is the dictionary order of `_local`. */
  datatype Dict<V> = Dict(order: seq<string>, values: map<string, V>, expiry: map<string, Time>)

  datatype Local<V> = Local(dict: Dict<V>, stats: Stats)

  function Empty<V>(): Dict<V> {
    Dict([], map[], map[])
  }

  ghost predicate Coherent<V>(d: Dict<V>) {
    && Distinct(d.order)
    && (forall k :: k in d.order <==> k in d.values)
    && d.values.Keys == d.expiry.Keys
  }

  function Remove<V>(d: Dict<V>, key: string): Dict<V> {
    Dict(Without(d.order, key), d.values - {key}, d.expiry - {key})
  }

  function LocalGet<V>(s: Local<V>, key: string, now: Time): (Local<V>, Option<V>) {
    var missed := s.stats.(misses := s.stats.misses + 1);
    if key !in s.dict.values then (s.(stats := missed), None)
    else if now > (if key in s.dict.expiry then s.dict.expiry[key] else 0.0) then
      (Local(Remove(s.dict, key), missed.(expirations := missed.expirations + 1)), None)
    else (s.(stats := s.stats.(hits := s.stats.hits + 1)), Some(s.dict.values[key]))
  }

  /** Writing an existing key leaves it where it is, so the eviction is not LRU. */
  function DictWrite<V>(d: Dict<V>, key: string, value: V, expiresAt: Time): Dict<V> {
    Dict(if key in d.values then d.order else d.order + [key], d.values[key := value], d.expiry[key := expiresAt])
  }

  predicate Overfull<V>(d: Dict<V>, maxSize: int) {
    d.order != [] && |d.order| > maxSize
  }

  function DictTrim<V>(d: Dict<V>, maxSize: int): Dict<V> {
    if Overfull(d, maxSize) then Remove(d, d.order[0]) else d
  }

  function LocalSet<V>(cfg: Config, s: Local<V>, key: string, value: V, ttl: Option<int>, now: Time): Local<V> {
    var written := DictWrite(s.dict, key, value, now + EffectiveTtl(cfg, ttl) as real);
    var evicted := if Overfull(written, cfg.maxSize) then 1 else 0;
    Local(DictTrim(written, cfg.maxSize),
          s.stats.(sets := s.stats.sets + 1, evictions := s.stats.evictions + evicted))
  }

  function LocalDelete<V>(s: Local<V>, key: string): (Local<V>, bool) {
    if key in s.dict.values then (s.(dict := Remove(s.dict, key)), true) else (s, false)
  }

  function LocalInvalidate<V>(s: Local<V>, namespace: string): (Local<V>, nat) {
    OutsideBound(s.dict.order, namespace + ":");
    var gone := set k | k in s.dict.order && namespace + ":" <= k;
    var order := Outside(s.dict.order, namespace + ":");
    (Local(Dict(order, s.dict.values - gone, s.dict.expiry - gone), s.stats), |s.dict.order| - |order|)
  }

  function Outside(order: seq<string>, prefix: string): seq<string> {
    if order == [] then []
    else if prefix <= order[0] then Outside(order[1..], prefix)
    else [order[0]] + Outside(order[1..], prefix)
  }

  lemma {:induction false} OutsideBound(order: seq<string>, prefix: string)
    ensures |Outside(order, prefix)| <= |order|
  {
    if order != [] {
      OutsideBound(order[1..], prefix);
    }
  }

  lemma {:induction false} OutsideMembers(order: seq<string>, prefix: string)
    requires Distinct(order)
    ensures Distinct(Outside(order, prefix))
    ensures forall k :: k in Outside(order, prefix) <==> k in order && !(prefix <= k)
  {
    if order != [] {
      assert order == [order[0]] + order[1..];
      OutsideMembers(order[1..], prefix);
      assert order[0] !in order[1..];
    }
  }

  function LocalStep<V>(cfg: Config, s: Local<V>, op: Op<V>): (Local<V>, Reply<V>) {
    match op
    case Get(key, now) =>
      var (s', r) := LocalGet(s, key, now);
      (s', if r.Some? then Hit(r.value) else Miss)
    case Put(key, value, ttl, sizeHint, now, later) => (LocalSet(cfg, s, key, value, ttl, now), Written(true))
    case Delete(key) =>
      var (s', found) := LocalDelete(s, key);
      (s', Removed(if found then 1 else 0))
    case Clear => (Local(Empty(), s.stats), Removed(|s.dict.order|))
    case Invalidate(namespace) =>
      var (s', n) := LocalInvalidate(s, namespace);
      (s', Removed(n))
  }

  function LocalRun<V>(cfg: Config, ops: seq<Op<V>>): Local<V> {
    if ops == [] then Local(Empty(), EMPTY_STATS)
    else LocalStep(cfg, LocalRun(cfg, ops[..|ops| - 1]), ops[|ops| - 1]).0
  }

  function LocalReplyAt<V>(cfg: Config, ops: seq<Op<V>>, i: nat): Reply<V>
    requires i < |ops|
  {
    LocalStep(cfg, LocalRun(cfg, ops[..i]), ops[i]).1
  }

  lemma RemoveCoherent<V>(d: Dict<V>, key: string)
    requires Coherent(d)
    ensures Coherent(Remove(d, key))
  {
    WithoutMembers(d.order, key);
  }

  lemma WriteCoherent<V>(d: Dict<V>, key: string, value: V, expiresAt: Time)
    requires Coherent(d)
    ensures Coherent(DictWrite(d, key, value, expiresAt))
  {
    var d' := DictWrite(d, key, value, expiresAt);
    assert d'.values.Keys == d.values.Keys + {key} && d'.expiry.Keys == d.expiry.Keys + {key};
  }

  lemma TrimCoherent<V>(d: Dict<V>, maxSize: int)
    requires Coherent(d)
    ensures Coherent(DictTrim(d, maxSize))
  {
    if d.order != [] {
      RemoveCoherent(d, d.order[0]);
    }
  }

  lemma SetCoherent<V>(cfg: Config, s: Local<V>, key: string, value: V, ttl: Option<int>, now: Time)
    requires Coherent(s.dict)
    ensures Coherent(LocalSet(cfg, s, key, value, ttl, now).dict)
  {
    var expiresAt := now + EffectiveTtl(cfg, ttl) as real;
    WriteCoherent(s.dict, key, value, expiresAt);
    TrimCoherent(DictWrite(s.dict, key, value, expiresAt), cfg.maxSize);
  }

  lemma LocalStepCoherent<V>(cfg: Config, s: Local<V>, op: Op<V>)
    requires Coherent(s.dict)
    ensures Coherent(LocalStep(cfg, s, op).0.dict)
  {
    match op
    case Get(key, now) => RemoveCoherent(s.dict, key);
    case Put(key, value, ttl, sizeHint, now, later) => SetCoherent(cfg, s, key, value, ttl, now);
    case Delete(key) => RemoveCoherent(s.dict, key);
    case Clear =>
    case Invalidate(namespace) => OutsideMembers(s.dict.order, namespace + ":");
  }

  /** The two dictionaries always hold the same keys. */
  lemma {:induction false} LocalRunCoherent<V>(cfg: Config, ops: seq<Op<V>>)
    ensures Coherent(LocalRun(cfg, ops).dict)
  {
    if ops != [] {
      LocalRunCoherent(cfg, ops[..|ops| - 1]);
      LocalStepCoherent(cfg, LocalRun(cfg, ops[..|ops| - 1]), ops[|ops| - 1]);
    }
  }

  lemma {:induction false} InsideDistinct(order: seq<string>, prefix: string)
    requires Distinct(order)
    ensures Distinct(Inside(order, prefix))
  {
    if order != [] {
      InsideDistinct(order[1..], prefix);
      InsideMeaning(order[1..], prefix);
      assert order[0] !in order[1..];
    }
  }

  ghost function Elements(keys: seq<string>): set<string> {
    set k | k in keys
  }

  lemma ElementsSnoc(keys: seq<string>, key: string)
    ensures Elements(keys + [key]) == Elements(keys) + {key}
  {
  }

  /** The keys under the prefix, in dictionary order. */
  ghost function Inside(order: seq<string>, prefix: string): seq<string> {
    if order == [] then []
    else if prefix <= order[0] then [order[0]] + Inside(order[1..], prefix)
    else Inside(order[1..], prefix)
  }

  lemma {:induction false} InsideMeaning(order: seq<string>, prefix: string)
    ensures |Inside(order, prefix)| + |Outside(order, prefix)| == |order|
    ensures forall k :: k in Inside(order, prefix) <==> k in order && prefix <= k
    ensures Elements(Inside(order, prefix)) == set k | k in order && prefix <= k
  {
    if order != [] {
      assert order == [order[0]] + order[1..];
      InsideMeaning(order[1..], prefix);
    }
  }

  lemma {:induction false} MinusInside(order: seq<string>, prefix: string, gone: set<string>)
    requires forall k :: k in order ==> (k in gone <==> prefix <= k)
    ensures Minus(order, gone) == Outside(order, prefix)
  {
    if order != [] {
      MinusInside(order[1..], prefix, gone);
    }
  }

  lemma {:induction false} InsideSnoc(order: seq<string>, prefix: string, key: string)
    ensures Inside(order + [key], prefix) == Inside(order, prefix) + (if prefix <= key then [key] else [])
  {
    if order == [] {
      assert order + [key] == [key];
    } else {
      assert (order + [key])[1..] == order[1..] + [key];
      InsideSnoc(order[1..], prefix, key);
    }
  }

  class RedisCache<V> {
    const defaultTtl: int
    const maxSize: int
    var order: seq<string>
    var values: map<string, V>
    var expiry: map<string, Time>
    var stats: Stats

    ghost function State(): Local<V>
      reads this
    {
      Local(Dict(order, values, expiry), stats)
    }

    ghost predicate Valid()
      reads this
    {
      Coherent(State().dict)
    }

    constructor (defaultTtl: int, maxSize: int)
      ensures Valid() && State() == Local(Empty(), EMPTY_STATS)
      ensures this.defaultTtl == defaultTtl && this.maxSize == maxSize
    {
      this.defaultTtl, this.maxSize := defaultTtl, maxSize;
      order, values, expiry, stats := [], map[], map[], EMPTY_STATS;
    }

    method Get(key: string, now: Time) returns (r: Option<V>)
      requires Valid()
      modifies this
      ensures (State(), r) == LocalGet(old(State()), key, now)
      ensures Valid()
    {
      if key in values {
        if now > expiry[key] {
          RemoveCoherent(State().dict, key);
          order, values, expiry := Without(order, key), values - {key}, expiry - {key};
          stats := stats.(expirations := stats.expirations + 1, misses := stats.misses + 1);
          return None;
        }
        stats := stats.(hits := stats.hits + 1);
        return Some(values[key]);
      }
      stats := stats.(misses := stats.misses + 1);
      return None;
    }

    /** `next(iter(self._local))` and the two deletions */
    method EvictFirst()
      requires Valid() && order != []
      modifies this
      ensures State() == Local(Remove(old(State()).dict, old(order)[0]), old(stats).(evictions := old(stats).evictions + 1))
      ensures Valid()
    {
      var oldest := order[0];
      RemoveCoherent(State().dict, oldest);
      order, values, expiry := Without(order, oldest), values - {oldest}, expiry - {oldest};
      stats := stats.(evictions := stats.evictions + 1);
    }

    /** The two assignments; a known key stays where it is. */
    method Write(key: string, value: V, expiresAt: Time)
      requires Valid()
      modifies `order, `values, `expiry
      ensures State() == old(State()).(dict := DictWrite(old(State()).dict, key, value, expiresAt))
      ensures Valid() && order != []
    {
      WriteCoherent(State().dict, key, value, expiresAt);
      if key !in values {
        order := order + [key];
      }
      values, expiry := values[key := value], expiry[key := expiresAt];
      assert key in order;
    }

    method Set(key: string, value: V, ttl: Option<int>, now: Time)
      requires Valid()
      modifies this
      ensures State() == LocalSet(Config(defaultTtl, maxSize), old(State()), key, value, ttl, now)
      ensures Valid()
    {
      var effectiveTtl := if ttl.Some? then ttl.value else defaultTtl;
      Write(key, value, now + effectiveTtl as real);
      if |order| > maxSize {
        EvictFirst();
      }
      stats := stats.(sets := stats.sets + 1);
    }

    method Delete(key: string) returns (found: bool)
      requires Valid()
      modifies this
      ensures (State(), found) == LocalDelete(old(State()), key)
      ensures Valid()
    {
      RemoveCoherent(State().dict, key);
      if key in values {
        order, values, expiry := Without(order, key), values - {key}, expiry - {key};
        return true;
      }
      return false;
    }

    method Clear() returns (count: nat)
      requires Valid()
      modifies this
      ensures Valid() && State() == Local(Empty(), old(stats)) && count == |old(order)|
    {
      count := |order|;
      order, values, expiry := [], map[], map[];
    }

    /** The list comprehension over the keys of the namespace. */
    method Collect(prefix: string) returns (doomed: seq<string>)
      ensures doomed == Inside(order, prefix)
    {
      doomed := [];
      for i := 0 to |order|
        invariant doomed == Inside(order[..i], prefix)
      {
        InsideSnoc(order[..i], prefix, order[i]);
        assert order[..i + 1] == order[..i] + [order[i]];
        if prefix <= order[i] {
          doomed := doomed + [order[i]];
        }
      }
      assert order[..|order|] == order;
    }

    method DropAll(doomed: seq<string>)
      modifies `order, `values, `expiry
      ensures order == WithoutAll(old(order), doomed)
      ensures values == old(values) - Elements(doomed) && expiry == old(expiry) - Elements(doomed)
    {
      for i := 0 to |doomed|
        invariant order == WithoutAll(old(order), doomed[..i])
        invariant values == old(values) - Elements(doomed[..i])
        invariant expiry == old(expiry) - Elements(doomed[..i])
      {
        assert doomed[..i + 1] == doomed[..i] + [doomed[i]];
        ElementsSnoc(doomed[..i], doomed[i]);
        assert values - {doomed[i]} == old(values) - Elements(doomed[..i + 1]);
        assert expiry - {doomed[i]} == old(expiry) - Elements(doomed[..i + 1]);
        order, values, expiry := Without(order, doomed[i]), values - {doomed[i]}, expiry - {doomed[i]};
      }
      assert doomed[..|doomed|] == doomed;
    }

    method InvalidateNamespace(namespace: string) returns (count: nat)
      requires Valid()
      modifies this
      ensures (State(), count) == LocalInvalidate(old(State()), namespace)
      ensures Valid()
    {
      var prefix := namespace + ":";
      OutsideMembers(order, prefix);
      var doomed := Collect(prefix);
      InsideMeaning(order, prefix);
      InsideDistinct(order, prefix);
      WithoutAllIsMinus(order, doomed);
      MinusInside(order, prefix, Elements(doomed));
      DropAll(doomed);
      count := |doomed|;
    }
  }
}
