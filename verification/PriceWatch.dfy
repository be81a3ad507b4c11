/**
 Price watches and the cycle that checks them: active watches are grouped by normalized query, each
 query is fetched once, and every watch of the group gets the lowest valid price. The queries of a
 batch run as tasks that may interleave.
 */
module PriceWatch {
  import opened Prelude

  const BATCH_SIZE := 5
  const MAX_RETRIES := 2
  const FIRST_TRY: nat := 0

  datatype Watch = Watch(userId: string, query: string, target: real, current: Option<real>, lowest: Option<real>,
                         url: string, active: bool, triggered: bool)

  /** The table: rows by id. */
  type Table = map<nat, Watch>

  datatype Offer = Offer(price: real, url: string, failed: bool)

  /** One call of `update_price`. */
  datatype Update = Update(id: nat, price: real, url: string)

  function Updated(w: Watch, price: real, url: string): Watch {
    w.(current := Some(price), url := url, triggered := price <= w.target,
       lowest := if w.lowest.None? || price < w.lowest.value then Some(price) else w.lowest)
  }

  function ApplyUpdate(t: Table, u: Update): Table {
    if u.id in t then t[u.id := Updated(t[u.id], u.price, u.url)] else t
  }

  function ApplyAll(t: Table, us: seq<Update>): Table {
    if us == [] then t else ApplyUpdate(ApplyAll(t, us[..|us| - 1]), us[|us| - 1])
  }

  // ----- The best offer -----

  predicate Usable(o: Offer) {
    !o.failed && o.price > 0.0
  }

  /** `min` over the usable offers: the first of the cheapest. */
  function Best(offers: seq<Offer>): Option<Offer> {
    if offers == [] then None
    else
      var before, last := Best(offers[..|offers| - 1]), offers[|offers| - 1];
      if !Usable(last) then before
      else if before.None? || last.price < before.value.price then Some(last)
      else before
  }

  /** Listings without an error and with a price count; the cheapest is taken. */
  lemma {:induction false} BestIsCheapest(offers: seq<Offer>)
    ensures Best(offers).None? <==> forall i :: 0 <= i < |offers| ==> offers[i].failed || offers[i].price <= 0.0
    ensures Best(offers).Some? ==> Best(offers).value in offers && !Best(offers).value.failed && Best(offers).value.price > 0.0
    ensures Best(offers).Some? ==>
              forall i :: 0 <= i < |offers| && !offers[i].failed && offers[i].price > 0.0 ==>
                Best(offers).value.price <= offers[i].price
  {
    if offers != [] {
      BestIsCheapest(offers[..|offers| - 1]);
      assert offers == offers[..|offers| - 1] + [offers[|offers| - 1]];
    }
  }

  /** Of the cheapest, the first. */
  lemma {:induction false} BestIsFirst(offers: seq<Offer>) returns (k: nat)
    requires Best(offers).Some?
    ensures k < |offers| && offers[k] == Best(offers).value
    ensures forall i :: 0 <= i < k && !offers[i].failed && offers[i].price > 0.0 ==> offers[k].price < offers[i].price
  {
    var front := offers[..|offers| - 1];
    BestIsCheapest(front);
    if Best(offers) == Best(front) {
      k := BestIsFirst(front);
    } else {
      k := |front|;
    }
  }

  // ----- The lowest price -----

  /** The prices that the updates record for one watch, oldest first. */
  ghost function Prices(us: seq<Update>, id: nat): seq<real> {
    if us == [] then []
    else Prices(us[..|us| - 1], id) + (if us[|us| - 1].id == id then [us[|us| - 1].price] else [])
  }

  /** The row knows the last and the least of these prices, and whether the last reaches the target. */
  ghost predicate Remembers(row: Watch, prices: seq<real>) {
    if prices == [] then row.current.None? && row.lowest.None? && !row.triggered
    else
      && row.current == Some(prices[|prices| - 1])
      && row.lowest.Some? && row.lowest.value in prices
      && (forall p :: p in prices ==> row.lowest.value <= p)
      && (row.triggered <==> prices[|prices| - 1] <= row.target)
  }

  lemma UpdateRemembers(row: Watch, prices: seq<real>, price: real, url: string)
    requires Remembers(row, prices) || (prices == [] && row.lowest.None?)
    ensures Remembers(Updated(row, price, url), prices + [price])
  {
    assert forall p :: p in prices + [price] <==> p in prices || p == price;
  }

  /**
   Whatever updates a table gets, other watches' included: `lowest_price` of a watch that had none
   is the least price recorded for it, `current_price` the last, and without any the row is as it was.
   */
  lemma {:induction false} LowestIsMinimum(t: Table, us: seq<Update>, id: nat)
    requires id in t && t[id].lowest.None?
    ensures id in ApplyAll(t, us) && ApplyAll(t, us)[id].target == t[id].target
    ensures if Prices(us, id) == [] then ApplyAll(t, us)[id] == t[id] else Remembers(ApplyAll(t, us)[id], Prices(us, id))
  {
    if us != [] {
      var front, last := us[..|us| - 1], us[|us| - 1];
      LowestIsMinimum(t, front, id);
      if last.id == id {
        UpdateRemembers(ApplyAll(t, front)[id], Prices(front, id), last.price, last.url);
      }
    }
  }

  // ----- The store over whole runs -----

  datatype StoreOp =
    | Create(userId: string, query: string, target: real)
    | Reprice(update: Update)
    | Deactivate(id: nat, userId: string)

  datatype Store = Store(rows: Table, nextId: nat)

  const EMPTY_STORE := Store(map[], 1)

  function NewWatch(userId: string, query: string, target: real): Watch {
    Watch(userId, query, target, None, None, "", true, false)
  }

  function StoreAfter(s: Store, op: StoreOp): Store {
    match op
    case Create(userId, query, target) => Store(s.rows[s.nextId := NewWatch(userId, query, target)], s.nextId + 1)
    case Reprice(u) => s.(rows := ApplyUpdate(s.rows, u))
    case Deactivate(id, userId) =>
      if id in s.rows && s.rows[id].userId == userId then s.(rows := s.rows[id := s.rows[id].(active := false)]) else s
  }

  function StoreRun(ops: seq<StoreOp>): Store {
    if ops == [] then EMPTY_STORE else StoreAfter(StoreRun(ops[..|ops| - 1]), ops[|ops| - 1])
  }

  /** The prices recorded for the watch since it was created. */
  ghost function PricesSince(ops: seq<StoreOp>, id: nat): seq<real> {
    if ops == [] then []
    else
      var before, op := ops[..|ops| - 1], ops[|ops| - 1];
      if op.Reprice? && op.update.id == id && id in StoreRun(before).rows then PricesSince(before, id) + [op.update.price]
      else PricesSince(before, id)
  }

  ghost predicate StoreRemembers(s: Store, ops: seq<StoreOp>) {
    && (forall id :: id in s.rows ==> id < s.nextId && Remembers(s.rows[id], PricesSince(ops, id)))
    && (forall id: nat :: id !in s.rows ==> PricesSince(ops, id) == [])
  }

  lemma StoreSnoc(ops: seq<StoreOp>, op: StoreOp, id: nat)
    ensures StoreRun(ops + [op]) == StoreAfter(StoreRun(ops), op)
    ensures PricesSince(ops + [op], id) == PricesSince(ops, id) +
              (if op.Reprice? && op.update.id == id && id in StoreRun(ops).rows then [op.update.price] else [])
  {
    assert (ops + [op])[..|ops|] == ops;
  }

  /** One row through one operation. */
  lemma RowRemembers(s: Store, op: StoreOp, id: nat, prices: seq<real>)
    requires id in s.rows && id < s.nextId && Remembers(s.rows[id], prices)
    ensures id in StoreAfter(s, op).rows && id < StoreAfter(s, op).nextId
    ensures Remembers(StoreAfter(s, op).rows[id],
                      prices + (if op.Reprice? && op.update.id == id then [op.update.price] else []))
  {
    if op.Reprice? && op.update.id == id {
      UpdateRemembers(s.rows[id], prices, op.update.price, op.update.url);
    } else {
      assert prices + [] == prices;
    }
  }

  lemma LowestStep(ops: seq<StoreOp>, op: StoreOp)
    requires StoreRemembers(StoreRun(ops), ops)
    ensures StoreRemembers(StoreRun(ops + [op]), ops + [op])
  {
    var s, s' := StoreRun(ops), StoreRun(ops + [op]);
    forall id: nat
      ensures id in s'.rows ==> id < s'.nextId && Remembers(s'.rows[id], PricesSince(ops + [op], id))
      ensures id !in s'.rows ==> PricesSince(ops + [op], id) == []
    {
      StoreSnoc(ops, op, id);
      if id in s.rows {
        RowRemembers(s, op, id, PricesSince(ops, id));
      }
    }
  }

  /** After any run of the store, every watch knows the least and the last price it was ever given. */
  lemma {:induction false} LowestOverRuns(ops: seq<StoreOp>)
    ensures StoreRemembers(StoreRun(ops), ops)
  {
    if ops != [] {
      var before := ops[..|ops| - 1];
      LowestOverRuns(before);
      LowestStep(before, ops[|ops| - 1]);
      assert before + [ops[|ops| - 1]] == ops;
    }
  }

  // ----- Updates with different ids commute -----

  ghost predicate DistinctIds(us: seq<Update>) {
    forall i, j :: 0 <= i < j < |us| ==> us[i].id != us[j].id
  }

  ghost predicate UpdatedBy(t: Table, us: seq<Update>, t': Table) {
    && t'.Keys == t.Keys
    && (forall u :: u in us && u.id in t ==> t'[u.id] == Updated(t[u.id], u.price, u.url))
    && (forall id :: id in t && (forall u :: u in us ==> u.id != id) ==> t'[id] == t[id])
  }

  lemma UpdatedBySnoc(t: Table, us: seq<Update>, u: Update, t': Table)
    requires UpdatedBy(t, us, t') && forall v :: v in us ==> v.id != u.id
    ensures UpdatedBy(t, us + [u], ApplyUpdate(t', u))
  {
    assert forall v :: v in us + [u] <==> v in us || v == u;
  }

  lemma {:induction false} ApplyAllPointwise(t: Table, us: seq<Update>)
    requires DistinctIds(us)
    ensures UpdatedBy(t, us, ApplyAll(t, us))
  {
    if us != [] {
      var front, last := us[..|us| - 1], us[|us| - 1];
      ApplyAllPointwise(t, front);
      assert us == front + [last];
      UpdatedBySnoc(t, front, last, ApplyAll(t, front));
    }
  }

  lemma UpdatedByUnique(t: Table, us: seq<Update>, vs: seq<Update>, t': Table, t'': Table)
    requires UpdatedBy(t, us, t') && UpdatedBy(t, vs, t'') && forall u :: u in us <==> u in vs
    ensures t' == t''
  {
    forall id | id in t ensures t'[id] == t''[id] {
      if u :| u in us && u.id == id {
        assert u in vs;
      }
    }
  }

  lemma {:induction false} PermutedDistinctIds(us: seq<Update>, vs: seq<Update>)
    requires DistinctIds(us) && multiset(us) == multiset(vs)
    ensures DistinctIds(vs)
  {
    forall i, j | 0 <= i < j < |vs| ensures vs[i].id != vs[j].id {
      assert vs[i] in multiset(us) && vs[j] in multiset(us);
      if vs[i] == vs[j] {
        TwiceInMultiset(vs, i, j);
        OnceInMultiset(us, vs[i]);
      }
    }
  }

  lemma TwiceInMultiset(vs: seq<Update>, i: nat, j: nat)
    requires i < j < |vs| && vs[i] == vs[j]
    ensures multiset(vs)[vs[i]] >= 2
  {
    assert vs == vs[..j] + [vs[j]] + vs[j + 1..];
    assert vs[..j][i] == vs[j];
    assert vs[j] in multiset(vs[..j]);
  }

  lemma {:induction false} OnceInMultiset(us: seq<Update>, u: Update)
    requires DistinctIds(us)
    ensures multiset(us)[u] <= 1
  {
    if us != [] {
      var front, last := us[..|us| - 1], us[|us| - 1];
      assert us == front + [last];
      OnceInMultiset(front, u);
      assert last == u ==> u !in front;
    }
  }

  /** Any interleaving of updates to different watches leaves the same table. */
  lemma InterleavingsAgree(t: Table, us: seq<Update>, vs: seq<Update>)
    requires DistinctIds(us) && multiset(us) == multiset(vs)
    ensures ApplyAll(t, us) == ApplyAll(t, vs)
  {
    PermutedDistinctIds(us, vs);
    ApplyAllPointwise(t, us);
    ApplyAllPointwise(t, vs);
    forall u ensures u in us <==> u in vs {
      assert u in multiset(us) <==> u in multiset(vs);
    }
    UpdatedByUnique(t, us, vs, ApplyAll(t, us), ApplyAll(t, vs));
  }

  // ----- Grouping -----

  /** An active row as the cycle reads it. */
  datatype Active = Active(id: nat, query: string)

  /** Watches of one normalized query, in table order. */
  function GroupOf(watches: seq<Active>, norm: string -> string, key: string): seq<Active> {
    if watches == [] then []
    else GroupOf(watches[..|watches| - 1], norm, key) +
         (if norm(watches[|watches| - 1].query) == key then [watches[|watches| - 1]] else [])
  }

  lemma {:induction false} GroupMembers(watches: seq<Active>, norm: string -> string, key: string)
    ensures forall w :: w in GroupOf(watches, norm, key) <==> w in watches && norm(w.query) == key
  {
    if watches != [] {
      GroupMembers(watches[..|watches| - 1], norm, key);
      assert watches == watches[..|watches| - 1] + [watches[|watches| - 1]];
    }
  }

  ghost predicate Groups(watches: seq<Active>, norm: string -> string, keys: seq<string>, groups: map<string, seq<Active>>) {
    && Distinct(keys)
    && (forall k :: k in keys <==> k in groups)
    && (forall k :: k in groups ==> groups[k] == GroupOf(watches, norm, k) && groups[k] != [])
    && (forall w :: w in watches ==> norm(w.query) in groups)
  }

  lemma GroupsSnoc(watches: seq<Active>, w: Active, norm: string -> string, keys: seq<string>, groups: map<string, seq<Active>>)
    requires Groups(watches, norm, keys, groups)
    ensures var key := norm(w.query);
            Groups(watches + [w], norm, if key in groups then keys else keys + [key],
                   groups[key := (if key in groups then groups[key] else []) + [w]])
  {
    var key := norm(w.query);
    assert (watches + [w])[..|watches|] == watches;
    if key !in groups {
      GroupMembers(watches, norm, key);
      var g := GroupOf(watches, norm, key);
      HeadIsMember(g);
      assert g == [];
    }
  }

  /** The grouping loop of `_check_cycle`. */
  method GroupWatches(watches: seq<Active>, norm: string -> string) returns (keys: seq<string>, groups: map<string, seq<Active>>)
    ensures Groups(watches, norm, keys, groups)
  {
    keys, groups := [], map[];
    for i := 0 to |watches|
      invariant Groups(watches[..i], norm, keys, groups)
    {
      GroupsSnoc(watches[..i], watches[i], norm, keys, groups);
      assert watches[..i + 1] == watches[..i] + [watches[i]];
      var key := norm(watches[i].query);
      if key !in groups {
        keys, groups := keys + [key], groups[key := []];
      }
      groups := groups[key := groups[key] + [watches[i]]];
    }
    assert watches[..|watches|] == watches;
  }

  // ----- What one query does -----

  function UpdatesFor(group: seq<Active>, best: Option<Offer>): seq<Update> {
    if group == [] || best.None? then []
    else UpdatesFor(group[..|group| - 1], best) + [Update(group[|group| - 1].id, best.value.price, best.value.url)]
  }

  /** `query_groups[key]`; the cycle only asks for keys that are there. */
  function Members(groups: map<string, seq<Active>>, key: string): seq<Active> {
    if key in groups then groups[key] else []
  }

  function Task(groups: map<string, seq<Active>>, fetch: string -> seq<Offer>, key: string): seq<Update> {
    UpdatesFor(Members(groups, key), Best(fetch(key)))
  }

  /** All the updates of a cycle, query after query. */
  function CycleUpdates(keys: seq<string>, groups: map<string, seq<Active>>, fetch: string -> seq<Offer>): seq<Update> {
    if keys == [] then []
    else CycleUpdates(keys[..|keys| - 1], groups, fetch) + Task(groups, fetch, keys[|keys| - 1])
  }

  lemma {:induction false} UpdatesForMembers(group: seq<Active>, best: Option<Offer>, u: Update)
    ensures u in UpdatesFor(group, best) <==>
              best.Some? && u.price == best.value.price && u.url == best.value.url && exists w :: w in group && w.id == u.id
  {
    if group != [] && best.Some? {
      UpdatesForMembers(group[..|group| - 1], best, u);
      assert group == group[..|group| - 1] + [group[|group| - 1]];
    }
  }

  lemma CycleSnoc(keys: seq<string>, key: string, groups: map<string, seq<Active>>, fetch: string -> seq<Offer>)
    ensures CycleUpdates(keys + [key], groups, fetch) == CycleUpdates(keys, groups, fetch) + Task(groups, fetch, key)
  {
    assert (keys + [key])[..|keys|] == keys;
  }

  /** Every update of a cycle comes from the task of one query. */
  lemma {:induction false} CycleSource(keys: seq<string>, groups: map<string, seq<Active>>, fetch: string -> seq<Offer>,
                                       u: Update) returns (k: string)
    requires u in CycleUpdates(keys, groups, fetch)
    ensures k in keys && u in Task(groups, fetch, k)
  {
    var front, last := keys[..|keys| - 1], keys[|keys| - 1];
    if u in CycleUpdates(front, groups, fetch) {
      k := CycleSource(front, groups, fetch, u);
      assert keys == front + [last];
    } else {
      k := last;
    }
  }

  lemma {:induction false} CycleContains(keys: seq<string>, groups: map<string, seq<Active>>, fetch: string -> seq<Offer>,
                                         u: Update, k: string)
    requires k in keys && u in Task(groups, fetch, k)
    ensures u in CycleUpdates(keys, groups, fetch)
  {
    var front, last := keys[..|keys| - 1], keys[|keys| - 1];
    assert keys == front + [last];
    if k != last {
      CycleContains(front, groups, fetch, u, k);
    }
  }

  ghost predicate DistinctWatches(watches: seq<Active>) {
    forall i, j :: 0 <= i < j < |watches| ==> watches[i].id != watches[j].id
  }

  lemma {:induction false} GroupDistinct(watches: seq<Active>, norm: string -> string, key: string)
    requires DistinctWatches(watches)
    ensures DistinctWatches(GroupOf(watches, norm, key))
  {
    if watches != [] {
      var front := watches[..|watches| - 1];
      GroupDistinct(front, norm, key);
      GroupMembers(front, norm, key);
      var g := GroupOf(front, norm, key);
      forall i | 0 <= i < |g| ensures g[i].id != watches[|watches| - 1].id {
        assert g[i] in g && g[i] in front;
      }
    }
  }

  lemma {:induction false} UpdatesForDistinct(group: seq<Active>, best: Option<Offer>)
    requires DistinctWatches(group)
    ensures DistinctIds(UpdatesFor(group, best))
  {
    if group != [] && best.Some? {
      var front, us := group[..|group| - 1], UpdatesFor(group[..|group| - 1], best);
      UpdatesForDistinct(front, best);
      forall i | 0 <= i < |us| ensures us[i].id != group[|group| - 1].id {
        UpdatesForMembers(front, best, us[i]);
        assert us[i] in us;
      }
    }
  }

  lemma SameIdSameWatch(watches: seq<Active>, v: Active, w: Active)
    requires DistinctWatches(watches) && v in watches && w in watches && v.id == w.id
    ensures v == w
  {
  }

  /** Groups are disjoint, so no two tasks of a cycle touch the same row. */
  lemma {:induction false} CycleDistinct(watches: seq<Active>, norm: string -> string, keys: seq<string>,
                                         groups: map<string, seq<Active>>, fetch: string -> seq<Offer>)
    requires DistinctWatches(watches) && Distinct(keys)
    requires forall k :: k in keys ==> k in groups && groups[k] == GroupOf(watches, norm, k)
    ensures DistinctIds(CycleUpdates(keys, groups, fetch))
  {
    if keys != [] {
      var front, key := keys[..|keys| - 1], keys[|keys| - 1];
      CycleDistinct(watches, norm, front, groups, fetch);
      GroupDistinct(watches, norm, key);
      UpdatesForDistinct(groups[key], Best(fetch(key)));
      var us, vs := CycleUpdates(front, groups, fetch), UpdatesFor(groups[key], Best(fetch(key)));
      forall i, j | 0 <= i < |us| && 0 <= j < |vs| ensures us[i].id != vs[j].id {
        DifferentQueries(watches, norm, front, key, groups, fetch, us[i], vs[j]);
      }
    }
  }

  lemma DifferentQueries(watches: seq<Active>, norm: string -> string, front: seq<string>, key: string,
                         groups: map<string, seq<Active>>, fetch: string -> seq<Offer>, u: Update, v: Update)
    requires DistinctWatches(watches) && key !in front && key in groups && groups[key] == GroupOf(watches, norm, key)
    requires forall k :: k in front ==> k in groups && groups[k] == GroupOf(watches, norm, k)
    requires u in CycleUpdates(front, groups, fetch) && v in UpdatesFor(groups[key], Best(fetch(key)))
    ensures u.id != v.id
  {
    var k := CycleSource(front, groups, fetch, u);
    UpdatesForMembers(groups[k], Best(fetch(k)), u);
    UpdatesForMembers(groups[key], Best(fetch(key)), v);
    GroupMembers(watches, norm, k);
    GroupMembers(watches, norm, key);
    var w :| w in groups[k] && w.id == u.id;
    var x :| x in groups[key] && x.id == v.id;
    if w.id == x.id {
      SameIdSameWatch(watches, w, x);
    }
  }

  /** The update that watch `w` should get: the best offer for its normalized query. */
  ghost predicate Serves(norm: string -> string, fetch: string -> seq<Offer>, w: Active, u: Update) {
    var best := Best(fetch(norm(w.query)));
    w.id == u.id && best.Some? && u.price == best.value.price && u.url == best.value.url
  }

  lemma CoveredWatch(watches: seq<Active>, norm: string -> string, keys: seq<string>, groups: map<string, seq<Active>>,
                     fetch: string -> seq<Offer>, u: Update) returns (w: Active)
    requires Groups(watches, norm, keys, groups) && u in CycleUpdates(keys, groups, fetch)
    ensures w in watches && Serves(norm, fetch, w, u)
  {
    var k := CycleSource(keys, groups, fetch, u);
    UpdatesForMembers(groups[k], Best(fetch(k)), u);
    GroupMembers(watches, norm, k);
    w :| w in groups[k] && w.id == u.id;
  }

  lemma WatchCovered(watches: seq<Active>, norm: string -> string, keys: seq<string>, groups: map<string, seq<Active>>,
                     fetch: string -> seq<Offer>, w: Active, u: Update)
    requires Groups(watches, norm, keys, groups) && w in watches && Serves(norm, fetch, w, u)
    ensures u in CycleUpdates(keys, groups, fetch)
  {
    var k := norm(w.query);
    GroupMembers(watches, norm, k);
    UpdatesForMembers(groups[k], Best(fetch(k)), u);
    CycleContains(keys, groups, fetch, u, k);
  }

  /**
   However the tasks of a cycle interleave, every watch whose query has a usable offer ends up with
   exactly that best price recorded once, and every other row is untouched.
   */
  lemma CycleLosesNothing(t: Table, watches: seq<Active>, norm: string -> string, keys: seq<string>,
                          groups: map<string, seq<Active>>, fetch: string -> seq<Offer>, ran: seq<Update>)
    requires DistinctWatches(watches) && Groups(watches, norm, keys, groups)
    requires forall w :: w in watches ==> w.id in t
    requires multiset(ran) == multiset(CycleUpdates(keys, groups, fetch))
    ensures var t' := ApplyAll(t, ran);
            && t'.Keys == t.Keys
            && (forall w :: w in watches ==>
                  var best := Best(fetch(norm(w.query)));
                  t'[w.id] == if best.Some? then Updated(t[w.id], best.value.price, best.value.url) else t[w.id])
            && (forall id :: id in t && (forall w :: w in watches ==> w.id != id) ==> t'[id] == t[id])
  {
    var us := CycleUpdates(keys, groups, fetch);
    CycleDistinct(watches, norm, keys, groups, fetch);
    InterleavingsAgree(t, us, ran);
    ApplyAllPointwise(t, us);
    forall w | w in watches
      ensures var best := Best(fetch(norm(w.query)));
              ApplyAll(t, us)[w.id] == if best.Some? then Updated(t[w.id], best.value.price, best.value.url) else t[w.id]
    {
      WatchOutcome(t, watches, norm, keys, groups, fetch, w);
    }
    forall id | id in t && (forall w :: w in watches ==> w.id != id) ensures ApplyAll(t, us)[id] == t[id] {
      forall u | u in us ensures u.id != id {
        var w := CoveredWatch(watches, norm, keys, groups, fetch, u);
      }
    }
  }

  lemma WatchOutcome(t: Table, watches: seq<Active>, norm: string -> string, keys: seq<string>,
                     groups: map<string, seq<Active>>, fetch: string -> seq<Offer>, w: Active)
    requires DistinctWatches(watches) && Groups(watches, norm, keys, groups) && w in watches && w.id in t
    requires UpdatedBy(t, CycleUpdates(keys, groups, fetch), ApplyAll(t, CycleUpdates(keys, groups, fetch)))
    ensures var best := Best(fetch(norm(w.query)));
            ApplyAll(t, CycleUpdates(keys, groups, fetch))[w.id] ==
              if best.Some? then Updated(t[w.id], best.value.price, best.value.url) else t[w.id]
  {
    var best := Best(fetch(norm(w.query)));
    if best.Some? {
      WatchCovered(watches, norm, keys, groups, fetch, w, Update(w.id, best.value.price, best.value.url));
    } else {
      forall u | u in CycleUpdates(keys, groups, fetch) ensures u.id != w.id {
        var x := CoveredWatch(watches, norm, keys, groups, fetch, u);
        if x.id == w.id {
          SameIdSameWatch(watches, w, x);
        }
      }
    }
  }

  // ----- Cycles in batches -----

  lemma SliceExtends(keys: seq<string>, i: nat, next: nat)
    requires i <= next <= |keys|
    ensures keys[..i] + keys[i..next] == keys[..next]
  {
  }

  /** The table and the list of fetched queries after the tasks of `done`. */
  ghost predicate CycleSoFar(t0: Table, t: Table, f0: seq<string>, fetched: seq<string>, done: seq<string>,
                             groups: map<string, seq<Active>>, fetch: string -> seq<Offer>) {
    t == ApplyAll(t0, CycleUpdates(done, groups, fetch)) && fetched == f0 + done
  }

  lemma BatchExtends(t0: Table, t: Table, f0: seq<string>, fetched: seq<string>, done: seq<string>, batch: seq<string>,
                     groups: map<string, seq<Active>>, fetch: string -> seq<Offer>)
    requires CycleSoFar(t0, t, f0, fetched, done, groups, fetch)
    ensures CycleSoFar(t0, ApplyAll(t, CycleUpdates(batch, groups, fetch)), f0, fetched + batch, done + batch, groups, fetch)
  {
    TasksConcat(t0, done, batch, groups, fetch);
    ConcatAssociates(f0, done, batch);
  }

  lemma TaskExtends(t0: Table, t: Table, f0: seq<string>, fetched: seq<string>, batch: seq<string>, j: nat,
                    groups: map<string, seq<Active>>, fetch: string -> seq<Offer>)
    requires j < |batch| && CycleSoFar(t0, t, f0, fetched, batch[..j], groups, fetch)
    ensures CycleSoFar(t0, ApplyAll(t, Task(groups, fetch, batch[j])), f0, fetched + [batch[j]], batch[..j + 1], groups, fetch)
  {
    assert batch[..j + 1] == batch[..j] + [batch[j]];
    CycleSnoc(batch[..j], batch[j], groups, fetch);
    ApplyAllConcat(t0, CycleUpdates(batch[..j], groups, fetch), Task(groups, fetch, batch[j]));
    ConcatAssociates(f0, batch[..j], [batch[j]]);
  }

  lemma TasksConcat(t: Table, done: seq<string>, batch: seq<string>, groups: map<string, seq<Active>>, fetch: string -> seq<Offer>)
    ensures ApplyAll(ApplyAll(t, CycleUpdates(done, groups, fetch)), CycleUpdates(batch, groups, fetch))
            == ApplyAll(t, CycleUpdates(done + batch, groups, fetch))
  {
    CycleConcat(done, batch, groups, fetch);
    ApplyAllConcat(t, CycleUpdates(done, groups, fetch), CycleUpdates(batch, groups, fetch));
  }

  lemma ConcatAssociates<T>(a: seq<T>, b: seq<T>, c: seq<T>)
    ensures (a + b) + c == a + (b + c)
  {
  }

  lemma {:induction false} CycleConcat(a: seq<string>, b: seq<string>, groups: map<string, seq<Active>>, fetch: string -> seq<Offer>)
    ensures CycleUpdates(a + b, groups, fetch) == CycleUpdates(a, groups, fetch) + CycleUpdates(b, groups, fetch)
  {
    if b == [] {
      assert a + b == a;
    } else {
      var front, last := b[..|b| - 1], b[|b| - 1];
      assert a + b == (a + front) + [last];
      assert b == front + [last];
      CycleSnoc(front, last, groups, fetch);
      CycleConcat(a, front, groups, fetch);
      CycleSnoc(a + front, last, groups, fetch);
    }
  }

  /** The grouped queries are exactly those of the active rows. */
  lemma QueriesOfActive(t: Table, watches: seq<Active>, norm: string -> string, keys: seq<string>, groups: map<string, seq<Active>>)
    requires Groups(watches, norm, keys, groups)
    requires forall w :: w in watches <==> w.id in t && t[w.id].active && w.query == t[w.id].query
    ensures forall k :: k in keys <==> exists id :: id in t && t[id].active && norm(t[id].query) == k
  {
    forall k ensures k in keys <==> exists id :: id in t && t[id].active && norm(t[id].query) == k {
      if k in keys {
        GroupMembers(watches, norm, k);
        HeadIsMember(groups[k]);
        assert groups[k][0] in watches;
      }
      if id :| id in t && t[id].active && norm(t[id].query) == k {
        assert Active(id, t[id].query) in watches;
      }
    }
  }

  lemma ApplyAllSnoc(t: Table, us: seq<Update>, u: Update)
    ensures ApplyAll(t, us + [u]) == ApplyUpdate(ApplyAll(t, us), u)
  {
    assert (us + [u])[..|us|] == us;
  }

  lemma {:induction false} ApplyAllConcat(t: Table, us: seq<Update>, vs: seq<Update>)
    ensures ApplyAll(t, us + vs) == ApplyAll(ApplyAll(t, us), vs)
  {
    if vs == [] {
      assert us + vs == us;
    } else {
      var front, last := vs[..|vs| - 1], vs[|vs| - 1];
      ApplyAllConcat(t, us, front);
      assert us + vs == (us + front) + [last];
      ApplyAllSnoc(t, us + front, last);
    }
  }

  // ----- A task with retries -----

  /**
   One attempt of a task: what the scrapers return, None if they raise, and the index of the watch
   whose update raises, if any does.
   */
  datatype Attempt = Attempt(offers: Option<seq<Offer>>, stop: Option<nat>)

  /** The updates an attempt makes, and whether it ends without an exception. */
  function Attempted(group: seq<Active>, a: Attempt): (seq<Update>, bool) {
    if a.offers.None? then ([], false)
    else
      var best := Best(a.offers.value);
      if best.Some? && a.stop.Some? && a.stop.value < |group| then (UpdatesFor(group[..a.stop.value], best), false)
      else (UpdatesFor(group, best), true)
  }

  /** The updates from the `k`-th attempt on, and whether some attempt ends without an exception. */
  function Tried(group: seq<Active>, tries: nat -> Attempt, k: nat): (seq<Update>, bool)
    decreases MAX_RETRIES + 1 - k
  {
    if k > MAX_RETRIES then ([], false)
    else
      var (us, done) := Attempted(group, tries(k));
      if done then (us, true)
      else
        var (more, done') := Tried(group, tries, k + 1);
        (us + more, done')
  }

  /** How often the scrapers are asked from the `k`-th attempt on. */
  function Fetches(group: seq<Active>, tries: nat -> Attempt, k: nat): nat
    decreases MAX_RETRIES + 1 - k
  {
    if k > MAX_RETRIES then 0
    else if Attempted(group, tries(k)).1 then 1
    else 1 + Fetches(group, tries, k + 1)
  }

  /** The best offer of the attempt that ends without an exception, if there is one. */
  function SettledOn(group: seq<Active>, tries: nat -> Attempt, k: nat): Option<Offer>
    decreases MAX_RETRIES + 1 - k
  {
    if k > MAX_RETRIES then None
    else if !Attempted(group, tries(k)).1 then SettledOn(group, tries, k + 1)
    else if tries(k).offers.Some? then Best(tries(k).offers.value)
    else None
  }

  /** A task asks the scrapers once, and again after each exception, three times at most. */
  lemma ThreeTries(group: seq<Active>, tries: nat -> Attempt)
    ensures var (first, second, third) := (Attempted(group, tries(0)).1, Attempted(group, tries(1)).1, Attempted(group, tries(2)).1);
            && Fetches(group, tries, FIRST_TRY) == (if first then 1 else if second then 2 else 3)
            && (Tried(group, tries, FIRST_TRY).1 <==> first || second || third)
  {
    TriesFrom(group, tries, 2);
    TriesFrom(group, tries, 1);
    TriesFrom(group, tries, FIRST_TRY);
  }

  lemma TriesFrom(group: seq<Active>, tries: nat -> Attempt, k: nat)
    requires k <= MAX_RETRIES
    ensures var done := Attempted(group, tries(k)).1;
            var last := k == MAX_RETRIES;
            && Fetches(group, tries, k) == 1 + (if done || last then 0 else Fetches(group, tries, k + 1))
            && (Tried(group, tries, k).1 <==> done || (!last && Tried(group, tries, k + 1).1))
  {
  }

  /** An attempt raises if the scrapers do, or if an update does and there is something to record. */
  lemma AttemptRaises(group: seq<Active>, a: Attempt)
    ensures !Attempted(group, a).1 <==>
              a.offers.None? ||
              (a.stop.Some? && a.stop.value < |group| &&
               exists i :: 0 <= i < |a.offers.value| && !a.offers.value[i].failed && a.offers.value[i].price > 0.0)
  {
    if a.offers.Some? {
      BestIsCheapest(a.offers.value);
    }
  }

  lemma {:induction false} PartMembers(group: seq<Active>, a: Attempt, u: Update)
    requires u in Attempted(group, a).0
    ensures exists w :: w in group && w.id == u.id
  {
    var best := Best(a.offers.value);
    UpdatesForMembers(group, best, u);
    if a.stop.Some? && a.stop.value < |group| {
      UpdatesForMembers(group[..a.stop.value], best, u);
    }
  }

  lemma {:induction false} TriedMembers(group: seq<Active>, tries: nat -> Attempt, k: nat, u: Update)
    requires u in Tried(group, tries, k).0
    ensures exists w :: w in group && w.id == u.id
    decreases MAX_RETRIES + 1 - k
  {
    if u in Attempted(group, tries(k)).0 {
      PartMembers(group, tries(k), u);
    } else {
      TriedMembers(group, tries, k + 1, u);
    }
  }

  lemma {:induction false} OthersUntouched(t: Table, us: seq<Update>, id: nat)
    requires forall u :: u in us ==> u.id != id
    ensures id in ApplyAll(t, us) <==> id in t
    ensures id in t ==> ApplyAll(t, us)[id] == t[id]
  {
    if us != [] {
      assert us[|us| - 1] in us;
      OthersUntouched(t, us[..|us| - 1], id);
    }
  }

  lemma {:induction false} ApplyAllKeys(t: Table, us: seq<Update>)
    ensures ApplyAll(t, us).Keys == t.Keys
  {
    if us != [] {
      ApplyAllKeys(t, us[..|us| - 1]);
    }
  }

  /** The row shows the offer as its current price, and a lowest price no higher. */
  ghost predicate Shows(row: Watch, best: Offer) {
    && row.current == Some(best.price) && row.url == best.url
    && (row.triggered <==> best.price <= row.target)
    && row.lowest.Some? && row.lowest.value <= best.price
  }

  /** An attempt without an exception brings every watch of the group to its best offer. */
  lemma {:induction false} FullAttemptShows(t: Table, group: seq<Active>, best: Offer, w: Active)
    requires w in group && w.id in t
    ensures w.id in ApplyAll(t, UpdatesFor(group, Some(best))) && Shows(ApplyAll(t, UpdatesFor(group, Some(best)))[w.id], best)
  {
    var front, last := group[..|group| - 1], group[|group| - 1];
    assert group == front + [last];
    ApplyAllSnoc(t, UpdatesFor(front, Some(best)), Update(last.id, best.price, best.url));
    ApplyAllKeys(t, UpdatesFor(front, Some(best)));
    if w.id != last.id {
      FullAttemptShows(t, front, best, w);
    }
  }

  lemma {:induction false} SettledShows(t: Table, group: seq<Active>, tries: nat -> Attempt, k: nat, w: Active)
    requires SettledOn(group, tries, k).Some? && w in group && w.id in t
    ensures var t' := ApplyAll(t, Tried(group, tries, k).0);
            w.id in t' && Shows(t'[w.id], SettledOn(group, tries, k).value)
    decreases MAX_RETRIES + 1 - k
  {
    var (us, done) := Attempted(group, tries(k));
    if done {
      FullAttemptShows(t, group, SettledOn(group, tries, k).value, w);
    } else {
      var more := Tried(group, tries, k + 1).0;
      ApplyAllKeys(t, us);
      ApplyAllConcat(t, us, more);
      SettledShows(ApplyAll(t, us), group, tries, k + 1, w);
    }
  }

  /**
   However its earlier attempts failed, half-way through the group included: a task that ends without
   an exception leaves every watch of the group at the best price of its last attempt, and no task
   touches a watch of another group.
   */
  lemma RetriesSettle(t: Table, group: seq<Active>, tries: nat -> Attempt)
    ensures var (t', best) := (ApplyAll(t, Tried(group, tries, FIRST_TRY).0), SettledOn(group, tries, FIRST_TRY));
            && t'.Keys == t.Keys
            && (best.Some? ==> forall w :: w in group && w.id in t ==> Shows(t'[w.id], best.value))
            && forall id :: id in t && (forall w :: w in group ==> w.id != id) ==> t'[id] == t[id]
  {
    var us := Tried(group, tries, FIRST_TRY).0;
    ApplyAllKeys(t, us);
    if SettledOn(group, tries, FIRST_TRY).Some? {
      forall w | w in group && w.id in t ensures Shows(ApplyAll(t, us)[w.id], SettledOn(group, tries, FIRST_TRY).value) {
        SettledShows(t, group, tries, FIRST_TRY, w);
      }
    }
    forall id | id in t && (forall w :: w in group ==> w.id != id) ensures ApplyAll(t, us)[id] == t[id] {
      forall u | u in us ensures u.id != id {
        TriedMembers(group, tries, FIRST_TRY, u);
      }
      OthersUntouched(t, us, id);
    }
  }

  /** One watch's own updates, in order. */
  ghost function Own(us: seq<Update>, id: nat): seq<Update> {
    if us == [] then []
    else Own(us[..|us| - 1], id) + (if us[|us| - 1].id == id then [us[|us| - 1]] else [])
  }

  ghost function Played(w: Watch, us: seq<Update>): Watch {
    if us == [] then w else Updated(Played(w, us[..|us| - 1]), us[|us| - 1].price, us[|us| - 1].url)
  }

  lemma {:induction false} RowIsPlayed(t: Table, us: seq<Update>, id: nat)
    requires id in t
    ensures id in ApplyAll(t, us) && ApplyAll(t, us)[id] == Played(t[id], Own(us, id))
  {
    if us != [] {
      var front, last := us[..|us| - 1], us[|us| - 1];
      RowIsPlayed(t, front, id);
      var own := Own(us, id);
      if last.id == id {
        assert own[..|own| - 1] == Own(front, id) && own[|own| - 1] == last;
      } else {
        assert own == Own(front, id);
      }
    }
  }

  /** Tasks may interleave in any way that keeps each watch's own updates in order, repeats included. */
  lemma OwnUpdatesDecide(t: Table, us: seq<Update>, vs: seq<Update>)
    requires forall id :: id in t ==> Own(us, id) == Own(vs, id)
    ensures ApplyAll(t, us) == ApplyAll(t, vs)
  {
    ApplyAllKeys(t, us);
    ApplyAllKeys(t, vs);
    forall id | id in t ensures ApplyAll(t, us)[id] == ApplyAll(t, vs)[id] {
      RowIsPlayed(t, us, id);
      RowIsPlayed(t, vs, id);
    }
  }

  // ----- A cycle of retrying tasks -----

  /** An update and the query whose task makes it. */
  datatype Tagged = Tagged(query: string, update: Update)

  function Untag(ran: seq<Tagged>): seq<Update> {
    if ran == [] then [] else Untag(ran[..|ran| - 1]) + [ran[|ran| - 1].update]
  }

  /** What one task contributes, in order. */
  function Projection(ran: seq<Tagged>, query: string): seq<Update> {
    if ran == [] then []
    else Projection(ran[..|ran| - 1], query) + (if ran[|ran| - 1].query == query then [ran[|ran| - 1].update] else [])
  }

  /** `ran` is the tasks' updates, each task's in its own order, mixed in any way. */
  ghost predicate Interleaves(ran: seq<Tagged>, keys: seq<string>, groups: map<string, seq<Active>>,
                              tries: string -> nat -> Attempt) {
    && (forall x :: x in ran ==> x.query in keys)
    && (forall k :: k in keys ==> Projection(ran, k) == Tried(Members(groups, k), tries(k), FIRST_TRY).0)
  }

  lemma {:induction false} ProjectionMembers(ran: seq<Tagged>, x: Tagged)
    requires x in ran
    ensures x.update in Projection(ran, x.query)
  {
    var front, last := ran[..|ran| - 1], ran[|ran| - 1];
    assert ran == front + [last];
    if x in front {
      ProjectionMembers(front, x);
    }
  }

  lemma OwnSnoc(us: seq<Update>, u: Update, id: nat)
    ensures Own(us + [u], id) == Own(us, id) + (if u.id == id then [u] else [])
  {
    assert (us + [u])[..|us|] == us;
  }

  /** A watch that only one task updates has its own updates from that task. */
  lemma {:induction false} OwnFromTask(ran: seq<Tagged>, query: string, id: nat)
    requires forall x :: x in ran && x.update.id == id ==> x.query == query
    ensures Own(Untag(ran), id) == Own(Projection(ran, query), id)
  {
    if ran != [] {
      var front, last := ran[..|ran| - 1], ran[|ran| - 1];
      assert ran == front + [last] && last in ran;
      OwnFromTask(front, query, id);
      OwnSnoc(Untag(front), last.update, id);
      if last.query == query {
        OwnSnoc(Projection(front, query), last.update, id);
      } else {
        assert Projection(ran, query) == Projection(front, query);
      }
    }
  }

  /** The watch behind an update of a cycle. */
  lemma UpdatedWatch(watches: seq<Active>, norm: string -> string, keys: seq<string>, groups: map<string, seq<Active>>,
                     tries: string -> nat -> Attempt, ran: seq<Tagged>, x: Tagged) returns (w: Active)
    requires Groups(watches, norm, keys, groups) && Interleaves(ran, keys, groups, tries) && x in ran
    ensures w in watches && w.id == x.update.id && norm(w.query) == x.query
  {
    ProjectionMembers(ran, x);
    TriedMembers(groups[x.query], tries(x.query), FIRST_TRY, x.update);
    GroupMembers(watches, norm, x.query);
    w :| w in groups[x.query] && w.id == x.update.id;
  }

  /** In a cycle, the row of a watch ends as its own task alone would leave it. */
  lemma RowAsTaskLeavesIt(t: Table, watches: seq<Active>, norm: string -> string, keys: seq<string>,
                          groups: map<string, seq<Active>>, tries: string -> nat -> Attempt, ran: seq<Tagged>, w: Active)
    requires DistinctWatches(watches) && Groups(watches, norm, keys, groups) && Interleaves(ran, keys, groups, tries)
    requires w in watches && w.id in t
    ensures var k := norm(w.query);
            var alone := ApplyAll(t, Tried(groups[k], tries(k), FIRST_TRY).0);
            w.id in ApplyAll(t, Untag(ran)) && w.id in alone && ApplyAll(t, Untag(ran))[w.id] == alone[w.id]
  {
    var k := norm(w.query);
    forall x | x in ran && x.update.id == w.id ensures x.query == k {
      var v := UpdatedWatch(watches, norm, keys, groups, tries, ran, x);
      SameIdSameWatch(watches, v, w);
    }
    OwnFromTask(ran, k, w.id);
    RowIsPlayed(t, Untag(ran), w.id);
    RowIsPlayed(t, Projection(ran, k), w.id);
  }

  lemma {:induction false} UntagMembers(ran: seq<Tagged>, u: Update) returns (x: Tagged)
    requires u in Untag(ran)
    ensures x in ran && x.update == u
  {
    var front, last := ran[..|ran| - 1], ran[|ran| - 1];
    if u in Untag(front) {
      x := UntagMembers(front, u);
      assert ran == front + [last];
    } else {
      x := last;
    }
  }

  /**
   However the retrying tasks of a cycle interleave: every watch whose task ends without an exception
   shows the best price of that task's last attempt, and rows of no active watch are untouched.
   */
  lemma RetryingCycleSettles(t: Table, watches: seq<Active>, norm: string -> string, keys: seq<string>,
                             groups: map<string, seq<Active>>, tries: string -> nat -> Attempt, ran: seq<Tagged>)
    requires DistinctWatches(watches) && Groups(watches, norm, keys, groups) && Interleaves(ran, keys, groups, tries)
    ensures var t' := ApplyAll(t, Untag(ran));
            && t'.Keys == t.Keys
            && (forall w :: w in watches && w.id in t ==>
                  var best := SettledOn(groups[norm(w.query)], tries(norm(w.query)), FIRST_TRY);
                  best.Some? ==> Shows(t'[w.id], best.value))
            && (forall id :: id in t && (forall w :: w in watches ==> w.id != id) ==> t'[id] == t[id])
  {
    var us := Untag(ran);
    ApplyAllKeys(t, us);
    forall w | w in watches && w.id in t
      ensures var best := SettledOn(groups[norm(w.query)], tries(norm(w.query)), FIRST_TRY);
              best.Some? ==> Shows(ApplyAll(t, us)[w.id], best.value)
    {
      var k := norm(w.query);
      RowAsTaskLeavesIt(t, watches, norm, keys, groups, tries, ran, w);
      GroupMembers(watches, norm, k);
      if SettledOn(groups[k], tries(k), FIRST_TRY).Some? {
        SettledShows(t, groups[k], tries(k), FIRST_TRY, w);
      }
    }
    forall id | id in t && (forall w :: w in watches ==> w.id != id) ensures ApplyAll(t, us)[id] == t[id] {
      forall u | u in us ensures u.id != id {
        var x := UntagMembers(ran, u);
        var w := UpdatedWatch(watches, norm, keys, groups, tries, ran, x);
      }
      OthersUntouched(t, us, id);
    }
  }

  /** A task whose first attempt raises nothing makes that attempt only. */
  lemma FirstTry(group: seq<Active>, tries: nat -> Attempt, offers: seq<Offer>)
    requires tries(FIRST_TRY) == Attempt(Some(offers), None)
    ensures Tried(group, tries, FIRST_TRY) == (UpdatesFor(group, Best(offers)), true) && Fetches(group, tries, FIRST_TRY) == 1
  {
  }

  ghost function Times(query: string, n: nat): seq<string> {
    seq(n, _ => query)
  }

  lemma OnceMore(before: seq<string>, query: string, n: nat)
    ensures before + Times(query, n) + [query] == before + Times(query, n + 1)
  {
    assert Times(query, n + 1) == Times(query, n) + [query];
  }

  /** The attempts before the `k`-th have all raised, and have made the updates `made`. */
  ghost predicate SoFar(group: seq<Active>, tries: nat -> Attempt, k: nat, made: seq<Update>) {
    && Tried(group, tries, FIRST_TRY) == (made + Tried(group, tries, k).0, Tried(group, tries, k).1)
    && Fetches(group, tries, FIRST_TRY) == k + Fetches(group, tries, k)
  }

  lemma SoFarBegins(group: seq<Active>, tries: nat -> Attempt)
    ensures SoFar(group, tries, FIRST_TRY, [])
  {
    assert [] + Tried(group, tries, FIRST_TRY).0 == Tried(group, tries, FIRST_TRY).0;
  }

  lemma SoFarNext(group: seq<Active>, tries: nat -> Attempt, k: nat, made: seq<Update>)
    requires k <= MAX_RETRIES && SoFar(group, tries, k, made)
    ensures var (us, done) := Attempted(group, tries(k));
            if done then Tried(group, tries, FIRST_TRY) == (made + us, true) && Fetches(group, tries, FIRST_TRY) == k + 1
            else SoFar(group, tries, k + 1, made + us)
  {
    var us, more := Attempted(group, tries(k)).0, Tried(group, tries, k + 1).0;
    assert made + (us + more) == (made + us) + more;
  }

  lemma SoFarEnds(group: seq<Active>, tries: nat -> Attempt, made: seq<Update>)
    requires SoFar(group, tries, MAX_RETRIES + 1, made)
    ensures Tried(group, tries, FIRST_TRY) == (made, false) && Fetches(group, tries, FIRST_TRY) == MAX_RETRIES + 1
  {
    assert made + [] == made;
  }

  // ----- Alerts -----

  /** How many of the updates reach their watch's target. */
  ghost function Alerts(t: Table, us: seq<Update>): nat {
    if us == [] then 0
    else
      var u := us[|us| - 1];
      Alerts(t, us[..|us| - 1]) + (if u.id in t && u.price <= t[u.id].target then 1 else 0)
  }

  lemma AlertsSnoc(t: Table, us: seq<Update>, u: Update)
    ensures Alerts(t, us + [u]) == Alerts(t, us) + (if u.id in t && u.price <= t[u.id].target then 1 else 0)
  {
    assert (us + [u])[..|us|] == us;
  }

  lemma {:induction false} TargetsKept(t: Table, us: seq<Update>)
    ensures ApplyAll(t, us).Keys == t.Keys
    ensures forall id :: id in t ==> id in ApplyAll(t, us) && ApplyAll(t, us)[id].target == t[id].target
  {
    if us != [] {
      TargetsKept(t, us[..|us| - 1]);
    }
  }

  lemma {:induction false} AlertsConcat(t: Table, us: seq<Update>, vs: seq<Update>)
    ensures Alerts(t, us + vs) == Alerts(t, us) + Alerts(ApplyAll(t, us), vs)
  {
    TargetsKept(t, us);
    if vs == [] {
      assert us + vs == us;
    } else {
      var front, last := vs[..|vs| - 1], vs[|vs| - 1];
      AlertsConcat(t, us, front);
      assert us + vs == (us + front) + [last];
      AlertsSnoc(t, us + front, last);
    }
  }

  // ----- A row after a cycle -----

  /** A price and a link that no listing with a price undercuts. */
  ghost predicate Cheapest(offers: seq<Offer>, price: real, url: string) {
    && price > 0.0 && Offer(price, url, false) in offers
    && forall o :: o in offers && !o.failed && o.price > 0.0 ==> price <= o.price
  }

  /** An active row shows a cheapest listing of its query, if there is one; any other row is as it was. */
  ghost predicate Repriced(row: Watch, offers: seq<Offer>, row': Watch) {
    if row.active && exists o :: o in offers && !o.failed && o.price > 0.0 then
      && row'.current.Some? && Cheapest(offers, row'.current.value, row'.url)
      && row'.lowest == Some(if row.lowest.Some? && row.lowest.value <= row'.current.value then row.lowest.value
                             else row'.current.value)
      && (row'.triggered <==> row'.current.value <= row.target)
      && (row'.userId, row'.query, row'.target, row'.active) == (row.userId, row.query, row.target, true)
    else row' == row
  }

  lemma RepricedByBest(row: Watch, offers: seq<Offer>)
    ensures var best := Best(offers);
            Repriced(row, offers,
                     if row.active && best.Some? then Updated(row, best.value.price, best.value.url) else row)
  {
    BestIsCheapest(offers);
  }

  // ----- The store and the worker -----

  class DealAlertStore {
    var rows: Table
    var nextId: nat

    ghost predicate Valid()
      reads this
    {
      forall id :: id in rows ==> id < nextId
    }

    ghost function State(): Store
      reads this
    {
      Store(rows, nextId)
    }

    constructor ()
      ensures Valid() && State() == EMPTY_STORE
    {
      rows, nextId := map[], 1;
    }

    method CreateWatch(userId: string, query: string, target: real) returns (id: nat)
      requires Valid()
      modifies this
      ensures rows == old(rows)[id := Watch(userId, query, target, None, None, "", true, false)]
      ensures Valid() && id !in old(rows) && id == old(nextId) && nextId == id + 1
      ensures State() == StoreAfter(old(State()), Create(userId, query, target))
    {
      id := nextId;
      rows, nextId := rows[id := Watch(userId, query, target, None, None, "", true, false)], nextId + 1;
    }

    method UpdatePrice(id: nat, price: real, url: string) returns (triggered: bool)
      requires Valid()
      modifies `rows
      ensures Valid() && rows == ApplyUpdate(old(rows), Update(id, price, url))
      ensures State() == StoreAfter(old(State()), Reprice(Update(id, price, url)))
      ensures triggered <==> id in old(rows) && price <= old(rows)[id].target
      ensures id !in old(rows) ==> rows == old(rows)
      ensures id in old(rows) ==>
                var row := old(rows)[id];
                var lowest := if row.lowest.Some? && row.lowest.value <= price then row.lowest.value else price;
                rows == old(rows)[id := Watch(row.userId, row.query, row.target, Some(price), Some(lowest), url, row.active,
                                              price <= row.target)]
    {
      if id !in rows {
        return false;
      }
      var row := rows[id];
      var lowest := row.lowest;
      if lowest.None? || price < lowest.value {
        lowest := Some(price);
      }
      triggered := price <= row.target;
      rows := rows[id := row.(current := Some(price), lowest := lowest, url := url, triggered := triggered)];
    }

    method DeactivateWatch(id: nat, userId: string) returns (found: bool)
      requires Valid()
      modifies `rows
      ensures Valid() && (found <==> id in old(rows) && old(rows)[id].userId == userId)
      ensures State() == StoreAfter(old(State()), Deactivate(id, userId))
      ensures rows == if found then old(rows)[id := old(rows)[id].(active := false)] else old(rows)
    {
      found := id in rows && rows[id].userId == userId;
      if found {
        rows := rows[id := rows[id].(active := false)];
      }
    }

    method GetAllActiveWatches() returns (watches: seq<Active>)
      requires Valid()
      ensures DistinctWatches(watches)
      ensures forall w :: w in watches <==> w.id in rows && rows[w.id].active && w.query == rows[w.id].query
    {
      watches := [];
      for id := 0 to nextId
        invariant DistinctWatches(watches)
        invariant forall w :: w in watches <==> w.id < id && w.id in rows && rows[w.id].active && w.query == rows[w.id].query
      {
        if id in rows && rows[id].active {
          watches := watches + [Active(id, rows[id].query)];
        }
      }
    }
  }

  class PriceCheckerWorker {
    const store: DealAlertStore
    var watchesChecked: nat
    var errors: nat
    var alertsTriggered: nat  // one notification is sent for each
    ghost var fetched: seq<string>  // the queries sent to the scrapers, oldest first

    constructor (store: DealAlertStore)
      ensures this.store == store && watchesChecked == 0 && errors == 0 && alertsTriggered == 0 && fetched == []
    {
      this.store, watchesChecked, errors, alertsTriggered, fetched := store, 0, 0, 0, [];
    }

    /** One task: up to MAX_RETRIES further attempts after an exception. */
    method CheckQuery(query: string, group: seq<Active>, tries: nat -> Attempt)
      requires store.Valid()
      modifies this, store
      ensures fetched == old(fetched) + Times(query, Fetches(group, tries, FIRST_TRY))
      ensures store.Valid() && store.rows == ApplyAll(old(store.rows), Tried(group, tries, FIRST_TRY).0)
      ensures watchesChecked == old(watchesChecked) + |Tried(group, tries, FIRST_TRY).0|
      ensures errors == old(errors) + (if Tried(group, tries, FIRST_TRY).1 then 0 else 1)
      ensures alertsTriggered == old(alertsTriggered) + Alerts(old(store.rows), Tried(group, tries, FIRST_TRY).0)
    {
      ghost var t0, made := store.rows, [];
      SoFarBegins(group, tries);
      for attempt := 0 to MAX_RETRIES + 1
        invariant store.Valid() && store.rows == ApplyAll(t0, made)
        invariant SoFar(group, tries, attempt, made)
        invariant fetched == old(fetched) + Times(query, attempt)
        invariant watchesChecked == old(watchesChecked) + |made| && errors == old(errors)
        invariant alertsTriggered == old(alertsTriggered) + Alerts(t0, made)
      {
        SoFarNext(group, tries, attempt, made);
        ApplyAllConcat(t0, made, Attempted(group, tries(attempt)).0);
        AlertsConcat(t0, made, Attempted(group, tries(attempt)).0);
        OnceMore(old(fetched), query, attempt);
        var done := RunAttempt(query, group, tries(attempt));
        made := made + Attempted(group, tries(attempt)).0;
        if done {
          return;
        }
      }
      SoFarEnds(group, tries, made);
      errors := errors + 1;
    }

    /** The body of the `try`: a fetch, then every watch of the group. The result is false on an exception. */
    method RunAttempt(query: string, group: seq<Active>, a: Attempt) returns (done: bool)
      requires store.Valid()
      modifies `fetched, `watchesChecked, `alertsTriggered, store
      ensures fetched == old(fetched) + [query]
      ensures store.Valid() && store.rows == ApplyAll(old(store.rows), Attempted(group, a).0)
      ensures watchesChecked == old(watchesChecked) + |Attempted(group, a).0|
      ensures alertsTriggered == old(alertsTriggered) + Alerts(old(store.rows), Attempted(group, a).0)
      ensures done == Attempted(group, a).1
    {
      fetched := fetched + [query];
      if a.offers.None? {
        return false;
      }
      var best := Best(a.offers.value);
      if best.None? {
        return true;
      }
      done := UpdateGroup(group, best.value, a.stop);
    }

    method UpdateGroup(group: seq<Active>, best: Offer, stop: Option<nat>) returns (done: bool)
      requires store.Valid()
      modifies `watchesChecked, `alertsTriggered, store
      ensures done <==> !(stop.Some? && stop.value < |group|)
      ensures var us := UpdatesFor(if done then group else group[..stop.value], Some(best));
              && store.Valid() && store.rows == ApplyAll(old(store.rows), us)
              && watchesChecked == old(watchesChecked) + |us|
              && alertsTriggered == old(alertsTriggered) + Alerts(old(store.rows), us)
    {
      for i := 0 to |group|
        invariant store.Valid()
        invariant store.rows == ApplyAll(old(store.rows), UpdatesFor(group[..i], Some(best)))
        invariant watchesChecked == old(watchesChecked) + |UpdatesFor(group[..i], Some(best))|
        invariant alertsTriggered == old(alertsTriggered) + Alerts(old(store.rows), UpdatesFor(group[..i], Some(best)))
        invariant stop.Some? ==> i <= stop.value
      {
        if stop == Some(i) {
          return false;
        }
        assert group[..i + 1][..i] == group[..i];
        ApplyAllSnoc(old(store.rows), UpdatesFor(group[..i], Some(best)), Update(group[i].id, best.price, best.url));
        AlertsSnoc(old(store.rows), UpdatesFor(group[..i], Some(best)), Update(group[i].id, best.price, best.url));
        TargetsKept(old(store.rows), UpdatesFor(group[..i], Some(best)));
        var triggered := store.UpdatePrice(group[i].id, best.price, best.url);
        watchesChecked := watchesChecked + 1;
        if triggered {
          alertsTriggered := alertsTriggered + 1;
        }
      }
      assert group[..|group|] == group;
      return true;
    }

    /** `norm` is `lower().strip()`; `fetch` is what the scrapers return for a query in this cycle. */
    method CheckCycle(norm: string -> string, fetch: string -> seq<Offer>)
      requires store.Valid()
      modifies this, store
      ensures old(fetched) <= fetched && Distinct(fetched[|old(fetched)|..])
      ensures forall k :: k in fetched[|old(fetched)|..] <==>
                exists id :: id in old(store.rows) && old(store.rows)[id].active && norm(old(store.rows)[id].query) == k
      ensures store.Valid() && store.rows.Keys == old(store.rows).Keys
      ensures forall id :: id in old(store.rows) ==>
                var row := old(store.rows)[id];
                var best := Best(fetch(norm(row.query)));
                store.rows[id] == if row.active && best.Some? then Updated(row, best.value.price, best.value.url) else row
      ensures forall id :: id in old(store.rows) ==>
                Repriced(old(store.rows)[id], fetch(norm(old(store.rows)[id].query)), store.rows[id])
    {
      var watches := store.GetAllActiveWatches();
      var keys, groups := GroupWatches(watches, norm);
      ghost var table := store.rows;
      RunBatches(keys, groups, fetch);
      assert fetched[|old(fetched)|..] == keys;
      QueriesOfActive(table, watches, norm, keys, groups);
      CycleLosesNothing(table, watches, norm, keys, groups, fetch, CycleUpdates(keys, groups, fetch));
      forall id | id in table
        ensures var best := Best(fetch(norm(table[id].query)));
                store.rows[id] == if table[id].active && best.Some?
                                  then Updated(table[id], best.value.price, best.value.url) else table[id]
      {
        if table[id].active {
          assert Active(id, table[id].query) in watches;
        }
      }
      forall id | id in table ensures Repriced(table[id], fetch(norm(table[id].query)), store.rows[id]) {
        RepricedByBest(table[id], fetch(norm(table[id].query)));
      }
    }

    method RunBatches(keys: seq<string>, groups: map<string, seq<Active>>, fetch: string -> seq<Offer>)
      requires store.Valid()
      modifies this, store
      ensures store.Valid() && store.rows == ApplyAll(old(store.rows), CycleUpdates(keys, groups, fetch))
      ensures fetched == old(fetched) + keys
    {
      ghost var t0, f0, done := store.rows, fetched, [];
      var i := 0;
      while i < |keys|
        invariant 0 <= i <= |keys| && store.Valid() && done == keys[..i]
        invariant CycleSoFar(t0, store.rows, f0, fetched, done, groups, fetch)
        decreases |keys| - i
      {
        var next := Min(i + BATCH_SIZE, |keys|);
        var batch := keys[i..next];
        BatchExtends(t0, store.rows, f0, fetched, done, batch, groups, fetch);
        SliceExtends(keys, i, next);
        RunBatch(batch, groups, fetch);
        done := done + batch;
        i := next;
      }
      assert done == keys;
    }

    method RunBatch(batch: seq<string>, groups: map<string, seq<Active>>, fetch: string -> seq<Offer>)
      requires store.Valid()
      modifies this, store
      ensures store.Valid() && store.rows == ApplyAll(old(store.rows), CycleUpdates(batch, groups, fetch))
      ensures fetched == old(fetched) + batch
    {
      for j := 0 to |batch|
        invariant store.Valid()
        invariant CycleSoFar(old(store.rows), store.rows, old(fetched), fetched, batch[..j], groups, fetch)
      {
        TaskExtends(old(store.rows), store.rows, old(fetched), fetched, batch, j, groups, fetch);
        CheckCalmly(batch[j], groups, fetch);
      }
      assert batch[..|batch|] == batch;
    }

    /** A task in which nothing raises: a single fetch, then every watch of the group. */
    method CheckCalmly(query: string, groups: map<string, seq<Active>>, fetch: string -> seq<Offer>)
      requires store.Valid()
      modifies this, store
      ensures store.Valid() && store.rows == ApplyAll(old(store.rows), Task(groups, fetch, query))
      ensures fetched == old(fetched) + [query]
    {
      var tries := (k: nat) => Attempt(Some(fetch(query)), None);
      FirstTry(Members(groups, query), tries, fetch(query));
      assert Times(query, 1) == [query];
      CheckQuery(query, Members(groups, query), tries);
    }
  }
}
