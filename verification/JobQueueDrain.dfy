/** Draining: repeated `process_next` when everything is due and every handler succeeds. */
module JobQueueDrain {
  import opened Prelude
  import opened JobQueueModel

  /** One call of `process_next` that ran job `id`. */
  datatype Turn = Turn(id: nat, claimedAt: int, finishedAt: int)

  ghost predicate TurnPossible(q: Queue, t: Turn)
    requires |q.past| == |q.rows|
  {
    && Enabled(q, Claim(t.id, t.claimedAt)) && Forward(q, Claim(t.id, t.claimedAt))
    && t.id < |Apply(q, Claim(t.id, t.claimedAt)).rows|
    && |Apply(q, Claim(t.id, t.claimedAt)).past| == |q.rows|
    && Enabled(Apply(q, Claim(t.id, t.claimedAt)), Finish(t.id, Returned, t.finishedAt))
    && Forward(Apply(q, Claim(t.id, t.claimedAt)), Finish(t.id, Returned, t.finishedAt))
  }

  function AfterTurn(q: Queue, t: Turn): (q': Queue)
    requires |q.past| == |q.rows|
    ensures |q'.past| == |q'.rows| == |q.rows|
  {
    ApplyKeepsShape(q, Claim(t.id, t.claimedAt));
    ApplyKeepsShape(Apply(q, Claim(t.id, t.claimedAt)), Finish(t.id, Returned, t.finishedAt));
    Apply(Apply(q, Claim(t.id, t.claimedAt)), Finish(t.id, Returned, t.finishedAt))
  }

  /** The calls return True for each turn and then False at `end`. */
  ghost predicate Drains(q: Queue, turns: seq<Turn>, end: int)
    requires |q.past| == |q.rows|
    decreases |turns|
  {
    if turns == [] then q.clock <= end && forall i :: 0 <= i < |q.rows| ==> !Eligible(q.rows[i], end)
    else TurnPossible(q, turns[0]) && Drains(AfterTurn(q, turns[0]), turns[1..], end)
  }

  ghost predicate AllDue(q: Queue) {
    forall i :: 0 <= i < |q.rows| && q.rows[i].status == Pending ==> q.rows[i].scheduledAt <= q.clock
  }

  ghost function PendingIds(q: Queue): set<nat> {
    set i: nat | i < |q.rows| && q.rows[i].status == Pending
  }

  function Ids(turns: seq<Turn>): seq<nat> {
    if turns == [] then [] else [turns[0].id] + Ids(turns[1..])
  }

  /** The part of a row that the order looks at never changes. */
  ghost predicate SameRank(q: Queue, q': Queue) {
    && |q.rows| == |q'.rows|
    && forall i :: 0 <= i < |q.rows| ==>
         q.rows[i].priority == q'.rows[i].priority && q.rows[i].createdAt == q'.rows[i].createdAt
  }

  /** Job `a` may run before job `b`: it has the higher priority, or the same and is no younger. */
  predicate RunsFirst(rows: seq<Job>, a: nat, b: nat) {
    && a < |rows| && b < |rows|
    && (rows[a].priority > rows[b].priority
        || (rows[a].priority == rows[b].priority && rows[a].createdAt <= rows[b].createdAt))
  }

  lemma TurnEffect(q: Queue, t: Turn)
    requires |q.past| == |q.rows| && TurnPossible(q, t) && AllDue(q)
    ensures var q' := AfterTurn(q, t);
            && SameRank(q, q') && AllDue(q') && q.clock <= q'.clock
            && t.id in PendingIds(q) && PendingIds(q') == PendingIds(q) - {t.id}
            && forall i :: i in PendingIds(q) ==> RunsFirst(q.rows, t.id, i)
  {
    NextInColumns(q.rows, t.claimedAt, t.id);
    var q' := AfterTurn(q, t);
    assert forall i :: 0 <= i < |q.rows| && i != t.id ==> q'.rows[i] == q.rows[i];
    assert q'.rows[t.id].status == Completed;
  }

  ghost predicate InOrder(rows: seq<Job>, ids: seq<nat>) {
    forall i, j :: 0 <= i < j < |ids| ==> RunsFirst(rows, ids[i], ids[j])
  }

  lemma SameRankSameOrder(q: Queue, q': Queue, ids: seq<nat>)
    requires SameRank(q, q') && InOrder(q'.rows, ids)
    ensures InOrder(q.rows, ids)
  {
    forall i, j | 0 <= i < j < |ids| ensures RunsFirst(q.rows, ids[i], ids[j]) {
      assert RunsFirst(q'.rows, ids[i], ids[j]);
    }
  }

  lemma FirstThenRest(q: Queue, first: nat, rest: seq<nat>)
    requires InOrder(q.rows, rest) && Distinct(rest) && first !in rest
    requires forall id :: id in rest ==> RunsFirst(q.rows, first, id)
    ensures InOrder(q.rows, [first] + rest) && Distinct([first] + rest)
  {
    var ids := [first] + rest;
    forall i, j | 0 <= i < j < |ids| ensures RunsFirst(q.rows, ids[i], ids[j]) && ids[i] != ids[j] {
      assert ids[j] == rest[j - 1] && rest[j - 1] in rest;
      assert i > 0 ==> ids[i] == rest[i - 1];
    }
  }

  lemma {:induction false} DrainRanks(q: Queue, turns: seq<Turn>, end: int)
    requires |q.past| == |q.rows| && AllDue(q) && Drains(q, turns, end)
    ensures forall id :: id in Ids(turns) <==> id in PendingIds(q)
    ensures Distinct(Ids(turns))
    ensures InOrder(q.rows, Ids(turns))
    decreases |turns|
  {
    if turns == [] {
      forall id: nat ensures id !in PendingIds(q) {
        if id in PendingIds(q) {
          assert Eligible(q.rows[id], end);
          assert false;
        }
      }
    } else {
      TurnEffect(q, turns[0]);
      var q' := AfterTurn(q, turns[0]);
      DrainRanks(q', turns[1..], end);
      var rest := Ids(turns[1..]);
      SameRankSameOrder(q, q', rest);
      FirstThenRest(q, turns[0].id, rest);
    }
  }

  /** A drain runs exactly the pending jobs, each once, higher priorities first and then older jobs first. */
  lemma DrainInOrder(q: Queue, turns: seq<Turn>, end: int)
    requires |q.past| == |q.rows| && AllDue(q) && Drains(q, turns, end)
    ensures forall id :: id in Ids(turns) <==> id in PendingIds(q)
    ensures Distinct(Ids(turns))
    ensures forall i, j :: 0 <= i < j < |Ids(turns)| ==>
              var (a, b) := (Ids(turns)[i], Ids(turns)[j]);
              && a < |q.rows| && b < |q.rows|
              && (q.rows[a].priority > q.rows[b].priority
                  || (q.rows[a].priority == q.rows[b].priority && q.rows[a].createdAt <= q.rows[b].createdAt))
  {
    DrainRanks(q, turns, end);
    forall i, j | 0 <= i < j < |Ids(turns)| ensures RunsFirst(q.rows, Ids(turns)[i], Ids(turns)[j]) {
    }
  }

  // ----- A drain always exists -----

  ghost predicate NoneRunning(q: Queue) {
    forall i :: 0 <= i < |q.rows| ==> q.rows[i].status != Running
  }

  /** Among the first `n` rows, `id` is one that no eligible one precedes. */
  ghost predicate IsNextAmong(rows: seq<Job>, now: int, n: nat, id: nat) {
    && id < n <= |rows| && Eligible(rows[id], now)
    && forall j :: 0 <= j < n && Eligible(rows[j], now) ==> !Before(rows[j], rows[id])
  }

  lemma {:induction false} NextExists(rows: seq<Job>, now: int, n: nat) returns (id: nat)
    requires n <= |rows| && exists j :: 0 <= j < n && Eligible(rows[j], now)
    ensures IsNextAmong(rows, now, n, id)
  {
    if j :| 0 <= j < n - 1 && Eligible(rows[j], now) {
      id := NextExists(rows, now, n - 1);
      if Eligible(rows[n - 1], now) && Before(rows[n - 1], rows[id]) {
        id := n - 1;
      }
    } else {
      id := n - 1;
    }
  }

  /** From every state in which everything pending is due and nothing runs, the queue can be drained. */
  lemma {:induction false} DrainExists(q: Queue) returns (turns: seq<Turn>, end: int)
    requires |q.past| == |q.rows| && AllDue(q) && NoneRunning(q)
    ensures Drains(q, turns, end)
    decreases |PendingIds(q)|
  {
    if PendingIds(q) == {} {
      turns, end := [], q.clock;
      forall i | 0 <= i < |q.rows| ensures !Eligible(q.rows[i], end) {
        assert i !in PendingIds(q);
      }
    } else {
      var j :| j in PendingIds(q);
      assert Eligible(q.rows[j], q.clock);
      var id := NextExists(q.rows, q.clock, |q.rows|);
      var t := Turn(id, q.clock, q.clock);
      TurnEffect(q, t);
      var q' := AfterTurn(q, t);
      assert NoneRunning(q');
      turns, end := DrainExists(q');
      turns := [t] + turns;
    }
  }

  // ----- The order is the sort -----

  /** No two pending jobs were created at the same instant. */
  ghost predicate DistinctCreation(q: Queue) {
    forall i, j :: i in PendingIds(q) && j in PendingIds(q) && i != j ==> q.rows[i].createdAt != q.rows[j].createdAt
  }

  /** Strictly sorted by priority descending, then creation ascending. */
  ghost predicate Sorted(rows: seq<Job>, ids: seq<nat>) {
    forall i, j :: 0 <= i < j < |ids| ==> Ahead(rows, ids[i], ids[j])
  }

  predicate Ahead(rows: seq<Job>, a: nat, b: nat) {
    && a < |rows| && b < |rows|
    && (rows[a].priority > rows[b].priority
        || (rows[a].priority == rows[b].priority && rows[a].createdAt < rows[b].createdAt))
  }

  /** In a strictly sorted arrangement the first job is ahead of the others, and occurs once. */
  lemma SortedHead(rows: seq<Job>, ids: seq<nat>)
    requires Sorted(rows, ids) && ids != []
    ensures forall id :: id in ids[1..] ==> Ahead(rows, ids[0], id) && id != ids[0]
    ensures forall id :: id in ids <==> id == ids[0] || id in ids[1..]
    ensures Sorted(rows, ids[1..])
  {
    assert ids == [ids[0]] + ids[1..];
  }

  /** There is only one strictly sorted arrangement of a set of jobs. */
  lemma {:induction false} SortIsUnique(rows: seq<Job>, a: seq<nat>, b: seq<nat>)
    requires forall id :: id in a <==> id in b
    requires Sorted(rows, a) && Sorted(rows, b)
    ensures a == b
    decreases |a|
  {
    HeadIsMember(a);
    HeadIsMember(b);
    if a != [] {
      SortedHead(rows, a);
      SortedHead(rows, b);
      assert a[0] == b[0];
      forall id ensures id in a[1..] <==> id in b[1..] {
        assert id in a <==> id in b;
      }
      SortIsUnique(rows, a[1..], b[1..]);
      assert a == [a[0]] + a[1..] && b == [b[0]] + b[1..];
    }
  }

  /**
   With distinct creation times every drain runs the pending jobs strictly sorted by priority
   descending, then creation ascending, and any such arrangement of them is the drain's.
   */
  lemma DrainIsTheSort(q: Queue, turns: seq<Turn>, end: int)
    requires |q.past| == |q.rows| && AllDue(q) && Drains(q, turns, end) && DistinctCreation(q)
    ensures Sorted(q.rows, Ids(turns)) && forall id :: id in Ids(turns) <==> id in PendingIds(q)
    ensures forall ids :: Sorted(q.rows, ids) && (forall id :: id in ids <==> id in PendingIds(q)) ==> ids == Ids(turns)
  {
    DrainInOrder(q, turns, end);
    var run := Ids(turns);
    forall i, j | 0 <= i < j < |run| ensures Ahead(q.rows, run[i], run[j]) {
      assert run[i] in run && run[j] in run;
      assert q.rows[run[i]].createdAt != q.rows[run[j]].createdAt;
    }
    forall ids | Sorted(q.rows, ids) && (forall id :: id in ids <==> id in PendingIds(q)) ensures ids == run {
      SortIsUnique(q.rows, run, ids);
    }
  }
}
