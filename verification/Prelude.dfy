/**
 Small vocabulary shared by every component.

 Units of time, options, minimum and maximum, sequences without repetition, and what it means to
 remove a key, or every key of a set, from an ordered list of keys; and how many of some instants
 lie in a closed interval.
 */
module Prelude {
  /** A clock reading in seconds; the source's floats are modelled as exact reals. */
  type Time = real

  /** The window of both rate limiters. */
  const WINDOW_SECONDS := 60.0

  /** A second in microseconds, the unit of the queue's and the scheduler's instants. */
  const SECOND := 1_000_000

  /** What the rate limiters report about a key. */
  datatype Usage = Usage(requestsInWindow: nat, limit: nat, remaining: nat, totalBlocked: nat)

  datatype Option<+T> = None | Some(value: T)

  function Max(x: int, y: int): int {
    if x < y then y else x
  }

  function Min(x: int, y: int): int {
    if x < y then x else y
  }

  ghost predicate Distinct<T>(s: seq<T>) {
    forall i, j :: 0 <= i < j < |s| ==> s[i] != s[j]
  }

  /** How many of the given instants lie in the closed interval [lo, hi]. */
  ghost function CountIn(times: seq<Time>, lo: Time, hi: Time): nat {
    if times == [] then 0
    else CountIn(times[..|times| - 1], lo, hi) + (if lo <= times[|times| - 1] <= hi then 1 else 0)
  }

  /** Widening the interval can only raise the count. */
  lemma {:induction false} CountInMonotone(times: seq<Time>, lo: Time, hi: Time, lo': Time, hi': Time)
    requires lo' <= lo && hi <= hi'
    ensures CountIn(times, lo, hi) <= CountIn(times, lo', hi')
  {
    if times != [] {
      CountInMonotone(times[..|times| - 1], lo, hi, lo', hi');
    }
  }

  /** `order` with the first occurrence of `key` removed. */
  function Without<T(==)>(order: seq<T>, key: T): seq<T> {
    if order == [] then []
    else if order[0] == key then order[1..]
    else [order[0]] + Without(order[1..], key)
  }

  lemma {:induction false} WithoutMembers<T>(order: seq<T>, key: T)
    requires Distinct(order)
    ensures Distinct(Without(order, key))
    ensures forall k :: k in Without(order, key) <==> k in order && k != key
  {
    if order != [] {
      assert order == [order[0]] + order[1..];
      if order[0] != key {
        WithoutMembers(order[1..], key);
        assert order[0] !in order[1..];
      }
    }
  }

  /** What stands before and after the key stays as it is. */
  lemma {:induction false} WithoutCloses<T>(before: seq<T>, key: T, after: seq<T>)
    requires key !in before
    ensures Without(before + [key] + after, key) == before + after
  {
    var order := before + [key] + after;
    if before == [] {
      assert order[1..] == after;
    } else {
      assert order[1..] == before[1..] + [key] + after;
      WithoutCloses(before[1..], key, after);
    }
  }

  /** `order` with every key of the set removed. */
  ghost function Minus(order: seq<string>, gone: set<string>): seq<string> {
    if order == [] then []
    else if order[0] in gone then Minus(order[1..], gone)
    else [order[0]] + Minus(order[1..], gone)
  }

  lemma {:induction false} MinusOne(order: seq<string>, gone: set<string>, key: string)
    requires Distinct(order)
    ensures Without(Minus(order, gone), key) == Minus(order, gone + {key})
    ensures forall k :: k in Minus(order, gone) <==> k in order && k !in gone
  {
    if order != [] {
      assert order == [order[0]] + order[1..];
      MinusOne(order[1..], gone, key);
      if order[0] == key && key !in gone {
        MinusOne(order[1..], gone + {key}, key);
        MinusAbsent(order[1..], gone, key);
      }
    }
  }

  lemma {:induction false} MinusAbsent(order: seq<string>, gone: set<string>, key: string)
    requires key !in order
    ensures Minus(order, gone + {key}) == Minus(order, gone)
  {
    if order != [] {
      MinusAbsent(order[1..], gone, key);
    }
  }

  /** Deleting the listed keys one after the other. */
  ghost function WithoutAll(order: seq<string>, doomed: seq<string>): seq<string> {
    if doomed == [] then order
    else Without(WithoutAll(order, doomed[..|doomed| - 1]), doomed[|doomed| - 1])
  }

  lemma {:induction false} WithoutAllIsMinus(order: seq<string>, doomed: seq<string>)
    requires Distinct(order)
    ensures WithoutAll(order, doomed) == Minus(order, set k | k in doomed)
  {
    if doomed == [] {
      assert (set k | k in doomed) == {};
      MinusNothing(order);
    } else {
      var first, last := doomed[..|doomed| - 1], doomed[|doomed| - 1];
      WithoutAllIsMinus(order, first);
      MinusOne(order, (set k | k in first), last);
      assert doomed == first + [last];
      assert (set k | k in first) + {last} == set k | k in doomed;
    }
  }

  lemma {:induction false} MinusNothing(order: seq<string>)
    ensures Minus(order, {}) == order
  {
    if order != [] {
      MinusNothing(order[1..]);
    }
  }

  lemma HeadIsMember<T>(s: seq<T>)
    ensures s == [] || s[0] in s
  {
  }
}
