/**
 * The handlers and scripts iterate over Python sets (a `pk_set`, the set of
 * mentioned usernames, the queryset of all projects), whose iteration order
 * is unspecified. The model records the order actually taken as a sequence
 * that lists every element of the set exactly once.
 */
module Enumeration {

  /** `order` lists each element of `s` exactly once, in some order. */
  ghost predicate Enumerates(order: seq<nat>, s: set<nat>)
  {
    && (forall i, j :: 0 <= i < j < |order| ==> order[i] != order[j])
    && (forall x :: x in order <==> x in s)
  }

  /**
   * Taking one element out of the part of a set not yet visited: the
   * visited part grows by it, and the unvisited part shrinks.
   */
  lemma TakeOne<T>(whole: set<T>, remaining: set<T>, done: set<T>, x: T)
    requires remaining <= whole && done == whole - remaining && x in remaining
    ensures remaining - {x} <= whole && done + {x} == whole - (remaining - {x})
    ensures x !in done && |remaining - {x}| < |remaining|
  {
  }

  /** Extending the order by one new element enumerates the extended set. */
  lemma EnumeratesSnoc(order: seq<nat>, s: set<nat>, x: nat)
    requires Enumerates(order, s) && x !in s
    ensures Enumerates(order + [x], s + {x})
  {
    var o := order + [x];
    forall i, j | 0 <= i < j < |o| ensures o[i] != o[j] {
      if j == |order| {
        assert o[i] == order[i] && order[i] in s;
      }
    }
    forall y ensures y in o <==> y in s + {x} {
      if y in o {
        var k :| 0 <= k < |o| && o[k] == y;
        if k < |order| { assert order[k] == y; }
      }
      if y in s { assert y in order; }
    }
  }

  /** An enumeration is exactly as long as the set it enumerates. */
  lemma {:induction false} EnumerationSize(order: seq<nat>, s: set<nat>)
    requires Enumerates(order, s)
    ensures |order| == |s|
    decreases |order|
  {
    if |order| > 0 {
      var last := order[|order| - 1];
      var init := order[..|order| - 1];
      assert last in s;
      forall x ensures x in init <==> x in s - {last} {
        if x in init {
          var k :| 0 <= k < |init| && init[k] == x;
          assert order[k] == x && k < |order| - 1;
        }
        if x in s - {last} {
          assert x in order;
          var k :| 0 <= k < |order| && order[k] == x;
          assert k != |order| - 1;
          assert init[k] == x;
        }
      }
      assert Enumerates(init, s - {last});
      EnumerationSize(init, s - {last});
    } else {
      assert forall x :: x !in s;
      assert s == {};
    }
  }

  /** Number of positions of `order` that hold `x`. */
  function Occurrences(order: seq<nat>, x: nat): (n: nat)
    ensures n <= |order|
    ensures x !in order ==> n == 0
  {
    if |order| == 0 then 0
    else Occurrences(order[..|order| - 1], x) + (if order[|order| - 1] == x then 1 else 0)
  }

  /** In an enumeration of `s`, each member of `s` occurs once and nothing else occurs. */
  lemma {:induction false} OccursOnce(order: seq<nat>, s: set<nat>, x: nat)
    requires Enumerates(order, s)
    ensures Occurrences(order, x) == if x in s then 1 else 0
    decreases |order|
  {
    if |order| > 0 {
      var last := order[|order| - 1];
      var init := order[..|order| - 1];
      forall y ensures y in init <==> y in s - {last} {
        if y in init {
          var k :| 0 <= k < |init| && init[k] == y;
          assert order[k] == y && k < |order| - 1;
        }
        if y in s - {last} {
          var k :| 0 <= k < |order| && order[k] == y;
          assert k != |order| - 1;
          assert init[k] == y;
        }
      }
      assert Enumerates(init, s - {last});
      OccursOnce(init, s - {last}, x);
    }
  }
}
