/** Ascending sequences of numbers, and the order in which a sorted set is walked. */
module Ordering {

  ghost predicate Ascending(s: seq<nat>) { forall i, j :: 0 <= i < j < |s| ==> s[i] < s[j] }

  /** All numbers from `min` to `max`. */
  function Interval(min: nat, max: nat): (r: seq<nat>)
    requires min <= max
    ensures |r| == max - min + 1 && forall i :: 0 <= i < |r| ==> r[i] == min + i
  {
    if min == max then [min] else Interval(min, max - 1) + [max]
  }

  lemma IntervalIsRange(min: nat, max: nat)
    requires min <= max
    ensures Ascending(Interval(min, max))
    ensures forall x: nat :: x in Interval(min, max) <==> min <= x <= max
  {
    forall x: nat | min <= x <= max ensures x in Interval(min, max) {
      assert Interval(min, max)[x - min] == x;
    }
  }

  ghost predicate IsLeast(s: set<nat>, x: nat) { x in s && forall y :: y in s ==> x <= y }

  lemma {:induction false} LeastExists(s: set<nat>)
    requires s != {}
    ensures exists x :: IsLeast(s, x)
    decreases |s|
  {
    var a :| a in s;
    if s == {a} {
      assert IsLeast(s, a);
    } else {
      var rest := s - {a};
      assert exists b :: b in s && b != a;
      LeastExists(rest);
      var b :| IsLeast(rest, b);
      forall y | y in s ensures (if a < b then a else b) <= y {
        assert y == a || y in rest;
      }
      assert IsLeast(s, if a < b then a else b);
    }
  }

  function Least(s: set<nat>): (x: nat)
    requires s != {}
    ensures x in s && forall y :: y in s ==> x <= y
  {
    LeastExists(s);
    assert forall x | IsLeast(s, x) :: x in s && forall y :: y in s ==> x <= y;
    var x :| x in s && forall y :: y in s ==> x <= y;
    x
  }

  lemma LeastIs(s: set<nat>, x: nat)
    requires IsLeast(s, x)
    ensures Least(s) == x
  {
  }

  /** A sorted set, walked from its least member up. */
  function Ordered(s: set<nat>): (r: seq<nat>)
    ensures |r| == |s|
    decreases |s|
  {
    if s == {} then [] else [Least(s)] + Ordered(s - {Least(s)})
  }

  lemma {:induction false} OrderedHas(s: set<nat>, x: nat)
    ensures x in Ordered(s) <==> x in s
    decreases |s|
  {
    if s == {} {
    } else {
      OrderedHas(s - {Least(s)}, x);
    }
  }

  lemma {:induction false} OrderedAscends(s: set<nat>)
    ensures Ascending(Ordered(s))
    decreases |s|
  {
    if s == {} {
    } else {
      var rest := s - {Least(s)};
      OrderedAscends(rest);
      forall i | 0 <= i < |Ordered(rest)| ensures Least(s) < Ordered(rest)[i] {
        OrderedHas(rest, Ordered(rest)[i]);
      }
    }
  }
}
