/** Finite sets of numbers: sizes and the pigeonhole principle. */
module Sets {

  function Below(n: nat): (s: set<nat>)
    ensures |s| == n && forall i :: i in s <==> 0 <= i < n
  {
    if n == 0 then {} else Below(n - 1) + {n - 1}
  }

  function Between(a: nat, b: nat): (s: set<nat>)
    ensures forall i: nat :: i in s <==> a <= i < b
  {
    set i | i in Below(b) && a <= i
  }

  lemma {:induction false} BetweenSize(a: nat, b: nat)
    requires a <= b
    ensures |Between(a, b)| == b - a
    decreases b
  {
    if a < b {
      BetweenSize(a, b - 1);
      assert Between(a, b) == Between(a, b - 1) + {b - 1};
    }
  }

  function Elements(xs: seq<nat>): (s: set<nat>)
    ensures forall x :: x in s <==> x in xs
  {
    if xs == [] then {} else {xs[|xs| - 1]} + Elements(xs[..|xs| - 1])
  }

  ghost predicate Distinct(xs: seq<nat>) {
    forall i, j :: 0 <= i < j < |xs| ==> xs[i] != xs[j]
  }

  lemma {:induction false} DistinctSize(xs: seq<nat>)
    requires Distinct(xs)
    ensures |Elements(xs)| == |xs|
  {
    if xs != [] {
      DistinctSize(xs[..|xs| - 1]);
      assert xs[|xs| - 1] !in xs[..|xs| - 1];
    }
  }

  lemma {:induction false} SubsetSize<T>(s: set<T>, t: set<T>)
    requires s <= t
    ensures |s| <= |t|
    decreases s
  {
    if s != {} {
      var x :| x in s;
      SubsetSize(s - {x}, t - {x});
    }
  }

  /** n distinct numbers below n are all the numbers below n. */
  lemma Pigeonhole(xs: seq<nat>, n: nat, x: nat)
    requires Distinct(xs) && |xs| == n && x < n
    requires forall i :: 0 <= i < |xs| ==> xs[i] < n
    ensures x in xs
  {
    DistinctSize(xs);
    if x !in Elements(xs) {
      assert Elements(xs) <= Below(n) - {x};
      SubsetSize(Elements(xs), Below(n) - {x});
    }
  }
}
