// Chains of accepted switches: costs that shrink geometrically, and why a
// chain of strictly falling costs cannot revisit anything.
module Chains {
  function Pow(r: real, n: nat): real {
    if n == 0 then 1.0 else r * Pow(r, n - 1)
  }

  /** What is left of x after n steps that each keep the fraction r. */
  function Geometric(r: real, n: nat, x: real): real {
    Pow(r, n) * x
  }

  lemma Scale(a: real, b: real, c: real)
    requires a <= b && c >= 0.0
    ensures c * a <= c * b
  {
    assert c * (b - a) >= 0.0;
  }

  ghost predicate Shrinks(costs: seq<real>, r: real) {
    forall i :: 0 <= i < |costs| - 1 ==> costs[i + 1] <= r * costs[i]
  }

  /** n steps that each keep at most the fraction r leave at most r^n of the start. */
  lemma {:induction false} GeometricBound(costs: seq<real>, r: real, n: nat)
    requires n < |costs| && 0.0 <= r && Shrinks(costs, r)
    ensures costs[n] <= Geometric(r, n, costs[0])
    decreases n
  {
    if n > 0 {
      GeometricBound(costs, r, n - 1);
      assert costs[n - 1 + 1] <= r * costs[n - 1];
      Scale(costs[n - 1], Pow(r, n - 1) * costs[0], r);
      assert r * (Pow(r, n - 1) * costs[0]) == Pow(r, n) * costs[0];
    }
  }

  /** The same with strict steps, of which there is at least one. */
  lemma StrictGeometricBound(costs: seq<real>, r: real, n: nat)
    requires 0 < n < |costs| && 0.0 <= r
    requires forall i :: 0 <= i < |costs| - 1 ==> costs[i + 1] < r * costs[i]
    ensures costs[n] < Geometric(r, n, costs[0])
  {
    var p := Pow(r, n - 1);
    GeometricBound(costs, r, n - 1);
    assert costs[n - 1 + 1] < r * costs[n - 1];
    Scale(costs[n - 1], p * costs[0], r);
    assert r * (p * costs[0]) == (r * p) * costs[0];
  }

  /** A duration as a fraction of another: between 0 and 1, and growing with the duration. */
  lemma Fraction(a: int, b: int, c: int)
    requires 0 <= a <= b && 0 < c
    ensures 0.0 <= (a as real) / (c as real) <= (b as real) / (c as real)
    ensures b <= c ==> (b as real) / (c as real) <= 1.0
  {
    var x, y, z := a as real, b as real, c as real;
    assert y / z - x / z == (y - x) / z;
    assert z / z == 1.0;
    if b <= c {
      assert z / z - y / z == (z - y) / z;
    }
  }

  lemma FractionBelowOne(a: int, c: int)
    requires a < c && 0 < c
    ensures (a as real) / (c as real) < 1.0
  {
    var x, z := a as real, c as real;
    assert z / z == 1.0 && z / z - x / z == (z - x) / z;
  }

  lemma SignOf(a: real, c: real)
    requires c > 0.0 && a * c >= 0.0
    ensures a >= 0.0
  {
    assert a == (a * c) / c;
  }

  ghost predicate Falls(costs: seq<real>) {
    forall i :: 0 <= i < |costs| - 1 ==> costs[i + 1] < costs[i]
  }

  lemma {:induction false} FallsApart(costs: seq<real>, i: nat, j: nat)
    requires Falls(costs) && i < j < |costs|
    ensures costs[j] < costs[i]
    decreases j
  {
    assert costs[j - 1 + 1] < costs[j - 1];
    if i < j - 1 {
      FallsApart(costs, i, j - 1);
    }
  }

  ghost predicate Distinct<T>(xs: seq<T>) {
    forall i, j :: 0 <= i < j < |xs| ==> xs[i] != xs[j]
  }

  lemma {:induction false} DistinctFits<T>(xs: seq<T>, universe: set<T>)
    requires Distinct(xs) && forall x :: x in xs ==> x in universe
    ensures |xs| <= |universe|
    decreases |xs|
  {
    if xs != [] {
      var last := xs[|xs| - 1];
      assert last in xs;
      forall x | x in xs[..|xs| - 1]
        ensures x in universe - {last}
      {
        var i :| 0 <= i < |xs| - 1 && xs[..|xs| - 1][i] == x;
        assert xs[i] == x && xs[i] in xs;
      }
      DistinctFits(xs[..|xs| - 1], universe - {last});
    }
  }

  /** A walk along which a fixed cost strictly falls never revisits a place, so it is shorter than their number. */
  lemma FallingWalk<T>(xs: seq<T>, costs: seq<real>, cost: T -> real, universe: set<T>)
    requires |costs| == |xs| > 0 && forall i :: 0 <= i < |xs| ==> costs[i] == cost(xs[i])
    requires Falls(costs) && forall x :: x in xs ==> x in universe
    ensures Distinct(xs) && |xs| - 1 < |universe|
  {
    forall i, j | 0 <= i < j < |xs|
      ensures xs[i] != xs[j]
    {
      FallsApart(costs, i, j);
    }
    DistinctFits(xs, universe);
  }
}
