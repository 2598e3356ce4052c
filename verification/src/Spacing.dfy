// Event times that keep a minimum distance, and how many fit in a window.
module Spacing {
  ghost predicate Spaced(ts: seq<int>, gap: int) {
    forall i :: 0 <= i < |ts| - 1 ==> ts[i + 1] - ts[i] >= gap
  }

  lemma {:induction false} SpacedApart(ts: seq<int>, gap: int, i: nat, j: nat)
    requires Spaced(ts, gap) && i <= j < |ts|
    ensures ts[j] - ts[i] >= (j - i) * gap
    decreases j
  {
    if i < j {
      SpacedApart(ts, gap, i, j - 1);
      assert ts[j - 1 + 1] - ts[j - 1] >= gap;
      assert (j - i) * gap == (j - 1 - i) * gap + gap;
    }
  }

  ghost function InWindow(ts: seq<int>, a: int, length: int): set<int> {
    set i | 0 <= i < |ts| && a <= ts[i] <= a + length
  }

  lemma {:induction false} IntervalSize(s: set<int>, lo: int, hi: int)
    requires forall x :: x in s ==> lo <= x < hi
    ensures |s| <= if lo < hi then hi - lo else 0
    decreases hi - lo
  {
    if lo >= hi {
      assert s == {};
    } else {
      IntervalSize(s - {hi - 1}, lo, hi - 1);
      assert s <= (s - {hi - 1}) + {hi - 1};
    }
  }

  /** A window of length T holds at most 1 + T / gap events that are `gap` apart. */
  lemma WindowBound(ts: seq<int>, gap: int, a: int, length: int)
    requires gap > 0 && length >= 0 && Spaced(ts, gap)
    ensures |InWindow(ts, a, length)| <= 1 + length / gap
  {
    var first := 0;
    while first < |ts| && !(a <= ts[first] <= a + length)
      invariant first <= |ts|
      invariant forall j :: 0 <= j < first ==> !(a <= ts[j] <= a + length)
    {
      first := first + 1;
    }
    var end := first + 1 + length / gap;
    forall x | x in InWindow(ts, a, length)
      ensures first <= x < end
    {
      SpacedApart(ts, gap, first, x);
      QuotientBound(x - first, gap, length);
    }
    IntervalSize(InWindow(ts, a, length), first, end);
  }

  lemma QuotientBound(k: int, gap: int, length: int)
    requires gap > 0 && k * gap <= length
    ensures k <= length / gap
  {
    var q := length / gap;
    assert length < (q + 1) * gap;
    if k >= q + 1 {
      Monotone(q + 1, k, gap);
      assert false;
    }
  }

  lemma Monotone(a: int, b: int, c: int)
    requires a <= b && c >= 0
    ensures a * c <= b * c
  {
    assert (b - a) * c >= 0;
  }
}
