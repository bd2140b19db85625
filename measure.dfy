/**
 * Weighted sums over sequences and the greedy "longest prefix that fits a
 * budget". Display width (a sum of character widths) and the search-result
 * row count (a sum of line counts) are both such sums, and text truncation
 * and fitting search results into the rows are both such greedy prefixes.
 */
module Measure {

  /** `usize::saturating_sub`. */
  function SaturatingSub(a: nat, b: nat): (r: nat)
    ensures a >= b ==> r == a - b
    ensures a < b ==> r == 0
  {
    if a >= b then a - b else 0
  }

  /** The total weight of `s`, accumulated from the front. */
  function Sum<T>(s: seq<T>, weight: T -> nat): nat
  {
    if s == [] then 0 else Sum(s[..|s| - 1], weight) + weight(s[|s| - 1])
  }

  lemma {:induction false} SumAppend<T>(a: seq<T>, b: seq<T>, weight: T -> nat)
    ensures Sum(a + b, weight) == Sum(a, weight) + Sum(b, weight)
    decreases |b|
  {
    if b != [] {
      var b' := b[..|b| - 1];
      assert (a + b)[..|a + b| - 1] == a + b';
      SumAppend(a, b', weight);
    } else {
      assert a + b == a;
    }
  }

  lemma SumCons<T>(x: T, s: seq<T>, weight: T -> nat)
    ensures Sum([x] + s, weight) == weight(x) + Sum(s, weight)
  {
    SumAppend([x], s, weight);
    assert [x][..0] == [];
  }

  lemma SumSnoc<T>(s: seq<T>, x: T, weight: T -> nat)
    ensures Sum(s + [x], weight) == Sum(s, weight) + weight(x)
  {
    assert (s + [x])[..|s|] == s;
  }

  /** Weights are never negative, so the weight of a prefix grows with its length. */
  lemma {:induction false} SumPrefixMonotone<T>(s: seq<T>, i: nat, j: nat, weight: T -> nat)
    requires i <= j <= |s|
    ensures Sum(s[..i], weight) <= Sum(s[..j], weight)
    decreases j - i
  {
    if i < j {
      SumPrefixMonotone(s, i, j - 1, weight);
      assert s[..j] == s[..j - 1] + [s[j - 1]];
      SumSnoc(s[..j - 1], s[j - 1], weight);
    }
  }

  /**
   * The number of leading elements of `s` a greedy scan takes when each
   * element costs its weight and the scan stops at the first element whose
   * weight exceeds what is left of `budget`.
   */
  function FitLength<T>(s: seq<T>, weight: T -> nat, budget: nat): (n: nat)
    ensures n <= |s|
    ensures Sum(s[..n], weight) <= budget
    ensures n == |s| || Sum(s[..n + 1], weight) > budget
    decreases |s|
  {
    if s == [] then 0
    else if weight(s[0]) <= budget then
      var r := FitLength(s[1..], weight, budget - weight(s[0]));
      FitLengthStep(s, weight, budget, r);
      1 + r
    else
      assert s[..1] == [] + [s[0]];
      SumSnoc([], s[0], weight);
      0
  }

  /** One step of the greedy scan: taking the head keeps FitLength's properties. */
  lemma FitLengthStep<T>(s: seq<T>, weight: T -> nat, budget: nat, r: nat)
    requires s != [] && weight(s[0]) <= budget
    requires r <= |s| - 1
    requires Sum(s[1..][..r], weight) <= budget - weight(s[0])
    requires r == |s| - 1 || Sum(s[1..][..r + 1], weight) > budget - weight(s[0])
    ensures Sum(s[..r + 1], weight) <= budget
    ensures r + 1 == |s| || Sum(s[..r + 2], weight) > budget
  {
    assert s[..r + 1] == [s[0]] + s[1..][..r];
    SumCons(s[0], s[1..][..r], weight);
    if r + 1 < |s| {
      assert s[..r + 2] == [s[0]] + s[1..][..r + 1];
      SumCons(s[0], s[1..][..r + 1], weight);
    }
  }

  /** The three properties of FitLength determine it: no other length has them. */
  lemma FitLengthUnique<T>(s: seq<T>, weight: T -> nat, budget: nat, n: nat)
    requires n <= |s|
    requires Sum(s[..n], weight) <= budget
    requires n == |s| || Sum(s[..n + 1], weight) > budget
    ensures n == FitLength(s, weight, budget)
  {
    var m := FitLength(s, weight, budget);
    if n < m {
      SumPrefixMonotone(s, n + 1, m, weight);
    } else if m < n {
      SumPrefixMonotone(s, m + 1, n, weight);
    }
  }

  /** When the whole sequence fits, the greedy scan takes all of it. */
  lemma FitLengthAll<T>(s: seq<T>, weight: T -> nat, budget: nat)
    requires Sum(s, weight) <= budget
    ensures FitLength(s, weight, budget) == |s|
  {
    var n := FitLength(s, weight, budget);
    if n < |s| {
      assert s[..|s|] == s;
      SumPrefixMonotone(s, n + 1, |s|, weight);
    }
  }

  /** Every element whose prefix, itself included, fits the budget is taken by the greedy scan. */
  lemma FitLengthCovers<T>(s: seq<T>, weight: T -> nat, budget: nat, i: nat)
    requires i < |s| && Sum(s[..i + 1], weight) <= budget
    ensures i < FitLength(s, weight, budget)
  {
    var n := FitLength(s, weight, budget);
    if n <= i {
      SumPrefixMonotone(s, n + 1, i + 1, weight);
    }
  }
}
