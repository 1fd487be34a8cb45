/** Sums of integer weights over a sequence: what a SQL `SUM` over the selected rows computes. */
module Sums {

  function Total<T>(xs: seq<T>, weight: T -> int): int {
    if |xs| == 0 then 0 else Total(xs[..|xs| - 1], weight) + weight(xs[|xs| - 1])
  }

  lemma {:induction false} TotalConcat<T>(xs: seq<T>, ys: seq<T>, weight: T -> int)
    ensures Total(xs + ys, weight) == Total(xs, weight) + Total(ys, weight)
  {
    if |ys| == 0 {
      assert xs + ys == xs;
    } else {
      assert (xs + ys)[..|xs + ys| - 1] == xs + ys[..|ys| - 1];
      TotalConcat(xs, ys[..|ys| - 1], weight);
    }
  }

  lemma TotalSingle<T>(x: T, weight: T -> int)
    ensures Total([x], weight) == weight(x)
  {
    assert [x][..0] == [];
  }

  /** The total of a non-empty sequence, taken from the front. */
  lemma TotalHead<T>(xs: seq<T>, weight: T -> int)
    requires |xs| > 0
    ensures Total(xs, weight) == weight(xs[0]) + Total(xs[1..], weight)
  {
    assert xs == [xs[0]] + xs[1..];
    TotalConcat([xs[0]], xs[1..], weight);
    TotalSingle(xs[0], weight);
  }

  lemma {:induction false} TotalLe<T>(xs: seq<T>, lower: T -> int, upper: T -> int)
    requires forall x :: x in xs ==> lower(x) <= upper(x)
    ensures Total(xs, lower) <= Total(xs, upper)
  {
    if |xs| > 0 {
      TotalLe(xs[..|xs| - 1], lower, upper);
    }
  }

  lemma {:induction false} TotalNonNegative<T>(xs: seq<T>, weight: T -> int)
    requires forall x :: x in xs ==> 0 <= weight(x)
    ensures 0 <= Total(xs, weight)
  {
    if |xs| > 0 {
      TotalNonNegative(xs[..|xs| - 1], weight);
    }
  }

  lemma {:induction false} TotalEqual<T>(xs: seq<T>, left: T -> int, right: T -> int)
    requires forall x :: x in xs ==> left(x) == right(x)
    ensures Total(xs, left) == Total(xs, right)
  {
    if |xs| > 0 {
      TotalEqual(xs[..|xs| - 1], left, right);
    }
  }

  lemma {:induction false} TotalZero<T>(xs: seq<T>, weight: T -> int)
    requires forall x :: x in xs ==> weight(x) == 0
    ensures Total(xs, weight) == 0
  {
    if |xs| > 0 {
      TotalZero(xs[..|xs| - 1], weight);
    }
  }

  /** Adding up a weight that splits in two is adding up the two parts. */
  lemma {:induction false} TotalSplit<T>(xs: seq<T>, whole: T -> int, left: T -> int, right: T -> int)
    requires forall x :: x in xs ==> whole(x) == left(x) + right(x)
    ensures Total(xs, whole) == Total(xs, left) + Total(xs, right)
  {
    if |xs| > 0 {
      TotalSplit(xs[..|xs| - 1], whole, left, right);
    }
  }

  /** A member of a non-negative total weighs no more than the total. */
  lemma {:induction false} TotalAtLeast<T>(xs: seq<T>, weight: T -> int, k: nat)
    requires k < |xs|
    requires forall x :: x in xs ==> 0 <= weight(x)
    ensures weight(xs[k]) <= Total(xs, weight)
  {
    if k == |xs| - 1 {
      TotalNonNegative(xs[..|xs| - 1], weight);
    } else {
      TotalAtLeast(xs[..|xs| - 1], weight, k);
    }
  }

  /** Replacing one element changes the total by the difference of its weights. */
  lemma {:induction false} TotalUpdate<T>(xs: seq<T>, k: nat, x: T, weight: T -> int)
    requires k < |xs|
    ensures Total(xs[k := x], weight) == Total(xs, weight) - weight(xs[k]) + weight(x)
  {
    if k < |xs| - 1 {
      TotalUpdate(xs[..|xs| - 1], k, x, weight);
      assert xs[k := x][..|xs| - 1] == xs[..|xs| - 1][k := x];
    } else {
      assert xs[k := x][..|xs| - 1] == xs[..|xs| - 1];
    }
  }
}
