/**
 Money (src/common/types/money.type.ts).

 A stored amount is NUMERIC(19,4) and is an `int` count of ticks of 0.0001.
 A decimal that has not been rounded yet is a `real` in the same unit, so
 "has at most four decimals" reads "is a whole number of ticks".
 */
module Money {

  datatype Option<+T> = None | Some(value: T)

  datatype Result<+T, +E> = Ok(value: T) | Err(error: E)

  datatype EntryType = Debit | Credit

  function Flip(entryType: EntryType): EntryType {
    if entryType == Debit then Credit else Debit
  }

  /** decimal.js ROUND_HALF_UP: to the nearest whole tick, a tie goes away from zero. */
  function RoundHalfUp(x: real): (n: int)
    ensures x - 0.5 <= n as real <= x + 0.5
    ensures 0.0 <= x ==> x - 0.5 < n as real
    ensures x <= 0.0 ==> n as real < x + 0.5
  {
    if x >= 0.0 then (x + 0.5).Floor else -((0.5 - x).Floor)
  }

  ghost predicate IsWhole(x: real) {
    x == x.Floor as real
  }

  lemma RoundWhole(n: int)
    ensures RoundHalfUp(n as real) == n
  {
  }

  /** Rounding never carries an amount past a whole number of ticks it did not exceed. */
  lemma RoundStaysBelow(x: real, cap: int)
    requires x <= cap as real
    ensures RoundHalfUp(x) <= cap
  {
  }

  lemma RoundMonotone(x: real, y: real)
    requires x <= y
    ensures RoundHalfUp(x) <= RoundHalfUp(y)
  {
  }

  /** A whole number of ticks may be added before or after rounding. */
  lemma RoundAddWhole(x: real, n: nat)
    requires 0.0 <= x
    ensures RoundHalfUp(x + n as real) == RoundHalfUp(x) + n
  {
    var m := RoundHalfUp(x) + n;
    var k := RoundHalfUp(x + n as real);
    assert m as real == RoundHalfUp(x) as real + n as real;
    assert k as real - m as real < 1.0 && m as real - k as real < 1.0;
    assert (k - m) as real == k as real - m as real;
  }

  function Fraction(x: real): real {
    x - x.Floor as real
  }

  /** The parts below a tick round separately to what they round to together. */
  predicate FractionsAgree(x: real, y: real) {
    var f, g := Fraction(x), Fraction(y);
    if f < 0.5 && g < 0.5 then f + g < 0.5
    else if f >= 0.5 && g >= 0.5 then f + g >= 1.5
    else true
  }

  lemma RoundByFraction(n: nat, f: real)
    requires 0.0 <= f < 1.0
    ensures RoundHalfUp(n as real + f) == n + (if f >= 0.5 then 1 else 0)
  {
    var x := n as real + f + 0.5;
    var m := if f >= 0.5 then n + 1 else n;
    assert m as real <= x < m as real + 1.0;
  }

  lemma RoundSum(x: real, y: real)
    requires x >= 0.0 && y >= 0.0
    ensures RoundHalfUp(x + y) == RoundHalfUp(x) + RoundHalfUp(y) <==> FractionsAgree(x, y)
  {
    hide RoundHalfUp;
    var f, g, n := Fraction(x), Fraction(y), x.Floor + y.Floor;
    RoundByFraction(x.Floor, f);
    RoundByFraction(y.Floor, g);
    assert x.Floor as real + f == x && y.Floor as real + g == y;
    if f + g < 1.0 {
      RoundByFraction(n, f + g);
      assert n as real + (f + g) == x + y;
    } else {
      RoundByFraction(n + 1, f + g - 1.0);
      assert (n + 1) as real + (f + g - 1.0) == x + y;
    }
  }
}
