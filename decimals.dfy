/**
  * The `BigDecimal` operators of `BigDecimalUtils` (and their private copies in
  * `DiscountServiceMonadized`), on exact rationals. Scale is not modelled: two
  * decimals are equal here when their numeric values are.
  */
module Decimals {
  import opened Wrappers

  /** `isAtLeast(amount)`: `x.compareTo(valueOf(amount)) >= 0`. */
  predicate IsAtLeast(amount: int, x: real) {
    x >= amount as real
  }

  /** The threshold itself passes, anything below it fails, and passing is kept by larger values. */
  lemma IsAtLeastIsInclusive(amount: int, x: real, y: real)
    ensures IsAtLeast(amount, amount as real)
    ensures x < amount as real ==> !IsAtLeast(amount, x)
    ensures IsAtLeast(amount, x) && x <= y ==> IsAtLeast(amount, y)
  {
  }

  /** `maximizeAt(amount)`: `x.min(valueOf(amount))`. */
  function MaximizeAt(amount: int, x: real): (r: real)
    ensures r <= amount as real && r <= x
    ensures r == x || r == amount as real
    ensures x <= amount as real ==> r == x
  {
    if x <= amount as real then x else amount as real
  }

  /**
    * `setScale(0, HALF_UP)`: the nearest integer, a value exactly halfway
    * between two integers going to the one further from zero.
    */
  function RoundHalfUp(x: real): (r: int)
    ensures r as real - 0.5 <= x <= r as real + 0.5
    ensures x == r as real - 0.5 ==> x > 0.0
    ensures x == r as real + 0.5 ==> x < 0.0
  {
    if x >= 0.0 then (x + 0.5).Floor else -((-x + 0.5).Floor)
  }

  /** The contract of RoundHalfUp determines its result. */
  lemma RoundHalfUpUnique(x: real, k: int)
    requires k as real - 0.5 <= x <= k as real + 0.5
    requires x == k as real - 0.5 ==> x > 0.0
    requires x == k as real + 0.5 ==> x < 0.0
    ensures k == RoundHalfUp(x)
  {
    var r := RoundHalfUp(x);
  }

  /** Rounding commutes with negation: halves go away from zero on both sides. */
  lemma RoundHalfUpSymmetric(x: real)
    ensures RoundHalfUp(-x) == -RoundHalfUp(x)
  {
    RoundHalfUpUnique(-x, -RoundHalfUp(x));
  }

  /** A larger input never rounds to a smaller integer. */
  lemma RoundHalfUpMonotone(x: real, y: real)
    requires x <= y
    ensures RoundHalfUp(x) <= RoundHalfUp(y)
  {
    var rx, ry := RoundHalfUp(x), RoundHalfUp(y);
  }

  /** `roundUp()`: `setScale(0, HALF_UP)` as a decimal. */
  function RoundUp(x: real): (r: real)
    ensures r == r.Floor as real
    ensures r - 0.5 <= x <= r + 0.5
    ensures x == r - 0.5 ==> x > 0.0
    ensures x == r + 0.5 ==> x < 0.0
  {
    RoundHalfUp(x) as real
  }

  /** An integer-valued input is left unchanged, so rounding twice is rounding once. */
  lemma RoundUpKeepsIntegers(x: real)
    ensures RoundUp(x.Floor as real) == x.Floor as real
    ensures RoundUp(RoundUp(x)) == RoundUp(x)
  {
    RoundHalfUpUnique(x.Floor as real, x.Floor);
    var r := RoundUp(x);
    RoundHalfUpUnique(r, r.Floor);
  }

  /** `divideBy(amount)`: `x.divide(valueOf(amount), 0, HALF_UP)`; dividing by zero throws in Java. */
  function DivideBy(amount: int, x: real): (r: real)
    requires amount != 0
    ensures r == r.Floor as real
    ensures r - 0.5 <= x / amount as real <= r + 0.5
    ensures x / amount as real == r - 0.5 ==> x / amount as real > 0.0
    ensures x / amount as real == r + 0.5 ==> x / amount as real < 0.0
  {
    RoundUp(x / amount as real)
  }

  /** Halves are rounded up: 50 / 100 gives 1, 149 / 100 gives 1, 150 / 100 gives 2, 1000 / 100 gives 10. */
  lemma DivideByHundredExamples()
    ensures DivideBy(100, 50.0) == 1.0
    ensures DivideBy(100, 149.0) == 1.0
    ensures DivideBy(100, 150.0) == 2.0
    ensures DivideBy(100, 1000.0) == 10.0
  {
    RoundHalfUpUnique(0.5, 1);
    RoundHalfUpUnique(1.49, 1);
    RoundHalfUpUnique(1.5, 2);
    RoundHalfUpUnique(10.0, 10);
  }

  /**
    * `maximizeAt(1000)`, `roundUp()`, `divideBy(100)` in turn: from 50 on the
    * result is a whole number from 1 to 10, and it is 10 from 1000 on.
    */
  lemma CappedHundredthsRange(commission: real)
    ensures commission >= 50.0 ==>
              var b := DivideBy(100, RoundUp(MaximizeAt(1000, commission)));
              && b == b.Floor as real && 1.0 <= b <= 10.0
              && (commission >= 1000.0 ==> b == 10.0)
  {
    if commission >= 50.0 {
      var capped := MaximizeAt(1000, commission);
      RoundHalfUpMonotone(50.0, capped);
      RoundHalfUpMonotone(capped, 1000.0);
      RoundHalfUpUnique(50.0, 50);
      RoundHalfUpUnique(1000.0, 1000);
      var rounded := RoundUp(capped);
      RoundHalfUpMonotone(0.5, rounded / 100.0);
      RoundHalfUpMonotone(rounded / 100.0, 10.0);
      RoundHalfUpUnique(0.5, 1);
      RoundHalfUpUnique(10.0, 10);
    }
  }


  /** Multiplying by a non-negative factor keeps the order of two values. */
  lemma ScaleMonotone(a: real, b: real, p: real)
    requires a <= b && p >= 0.0
    ensures a * p <= b * p
  {
    assert b * p - a * p == (b - a) * p;
  }

  /** An amount that is a base from 0 to 10 scaled by a non-negative percentage p lies between 0 and 10·p. */
  lemma ScaleWithinTen(amount: real, base: real, p: real)
    requires 0.0 <= base <= 10.0 && p >= 0.0
    requires amount == base * p
    ensures 0.0 <= amount <= 10.0 * p
  {
    ScaleMonotone(0.0, base, p);
    ScaleMonotone(base, 10.0, p);
    assert 0.0 <= base * p;
    assert base * p <= 10.0 * p;
  }

  /** `multiplyBy(factor)`: an absent factor is the neutral `ONE`. */
  function MultiplyBy(factor: Option<real>, x: real): (r: real)
    ensures factor.None? ==> r == x
    ensures factor.Some? ==> r == x * factor.value
  {
    x * factor.GetOr(1.0)
  }
}
