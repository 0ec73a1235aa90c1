/** Price discounting (util/Money.kt). */
module Money {
  import opened Common

  /** `discounted(price, rate)`: the price reduced by the fraction `rate`,
      floored at zero and converted to `Int` by truncation. */
  function Discounted(price: int, rate: real): (r: int)
    ensures 0 <= r <= IntMax
    ensures Scaled(price, rate) <= 0.0 ==> r == 0
    ensures 0.0 <= Scaled(price, rate) <= IntMax as real ==>
              r as real <= Scaled(price, rate) < r as real + 1.0
  {
    FloorAtZero(Scaled(price, rate))
  }

  /** The exact amount `price * (1 - rate)` before any conversion. */
  function Scaled(price: int, rate: real): real {
    price as real * (1.0 - rate)
  }

  /** Truncation to `Int` of an amount, with anything not positive as 0. */
  function FloorAtZero(x: real): (r: int)
    ensures 0 <= r <= IntMax
    ensures x <= 0.0 ==> r == 0
    ensures 0.0 <= x <= IntMax as real ==> r as real <= x < r as real + 1.0
  {
    if x <= 0.0 then 0 else ToInt(x)
  }

  lemma FloorAtZeroMonotone(x: real, y: real)
    requires x <= y
    ensures FloorAtZero(x) <= FloorAtZero(y)
  {
    if x > 0.0 {
      ToIntMonotone(x, y);
    }
  }

  /** No discount leaves a valid price unchanged. */
  lemma DiscountedNoRate(price: int)
    requires 0 <= price <= IntMax
    ensures Discounted(price, 0.0) == price
  {
  }

  /** A rate of 100% or more prices a non-negative price at zero. */
  lemma DiscountedFullRate(price: int, rate: real)
    requires price >= 0 && rate >= 1.0
    ensures Discounted(price, rate) == 0
  {
    assert Scaled(price, rate) <= 0.0 by {
      MulNonNegative(price as real, rate - 1.0);
      assert price as real * (1.0 - rate) == -(price as real * (rate - 1.0));
    }
  }

  /** A larger rate never gives a larger price. */
  lemma DiscountedAntitone(price: int, rate1: real, rate2: real)
    requires price >= 0 && rate1 <= rate2
    ensures Discounted(price, rate2) <= Discounted(price, rate1)
  {
    ScaledAntitone(price, rate1, rate2);
    FloorAtZeroMonotone(Scaled(price, rate2), Scaled(price, rate1));
  }

  lemma ScaledAntitone(price: int, rate1: real, rate2: real)
    requires price >= 0 && rate1 <= rate2
    ensures Scaled(price, rate2) <= Scaled(price, rate1)
  {
    var p := price as real;
    MulNonNegative(p, rate2 - rate1);
    assert p * (1.0 - rate1) - p * (1.0 - rate2) == p * (rate2 - rate1);
  }

  /** A rate in [0, 1] keeps the exact amount between 0 and the price. */
  lemma ScaledWithin(price: int, rate: real)
    requires price >= 0 && 0.0 <= rate <= 1.0
    ensures 0.0 <= Scaled(price, rate) <= price as real
  {
    MulNonNegative(price as real, 1.0 - rate);
    MulNonNegative(price as real, rate);
    assert Scaled(price, rate) == price as real - price as real * rate;
  }

  /** Any non-negative rate gives at most the list price. */
  lemma DiscountedAtMostPrice(price: int, rate: real)
    requires 0 <= price <= IntMax && rate >= 0.0
    ensures Discounted(price, rate) <= price
  {
    DiscountedAntitone(price, 0.0, rate);
    DiscountedNoRate(price);
  }

  /** The result truncates: 2000 at 70% off is 600, 999 at 50% off is 499. */
  lemma DiscountedTruncates()
    ensures Discounted(2000, 0.7) == 600
    ensures Discounted(999, 0.5) == 499
  {
    assert 2000.0 * (1.0 - 0.7) == 600.0;
    assert 999.0 * (1.0 - 0.5) == 499.5;
  }
}
