/** The alternate tier pricing (service/PricingService.kt): fixed discount
    tiers by days to expiry, and the final price they give. */
module TierPricing {
  import opened Common
  import Money

  /** `discountRateByDaysLeft(daysLeft)` of the tier variant. */
  function RateByDaysLeft(daysLeft: Option<int>): (r: real)
    ensures daysLeft.None? ==> r == 0.0
    ensures 0.0 <= r <= 0.5
    ensures daysLeft.Some? && daysLeft.value <= 0 ==> r == 0.5
    ensures daysLeft.Some? && daysLeft.value >= 4 ==> r == 0.0
  {
    match daysLeft
    case None => 0.0
    case Some(d) =>
      if d <= 0 then 0.5
      else if d == 1 then 0.4
      else if d == 2 then 0.3
      else if d == 3 then 0.2
      else 0.0
  }

  /** Each day of the four-day window is a tenth of the price: the rate is
      (5 - d)/10 for d in 1..3. */
  lemma RateTiers(d: int)
    requires 1 <= d <= 3
    ensures RateByDaysLeft(Some(d)) == (5 - d) as real / 10.0
  {
  }

  /** The tier rate never grows as expiry recedes. */
  lemma RateNonIncreasing(d1: int, d2: int)
    requires d1 <= d2
    ensures RateByDaysLeft(Some(d2)) <= RateByDaysLeft(Some(d1))
  {
  }

  /** `finalPrice(price, daysLeft)`: the price discounted at the tier rate. */
  function FinalPrice(price: int, daysLeft: Option<int>): (r: int)
    ensures 0 <= r
    ensures 0 <= price <= IntMax && daysLeft.None? ==> r == price
    ensures price >= 0 ==> r <= price
  {
    var rate := RateByDaysLeft(daysLeft);
    if 0 <= price <= IntMax then
      Money.DiscountedAtMostPrice(price, rate);
      Money.Discounted(price, rate)
    else Money.Discounted(price, rate)
  }

  /** The tier variant discounts: half price on or past the expiry day,
      (5 - d)/10 off with d days left for d in 1..3, the list price from
      four days on. */
  lemma FinalPriceTiers(price: int, d: int)
    ensures d <= 0 ==> FinalPrice(price, Some(d)) == Money.Discounted(price, 0.5)
    ensures 1 <= d <= 3 ==> FinalPrice(price, Some(d)) == Money.Discounted(price, (5 - d) as real / 10.0)
    ensures 0 <= price <= IntMax && d >= 4 ==> FinalPrice(price, Some(d)) == price
  {
    if 1 <= d <= 3 {
      RateTiers(d);
    } else if d >= 4 && 0 <= price <= IntMax {
      Money.DiscountedNoRate(price);
    }
  }

  /** The final price never falls as expiry recedes. */
  lemma FinalPriceNonDecreasing(price: int, d1: int, d2: int)
    requires price >= 0 && d1 <= d2
    ensures FinalPrice(price, Some(d1)) <= FinalPrice(price, Some(d2))
  {
    Money.DiscountedAntitone(price, RateByDaysLeft(Some(d2)), RateByDaysLeft(Some(d1)));
  }
}
