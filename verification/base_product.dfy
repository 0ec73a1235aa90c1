/** `BaseProduct` of AdvancedProduct.kt: the stock rate and the shortage
    against the target stock. `FoodProduct` and `BeverageProduct` add only
    an expiry date or nothing, so they share this model. */
module BaseProducts {
  import opened Common

  datatype BaseProduct = BaseProduct(name: string, price: int, targetStock: int, currentStock: int)

  /** `stockRate()`: current over target, and 0 for a zero target. */
  function StockRate(p: BaseProduct): (r: real)
    ensures p.targetStock == 0 ==> r == 0.0
    ensures p.targetStock != 0 ==> r * p.targetStock as real == p.currentStock as real
  {
    if p.targetStock == 0 then 0.0 else p.currentStock as real / p.targetStock as real
  }

  /** `shortage()`: how many units are missing to the target, never less
      than zero. */
  function Shortage(p: BaseProduct): (r: int)
    ensures r >= 0
    ensures r == 0 <==> p.currentStock >= p.targetStock
    ensures p.currentStock + r >= p.targetStock
    ensures r > 0 ==> p.currentStock + r == p.targetStock
  {
    Max(p.targetStock - p.currentStock, 0)
  }

  /** Shortage is the least non-negative top-up that reaches the target. */
  lemma ShortageIsLeastTopUp(p: BaseProduct, x: int)
    requires x >= 0 && p.currentStock + x >= p.targetStock
    ensures Shortage(p) <= x
  {
  }

  /** With a non-negative stock the shortage never exceeds the target (or
      zero, for a negative target). */
  lemma ShortageAtMostTarget(p: BaseProduct)
    requires p.currentStock >= 0
    ensures Shortage(p) <= Max(p.targetStock, 0)
  {
  }

  /** A positive target is short exactly when the rate is below one. */
  lemma ShortIffRateBelowOne(p: BaseProduct)
    requires p.targetStock > 0
    ensures Shortage(p) > 0 <==> StockRate(p) < 1.0
  {
    var t := p.targetStock as real;
    var r := StockRate(p);
    assert r * t == p.currentStock as real;
    if r < 1.0 {
      assert r * t < 1.0 * t;
      assert (p.currentStock as real) < t;
      assert p.currentStock < p.targetStock;
    } else {
      assert r * t >= 1.0 * t;
      assert p.currentStock >= p.targetStock;
    }
  }
}
