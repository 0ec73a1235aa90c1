/** The extension functions of ProductExtensions.kt: a policy discount that
    rounds the days left UP to the nearest policy key, the list-price
    revenue of a name-to-quantity map, and the plain rotation rate. `remainingDays` is `Inventory.DaysLeft`, and the
    top-N over a plain quantity map is `Analysis.TopByQty`. */
module ProductExtensions {
  import opened Common
  import opened Entities
  import Money
  import Pricing
  import Inventory
  import Analysis

  /** `policy.filter { days <= it.key }.minByOrNull { it.key }?.key`: the
      smallest key not below `d`. */
  function SmallestKeyAtLeast(policy: Pricing.Policy, d: int): (r: Option<int>)
    ensures r.None? <==> forall i | 0 <= i < |policy| :: policy[i].0 < d
    ensures r.Some? ==> r.value >= d && Pricing.HasKey(policy, r.value)
    ensures r.Some? ==> forall i | 0 <= i < |policy| && policy[i].0 >= d :: policy[i].0 >= r.value
  {
    if |policy| == 0 then None
    else
      var rest := SmallestKeyAtLeast(policy[1..], d);
      assert forall i | 0 <= i < |policy| - 1 :: policy[1..][i] == policy[i + 1];
      var k := policy[0].0;
      if k < d then rest
      else match rest
        case None => Some(k)
        case Some(m) => Some(Min(k, m))
  }

  /** The rate `discountedPrice` applies for `days` left: the exact entry,
      else the entry of the smallest key above, else no discount. */
  function ExtensionRate(policy: Pricing.Policy, days: int): (r: real)
    ensures Pricing.Lookup(policy, days).Some? ==> r == Pricing.Lookup(policy, days).value
    ensures (forall i | 0 <= i < |policy| :: policy[i].0 < days) ==> r == 0.0
  {
    match Pricing.Lookup(policy, days)
    case Some(rate) => rate
    case None =>
      match SmallestKeyAtLeast(policy, days)
      case None => 0.0
      case Some(k) => Pricing.Lookup(policy, k).GetOr(0.0)
  }

  /** The exact lookup is a shortcut: the rate is always that of the
      smallest key not below `days`, or 0 when every key is below it. */
  lemma ExtensionRateIsSmallestKey(policy: Pricing.Policy, days: int)
    ensures SmallestKeyAtLeast(policy, days).None? ==> ExtensionRate(policy, days) == 0.0
    ensures SmallestKeyAtLeast(policy, days).Some? ==>
              ExtensionRate(policy, days) ==
                Pricing.Lookup(policy, SmallestKeyAtLeast(policy, days).value).GetOr(0.0)
  {
    if Pricing.Lookup(policy, days).Some? {
      var i :| 0 <= i < |policy| && policy[i].0 == days;
      assert SmallestKeyAtLeast(policy, days).Some?;
      assert SmallestKeyAtLeast(policy, days).value == days;
    }
  }

  /** A rate taken from a policy whose rates lie in [0, 1] lies there too. */
  lemma ExtensionRateInUnit(policy: Pricing.Policy, days: int)
    requires Pricing.RatesInUnit(policy)
    ensures 0.0 <= ExtensionRate(policy, days) <= 1.0
  {
    var l := Pricing.Lookup(policy, days);
    if l.Some? {
      var i :| 0 <= i < |policy| && policy[i] == (days, l.value);
    } else if SmallestKeyAtLeast(policy, days).Some? {
      var k := SmallestKeyAtLeast(policy, days).value;
      var m := Pricing.Lookup(policy, k);
      var i :| 0 <= i < |policy| && policy[i] == (k, m.value);
    }
  }

  /** `discountedPrice(policy)`: the list price without an expiry date;
      otherwise the price reduced by the policy rate and truncated to `Int`,
      with no floor at zero. */
  function DiscountedPrice(p: Product, policy: Pricing.Policy, today: int): (r: int)
    ensures p.expiryDate.None? ==> r == p.price
    ensures Pricing.RatesInUnit(policy) && 0 <= p.price <= IntMax ==> 0 <= r <= p.price
  {
    match Inventory.DaysLeft(p, today)
    case None => p.price
    case Some(days) =>
      var rate := ExtensionRate(policy, days);
      if Pricing.RatesInUnit(policy) && 0 <= p.price <= IntMax then
        ExtensionRateInUnit(policy, days);
        Money.ScaledWithin(p.price, rate);
        ToInt(Money.Scaled(p.price, rate))
      else ToInt(Money.Scaled(p.price, rate))
  }

  /** For rates in [0, 1] this is `Money.Discounted` at the extension's
      rate; the floor at zero there never comes into play. */
  lemma DiscountedPriceIsMoneyDiscount(p: Product, policy: Pricing.Policy, today: int)
    requires Pricing.RatesInUnit(policy) && 0 <= p.price <= IntMax && p.expiryDate.Some?
    ensures DiscountedPrice(p, policy, today) ==
              Money.Discounted(p.price, ExtensionRate(policy, p.expiryDate.value - today))
  {
    var days := p.expiryDate.value - today;
    var rate := ExtensionRate(policy, days);
    assert Inventory.DaysLeft(p, today) == Some(days);
    ExtensionRateInUnit(policy, days);
    Money.ScaledWithin(p.price, rate);
    assert DiscountedPrice(p, policy, today) == ToInt(Money.Scaled(p.price, rate));
  }

  /** A rate above 100% gives a negative price, which `Money.Discounted`
      would have floored at zero. */
  lemma DiscountedPriceNotFloored()
    ensures DiscountedPrice(Product("p", "p", Categories.Category.ETC, 100, 0, 0, Some(5)), [(0, 1.5)], 5) == -50
    ensures Money.Discounted(100, 1.5) == 0
  {
    var p := Product("p", "p", Categories.Category.ETC, 100, 0, 0, Some(5));
    assert Inventory.DaysLeft(p, 5) == Some(0);
    assert Pricing.Lookup([(0, 1.5)], 0) == Some(1.5);
    assert ExtensionRate([(0, 1.5)], 0) == 1.5;
  }

  /** The manager's default policy: three days or more, none; two, 30%;
      one, 50%; the last day, 70%. */
  const ManagerPolicy: Pricing.Policy := [(3, 0.0), (2, 0.3), (1, 0.5), (0, 0.7)]

  lemma ManagerLookups()
    ensures Pricing.Lookup(ManagerPolicy, 3) == Some(0.0)
    ensures Pricing.Lookup(ManagerPolicy, 2) == Some(0.3)
    ensures Pricing.Lookup(ManagerPolicy, 1) == Some(0.5)
    ensures Pricing.Lookup(ManagerPolicy, 0) == Some(0.7)
    ensures forall i | 0 <= i < |ManagerPolicy| :: 0 <= ManagerPolicy[i].0 <= 3
  {
    assert Pricing.DistinctKeys(ManagerPolicy);
    Pricing.LookupEntry(ManagerPolicy, 0);
    Pricing.LookupEntry(ManagerPolicy, 1);
    Pricing.LookupEntry(ManagerPolicy, 2);
    Pricing.LookupEntry(ManagerPolicy, 3);
  }

  /** Rounding up over the manager's policy gives the same steps as the
      pricing service's default policy: no discount beyond three days (no
      key reaches that far) and 70% once the date has passed (key 0 is the
      smallest key above). */
  lemma ManagerPolicySteps(days: int)
    ensures ExtensionRate(ManagerPolicy, days) == Pricing.DefaultStep(days)
    ensures ExtensionRate(ManagerPolicy, days) == Pricing.RateByDaysLeft(Pricing.DefaultPolicy, Some(days))
  {
    if days > 3 {
      ManagerBeyondKeys(days);
    } else if days < 0 {
      ManagerPastExpiry(days);
    } else {
      ManagerLookups();
    }
    Pricing.DefaultRate(days);
  }

  lemma ManagerBeyondKeys(days: int)
    requires days > 3
    ensures ExtensionRate(ManagerPolicy, days) == 0.0
  {
    ManagerLookups();
    assert !Pricing.HasKey(ManagerPolicy, days);
    assert SmallestKeyAtLeast(ManagerPolicy, days).None?;
  }

  lemma ManagerPastExpiry(days: int)
    requires days < 0
    ensures ExtensionRate(ManagerPolicy, days) == 0.7
  {
    ManagerLookups();
    assert !Pricing.HasKey(ManagerPolicy, days);
    var k := SmallestKeyAtLeast(ManagerPolicy, days);
    assert ManagerPolicy[3].0 == 0;
    assert k.Some? && k.value <= 0;
    assert k.value == 0;
  }

  /** Rounding up and the pricing service's rounding down disagree on a
      policy with a gap: two days left, keys 0 and 3. */
  lemma RoundingDirections()
    ensures ExtensionRate([(0, 0.7), (3, 0.0)], 2) == 0.0
    ensures Pricing.RateByDaysLeft([(0, 0.7), (3, 0.0)], Some(2)) == 0.7
  {
    var policy: Pricing.Policy := [(0, 0.7), (3, 0.0)];
    assert Pricing.DistinctKeys(policy);
    Pricing.LookupEntry(policy, 0);
    Pricing.LookupEntry(policy, 1);
    assert !Pricing.HasKey(policy, 2);
    assert SmallestKeyAtLeast(policy, 2) == Some(3);
    assert Pricing.LargestKeyAtMost(policy, 2) == Some(0);
  }

  /** `products.indexOfFirst { it.name == name }`, or `|products|` when no
      product has that name. */
  function FirstNamed(products: seq<Product>, name: string): (k: nat)
    ensures k <= |products|
    ensures k < |products| ==> products[k].name == name
    ensures forall j | 0 <= j < k :: products[j].name != name
  {
    FirstIndex(products, (q: Product) => q.name == name)
  }

  /** `products.find { it.name == name }?.price ?: 0`: the price of the
      first product of that name, 0 when there is none. */
  function PriceByName(products: seq<Product>, name: string): (r: int)
    ensures (forall i | 0 <= i < |products| :: products[i].name != name) ==> r == 0
    ensures forall k | 0 <= k < |products| && products[k].name == name &&
                       (forall j | 0 <= j < k :: products[j].name != name) :: r == products[k].price
    ensures PricesNonNegative(products) ==> r >= 0
  {
    var k := FirstNamed(products, name);
    if k < |products| then products[k].price else 0
  }

  predicate PricesNonNegative(products: seq<Product>) {
    forall i | 0 <= i < |products| :: products[i].price >= 0
  }

  predicate QuantitiesNonNegative(sales: seq<(string, int)>) {
    forall i | 0 <= i < |sales| :: sales[i].1 >= 0
  }

  /** `totalRevenue(products, sales)`: Σ of the list price of the first
      product of each name times the quantity sold under that name; names
      without a product count zero. */
  function TotalRevenue(products: seq<Product>, sales: seq<(string, int)>): (r: int)
    ensures PricesNonNegative(products) && QuantitiesNonNegative(sales) ==> r >= 0
    decreases |sales|
  {
    if |sales| == 0 then 0
    else
      var here := PriceByName(products, sales[0].0) * sales[0].1;
      var rest := TotalRevenue(products, sales[1..]);
      if PricesNonNegative(products) && QuantitiesNonNegative(sales) then
        assert QuantitiesNonNegative(sales[1..]);
        MulNonNegativeInt(PriceByName(products, sales[0].0), sales[0].1);
        here + rest
      else here + rest
  }

  /** A single entry contributes the price found for its name times its
      quantity. */
  lemma TotalRevenueSingle(products: seq<Product>, name: string, qty: int)
    ensures TotalRevenue(products, [(name, qty)]) == PriceByName(products, name) * qty
  {
  }

  /** The revenue of a map split in two is the sum of the parts. */
  lemma {:induction false} TotalRevenueAppend(products: seq<Product>, a: seq<(string, int)>, b: seq<(string, int)>)
    ensures TotalRevenue(products, a + b) == TotalRevenue(products, a) + TotalRevenue(products, b)
    decreases |a|
  {
    if |a| > 0 {
      var ab := a + b;
      assert ab[0] == a[0];
      assert ab[1..] == a[1..] + b;
      assert TotalRevenue(products, ab) ==
        PriceByName(products, a[0].0) * a[0].1 + TotalRevenue(products, a[1..] + b);
      assert TotalRevenue(products, a) ==
        PriceByName(products, a[0].0) * a[0].1 + TotalRevenue(products, a[1..]);
      TotalRevenueAppend(products, a[1..], b);
    } else {
      assert a + b == b;
    }
  }

  /** Names that match no product contribute nothing. */
  lemma {:induction false} TotalRevenueUnknownNames(products: seq<Product>, sales: seq<(string, int)>)
    requires forall i, j | 0 <= i < |sales| && 0 <= j < |products| :: products[j].name != sales[i].0
    ensures TotalRevenue(products, sales) == 0
    decreases |sales|
  {
    if |sales| > 0 {
      assert forall i | 0 <= i < |sales| - 1 :: sales[1..][i] == sales[i + 1];
      assert PriceByName(products, sales[0].0) == 0;
      TotalRevenueUnknownNames(products, sales[1..]);
    }
  }

  /** `rotationRate(salesQty, currentStock)`: sales over stock, and 0 when
      the stock is not positive. */
  function RotationRate(salesQty: int, currentStock: int): (r: real)
    ensures currentStock <= 0 ==> r == 0.0
    ensures currentStock > 0 ==> r * currentStock as real == salesQty as real
  {
    if currentStock <= 0 then 0.0 else salesQty as real / currentStock as real
  }

  /** The analysis service's rotation is this rate in percent for a
      positive stock; for an empty stock it divides by 1 instead of
      answering 0, so the two disagree whenever something was sold. */
  lemma RotationRateVsAnalysis(p: Product, sold: seq<(string, int)>)
    ensures var row := Analysis.RotationOf(p, sold);
            p.currentStock > 0 ==> row.rate == RotationRate(row.sold, p.currentStock) * 100.0
    ensures var row := Analysis.RotationOf(p, sold);
            p.currentStock <= 0 ==> (row.rate == RotationRate(row.sold, p.currentStock) * 100.0 <==> row.sold == 0)
  {
    var row := Analysis.RotationOf(p, sold);
    if p.currentStock > 0 {
      var c := p.currentStock as real;
      var x := RotationRate(row.sold, p.currentStock);
      assert x * c == row.sold as real;
      assert row.rate * c == row.sold as real * 100.0;
      assert (x * 100.0) * c == row.sold as real * 100.0;
      assert (row.rate - x * 100.0) * c == 0.0;
    }
  }
}
