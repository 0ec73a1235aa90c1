/** Stock mutation and stock queries (InventoryService.kt). The service's
    state is the product store and the sales ledger; pricing is read but
    never changed here. "Today" and the date a sale is recorded under are
    parameters. */
module Inventory {
  import opened Common
  import opened Categories
  import opened Entities
  import Money
  import Pricing
  import Repo = ProductRepository
  import Ledger = SalesRepository

  /** `current.toDouble() / target < threshold`. A zero target divides by
      zero in floating point: a positive stock gives +Infinity, a zero stock
      NaN, and only a negative stock (-Infinity) compares below. */
  predicate RatioBelow(current: int, target: int, threshold: real) {
    if target == 0 then current < 0
    else current as real / target as real < threshold
  }

  /** The ratio test without division: for a positive target, the stock is
      below `threshold` times the target. */
  lemma RatioBelowPositiveTarget(current: int, target: int, threshold: real)
    requires target > 0
    ensures RatioBelow(current, target, threshold) <==>
              (current as real) < threshold * target as real
  {
    var q := current as real / target as real;
    assert q * target as real == current as real;
    if q < threshold {
      assert q * target as real < threshold * target as real;
    } else {
      assert q * target as real >= threshold * target as real;
    }
  }

  /** `stockStatus(p, threshold)`. */
  function StockStatusOf(p: Product, threshold: real): (r: StockStatus)
    ensures r == OUT_OF_STOCK <==> p.currentStock <= 0
    ensures r == LOW <==> 0 < p.currentStock && RatioBelow(p.currentStock, p.targetStock, threshold)
    ensures p.targetStock == 0 && p.currentStock > 0 ==> r == SUFFICIENT
  {
    if p.currentStock <= 0 then OUT_OF_STOCK
    else if RatioBelow(p.currentStock, p.targetStock, threshold) then LOW
    else SUFFICIENT
  }

  /** With a positive target, a product in stock is `LOW` exactly when its
      stock is below `threshold` times the target. */
  lemma StockStatusPositiveTarget(p: Product, threshold: real)
    requires p.targetStock > 0 && p.currentStock > 0
    ensures StockStatusOf(p, threshold) == LOW <==>
              (p.currentStock as real) < threshold * p.targetStock as real
    ensures StockStatusOf(p, threshold) == SUFFICIENT <==>
              (p.currentStock as real) >= threshold * p.targetStock as real
  {
    RatioBelowPositiveTarget(p.currentStock, p.targetStock, threshold);
  }

  /** `daysLeft(p)`: whole days from `today` to the expiry date, or none
      without an expiry date. */
  function DaysLeft(p: Product, today: int): (r: Option<int>)
    ensures r.None? <==> p.expiryDate.None?
    ensures r.Some? ==> today + r.value == p.expiryDate.value
  {
    match p.expiryDate
    case None => None
    case Some(e) => Some(e - today)
  }

  /** The service's mutable state: the product store and the ledger. */
  datatype Stores = Stores(products: seq<Product>, sales: seq<Sale>)

  predicate Valid(st: Stores) {
    Repo.DistinctIds(st.products) &&
    forall i | 0 <= i < |st.products| :: st.products[i].currentStock >= 0
  }

  /** `after` holds products with the ids of `before`, position by position:
      an in-place save keeps the store's order. */
  predicate SameIds(before: seq<Product>, after: seq<Product>) {
    Ids(after) == Ids(before)
  }

  /** The ids of `products`, in store order. */
  function Ids(products: seq<Product>): (r: seq<string>)
    ensures |r| == |products|
    ensures forall i | 0 <= i < |products| :: r[i] == products[i].id
  {
    seq(|products|, i requires 0 <= i < |products| => products[i].id)
  }

  /** `after` is `before` with the stock of `id` set to `stock`: the product
      keeps its other fields and its position, and every other id finds what
      it found. */
  ghost predicate StockSetTo(before: seq<Product>, after: seq<Product>, id: string, stock: int) {
    SameIds(before, after) &&
    Repo.FindById(before, id).Some? &&
    Repo.FindById(after, id) == Some(Repo.FindById(before, id).value.(currentStock := stock)) &&
    forall other | other != id :: Repo.FindById(after, other) == Repo.FindById(before, other)
  }

  /** Stores the product back with a new stock level. */
  function WithStock(products: seq<Product>, p: Product, stock: int): (r: seq<Product>)
    requires Repo.FindById(products, p.id) == Some(p)
    ensures StockSetTo(products, r, p.id, stock)
    ensures |r| == |products|
    ensures Repo.DistinctIds(products) ==> Repo.DistinctIds(r)
    ensures forall q | q in r :: q == p.(currentStock := stock) || q in products
  {
    var q := p.(currentStock := stock);
    Repo.SaveLookups(products, q);
    Repo.Save(products, q)
  }
  /** Setting the stock back to its old level restores the store. */
  lemma WithStockRestored(products: seq<Product>, p: Product, stock: int)
    requires Repo.FindById(products, p.id) == Some(p)
    ensures Repo.FindById(WithStock(products, p, stock), p.id) == Some(p.(currentStock := stock))
    ensures WithStock(WithStock(products, p, stock), p.(currentStock := stock), p.currentStock) == products
  {
    var q := p.(currentStock := stock);
    assert q.(currentStock := p.currentStock) == p;
    Repo.SaveTwice(products, q, p);
    Repo.SaveStored(products, p);
  }


  /** `receive(id, qty)`: an unknown id fails first, then a non-positive
      quantity; on success only the stock of `id` grows by `qty`. */
  function Receive(st: Stores, id: string, qty: int): (r: Result<Stores>)
    ensures Repo.FindById(st.products, id).None? <==> r == Err(NotFound)
    ensures Repo.FindById(st.products, id).Some? && qty <= 0 <==> r == Err(InvalidArgument)
    ensures r.Ok? ==> StockSetTo(st.products, r.value.products, id,
                                 Repo.FindById(st.products, id).value.currentStock + qty)
    ensures r.Ok? ==> r.value.sales == st.sales
    ensures r.Ok? && Valid(st) ==> Valid(r.value)
  {
    match Repo.FindById(st.products, id)
    case None => Err(NotFound)
    case Some(p) =>
      if qty <= 0 then Err(InvalidArgument)
      else Ok(st.(products := WithStock(st.products, p, p.currentStock + qty)))
  }

  /** The price a sale is recorded at: the list price discounted at the
      current rate, manual override first. */
  function PriceAtSale(pricing: Pricing.PricingState, p: Product, today: int): (r: int)
    ensures 0 <= r
    ensures Pricing.Valid(pricing) && 0 <= p.price <= IntMax ==> r <= p.price
    ensures Pricing.ManualDiscountRate(pricing, p.id) == Some(0.0) && 0 <= p.price <= IntMax ==>
              r == p.price
    ensures Pricing.ManualDiscountRate(pricing, p.id).Some? ==>
              r == Money.Discounted(p.price, Pricing.ManualDiscountRate(pricing, p.id).value)
    ensures Pricing.ManualDiscountRate(pricing, p.id).None? ==>
              r == Money.Discounted(p.price, Pricing.RateByDaysLeft(pricing.policy, DaysLeft(p, today)))
  {
    var rate := Pricing.CurrentDiscountRate(pricing, p.id, DaysLeft(p, today));
    if 0 <= p.price <= IntMax && rate >= 0.0 then
      Money.DiscountedAtMostPrice(p.price, rate);
      Money.Discounted(p.price, rate)
    else Money.Discounted(p.price, rate)
  }

  /** Without a manual rate, a product with `d` days left sells at the
      policy's rate for `d` days. */
  lemma PriceAtPolicyRate(pricing: Pricing.PricingState, p: Product, today: int, d: int, rate: real)
    requires Pricing.ManualDiscountRate(pricing, p.id).None?
    requires p.expiryDate == Some(today + d)
    requires Pricing.RateByDaysLeft(pricing.policy, Some(d)) == rate
    ensures PriceAtSale(pricing, p, today) == Money.Discounted(p.price, rate)
  {
    assert DaysLeft(p, today) == Some(d);
  }

  /** Under the default policy and with no manual rate, a product expiring
      on day `e` sells at the price discounted by the default step for its
      `e - today` days left. */
  lemma PriceAtSaleDefault(pricing: Pricing.PricingState, p: Product, today: int, e: int)
    requires pricing.policy == Pricing.DefaultPolicy
    requires Pricing.ManualDiscountRate(pricing, p.id).None?
    requires p.expiryDate == Some(e)
    ensures PriceAtSale(pricing, p, today) == Money.Discounted(p.price, Pricing.DefaultStep(e - today))
  {
    var d := e - today;
    PriceAtPolicyRate(pricing, p, today, d, Pricing.RateByDaysLeft(pricing.policy, Some(d)));
    Pricing.DefaultRate(d);
  }

  /** `sell(id, qty)`: an unknown id fails first, then a non-positive
      quantity, then a quantity above the stock; on success the stock of
      `id` drops by `qty` and exactly one sale is appended. */
  function Sell(st: Stores, pricing: Pricing.PricingState, id: string, qty: int,
                today: int, saleDate: int): (r: Result<Stores>)
    ensures Repo.FindById(st.products, id).None? <==> r == Err(NotFound)
    ensures Repo.FindById(st.products, id).Some? && qty <= 0 <==> r == Err(InvalidArgument)
    ensures r == Err(InsufficientStock) <==>
              Repo.FindById(st.products, id).Some? && qty > 0 &&
              Repo.FindById(st.products, id).value.currentStock < qty
    ensures r.Ok? ==>
              var p := Repo.FindById(st.products, id).value;
              StockSetTo(st.products, r.value.products, id, p.currentStock - qty) &&
              r.value.sales == st.sales + [Sale(id, qty, PriceAtSale(pricing, p, today), saleDate)]
    ensures r.Ok? && Valid(st) ==> Valid(r.value)
  {
    match Repo.FindById(st.products, id)
    case None => Err(NotFound)
    case Some(p) =>
      if qty <= 0 then Err(InvalidArgument)
      else if p.currentStock < qty then Err(InsufficientStock)
      else
        var sale := Sale(id, qty, PriceAtSale(pricing, p, today), saleDate);
        Ok(Stores(WithStock(st.products, p, p.currentStock - qty), Ledger.Record(st.sales, sale)))
  }

  /** `dispose(id, qty)`: the checks of `sell` in the same order, and the
      same stock change, but the ledger is untouched. */
  function Dispose(st: Stores, id: string, qty: int): (r: Result<Stores>)
    ensures Repo.FindById(st.products, id).None? <==> r == Err(NotFound)
    ensures Repo.FindById(st.products, id).Some? && qty <= 0 <==> r == Err(InvalidArgument)
    ensures r == Err(InsufficientStock) <==>
              Repo.FindById(st.products, id).Some? && qty > 0 &&
              Repo.FindById(st.products, id).value.currentStock < qty
    ensures r.Ok? ==> StockSetTo(st.products, r.value.products, id,
                                 Repo.FindById(st.products, id).value.currentStock - qty)
    ensures r.Ok? ==> r.value.sales == st.sales
    ensures r.Ok? && Valid(st) ==> Valid(r.value)
  {
    match Repo.FindById(st.products, id)
    case None => Err(NotFound)
    case Some(p) =>
      if qty <= 0 then Err(InvalidArgument)
      else if p.currentStock < qty then Err(InsufficientStock)
      else Ok(st.(products := WithStock(st.products, p, p.currentStock - qty)))
  }

  /** Dispose and sell agree on every outcome except the ledger. */
  lemma DisposeMatchesSell(st: Stores, pricing: Pricing.PricingState, id: string, qty: int,
                           today: int, saleDate: int)
    ensures Dispose(st, id, qty).Ok? <==> Sell(st, pricing, id, qty, today, saleDate).Ok?
    ensures Dispose(st, id, qty).Err? ==>
              Dispose(st, id, qty) == Sell(st, pricing, id, qty, today, saleDate)
    ensures Dispose(st, id, qty).Ok? ==>
              Dispose(st, id, qty).value.products
                == Sell(st, pricing, id, qty, today, saleDate).value.products
  {
  }

  /** `needsReorder(p, threshold)`: the stock ratio is below `threshold`,
      with no guard for a zero target. */
  function NeedsReorder(p: Product, threshold: real): (r: bool)
    ensures p.targetStock > 0 ==> (r <==> (p.currentStock as real) < threshold * p.targetStock as real)
    ensures p.targetStock == 0 ==> (r <==> p.currentStock < 0)
  {
    if p.targetStock > 0 then
      RatioBelowPositiveTarget(p.currentStock, p.targetStock, threshold);
      RatioBelow(p.currentStock, p.targetStock, threshold)
    else RatioBelow(p.currentStock, p.targetStock, threshold)
  }

  /** An in-stock product with a positive target needs reordering exactly
      when its status is `LOW`. */
  lemma NeedsReorderIsLow(p: Product, threshold: real)
    requires p.currentStock > 0
    ensures NeedsReorder(p, threshold) <==> StockStatusOf(p, threshold) == LOW
  {
  }

  predicate ExpiresWithin(p: Product, today: int, warnDays: int) {
    match DaysLeft(p, today)
    case None => false
    case Some(d) => 0 <= d <= warnDays
  }

  /** `expiringSoon(list, warnDays)`: the products whose days left lie in
      0..warnDays, in list order; a product without expiry date is never
      kept. */
  function ExpiringSoon(list: seq<Product>, today: int, warnDays: int): (r: seq<Product>)
    ensures |r| <= |list|
    ensures forall q :: q in r <==>
              (q in list && q.expiryDate.Some? && today <= q.expiryDate.value <= today + warnDays)
  {
    if |list| == 0 then []
    else
      (if ExpiresWithin(list[0], today, warnDays) then [list[0]] else [])
        + ExpiringSoon(list[1..], today, warnDays)
  }

  /** The filter distributes over concatenation, so it keeps list order. */
  lemma {:induction false} ExpiringSoonAppend(a: seq<Product>, b: seq<Product>, today: int, warnDays: int)
    ensures ExpiringSoon(a + b, today, warnDays)
         == ExpiringSoon(a, today, warnDays) + ExpiringSoon(b, today, warnDays)
  {
    if |a| == 0 {
      assert a + b == b;
    } else {
      assert (a + b)[1..] == a[1..] + b;
      ExpiringSoonAppend(a[1..], b, today, warnDays);
    }
  }

  /** A call on the service. A failed call throws and leaves the state as
      it was. */
  datatype Op =
    | ReceiveOp(id: string, qty: int)
    | SellOp(id: string, qty: int, saleDate: int)
    | DisposeOp(id: string, qty: int)

  function Step(st: Stores, pricing: Pricing.PricingState, today: int, op: Op): Result<Stores> {
    match op
    case ReceiveOp(id, qty) => Receive(st, id, qty)
    case SellOp(id, qty, saleDate) => Sell(st, pricing, id, qty, today, saleDate)
    case DisposeOp(id, qty) => Dispose(st, id, qty)
  }

  function Run(st: Stores, pricing: Pricing.PricingState, today: int, ops: seq<Op>): Stores
    decreases |ops|
  {
    if |ops| == 0 then st
    else
      var next := match Step(st, pricing, today, ops[0])
        case Ok(s) => s
        case Err(_) => st;
      Run(next, pricing, today, ops[1..])
  }

  /** Starting from non-negative stock with distinct ids, every sequence of
      receive, sell and dispose calls keeps the stock non-negative. */
  lemma {:induction false} RunKeepsValid(st: Stores, pricing: Pricing.PricingState, today: int, ops: seq<Op>)
    requires Valid(st)
    ensures Valid(Run(st, pricing, today, ops))
    decreases |ops|
  {
    if |ops| > 0 {
      var next := match Step(st, pricing, today, ops[0])
        case Ok(s) => s
        case Err(_) => st;
      assert Valid(next);
      RunKeepsValid(next, pricing, today, ops[1..]);
    }
  }

  /** A successful `sell(id, q)` followed by `receive(id, q)` restores the
      product store; the ledger keeps the one sale. */
  lemma SellThenReceive(st: Stores, pricing: Pricing.PricingState, id: string, qty: int,
                        today: int, saleDate: int, sold: Stores)
    requires Sell(st, pricing, id, qty, today, saleDate) == Ok(sold)
    ensures Receive(sold, id, qty) == Ok(sold.(products := st.products))
    ensures |sold.sales| == |st.sales| + 1
  {
    var p := Repo.FindById(st.products, id).value;
    var q := p.(currentStock := p.currentStock - qty);
    SellFound(st, pricing, p, qty, today, saleDate, q.currentStock);
    WithStockRestored(st.products, p, q.currentStock);
    ReceiveFound(sold, q, qty, p.currentStock);
  }

  /** What a successful `sell` of a found product stores. */
  lemma SellFound(st: Stores, pricing: Pricing.PricingState, p: Product, qty: int,
                  today: int, saleDate: int, stock: int)
    requires Repo.FindById(st.products, p.id) == Some(p) && 0 < qty <= p.currentStock
    requires stock == p.currentStock - qty
    ensures Sell(st, pricing, p.id, qty, today, saleDate) ==
              Ok(Stores(WithStock(st.products, p, stock),
                        st.sales + [Sale(p.id, qty, PriceAtSale(pricing, p, today), saleDate)]))
  {
    var sale := Sale(p.id, qty, PriceAtSale(pricing, p, today), saleDate);
    assert Ledger.Record(st.sales, sale) == st.sales + [sale];
    match Repo.FindById(st.products, p.id)
    case Some(found) =>
      assert found == p;
      assert found.currentStock - qty == stock;
  }

  /** What a successful `receive` of a found product stores. */
  lemma ReceiveFound(st: Stores, p: Product, qty: int, stock: int)
    requires Repo.FindById(st.products, p.id) == Some(p) && qty > 0
    requires stock == p.currentStock + qty
    ensures Receive(st, p.id, qty) == Ok(Stores(WithStock(st.products, p, stock), st.sales))
  {
    match Repo.FindById(st.products, p.id)
    case Some(found) =>
      assert found == p;
      assert found.currentStock + qty == stock;
  }

  /** What a successful `dispose` of a found product stores. */
  lemma DisposeFound(st: Stores, p: Product, qty: int, stock: int)
    requires Repo.FindById(st.products, p.id) == Some(p) && 0 < qty <= p.currentStock
    requires stock == p.currentStock - qty
    ensures Dispose(st, p.id, qty) == Ok(Stores(WithStock(st.products, p, stock), st.sales))
  {
    var r := Dispose(st, p.id, qty);
    assert !(p.currentStock < qty);
    assert r.Ok?;
    assert r.value.sales == st.sales;
    assert r.value.products == WithStock(st.products, p, stock);
  }

  /** A successful `receive(id, q)` followed by `dispose(id, q)` restores
      the state exactly, provided the product's stock was not negative. */
  lemma ReceiveThenDispose(st: Stores, id: string, qty: int, got: Stores)
    requires Receive(st, id, qty) == Ok(got)
    requires Repo.FindById(st.products, id).value.currentStock >= 0
    ensures Dispose(got, id, qty) == Ok(st)
  {
    var p := Repo.FindById(st.products, id).value;
    var q := p.(currentStock := p.currentStock + qty);
    ReceiveFound(st, p, qty, q.currentStock);
    WithStockRestored(st.products, p, q.currentStock);
    DisposeFound(got, q, qty, p.currentStock);
  }
}
