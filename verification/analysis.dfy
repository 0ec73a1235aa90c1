/** Ledger analytics (AnalysisService.kt): per-product sums over a window of
    recent days, top-N lists, rotation rates, excess and dead stock. Kotlin
    maps built by `groupBy` or `mapValues` keep insertion order and are
    modelled as sequences of (key, value) pairs; "today" is a parameter. */
module Analysis {
  import opened Common
  import opened Entities
  import opened Grouping
  import Sorting
  import Ledger = SalesRepository

  /** The first day of a window of `lastNDays` days ending today. */
  function WindowStart(today: int, lastNDays: int): int {
    today - (lastNDays - 1)
  }

  /** The sales of the last `lastNDays` days, today included, in ledger
      order. */
  function Window(ledger: seq<Sale>, today: int, lastNDays: int): (r: seq<Sale>)
    ensures forall s :: s in r <==>
              (s in ledger && WindowStart(today, lastNDays) <= s.timestamp <= today)
  {
    Ledger.ByDateRange(ledger, WindowStart(today, lastNDays), today)
  }

  /** Some sale of product `id` is dated within `from..to`. */
  predicate SoldWithin(ledger: seq<Sale>, id: string, from: int, to: int) {
    exists s | s in ledger :: s.productId == id && from <= s.timestamp <= to
  }

  /** A window of one day holds exactly today's sales. */
  lemma OneDayWindow(ledger: seq<Sale>, today: int)
    ensures forall s :: s in Window(ledger, today, 1) <==> (s in ledger && s.timestamp == today)
  {
  }

  predicate HasKey<V>(m: seq<(string, V)>, id: string) {
    exists i | 0 <= i < |m| :: m[i].0 == id
  }

  predicate DistinctKeys<V>(m: seq<(string, V)>) {
    forall i, j | 0 <= i < j < |m| :: m[i].0 != m[j].0
  }

  /** `m[id] ?: 0`. */
  function ValueOr0(m: seq<(string, int)>, id: string): (r: int)
    ensures !HasKey(m, id) ==> r == 0
    ensures DistinctKeys(m) ==> forall i | 0 <= i < |m| && m[i].0 == id :: r == m[i].1
  {
    if |m| == 0 then 0
    else if m[0].0 == id then m[0].1
    else
      assert forall i | 0 <= i < |m| - 1 :: m[1..][i] == m[i + 1];
      ValueOr0(m[1..], id)
  }

  /** The groups of a window are those of its sold products. */
  lemma GroupKeys(ledger: seq<Sale>, today: int, lastNDays: int, id: string)
    ensures var g := GroupSales(Window(ledger, today, lastNDays));
            TallyIndex(g, id) < |g| <==> SoldWithin(ledger, id, WindowStart(today, lastNDays), today)
  {
    var w := Window(ledger, today, lastNDays);
    var g := GroupSales(w);
    SoldIffSome(w, id);
    if TallyIndex(g, id) < |g| {
      assert Sold(w, g[TallyIndex(g, id)].id);
    }
  }

  function Quantities(g: seq<Tally>): (r: seq<(string, int)>)
    ensures |r| == |g|
    ensures forall i | 0 <= i < |g| :: r[i] == (g[i].id, g[i].qty)
  {
    seq(|g|, i requires 0 <= i < |g| => (g[i].id, g[i].qty))
  }

  function Revenues(g: seq<Tally>): (r: seq<(string, int)>)
    ensures |r| == |g|
    ensures forall i | 0 <= i < |g| :: r[i] == (g[i].id, g[i].revenue)
  {
    seq(|g|, i requires 0 <= i < |g| => (g[i].id, g[i].revenue))
  }

  /** `salesByProduct(lastNDays)`: one entry per product sold in the window,
      in order of its first sale there, holding the quantity sold. */
  function SalesByProduct(ledger: seq<Sale>, today: int, lastNDays: int): (r: seq<(string, int)>)
    ensures DistinctKeys(r)
    ensures forall id :: HasKey(r, id) <==> SoldWithin(ledger, id, WindowStart(today, lastNDays), today)
    ensures forall i | 0 <= i < |r| :: r[i].1 == QtyOf(Window(ledger, today, lastNDays), r[i].0)
    ensures forall i, j | 0 <= i < j < |r| ::
              FirstPos(Window(ledger, today, lastNDays), r[i].0)
                < FirstPos(Window(ledger, today, lastNDays), r[j].0)
  {
    var g := GroupSales(Window(ledger, today, lastNDays));
    var r := Quantities(g);
    forall id ensures HasKey(r, id) <==> SoldWithin(ledger, id, WindowStart(today, lastNDays), today) {
      GroupKeys(ledger, today, lastNDays, id);
      if TallyIndex(g, id) < |g| {
        assert r[TallyIndex(g, id)].0 == id;
      }
    }
    r
  }

  /** `salesByProductWithRevenue(lastNDays)`: as `salesByProduct`, with each
      product's revenue summed over the prices its sales were made at. */
  function SalesByProductWithRevenue(ledger: seq<Sale>, today: int, lastNDays: int): (r: seq<Tally>)
    ensures DistinctTallies(r)
    ensures forall id :: TallyIndex(r, id) < |r| <==>
              SoldWithin(ledger, id, WindowStart(today, lastNDays), today)
    ensures forall i | 0 <= i < |r| ::
              r[i].qty == QtyOf(Window(ledger, today, lastNDays), r[i].id) &&
              r[i].revenue == RevenueOf(Window(ledger, today, lastNDays), r[i].id)
    ensures forall i, j | 0 <= i < j < |r| ::
              FirstPos(Window(ledger, today, lastNDays), r[i].id)
                < FirstPos(Window(ledger, today, lastNDays), r[j].id)
  {
    forall id ensures var g := GroupSales(Window(ledger, today, lastNDays));
        TallyIndex(g, id) < |g| <==> SoldWithin(ledger, id, WindowStart(today, lastNDays), today) {
      GroupKeys(ledger, today, lastNDays, id);
    }
    GroupSales(Window(ledger, today, lastNDays))
  }

  /** The quantities of `salesByProductWithRevenue` are `salesByProduct`,
      entry by entry. */
  lemma WithRevenueQuantities(ledger: seq<Sale>, today: int, lastNDays: int)
    ensures Quantities(SalesByProductWithRevenue(ledger, today, lastNDays))
              == SalesByProduct(ledger, today, lastNDays)
  {
  }

  /** `revenueByProduct(lastNDays)`: the revenue component alone. */
  function RevenueByProduct(ledger: seq<Sale>, today: int, lastNDays: int): (r: seq<(string, int)>)
    ensures DistinctKeys(r)
    ensures forall id :: HasKey(r, id) <==> SoldWithin(ledger, id, WindowStart(today, lastNDays), today)
    ensures forall i | 0 <= i < |r| :: r[i].1 == RevenueOf(Window(ledger, today, lastNDays), r[i].0)
    ensures forall i, j | 0 <= i < j < |r| ::
              FirstPos(Window(ledger, today, lastNDays), r[i].0)
                < FirstPos(Window(ledger, today, lastNDays), r[j].0)
  {
    var g := SalesByProductWithRevenue(ledger, today, lastNDays);
    var r := Revenues(g);
    forall id ensures HasKey(r, id) <==> SoldWithin(ledger, id, WindowStart(today, lastNDays), today) {
      if TallyIndex(g, id) < |g| {
        assert r[TallyIndex(g, id)].0 == id;
      }
    }
    r
  }

  /** `todaySales()`: total quantity and revenue of today's sales. */
  function TodaySales(ledger: seq<Sale>, today: int): (r: (int, int))
    ensures (forall i | 0 <= i < |ledger| :: ledger[i].timestamp != today) ==> r == (0, 0)
  {
    var d := Ledger.ByDateRange(ledger, today, today);
    assert (forall i | 0 <= i < |ledger| :: ledger[i].timestamp != today) ==> |d| == 0 by {
      if |d| > 0 {
        assert d[0] in ledger;
      }
    }
    (TotalQty(d), TotalRevenue(d))
  }

  /** Recording a sale dated today adds its quantity and `qty * priceAtSale`
      to today's totals; a sale dated any other day leaves them alone. */
  lemma TodaySalesRecord(ledger: seq<Sale>, sale: Sale, today: int)
    ensures sale.timestamp == today ==>
              TodaySales(Ledger.Record(ledger, sale), today).0 == TodaySales(ledger, today).0 + sale.qty &&
              TodaySales(Ledger.Record(ledger, sale), today).1
                == TodaySales(ledger, today).1 + sale.qty * sale.priceAtSale
    ensures sale.timestamp != today ==>
              TodaySales(Ledger.Record(ledger, sale), today) == TodaySales(ledger, today)
  {
    var d := Ledger.ByDateRange(ledger, today, today);
    var d2 := Ledger.ByDateRange(Ledger.Record(ledger, sale), today, today);
    Ledger.RecordThenRange(ledger, sale, today, today);
    if sale.timestamp == today {
      assert d2 == d + [sale];
      TotalsAppend(d, sale);
    } else {
      assert d2 == d;
    }
  }

  /** Today's totals are the sums over the one-day per-product figures. */
  lemma TodaySalesIsSumOfProducts(ledger: seq<Sale>, today: int)
    ensures TodaySales(ledger, today) ==
              (SumQty(SalesByProductWithRevenue(ledger, today, 1)),
               SumRevenue(SalesByProductWithRevenue(ledger, today, 1)))
  {
    GroupSums(Window(ledger, today, 1));
  }

  function QtyKey(e: (string, int)): real {
    e.1 as real
  }

  function RevenueKey(t: Tally): real {
    t.revenue as real
  }

  /** The quantity ranking of a list of (id, quantity) pairs, which is also
      the `Map<String, Int>.topN(n)` extension: the at most `n` entries with
      the largest values, in non-increasing order, ties in map order; a
      negative `n` fails as `take` does. */
  function TopByQty(g: seq<(string, int)>, n: int): (r: Result<seq<(string, int)>>)
    ensures n < 0 <==> r.Err?
    ensures r.Ok? ==> |r.value| == Min(n, |g|)
    ensures r.Ok? ==> forall i, j | 0 <= i < j < |r.value| :: r.value[i].1 >= r.value[j].1
    ensures r.Ok? ==> multiset(r.value) <= multiset(g)
    ensures r.Ok? ==> forall k :: Sorting.WithKey(r.value, QtyKey, k) <= Sorting.WithKey(g, QtyKey, k)
    ensures r.Ok? ==> forall x, y | x in r.value && y in multiset(g) - multiset(r.value) :: y.1 <= x.1
  {
    var r := Sorting.TopBy(g, n, QtyKey);
    if r.Ok? then
      assert forall i, j | 0 <= i < j < |r.value| :: QtyKey(r.value[i]) >= QtyKey(r.value[j]);
      r
    else r
  }

  /** `topN(n, lastNDays)`: at most `n` entries of `salesByProduct` with the
      largest quantities, in non-increasing order, ties in map order; a
      negative `n` fails as `take` does. */
  function TopN(ledger: seq<Sale>, today: int, n: int, lastNDays: int): (r: Result<seq<(string, int)>>)
    ensures n < 0 <==> r.Err?
    ensures r.Ok? ==> |r.value| == Min(n, |SalesByProduct(ledger, today, lastNDays)|)
    ensures r.Ok? ==> forall i, j | 0 <= i < j < |r.value| :: r.value[i].1 >= r.value[j].1
    ensures r.Ok? ==> multiset(r.value) <= multiset(SalesByProduct(ledger, today, lastNDays))
    ensures r.Ok? ==> forall k :: Sorting.WithKey(r.value, QtyKey, k)
                                    <= Sorting.WithKey(SalesByProduct(ledger, today, lastNDays), QtyKey, k)
    ensures r.Ok? ==> forall x, y | x in r.value &&
              y in multiset(SalesByProduct(ledger, today, lastNDays)) - multiset(r.value) :: y.1 <= x.1
  {
    TopByQty(SalesByProduct(ledger, today, lastNDays), n)
  }

  /** The revenue ranking of a list of groups. */
  function TopByRevenue(g: seq<Tally>, n: int): (r: Result<seq<Tally>>)
    ensures n < 0 <==> r.Err?
    ensures r.Ok? ==> |r.value| == Min(n, |g|)
    ensures r.Ok? ==> forall i, j | 0 <= i < j < |r.value| :: r.value[i].revenue >= r.value[j].revenue
    ensures r.Ok? ==> multiset(r.value) <= multiset(g)
    ensures r.Ok? ==> forall k :: Sorting.WithKey(r.value, RevenueKey, k) <= Sorting.WithKey(g, RevenueKey, k)
    ensures r.Ok? ==> forall x, y | x in r.value && y in multiset(g) - multiset(r.value) ::
              y.revenue <= x.revenue
  {
    var r := Sorting.TopBy(g, n, RevenueKey);
    if r.Ok? then
      assert forall i, j | 0 <= i < j < |r.value| :: RevenueKey(r.value[i]) >= RevenueKey(r.value[j]);
      r
    else r
  }

  /** `topNByRevenue(n, lastNDays)`: at most `n` entries of
      `salesByProductWithRevenue` with the largest revenues, in
      non-increasing order, ties in map order, each carrying quantity and
      revenue; a negative `n` fails. */
  function TopNByRevenue(ledger: seq<Sale>, today: int, n: int, lastNDays: int): (r: Result<seq<Tally>>)
    ensures n < 0 <==> r.Err?
    ensures r.Ok? ==> |r.value| == Min(n, |SalesByProductWithRevenue(ledger, today, lastNDays)|)
    ensures r.Ok? ==> forall i, j | 0 <= i < j < |r.value| :: r.value[i].revenue >= r.value[j].revenue
    ensures r.Ok? ==> multiset(r.value) <= multiset(SalesByProductWithRevenue(ledger, today, lastNDays))
    ensures r.Ok? ==> forall k ::
              Sorting.WithKey(r.value, RevenueKey, k)
                <= Sorting.WithKey(SalesByProductWithRevenue(ledger, today, lastNDays), RevenueKey, k)
    ensures r.Ok? ==> forall x, y | x in r.value &&
              y in multiset(SalesByProductWithRevenue(ledger, today, lastNDays)) - multiset(r.value) ::
              y.revenue <= x.revenue
  {
    TopByRevenue(SalesByProductWithRevenue(ledger, today, lastNDays), n)
  }

  /** One row of `rotationRates`: product id, quantity sold in the window,
      rotation in percent. */
  datatype Rotation = Rotation(id: string, sold: int, rate: real)

  /** The row of one product: sold quantity over the stock, times 100, with
      a denominator of 1 when the stock is not positive. */
  function RotationOf(p: Product, sold: seq<(string, int)>): (r: Rotation)
    ensures r.id == p.id && r.sold == ValueOr0(sold, p.id)
    ensures p.currentStock <= 0 ==> r.rate == r.sold as real * 100.0
    ensures p.currentStock > 0 ==> r.rate * p.currentStock as real == r.sold as real * 100.0
  {
    var s := ValueOr0(sold, p.id);
    var denom := if p.currentStock <= 0 then 1 else p.currentStock;
    Rotation(p.id, s, (s as real / denom as real) * 100.0)
  }

  function RateKey(r: Rotation): real {
    r.rate
  }

  function RotationRows(products: seq<Product>, sold: seq<(string, int)>): (r: seq<Rotation>)
    ensures |r| == |products|
    ensures forall i | 0 <= i < |products| :: r[i] == RotationOf(products[i], sold)
  {
    seq(|products|, i requires 0 <= i < |products| => RotationOf(products[i], sold))
  }

  /** `rotationRates(lastNDays)`: one row per stored product, sorted by
      rotation, highest first, ties in store order. */
  function RotationRates(products: seq<Product>, ledger: seq<Sale>, today: int, lastNDays: int)
    : (r: seq<Rotation>)
    ensures |r| == |products|
    ensures multiset(r) == multiset(RotationRows(products, SalesByProduct(ledger, today, lastNDays)))
    ensures forall i, j | 0 <= i < j < |r| :: r[i].rate >= r[j].rate
    ensures forall k :: Sorting.WithKey(r, RateKey, k)
              == Sorting.WithKey(RotationRows(products, SalesByProduct(ledger, today, lastNDays)), RateKey, k)
  {
    var r := Sorting.SortDesc(RotationRows(products, SalesByProduct(ledger, today, lastNDays)), RateKey);
    assert forall i, j | 0 <= i < j < |r| :: RateKey(r[i]) >= RateKey(r[j]);
    r
  }

  /** Every stored product has its row, and the row's sold quantity is the
      product's window total. */
  lemma RotationRowOfProduct(products: seq<Product>, ledger: seq<Sale>, today: int, lastNDays: int, i: nat)
    requires i < |products|
    ensures var sold := SalesByProduct(ledger, today, lastNDays);
            RotationOf(products[i], sold) in RotationRates(products, ledger, today, lastNDays)
    ensures RotationOf(products[i], SalesByProduct(ledger, today, lastNDays)).sold
              == QtyOf(Window(ledger, today, lastNDays), products[i].id)
  {
    var sold := SalesByProduct(ledger, today, lastNDays);
    var rows := RotationRows(products, sold);
    assert rows[i] in multiset(rows);
    SoldQtyIsWindowTotal(ledger, today, lastNDays, products[i].id);
  }

  /** Looking up a product in `salesByProduct`, with 0 for a missing key,
      gives its window total. */
  lemma SoldQtyIsWindowTotal(ledger: seq<Sale>, today: int, lastNDays: int, id: string)
    ensures ValueOr0(SalesByProduct(ledger, today, lastNDays), id)
              == QtyOf(Window(ledger, today, lastNDays), id)
  {
    var w := Window(ledger, today, lastNDays);
    var sold := SalesByProduct(ledger, today, lastNDays);
    if !HasKey(sold, id) {
      SoldIffSome(w, id);
      UnsoldIsZero(w, id);
    }
  }

  /** A product holding more than its target, with the surplus. */
  predicate Over(p: Product) {
    p.currentStock > p.targetStock
  }

  function Surplus(p: Product): (string, int) {
    (p.id, p.currentStock - p.targetStock)
  }

  function SurplusRows(products: seq<Product>): (r: seq<(string, int)>)
    ensures forall e :: e in r <==> exists p | p in products :: Over(p) && e == Surplus(p)
    ensures |r| <= |products|
  {
    if |products| == 0 then []
    else
      var rest := SurplusRows(products[1..]);
      assert forall p | p in products :: p == products[0] || p in products[1..];
      (if Over(products[0]) then [Surplus(products[0])] else []) + rest
  }

  function SurplusKey(e: (string, int)): real {
    e.1 as real
  }

  /** `excessInventory()`: the products stocked above target, with the
      surplus, largest surplus first. */
  function ExcessInventory(products: seq<Product>): (r: seq<(string, int)>)
    ensures forall e :: e in r <==> exists p | p in products :: Over(p) && e == Surplus(p)
    ensures forall e | e in r :: e.1 > 0
    ensures forall i, j | 0 <= i < j < |r| :: r[i].1 >= r[j].1
    ensures multiset(r) == multiset(SurplusRows(products))
    ensures forall k :: Sorting.WithKey(r, SurplusKey, k) == Sorting.WithKey(SurplusRows(products), SurplusKey, k)
  {
    var rows := SurplusRows(products);
    var r := Sorting.SortDesc(rows, SurplusKey);
    Sorting.PermutationMembers(r, rows);
    assert forall i, j | 0 <= i < j < |r| :: SurplusKey(r[i]) >= SurplusKey(r[j]);
    r
  }

  /** The ids of `products` that are not keys of `sold`, in product order. */
  function Unsold(products: seq<Product>, sold: seq<(string, int)>): (r: seq<string>)
    ensures |r| <= |products|
    ensures forall id :: id in r <==> (exists p | p in products :: p.id == id) && !HasKey(sold, id)
  {
    if |products| == 0 then []
    else
      var rest := Unsold(products[1..], sold);
      assert forall p | p in products :: p == products[0] || p in products[1..];
      (if HasKey(sold, products[0].id) then [] else [products[0].id]) + rest
  }

  /** The filter distributes over concatenation, so it keeps store order. */
  lemma {:induction false} UnsoldAppend(a: seq<Product>, b: seq<Product>, sold: seq<(string, int)>)
    ensures Unsold(a + b, sold) == Unsold(a, sold) + Unsold(b, sold)
  {
    if |a| == 0 {
      assert a + b == b;
    } else {
      assert (a + b)[1..] == a[1..] + b;
      UnsoldAppend(a[1..], b, sold);
    }
  }

  /** `deadStock(lastNDays)`: the stored products with no sale in the
      window, in store order. */
  function DeadStock(products: seq<Product>, ledger: seq<Sale>, today: int, lastNDays: int)
    : (r: seq<string>)
    ensures forall id :: id in r <==>
              (exists p | p in products :: p.id == id) &&
              !SoldWithin(ledger, id, WindowStart(today, lastNDays), today)
  {
    Unsold(products, SalesByProduct(ledger, today, lastNDays))
  }

  /** Dead stock and the keys of `salesByProduct` are disjoint, and between
      them they cover every stored product. */
  lemma DeadStockPartition(products: seq<Product>, ledger: seq<Sale>, today: int, lastNDays: int)
    ensures var dead := DeadStock(products, ledger, today, lastNDays);
            var sold := SalesByProduct(ledger, today, lastNDays);
            (forall id | id in dead :: !HasKey(sold, id)) &&
            (forall p | p in products :: p.id in dead || HasKey(sold, p.id))
  {
  }
}
