/** `groupBy { it.productId }` followed by per-group sums of quantity and
    revenue, as the analysis services compute them. Kotlin's `groupBy`
    builds an insertion-ordered map, so the groups come in the order in
    which each product first occurs among the sales. */
module Grouping {
  import opened Entities

  /** The revenue of one sale: quantity times the price it was sold at. */
  function Amount(s: Sale): int {
    s.qty * s.priceAtSale
  }

  /** Total quantity sold of product `id`. */
  function QtyOf(sales: seq<Sale>, id: string): int
    decreases |sales|
  {
    if |sales| == 0 then 0
    else
      var last := sales[|sales| - 1];
      QtyOf(sales[..|sales| - 1], id) + (if last.productId == id then last.qty else 0)
  }

  /** Total revenue of product `id`. */
  function RevenueOf(sales: seq<Sale>, id: string): int
    decreases |sales|
  {
    if |sales| == 0 then 0
    else
      var last := sales[|sales| - 1];
      RevenueOf(sales[..|sales| - 1], id) + (if last.productId == id then Amount(last) else 0)
  }

  /** Total quantity of all sales. */
  function TotalQty(sales: seq<Sale>): int
    decreases |sales|
  {
    if |sales| == 0 then 0 else TotalQty(sales[..|sales| - 1]) + sales[|sales| - 1].qty
  }

  /** Total revenue of all sales. */
  function TotalRevenue(sales: seq<Sale>): int
    decreases |sales|
  {
    if |sales| == 0 then 0 else TotalRevenue(sales[..|sales| - 1]) + Amount(sales[|sales| - 1])
  }

  /** Appending a sale adds its quantity and its amount to the totals. */
  lemma TotalsAppend(sales: seq<Sale>, s: Sale)
    ensures TotalQty(sales + [s]) == TotalQty(sales) + s.qty
    ensures TotalRevenue(sales + [s]) == TotalRevenue(sales) + Amount(s)
  {
    assert (sales + [s])[..|sales|] == sales;
  }

  /** The position of the first sale of `id`, or `|sales|` if there is none. */
  function FirstPos(sales: seq<Sale>, id: string): (k: nat)
    ensures k <= |sales|
    ensures k < |sales| ==> sales[k].productId == id
    ensures forall j | 0 <= j < k :: sales[j].productId != id
  {
    if |sales| == 0 then 0
    else if sales[0].productId == id then 0
    else 1 + FirstPos(sales[1..], id)
  }

  predicate Sold(sales: seq<Sale>, id: string) {
    FirstPos(sales, id) < |sales|
  }

  /** `Sold` is membership of some sale of the product. */
  lemma SoldIffSome(sales: seq<Sale>, id: string)
    ensures Sold(sales, id) <==> exists s | s in sales :: s.productId == id
  {
    if Sold(sales, id) {
      assert sales[FirstPos(sales, id)] in sales;
    }
  }

  /** The first position is the only one with those properties. */
  lemma FirstPosUnique(sales: seq<Sale>, id: string, k: nat)
    requires k <= |sales|
    requires k < |sales| ==> sales[k].productId == id
    requires forall j | 0 <= j < k :: sales[j].productId != id
    ensures FirstPos(sales, id) == k
  {
  }

  /** How appending one sale changes the per-product sums and positions. */
  lemma Extend(init: seq<Sale>, last: Sale, id: string)
    ensures QtyOf(init + [last], id) == QtyOf(init, id) + (if last.productId == id then last.qty else 0)
    ensures RevenueOf(init + [last], id) == RevenueOf(init, id) + (if last.productId == id then Amount(last) else 0)
    ensures Sold(init, id) ==> FirstPos(init + [last], id) == FirstPos(init, id)
    ensures !Sold(init, id) && last.productId == id ==> FirstPos(init + [last], id) == |init|
    ensures Sold(init + [last], id) <==> Sold(init, id) || last.productId == id
  {
    var s := init + [last];
    assert s[..|init|] == init;
    var f := FirstPos(init, id);
    if f < |init| {
      FirstPosUnique(s, id, f);
    } else if last.productId == id {
      FirstPosUnique(s, id, |init|);
    } else {
      FirstPosUnique(s, id, |s|);
    }
  }

  /** A product without sales sums to zero. */
  lemma {:induction false} UnsoldIsZero(sales: seq<Sale>, id: string)
    requires !Sold(sales, id)
    ensures QtyOf(sales, id) == 0 && RevenueOf(sales, id) == 0
    decreases |sales|
  {
    if |sales| > 0 {
      var init := sales[..|sales| - 1];
      assert sales == init + [sales[|sales| - 1]];
      Extend(init, sales[|sales| - 1], id);
      UnsoldIsZero(init, id);
    }
  }

  /** One group: a product id with its summed quantity and revenue. */
  datatype Tally = Tally(id: string, qty: int, revenue: int)

  predicate DistinctTallies(g: seq<Tally>) {
    forall i, j | 0 <= i < j < |g| :: g[i].id != g[j].id
  }

  /** The position of the group of `id`, or `|g|`. */
  function TallyIndex(g: seq<Tally>, id: string): (k: nat)
    ensures k <= |g|
    ensures k < |g| ==> g[k].id == id
    ensures forall j | 0 <= j < k :: g[j].id != id
  {
    if |g| == 0 then 0
    else if g[0].id == id then 0
    else 1 + TallyIndex(g[1..], id)
  }

  /** Adds one sale to the groups: into the group of its product when there
      is one, else as a new group at the end. */
  function Add(g: seq<Tally>, sale: Sale): (r: seq<Tally>)
    requires DistinctTallies(g)
    ensures DistinctTallies(r)
    ensures var k := TallyIndex(g, sale.productId);
            (k < |g| ==>
               |r| == |g| &&
               r[k] == Tally(sale.productId, g[k].qty + sale.qty, g[k].revenue + Amount(sale))) &&
            (k == |g| ==> |r| == |g| + 1 && r[k] == Tally(sale.productId, sale.qty, Amount(sale))) &&
            forall i | 0 <= i < |g| && i != k :: r[i] == g[i]
  {
    var k := TallyIndex(g, sale.productId);
    if k < |g| then g[k := Tally(sale.productId, g[k].qty + sale.qty, g[k].revenue + Amount(sale))]
    else g + [Tally(sale.productId, sale.qty, Amount(sale))]
  }

  /** `g` groups `sales`: one group per sold product and no other, carrying
      that product's sums, in order of first sale. */
  ghost predicate GroupsOf(sales: seq<Sale>, g: seq<Tally>) {
    DistinctTallies(g) &&
    (forall i | 0 <= i < |g| ::
       Sold(sales, g[i].id) && g[i].qty == QtyOf(sales, g[i].id) &&
       g[i].revenue == RevenueOf(sales, g[i].id)) &&
    (forall id | Sold(sales, id) :: TallyIndex(g, id) < |g|) &&
    (forall i, j | 0 <= i < j < |g| :: FirstPos(sales, g[i].id) < FirstPos(sales, g[j].id))
  }

  lemma GroupStepSums(init: seq<Sale>, last: Sale, g: seq<Tally>)
    requires GroupsOf(init, g)
    ensures var s := init + [last]; var r := Add(g, last);
            forall i | 0 <= i < |r| ::
              Sold(s, r[i].id) && r[i].qty == QtyOf(s, r[i].id) &&
              r[i].revenue == RevenueOf(s, r[i].id)
  {
    var s := init + [last];
    var r := Add(g, last);
    var id := last.productId;
    var k := TallyIndex(g, id);
    forall i | 0 <= i < |r|
      ensures Sold(s, r[i].id) && r[i].qty == QtyOf(s, r[i].id) &&
              r[i].revenue == RevenueOf(s, r[i].id)
    {
      Extend(init, last, r[i].id);
      if i == k && k == |g| {
        assert !Sold(init, id);
        UnsoldIsZero(init, id);
      }
    }
  }

  lemma GroupStepCovers(init: seq<Sale>, last: Sale, g: seq<Tally>)
    requires GroupsOf(init, g)
    ensures var s := init + [last]; var r := Add(g, last);
            forall x | Sold(s, x) :: TallyIndex(r, x) < |r|
  {
    var s := init + [last];
    var r := Add(g, last);
    forall x | Sold(s, x) ensures TallyIndex(r, x) < |r| {
      Extend(init, last, x);
      if x != last.productId {
        var j := TallyIndex(g, x);
        assert r[j] == g[j];
      }
    }
  }

  lemma GroupStepOrder(init: seq<Sale>, last: Sale, g: seq<Tally>)
    requires GroupsOf(init, g)
    ensures var s := init + [last]; var r := Add(g, last);
            forall i, j | 0 <= i < j < |r| :: FirstPos(s, r[i].id) < FirstPos(s, r[j].id)
  {
    var s := init + [last];
    var r := Add(g, last);
    forall i, j | 0 <= i < j < |r| ensures FirstPos(s, r[i].id) < FirstPos(s, r[j].id) {
      Extend(init, last, r[i].id);
      Extend(init, last, r[j].id);
      if j == |g| {
        assert !Sold(init, last.productId);
        assert Sold(init, g[i].id);
      } else {
        assert r[i].id == g[i].id && r[j].id == g[j].id;
      }
    }
  }

  lemma GroupStep(init: seq<Sale>, last: Sale, g: seq<Tally>)
    requires GroupsOf(init, g)
    ensures GroupsOf(init + [last], Add(g, last))
  {
    GroupStepSums(init, last, g);
    GroupStepCovers(init, last, g);
    GroupStepOrder(init, last, g);
  }

  /** `groupBy { productId }` with quantity and revenue sums per group. */
  function GroupSales(sales: seq<Sale>): (r: seq<Tally>)
    ensures GroupsOf(sales, r)
    decreases |sales|
  {
    if |sales| == 0 then []
    else
      var init := sales[..|sales| - 1];
      var last := sales[|sales| - 1];
      assert sales == init + [last];
      var g := GroupSales(init);
      GroupStep(init, last, g);
      Add(g, last)
  }

  /** Σ of the groups' quantities. */
  function SumQty(g: seq<Tally>): int {
    if |g| == 0 then 0 else g[0].qty + SumQty(g[1..])
  }

  /** Σ of the groups' revenues. */
  function SumRevenue(g: seq<Tally>): int {
    if |g| == 0 then 0 else g[0].revenue + SumRevenue(g[1..])
  }

  lemma {:induction false} SumsAppend(g: seq<Tally>, t: Tally)
    ensures SumQty(g + [t]) == SumQty(g) + t.qty
    ensures SumRevenue(g + [t]) == SumRevenue(g) + t.revenue
  {
    if |g| > 0 {
      assert (g + [t])[1..] == g[1..] + [t];
      SumsAppend(g[1..], t);
    }
  }

  lemma {:induction false} SumsUpdate(g: seq<Tally>, k: nat, t: Tally)
    requires k < |g|
    ensures SumQty(g[k := t]) == SumQty(g) - g[k].qty + t.qty
    ensures SumRevenue(g[k := t]) == SumRevenue(g) - g[k].revenue + t.revenue
  {
    if k > 0 {
      assert g[k := t][1..] == g[1..][k - 1 := t];
      SumsUpdate(g[1..], k - 1, t);
    }
  }

  /** Grouping loses nothing: the groups' sums add up to the totals. */
  lemma {:induction false} GroupSums(sales: seq<Sale>)
    ensures SumQty(GroupSales(sales)) == TotalQty(sales)
    ensures SumRevenue(GroupSales(sales)) == TotalRevenue(sales)
    decreases |sales|
  {
    if |sales| > 0 {
      var init := sales[..|sales| - 1];
      var last := sales[|sales| - 1];
      var g := GroupSales(init);
      GroupSums(init);
      var k := TallyIndex(g, last.productId);
      if k < |g| {
        SumsUpdate(g, k, Add(g, last)[k]);
        assert Add(g, last) == g[k := Add(g, last)[k]];
      } else {
        SumsAppend(g, Add(g, last)[k]);
        assert Add(g, last) == g + [Add(g, last)[k]];
      }
    }
  }
}
