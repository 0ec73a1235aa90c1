/** The alternate inventory service (service/InventoryService.kt): unknown
    ids are ignored, stock is clamped at zero instead of validated, and
    sales are priced by the fixed tiers of `TierPricing`. Its `stockStatus`
    is the same test as `Inventory.StockStatusOf`. */
module ClampedInventory {
  import opened Common
  import opened Entities
  import TierPricing
  import Repo = ProductRepository
  import Ledger = SalesRepository
  import opened Inventory

  /** `daysLeft(p)` of this variant: `Period.between(today, expiry).days`
      is only the day component of a calendar period, which the model takes
      as the parameter `periodDays`. */
  function VariantDaysLeft(p: Product, periodDays: int): (r: Option<int>)
    ensures r.None? <==> p.expiryDate.None?
    ensures r.Some? ==> r.value == periodDays
  {
    match p.expiryDate
    case None => None
    case Some(_) => Some(periodDays)
  }

  /** `receiveStock(id, qty)`: an unknown id is silently ignored; otherwise
      the stock becomes `max(stock + qty, 0)`, whatever the sign of `qty`. */
  function ReceiveStock(st: Stores, id: string, qty: int): (r: Stores)
    ensures Repo.FindById(st.products, id).None? ==> r == st
    ensures Repo.FindById(st.products, id).Some? ==>
              StockSetTo(st.products, r.products, id,
                         Max(Repo.FindById(st.products, id).value.currentStock + qty, 0))
    ensures r.sales == st.sales
    ensures Valid(st) ==> Valid(r)
  {
    match Repo.FindById(st.products, id)
    case None => st
    case Some(p) => st.(products := WithStock(st.products, p, Max(p.currentStock + qty, 0)))
  }

  /** `sell(id, qty)`: an unknown id is silently ignored; otherwise the
      stock becomes `max(stock - qty, 0)` and a sale of the requested,
      unclamped `qty` is recorded at the tier price. */
  function Sell(st: Stores, id: string, qty: int, periodDays: int, saleDate: int): (r: Stores)
    ensures Repo.FindById(st.products, id).None? ==> r == st
    ensures Repo.FindById(st.products, id).Some? ==>
              var p := Repo.FindById(st.products, id).value;
              StockSetTo(st.products, r.products, id, Max(p.currentStock - qty, 0)) &&
              r.sales == st.sales + [Sale(id, qty,
                TierPricing.FinalPrice(p.price, VariantDaysLeft(p, periodDays)), saleDate)]
    ensures Valid(st) ==> Valid(r)
  {
    match Repo.FindById(st.products, id)
    case None => st
    case Some(p) =>
      var sale := Sale(id, qty, TierPricing.FinalPrice(p.price, VariantDaysLeft(p, periodDays)), saleDate);
      Stores(WithStock(st.products, p, Max(p.currentStock - qty, 0)), Ledger.Record(st.sales, sale))
  }

  /** Selling more than the stock empties it but still records the full
      requested quantity. */
  lemma OversellRecordsRequested(st: Stores, id: string, qty: int, periodDays: int, saleDate: int)
    requires Repo.FindById(st.products, id).Some?
    requires qty > Repo.FindById(st.products, id).value.currentStock
    ensures Repo.FindById(Sell(st, id, qty, periodDays, saleDate).products, id).value.currentStock == 0
    ensures Sell(st, id, qty, periodDays, saleDate).sales[|st.sales|].qty == qty
  {
  }

  /** `reorderPoint(avgDaily, leadDays, safety)`: the expected demand over
      the lead time, truncated to `Int`, plus the safety stock. */
  function ReorderPoint(avgDaily: real, leadDays: int, safety: int): (r: int)
    ensures 0.0 <= avgDaily * leadDays as real <= IntMax as real ==>
              (r - safety) as real <= avgDaily * leadDays as real < (r - safety) as real + 1.0
    ensures avgDaily * leadDays as real >= IntMax as real ==> r == IntMax + safety
  {
    ToInt(avgDaily * leadDays as real) + safety
  }

  /** For non-negative inputs, the reorder point is at least the safety
      stock and grows with the daily average. */
  lemma ReorderPointMonotone(avg1: real, avg2: real, leadDays: int, safety: int)
    requires 0.0 <= avg1 <= avg2 && leadDays >= 0
    ensures safety <= ReorderPoint(avg1, leadDays, safety) <= ReorderPoint(avg2, leadDays, safety)
  {
    var lead := leadDays as real;
    var x1 := avg1 * lead;
    var x2 := avg2 * lead;
    assert x2 - x1 == (avg2 - avg1) * lead;
    MulNonNegative(avg2 - avg1, lead);
    MulNonNegative(avg1, lead);
    ToIntMonotone(0.0, x1);
    ToIntMonotone(x1, x2);
    assert ReorderPoint(avg1, leadDays, safety) == ToInt(x1) + safety;
    assert ReorderPoint(avg2, leadDays, safety) == ToInt(x2) + safety;
  }

  /** A call on this variant. */
  datatype ClampedOp =
    | ReceiveStockOp(id: string, qty: int)
    | SellOp(id: string, qty: int, periodDays: int, saleDate: int)

  function ApplyOp(st: Stores, op: ClampedOp): Stores {
    match op
    case ReceiveStockOp(id, qty) => ReceiveStock(st, id, qty)
    case SellOp(id, qty, periodDays, saleDate) => Sell(st, id, qty, periodDays, saleDate)
  }

  function RunAll(st: Stores, ops: seq<ClampedOp>): Stores
    decreases |ops|
  {
    if |ops| == 0 then st else RunAll(ApplyOp(st, ops[0]), ops[1..])
  }

  /** Under this variant the stock never goes negative, whatever the calls
      and their quantities. */
  lemma {:induction false} RunAllKeepsValid(st: Stores, ops: seq<ClampedOp>)
    requires Valid(st)
    ensures Valid(RunAll(st, ops))
    decreases |ops|
  {
    if |ops| > 0 {
      RunAllKeepsValid(ApplyOp(st, ops[0]), ops[1..]);
    }
  }
}
