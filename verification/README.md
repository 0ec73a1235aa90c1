# Convenience-store inventory, pricing and sales analytics in Dafny

This project models the core of a Kotlin convenience-store stock system:

- **Discount pricing.** A step policy maps days-to-expiry to a discount rate, with an optional manual rate per product. `discounted` turns a list price and a rate into a truncated, non-negative price. An older tier variant and the policy lookup of the product extensions are also modelled.
- **Stock changes.** The inventory service receives, sells and disposes of stock. Each call validates its arguments in the source's order and fails with `NotFound`, `InvalidArgument` or `InsufficientStock`. A sale appends one record to the ledger at the discounted price. The service also answers stock-status, days-left, reorder and expiring-soon queries. A second service variant clamps stock at zero and ignores unknown ids.
- **Stores.** The sales ledger is append-only. The product store is an insertion-ordered map keyed by id, modelled as a sequence with distinct ids.
- **Ledger analytics.** The analytics cover per-product quantity and revenue over a window of recent days, today's totals, top-N by quantity and by revenue, rotation rates, excess stock, dead stock and the ABC classification by cumulative revenue share.
- **Small helpers.** These are category parsing by name, display name and alias, the mutators of the mutable `Product`, and `shortage`/`stockRate` of `BaseProduct`.

The modelling choices are:

- Dates are integer day numbers. "Today" and the date a sale is stamped with are parameters.
- Rates, thresholds and ratios are exact `real`s.
- `Double.toInt()` is written out as truncation toward zero that saturates at the `Int` bounds (`Common.ToInt`).
- Every service call is a pure function from the store state to a `Result`. A failed call leaves the caller's state untouched.
- Kotlin's insertion-ordered maps (`groupBy`, `mapValues`, `linkedMapOf`) are sequences of key/value pairs. Their order is part of the contracts of the grouping functions (`Grouping`), of `revenueByProduct` and `salesByProductWithRevenue`, and of every sort.
- `sortedByDescending` is a stable sort (`Sorting.SortDesc`). Stability is stated as "for every key value, the elements with that key keep their relative order".

Modules, one per source component:

| module | file | models |
|---|---|---|
| `Common` | common.dfy | optional values, results, errors, `Int` bounds, `Double.toInt()` |
| `Categories` | categories.dfy | `ProductCategory`, its `parse`, `StockStatus` |
| `Entities` | entities.dfy | the service-level `Product` and `Sale` |
| `Money` | money.dfy | `discounted` |
| `Pricing` | pricing.dfy | the policy and manual-discount pricing service |
| `TierPricing` | tier_pricing.dfy | the tier pricing variant |
| `ProductRepository` | product_repository.dfy | the insertion-ordered product store |
| `SalesRepository` | sales_repository.dfy | the append-only ledger |
| `Inventory` | inventory.dfy | the validating inventory service |
| `ClampedInventory` | clamped_inventory.dfy | the clamping inventory variant |
| `Grouping` | grouping.dfy | `groupBy { productId }` with sums |
| `Sorting` | sorting.dfy | stable `sortedByDescending` and `take` |
| `Analysis` | analysis.dfy | the windowed analytics |
| `AbcAnalysis` | abc_analysis.dfy | ABC classification |
| `SimpleProduct` | simple_product.dfy | the mutable `Product` and its mutators |
| `BaseProducts` | base_product.dfy | `BaseProduct.stockRate`/`shortage` |
| `ProductExtensions` | product_extensions.dfy | the extension functions |
| `CategoryExamples` | category_examples.dfy | worked `parse` inputs |

## Model

| member | source | states |
|---|---|---|
| Common.ToInt | src/main/kotlin/store/util/Money.kt:17 | `toInt()` truncates toward zero: for a value in the `Int` range, the result is the integer part. Values beyond the range saturate at `Int.MAX_VALUE`/`Int.MIN_VALUE`. |
| Common.FirstIndex | src/main/kotlin/store/Enums.kt:20 | `firstOrNull`/`indexOfFirst`: the first position whose element satisfies the predicate, every earlier element failing it; the length when none does. |
| Common.ToIntMonotone | src/main/kotlin/store/util/Money.kt:17 | Truncation to `Int` never reverses the order of two amounts. |
| Money.Discounted | src/main/kotlin/store/util/Money.kt:16-17 | The discounted price is a valid non-negative `Int`. It is 0 when `price * (1 - rate)` is not positive. Otherwise it is the floor of that exact amount. |
| Money.FloorAtZero | src/main/kotlin/store/util/Money.kt:17 | `max(0.0, x).toInt()` lies in [0, Int.MAX_VALUE]. It is 0 for non-positive `x` and the floor of `x` within range. |
| Money.FloorAtZeroMonotone | src/main/kotlin/store/util/Money.kt:17 | Flooring at zero is monotone. |
| Money.DiscountedNoRate | src/main/kotlin/store/util/Money.kt:16-17 | A zero rate leaves any valid non-negative price unchanged. |
| Money.DiscountedFullRate | src/main/kotlin/store/util/Money.kt:16-17 | A rate of 1 or more prices every non-negative price at 0. |
| Money.DiscountedAntitone | src/main/kotlin/store/util/Money.kt:16-17 | For a fixed non-negative price, a larger rate never gives a larger result. |
| Money.ScaledAntitone | src/main/kotlin/store/util/Money.kt:17 | The exact amount before truncation decreases as the rate grows. |
| Money.ScaledWithin | src/main/kotlin/store/util/Money.kt:17 | For a rate in [0, 1], the exact amount lies between 0 and the price. |
| Money.DiscountedAtMostPrice | src/main/kotlin/store/util/Money.kt:16-17 | A non-negative rate never raises a valid price. |
| Money.DiscountedTruncates | src/main/kotlin/store/util/Money.kt:14-17 | Rounding is downward: 2000 at 70% off is 600, and 999 at 50% off is 499, not 500. |
| Pricing.Lookup | src/main/kotlin/store/PricingService.kt:27 | `policy[key]` is absent exactly when no entry has the key. When present, it is the rate of an entry stored under that key. |
| Pricing.LargestKeyAtMost | src/main/kotlin/store/PricingService.kt:26 | The first key of the descending key list that is at most `daysLeft` is the largest such key. There is none exactly when every key exceeds `daysLeft`. |
| Pricing.RateByDaysLeft | src/main/kotlin/store/PricingService.kt:24-28 | No expiry gives rate 0. With a policy whose rates are fractions, the rate is a fraction. |
| Pricing.DefaultPolicyKeys | src/main/kotlin/store/PricingService.kt:11-18 | The default policy's keys are `Int.MAX_VALUE`, 3, 2, 1, 0 and `Int.MIN_VALUE`. |
| Pricing.DefaultKey | src/main/kotlin/store/PricingService.kt:11-18 | Under the default policy the selected key is: `Int.MAX_VALUE` at the top; 3 for three days or more; the day count itself for 0..2; `Int.MIN_VALUE` for any negative count. |
| Pricing.LookupEntry | src/main/kotlin/store/PricingService.kt:27 | In a policy with distinct keys, looking up an entry's key yields that entry's rate. |
| Pricing.DefaultLookups | src/main/kotlin/store/PricingService.kt:11-18 | The default map holds 0, 0, 0.3, 0.5, 0.7 and 0.7 under its six keys. |
| Pricing.DefaultRate | src/main/kotlin/store/PricingService.kt:11-28 | Under the default policy, every `Int` day count gets the step rate: three or more days 0, two days 0.3, one day 0.5, and zero or any negative count (down to `Int.MIN_VALUE`) 0.7. |
| Pricing.DefaultRateNonIncreasing | src/main/kotlin/store/PricingService.kt:11-28 | Under the default policy, more days left never gives a larger discount. |
| Pricing.DefaultRateInUnit | src/main/kotlin/store/PricingService.kt:11-28 | Under the default policy every rate lies in [0, 1], with or without an expiry. |
| Pricing.Init | src/main/kotlin/store/PricingService.kt:10-21 | A fresh service has no manual rates. It is well formed when the policy's rates are fractions. |
| Pricing.CurrentDiscountRate | src/main/kotlin/store/PricingService.kt:33-35 | A registered manual rate is the current rate, whatever the days left. Without one, the current rate is the policy rate for the days left. It is a fraction in a well-formed service. |
| Pricing.ManualDiscountRate | src/main/kotlin/store/PricingService.kt:31 | A manual rate is reported exactly when one is registered for the id, and it is the registered value. In a well-formed service it is a fraction. |
| Pricing.SetManualDiscount | src/main/kotlin/store/PricingService.kt:38-41 | A percent outside 0..100 fails with `InvalidArgument`, and no new state exists. Success registers `percent / 100` as the product's manual rate, keeps the policy and every other product's manual rate, and keeps the service well formed. |
| Pricing.ClearManualDiscount | src/main/kotlin/store/PricingService.kt:44-46 | Afterwards the product has no manual rate. The policy and every other product's manual rate are unchanged. |
| Pricing.SetThenCurrent | src/main/kotlin/store/PricingService.kt:34-41 | After setting `p` percent, the product's current rate is `p/100` for every day count, whatever was set before. Other products' rates are unaffected. |
| Pricing.ClearThenCurrent | src/main/kotlin/store/PricingService.kt:34-46 | After clearing, the product's current rate is the policy rate for its days left. |
| Pricing.ClearIdempotent | src/main/kotlin/store/PricingService.kt:44-46 | Clearing twice is clearing once. |
| TierPricing.RateByDaysLeft | src/main/kotlin/store/service/PricingService.kt:10-17 | No expiry gives 0. Every rate lies in [0, 0.5]. Zero or negative days give 0.5, and four or more days give 0. |
| TierPricing.RateTiers | src/main/kotlin/store/service/PricingService.kt:12-15 | For 1, 2 and 3 days left the rate is 0.4, 0.3 and 0.2, i.e. `(5 - d)/10`. |
| TierPricing.RateNonIncreasing | src/main/kotlin/store/service/PricingService.kt:10-17 | More days left never gives a larger tier rate. |
| TierPricing.FinalPrice | src/main/kotlin/store/service/PricingService.kt:20-21 | The final price is never negative. It never exceeds a non-negative list price. With no expiry it is the list price (the discount of each tier is stated by `FinalPriceTiers`). |
| TierPricing.FinalPriceTiers | src/main/kotlin/store/service/PricingService.kt:10-21 | The tier variant discounts the price by half on or past the expiry day and by (5 - d)/10 with d = 1..3 days left. From four days on it charges the list price. |
| TierPricing.FinalPriceNonDecreasing | src/main/kotlin/store/service/PricingService.kt:20-21 | The final price never falls as expiry recedes. |
| ProductRepository.IndexOf | src/main/kotlin/store/ProductRepository.kt:13 | The position of an id in the ordered map: absent exactly when no stored product has the id, otherwise the first such position. |
| ProductRepository.FindAll | src/main/kotlin/store/ProductRepository.kt:15 | `findAll()` lists the stored products in insertion order, with pairwise distinct ids. |
| ProductRepository.FindById | src/main/kotlin/store/ProductRepository.kt:16 | `findById(id)` is absent exactly when no product has the id. Otherwise it is a stored product carrying that id. |
| ProductRepository.Save | src/main/kotlin/store/ProductRepository.kt:17 | A new id is appended at the end. An existing id is replaced in place, and every other position is kept. Ids stay distinct. |
| ProductRepository.Delete | src/main/kotlin/store/ProductRepository.kt:18 | After `delete(id)` the store holds exactly the earlier products with other ids. |
| ProductRepository.FindAfterSave | src/main/kotlin/store/ProductRepository.kt:16-17 | Right after `save(p)`, `findById(p.id)` is `p`. |
| ProductRepository.SaveKeepsOthers | src/main/kotlin/store/ProductRepository.kt:16-17 | Saving one product changes no other id's lookup. |
| ProductRepository.SaveLookups | src/main/kotlin/store/ProductRepository.kt:16-17 | After `save(p)` the store finds `p` under its id and the old product under every other id. It holds nothing but `p` and earlier products. |
| ProductRepository.SaveTwice | src/main/kotlin/store/ProductRepository.kt:17 | Two saves under one id leave the store as the second save alone would. |
| ProductRepository.SaveStored | src/main/kotlin/store/ProductRepository.kt:17 | Re-saving the product already stored changes nothing. |
| ProductRepository.FindAfterDelete | src/main/kotlin/store/ProductRepository.kt:16-18 | After `delete(id)`, `findById(id)` is absent. |
| ProductRepository.FindByIdTail | src/main/kotlin/store/ProductRepository.kt:16 | A lookup skips a leading product with another id. |
| ProductRepository.DeleteKeepsOthers | src/main/kotlin/store/ProductRepository.kt:16-18 | Deleting one id changes no other id's lookup. |
| ProductRepository.DeleteAbsent | src/main/kotlin/store/ProductRepository.kt:18 | Deleting an id that is not stored is a no-op. |
| ProductRepository.DeleteRemovesOne | src/main/kotlin/store/ProductRepository.kt:18 | In a store with distinct ids, deletion removes exactly the one position of the id and keeps the others in order. |
| ProductRepository.DeleteKeepsDistinct | src/main/kotlin/store/ProductRepository.kt:18 | Deletion keeps ids distinct. |
| ProductRepository.ApplyAllKeepsDistinct | src/main/kotlin/store/ProductRepository.kt:13-18 | Every store reachable by saves and deletes has pairwise distinct ids, as a map must. |
| SalesRepository.Record | src/main/kotlin/store/SalesRepository.kt:16-18 | Recording appends exactly the sale. The earlier ledger is kept as a prefix, so nothing is removed or reordered. |
| SalesRepository.All | src/main/kotlin/store/SalesRepository.kt:20 | `all()` is the ledger itself, a value that later records do not change. |
| SalesRepository.ByDateRange | src/main/kotlin/store/SalesRepository.kt:22-23 | The result holds exactly the ledger's sales dated in the closed range. It is a sub-multiset of `all()`. |
| SalesRepository.ByDateRangeAppend | src/main/kotlin/store/SalesRepository.kt:22-23 | The filter distributes over concatenation, so results keep ledger order. |
| SalesRepository.RecordThenRange | src/main/kotlin/store/SalesRepository.kt:16-23 | Recording a sale adds it to the end of exactly the ranges containing its date. |
| SalesRepository.ByDateRangeInverted | src/main/kotlin/store/SalesRepository.kt:23 | A range with `from > toInclusive` is empty. |
| SalesRepository.ByDateRangeAll | src/main/kotlin/store/SalesRepository.kt:23 | A range covering every sale's date returns the whole ledger. |
| Inventory.RatioBelowPositiveTarget | src/main/kotlin/store/InventoryService.kt:13 | For a positive target, `current / target < threshold` is `current < threshold * target`. |
| Inventory.StockStatusOf | src/main/kotlin/store/InventoryService.kt:11-15 | `OUT_OF_STOCK` exactly when stock is 0 or less. `LOW` exactly when in stock and the ratio is below the threshold. A zero target with stock in hand is `SUFFICIENT`. |
| Inventory.StockStatusPositiveTarget | src/main/kotlin/store/InventoryService.kt:11-15 | With a positive target and stock in hand: `LOW` iff `stock < threshold * target`, and `SUFFICIENT` iff not. |
| Inventory.DaysLeft | src/main/kotlin/store/InventoryService.kt:18-20 | Absent exactly when the expiry date is absent. Otherwise it is the day count from today to expiry. |
| Inventory.WithStock | src/main/kotlin/store/InventoryService.kt:25 | Saving `p.copy(currentStock = s)` sets the stock of `p`'s id only. The product keeps its position: every position holds the same id as before, so the store keeps its order. Length and id distinctness are kept. |
| Inventory.WithStockRestored | src/main/kotlin/store/InventoryService.kt:25 | Setting the stock back to its old level restores the store exactly. |
| Inventory.Receive | src/main/kotlin/store/InventoryService.kt:22-26 | An unknown id fails with `NotFound` before the quantity is checked. A non-positive quantity fails with `InvalidArgument`. Success adds the quantity to that product's stock only, keeps every product in its position, leaves the ledger alone and keeps stock non-negative. |
| Inventory.PriceAtSale | src/main/kotlin/store/InventoryService.kt:34-36 | A sale is priced at the list price discounted at the product's manual rate when one is registered. Otherwise it uses the policy rate for the days left to expiry. The price is never negative, never exceeds a valid list price, and a manual rate of 0 gives the list price. |
| Inventory.PriceAtPolicyRate | src/main/kotlin/store/InventoryService.kt:34-36 | Without a manual rate, a product with `d` days left sells at the list price discounted by the policy's rate for `d` days. |
| Inventory.PriceAtSaleDefault | src/main/kotlin/store/InventoryService.kt:33-36 | Under the default policy and with no manual rate, a product with `e - today` days left sells at the price discounted by the default step for those days. |
| Inventory.Sell | src/main/kotlin/store/InventoryService.kt:28-40 | Checks run in order: unknown id (`NotFound`), non-positive quantity (`InvalidArgument`), quantity above stock (`InsufficientStock`). Success lowers that product's stock by the quantity, keeps every product in its position and appends exactly one sale at the discounted price. Stock stays non-negative. |
| Inventory.Dispose | src/main/kotlin/store/InventoryService.kt:43-48 | The checks and order are those of `sell`. Success lowers the stock by the quantity, keeps every product in its position and never touches the ledger. |
| Inventory.DisposeMatchesSell | src/main/kotlin/store/InventoryService.kt:28-48 | `dispose` and `sell` succeed and fail together, with the same error. They leave the same products. |
| Inventory.NeedsReorder | src/main/kotlin/store/InventoryService.kt:50-51 | With a positive target, reorder iff `stock < threshold * target`. With a zero target (division by zero), reorder iff stock is negative. |
| Inventory.NeedsReorderIsLow | src/main/kotlin/store/InventoryService.kt:11-15 | For a product in stock, needing a reorder is the `LOW` status. |
| Inventory.ExpiringSoon | src/main/kotlin/store/InventoryService.kt:53-54 | Keeps exactly the products with an expiry date 0..`warnDays` days away. Products without an expiry are excluded. |
| Inventory.ExpiringSoonAppend | src/main/kotlin/store/InventoryService.kt:53-54 | The filter distributes over concatenation, so it keeps list order. |
| Inventory.RunKeepsValid | src/main/kotlin/store/InventoryService.kt:22-48 | From non-negative stock with distinct ids, every sequence of receive/sell/dispose calls keeps both, whichever calls fail. |
| Inventory.SellThenReceive | src/main/kotlin/store/InventoryService.kt:22-40 | A successful `sell(id, q)` followed by `receive(id, q)` restores the product store. The ledger keeps the one added sale. |
| Inventory.SellFound | src/main/kotlin/store/InventoryService.kt:28-40 | A sell of a stored product within its stock stores the lowered stock and appends the sale. |
| Inventory.ReceiveFound | src/main/kotlin/store/InventoryService.kt:22-26 | A receive of a stored product stores the raised stock. |
| Inventory.DisposeFound | src/main/kotlin/store/InventoryService.kt:43-48 | A dispose of a stored product within its stock stores the lowered stock. |
| Inventory.ReceiveThenDispose | src/main/kotlin/store/InventoryService.kt:22-48 | A successful `receive(id, q)` followed by `dispose(id, q)` restores the whole state. |
| ClampedInventory.VariantDaysLeft | src/main/kotlin/store/service/InventoryService.kt:24-26 | Absent exactly when there is no expiry date. Otherwise it is the day component of the period, taken as a parameter. |
| ClampedInventory.ReceiveStock | src/main/kotlin/store/service/InventoryService.kt:29-32 | An unknown id is a silent no-op. Otherwise stock becomes `max(stock + qty, 0)` for any `qty`. The ledger is untouched and stock stays non-negative. |
| ClampedInventory.Sell | src/main/kotlin/store/service/InventoryService.kt:35-40 | An unknown id is a silent no-op. Otherwise stock becomes `max(stock - qty, 0)`, and one sale is appended at the tier final price with the requested quantity. |
| ClampedInventory.OversellRecordsRequested | src/main/kotlin/store/service/InventoryService.kt:37-39 | Selling more than the stock empties it, yet the sale records the full requested quantity. |
| ClampedInventory.ReorderPoint | src/main/kotlin/store/service/InventoryService.kt:43-44 | For a non-negative expected demand in range, the result minus safety is the floor of `avgDaily * leadDays`. Demand beyond `Int.MAX_VALUE` saturates. |
| ClampedInventory.ReorderPointMonotone | src/main/kotlin/store/service/InventoryService.kt:43-44 | For non-negative inputs the reorder point is at least the safety stock, and grows with the daily average. |
| ClampedInventory.RunAllKeepsValid | src/main/kotlin/store/service/InventoryService.kt:29-40 | Under this variant no sequence of calls makes any stock negative or duplicates an id. |
| Grouping.FirstPos | src/main/kotlin/store/AnalysisService.kt:13 | The position of a product's first sale, where `groupBy` creates its group. |
| Grouping.SoldIffSome | src/main/kotlin/store/AnalysisService.kt:13 | A product has a group exactly when some sale carries its id. |
| Grouping.FirstPosUnique | src/main/kotlin/store/AnalysisService.kt:13 | The first-sale position is the unique position with its defining properties. |
| Grouping.Extend | src/main/kotlin/store/AnalysisService.kt:13-14 | Appending a sale adds its quantity and revenue to its own product only. It creates a group only for a product not yet seen. |
| Grouping.UnsoldIsZero | src/main/kotlin/store/AnalysisService.kt:13-14 | A product without sales sums to zero quantity and revenue. |
| Grouping.TallyIndex | src/main/kotlin/store/AnalysisService.kt:22 | The position of a product's group, if any. |
| Grouping.Add | src/main/kotlin/store/AnalysisService.kt:22-26 | Adding a sale updates the group of its product, or appends a new group at the end. Every other group is kept. |
| Grouping.GroupStep | src/main/kotlin/store/AnalysisService.kt:22-26 | Adding a sale to the groups of a ledger gives the groups of the extended ledger. |
| Grouping.GroupSales | src/main/kotlin/store/AnalysisService.kt:21-27 | There is one group per sold product and no other, ordered by first sale. Each group carries the product's total quantity and total `qty * priceAtSale`. |
| Grouping.GroupSums | src/main/kotlin/store/AnalysisService.kt:35-41 | Grouping loses nothing: the groups' quantities and revenues add up to the ledger totals. |
| Sorting.WithKeyAppend | src/main/kotlin/store/AnalysisService.kt:46 | Selecting the elements with one key distributes over concatenation. |
| Sorting.Insert | src/main/kotlin/store/AnalysisService.kt:46 | Insertion into a sorted sequence: it is a permutation that stays sorted, and the new element goes in front of the elements with the same key. Inserting the head of the input in front of its ties is what keeps `SortDesc` stable. |
| Sorting.SortDesc | src/main/kotlin/store/AnalysisService.kt:46 | `sortedByDescending` is a permutation in non-increasing key order. Elements with equal keys keep their relative order. |
| Sorting.WithKeyPrefix | src/main/kotlin/store/AnalysisService.kt:47 | `take` keeps, for every key, a prefix of the elements with that key. |
| Sorting.SortedPrefixDominates | src/main/kotlin/store/AnalysisService.kt:46-47 | After a descending sort, every element taken has a key at least that of every element left out. |
| Sorting.TopBy | src/main/kotlin/store/AnalysisService.kt:44-48 | A negative count fails, as `take` does. Otherwise the result has `min(n, size)` elements from the input, sorted descending and stable. Nothing left out outranks anything kept. |
| Analysis.Window | src/main/kotlin/store/AnalysisService.kt:10-12 | The window holds exactly the sales dated from `today - (N - 1)` to today. |
| Analysis.OneDayWindow | src/main/kotlin/store/AnalysisService.kt:10-12 | A one-day window holds exactly today's sales. |
| Analysis.ValueOr0 | src/main/kotlin/store/AnalysisService.kt:64 | `sold[id] ?: 0` is 0 for a missing key and the stored value otherwise. |
| Analysis.GroupKeys | src/main/kotlin/store/AnalysisService.kt:12-13 | A window's groups are exactly the products sold within it. |
| Analysis.Quantities | src/main/kotlin/store/AnalysisService.kt:14 | `mapValues` to quantities keeps keys and order. |
| Analysis.Revenues | src/main/kotlin/store/AnalysisService.kt:32 | `mapValues` to revenues keeps keys and order. |
| Analysis.SalesByProduct | src/main/kotlin/store/AnalysisService.kt:9-15 | The keys are distinct and are exactly the ids sold in the window, in first-sale order. Each value is the quantity sold in the window. |
| Analysis.SalesByProductWithRevenue | src/main/kotlin/store/AnalysisService.kt:18-28 | One distinct entry per product sold in the window, in the order of each product's first sale in the window. It carries the window quantity and the revenue summed at the recorded sale prices. |
| Analysis.WithRevenueQuantities | src/main/kotlin/store/AnalysisService.kt:9-28 | The quantity components of the revenue variant are exactly `salesByProduct`, in order. |
| Analysis.RevenueByProduct | src/main/kotlin/store/AnalysisService.kt:31-32 | One distinct entry per product sold in the window, carrying its window revenue. Entries come in the order of each product's first sale in the window. |
| Analysis.TodaySalesIsSumOfProducts | src/main/kotlin/store/AnalysisService.kt:35-41 | Today's totals are the component-wise sums over the one-day per-product figures. |
| Analysis.TodaySales | src/main/kotlin/store/AnalysisService.kt:35-41 | With no sale dated today, both totals are 0. |
| Analysis.TodaySalesRecord | src/main/kotlin/store/AnalysisService.kt:35-41 | Recording a sale dated today adds its quantity and `qty * priceAtSale` to today's totals. A sale dated any other day leaves them unchanged. |
| Analysis.TopByQty | src/main/kotlin/store/ProductExtensions.kt:27-28 | `Map.topN` (and the ranking step of `topN`): a negative count fails. Otherwise `min(n, size)` entries are sorted non-increasing by quantity, ties stay in map order, and nothing left out sold more than anything kept. |
| Analysis.TopN | src/main/kotlin/store/AnalysisService.kt:44-48 | The ranking of `salesByProduct`: at most `n` entries taken from it, sorted non-increasing and stable. No entry left out outranks one kept. |
| Analysis.TopByRevenue | src/main/kotlin/store/AnalysisService.kt:53-56 | The revenue ranking of a list of groups, with the same guarantees by revenue. |
| Analysis.TopNByRevenue | src/main/kotlin/store/AnalysisService.kt:51-57 | At most `n` window groups carrying id, quantity and revenue, sorted non-increasing by revenue and stable. No group left out earned more than one kept. |
| Analysis.RotationOf | src/main/kotlin/store/AnalysisService.kt:63-66 | A product's row carries its sold quantity, or 0. The rate is sold × 100 per unit of stock, with denominator 1 when stock is 0 or less. |
| Analysis.RotationRows | src/main/kotlin/store/AnalysisService.kt:62-66 | One row per stored product, in store order. |
| Analysis.RotationRates | src/main/kotlin/store/AnalysisService.kt:60-68 | A permutation of the per-product rows, sorted non-increasing by rate. Ties stay in store order. |
| Analysis.RotationRowOfProduct | src/main/kotlin/store/AnalysisService.kt:60-68 | Every stored product has its row, and the row's quantity is what it sold in the window. |
| Analysis.SoldQtyIsWindowTotal | src/main/kotlin/store/AnalysisService.kt:61-64 | Looking up `salesByProduct` with 0 as default gives the window total for every id. |
| Analysis.SurplusRows | src/main/kotlin/store/AnalysisService.kt:72-74 | The rows are exactly the surpluses of the products stocked above target. |
| Analysis.ExcessInventory | src/main/kotlin/store/AnalysisService.kt:71-75 | Holds exactly `(id, stock - target)` for products with stock strictly above target. Every surplus is positive. The list is sorted non-increasing. Products with equal surplus keep their store order. |
| Analysis.Unsold | src/main/kotlin/store/AnalysisService.kt:80 | The store's ids that are not keys of the sold map. |
| Analysis.UnsoldAppend | src/main/kotlin/store/AnalysisService.kt:80 | The filter distributes over concatenation, so it keeps store order. |
| Analysis.DeadStock | src/main/kotlin/store/AnalysisService.kt:78-81 | Exactly the stored ids with no sale in the window. |
| Analysis.DeadStockPartition | src/main/kotlin/store/service/AnalysisService.kt:16-35 | Dead stock and the keys of `salesByProduct` are disjoint. Between them they cover every stored id. |
| AbcAnalysis.ClassOfMonotone | src/main/kotlin/store/service/AnalysisService.kt:53-57 | A larger cumulative share never gives a better class. |
| AbcAnalysis.ClassOf | src/main/kotlin/store/service/AnalysisService.kt:53-57 | A cumulative share up to 0.80 is class A, one above 0.80 and up to 0.95 is class B, and one above 0.95 is class C. |
| AbcAnalysis.PrefixSumsGrow | src/main/kotlin/store/service/AnalysisService.kt:50-51 | With non-negative revenues the running total never falls. |
| AbcAnalysis.Grand | src/main/kotlin/store/service/AnalysisService.kt:47 | The grand total is at least 1 and at least the revenue sum. It equals the sum when that is 1 or more, so shares never divide by zero. |
| AbcAnalysis.Classify | src/main/kotlin/store/service/AnalysisService.kt:48-58 | Each ranked product gets the class of the cumulative share reached with it: ≤ 80% A, ≤ 95% B, else C. |
| AbcAnalysis.ClassifyMonotone | src/main/kotlin/store/service/AnalysisService.kt:45-57 | With non-negative revenues, classes along the ranking never improve (A* B* C*). |
| AbcAnalysis.ClassifyExample | src/main/kotlin/store/service/AnalysisService.kt:47-57 | Revenues 700, 200 and 100 classify as A, B and C. |
| AbcAnalysis.AddMissing | src/main/kotlin/store/service/AnalysisService.kt:60 | Earlier classifications are kept as a prefix. Every added entry is C. The keys become the old keys plus every stored id. |
| AbcAnalysis.Totals | src/main/kotlin/store/service/AnalysisService.kt:41-45 | Per-product window revenue, a permutation of `revenueByProduct` sorted non-increasing. Products with equal revenue keep their first-sale order. Its keys are exactly the products sold in the window. |
| AbcAnalysis.SoldClasses | src/main/kotlin/store/service/AnalysisService.kt:48-58 | The loop classifies exactly the products sold in the window, in the sorted order. Entry `i` is the `i`-th product of the sorted totals with the class of its cumulative share. |
| AbcAnalysis.Abc | src/main/kotlin/store/service/AnalysisService.kt:38-62 | The keys are the sold ids and the stored ids, so a sold id missing from the store is still classified. Every stored product gets a class. |
| AbcAnalysis.ClassFor | src/main/kotlin/store/service/AnalysisService.kt:49-60 | The class recorded for an id is absent exactly when the id is no key. Otherwise it is the class of the id's first entry. |
| AbcAnalysis.UnsoldIsC | src/main/kotlin/store/service/AnalysisService.kt:59-60 | A stored product without sales in the window is classified C. |
| AbcAnalysis.RevenueNonNegative | src/main/kotlin/store/service/AnalysisService.kt:43 | Non-negative quantities and prices give non-negative product revenue. |
| AbcAnalysis.TotalsNonNegative | src/main/kotlin/store/service/AnalysisService.kt:41-45 | With non-negative quantities and prices, every window revenue is non-negative. |
| AbcAnalysis.AbcMonotone | src/main/kotlin/store/service/AnalysisService.kt:41-60 | With non-negative quantities and prices, the sold products lead the result, and their classes never improve along the ranking. |
| SimpleProduct.Restock | src/main/kotlin/store/Product.kt:26-29 | A non-positive quantity fails with `InvalidArgument`. Otherwise stock grows by exactly the quantity, and no other field changes. |
| SimpleProduct.Sell | src/main/kotlin/store/Product.kt:31-35 | A non-positive quantity fails first (`InvalidArgument`), then one above stock (`InsufficientStock`). Otherwise stock drops by the quantity and stays non-negative. No other field changes. |
| SimpleProduct.ChangePrice | src/main/kotlin/store/Product.kt:37-40 | A negative price fails with `InvalidArgument`. Otherwise only the price changes. |
| SimpleProduct.MutateAllKeepsInvariant | src/main/kotlin/store/Product.kt:11-40 | From non-negative stock, no sequence of calls makes stock negative. None changes id, name, category, reorder level or expiry. |
| SimpleProduct.RestockThenSell | src/main/kotlin/store/Product.kt:26-35 | Selling what was just restocked gives back the original product. |
| SimpleProduct.SellThenRestock | src/main/kotlin/store/Product.kt:26-35 | Restocking what was just sold gives back the original product. |
| BaseProducts.StockRate | src/main/kotlin/store/AdvancedProduct.kt:16 | 0 for a zero target. Otherwise the rate times the target is the current stock. |
| BaseProducts.Shortage | src/main/kotlin/store/AdvancedProduct.kt:17 | Never negative. It is 0 exactly when stock meets the target. Otherwise adding it to the stock reaches the target exactly. |
| BaseProducts.ShortageIsLeastTopUp | src/main/kotlin/store/AdvancedProduct.kt:17 | The shortage is the least non-negative top-up that reaches the target. |
| BaseProducts.ShortageAtMostTarget | src/main/kotlin/store/AdvancedProduct.kt:17 | With non-negative stock the shortage never exceeds the target, or zero for a negative target. |
| BaseProducts.ShortIffRateBelowOne | src/main/kotlin/store/AdvancedProduct.kt:16-17 | For a positive target, a shortage exists exactly when the stock rate is below 1. |
| ProductExtensions.SmallestKeyAtLeast | src/main/kotlin/store/ProductExtensions.kt:17 | `filter { days <= key }.minByOrNull { key }` picks the smallest key at least `days`. It is none exactly when every key is below. |
| ProductExtensions.ExtensionRateIsSmallestKey | src/main/kotlin/store/ProductExtensions.kt:16-18 | The exact-key lookup is a shortcut: the rate is that of the smallest key at least `days`, or 0 when there is none. |
| ProductExtensions.ExtensionRate | src/main/kotlin/store/ProductExtensions.kt:16-18 | An exact policy key gives its own rate. When every key is below the days left, the rate is 0. |
| ProductExtensions.ExtensionRateInUnit | src/main/kotlin/store/ProductExtensions.kt:16-18 | A policy whose rates are fractions yields a fraction. |
| ProductExtensions.DiscountedPrice | src/main/kotlin/store/ProductExtensions.kt:14-20 | Without an expiry date the list price is returned. With fractional rates and a valid price, the result lies between 0 and the price. |
| ProductExtensions.DiscountedPriceIsMoneyDiscount | src/main/kotlin/store/ProductExtensions.kt:14-20 | For rates in [0, 1], the extension's price is `discounted` at the extension's rate. |
| ProductExtensions.DiscountedPriceNotFloored | src/main/kotlin/store/ProductExtensions.kt:19 | Unlike `discounted`, a rate above 1 gives a negative price: 100 at 150% is -50. |
| ProductExtensions.ManagerLookups | src/main/kotlin/store/InventoryManager.kt:11-12 | The manager's policy maps 3, 2, 1 and 0 days to 0, 0.3, 0.5 and 0.7, and has no other keys. |
| ProductExtensions.ManagerPolicySteps | src/main/kotlin/store/ProductExtensions.kt:16-18 | Over the manager's policy, rounding up gives the same steps as the pricing service's default policy for every day count. |
| ProductExtensions.ManagerBeyondKeys | src/main/kotlin/store/ProductExtensions.kt:16-18 | More than 3 days left gives no discount. |
| ProductExtensions.ManagerPastExpiry | src/main/kotlin/store/ProductExtensions.kt:16-18 | Past expiry gives 70% off. |
| ProductExtensions.RoundingDirections | src/main/kotlin/store/ProductExtensions.kt:16-18 | The extension rounds up to the next key and the pricing service rounds down. With keys 0 and 3, two days left gives 0 and 0.7 respectively. |
| ProductExtensions.FirstNamed | src/main/kotlin/store/ProductExtensions.kt:33 | The position of the first product with the name, as `find` scans. |
| ProductExtensions.PriceByName | src/main/kotlin/store/ProductExtensions.kt:33 | The list price of the first product with the name, or 0 when none has it. It is non-negative for non-negative prices. |
| ProductExtensions.TotalRevenue | src/main/kotlin/store/ProductExtensions.kt:31-34 | Non-negative prices and quantities give non-negative revenue. |
| ProductExtensions.TotalRevenueSingle | src/main/kotlin/store/ProductExtensions.kt:31-34 | One entry contributes the price found for its name times its quantity; with `TotalRevenueAppend` this fixes the sum over any map. |
| ProductExtensions.TotalRevenueAppend | src/main/kotlin/store/ProductExtensions.kt:31-34 | The revenue of a sales map split in two is the sum of the parts' revenues. |
| ProductExtensions.TotalRevenueUnknownNames | src/main/kotlin/store/ProductExtensions.kt:31-34 | Names that match no product contribute nothing. |
| ProductExtensions.RotationRate | src/main/kotlin/store/ProductExtensions.kt:37-38 | 0 when stock is 0 or less. Otherwise the rate times the stock is the sales quantity. |
| ProductExtensions.RotationRateVsAnalysis | src/main/kotlin/store/ProductExtensions.kt:37-38 | For positive stock the analysis rotation is this rate in percent. For stock 0 or less they agree only when nothing was sold, because the analysis divides by 1. |
| Categories.TrimStart | src/main/kotlin/store/Enums.kt:19 | Dropping leading whitespace never lengthens the string (what it drops is stated by `TrimStartDrops`). |
| Categories.TrimEnd | src/main/kotlin/store/Enums.kt:19 | Dropping trailing whitespace never lengthens the string (what it drops is stated by `TrimEndDrops`). |
| Categories.Trim | src/main/kotlin/store/Enums.kt:19 | `trim()` never lengthens the string (its ends and blankness are stated by `TrimEnds`). |
| Categories.Normalize | src/main/kotlin/store/Enums.kt:19 | The normalized input is no longer than the input, has no upper-case ASCII letter left to fold, and equals the trimmed input ignoring case. |
| Categories.TrimStartDrops | src/main/kotlin/store/Enums.kt:19 | The result is a suffix. Everything dropped is whitespace, and the result does not start with whitespace. |
| Categories.TrimEndDrops | src/main/kotlin/store/Enums.kt:19 | The result is a prefix. Everything dropped is whitespace, and the result does not end with whitespace. |
| Categories.TrimEnds | src/main/kotlin/store/Enums.kt:18-19 | A trimmed string has no whitespace at either end. It is empty exactly when the input is blank. |
| Categories.TrimKeeps | src/main/kotlin/store/Enums.kt:19 | A string starting and ending with non-whitespace is its own trim. |
| Categories.TrimDropsLeadingSpace | src/main/kotlin/store/Enums.kt:19 | Trimming removes one leading space from such a string. |
| Categories.TrimDropsSpaces | src/main/kotlin/store/Enums.kt:19 | Trimming removes one space on each side of such a string. |
| Categories.Fold | src/main/kotlin/store/Enums.kt:19 | Case folding keeps the length; with `FoldIdempotent` and `FoldNoUpper` it is a projection onto strings without upper-case ASCII letters. |
| Categories.FoldIdempotent | src/main/kotlin/store/Enums.kt:19-23 | Folding twice is folding once, so comparing the lowered input ignoring case is comparing folded forms. |
| Categories.AliasesAreFolded | src/main/kotlin/store/Enums.kt:7-14 | Every alias is already in lower case. |
| Categories.AliasFolded | src/main/kotlin/store/Enums.kt:7-14 | Each alias is its own folding. |
| Categories.Matches | src/main/kotlin/store/Enums.kt:20-23 | A category accepts an input exactly when one of these holds: its name equals the trimmed, lowered input ignoring case; its display name equals the raw input; or some alias equals the trimmed, lowered input ignoring case. |
| Categories.FoldedMember | src/main/kotlin/store/Enums.kt:23 | For folded strings, membership is the same as "some element equals it ignoring case". |
| Categories.FirstMatch | src/main/kotlin/store/Enums.kt:20-24 | The first category that accepts the input, scanning in declaration order. |
| Categories.Ordinal | src/main/kotlin/store/Enums.kt:6-14 | Each constant has its declaration position in `entries`. |
| Categories.Parse | src/main/kotlin/store/Enums.kt:17-25 | Null or blank input gives none. A result accepts the input, and no earlier constant does. No result for a non-blank input means no category accepts it. |
| Categories.OrdinalAt | src/main/kotlin/store/Enums.kt:6-14 | The ordinal inverts indexing into `entries`. |
| Categories.FirstMatchCoversEarlier | src/main/kotlin/store/Enums.kt:20 | No category declared before the first match accepts the input. |
| Categories.NoMatchCoversAll | src/main/kotlin/store/Enums.kt:20 | When the scan finds nothing, no category accepts the input. |
| Categories.FoldNoUpper | src/main/kotlin/store/Enums.kt:19 | Lowering a string without upper-case letters leaves it unchanged. |
| Categories.DisplayNameNotBlank | src/main/kotlin/store/Enums.kt:7-14 | No display name starts with whitespace. |
| Categories.BlankMatchesNothing | src/main/kotlin/store/Enums.kt:7-23 | No category accepts a blank input, so the blank check at line 18 changes no outcome. |
| Categories.ParseSelectsFirstMatch | src/main/kotlin/store/Enums.kt:17-25 | Conversely, a category that accepts the input, with none declared before it accepting, is what `parse` returns. |
| Categories.ParseRejectsUnmatched | src/main/kotlin/store/Enums.kt:17-25 | An input no category accepts parses to none. |
| Categories.AliasAccepted | src/main/kotlin/store/Enums.kt:23 | An input whose trimmed, lowered form is an alias is accepted. |
| Categories.NotAccepted | src/main/kotlin/store/Enums.kt:20-23 | An input matching neither the display name, the lowered name nor an alias is rejected. |
| CategoryExamples.NothingAccepted | src/main/kotlin/store/Enums.kt:20-23 | An input matching no display name, name or alias is accepted by no category. |
| CategoryExamples.DrinkFolded | src/main/kotlin/store/Enums.kt:19 | "drink" is already lower case. |
| CategoryExamples.DrinkTrimmed | src/main/kotlin/store/Enums.kt:19 | " drink " trims to "drink". |
| CategoryExamples.PaddedDrinkIsBeverage | src/main/kotlin/store/Enums.kt:7-23 | `BEVERAGE` accepts " drink ". |
| CategoryExamples.ParseTrimsInput | src/main/kotlin/store/Enums.kt:7-25 | " drink " parses to `BEVERAGE`: surrounding whitespace does not matter for aliases. |
| CategoryExamples.UpperDrinkFolded | src/main/kotlin/store/Enums.kt:19 | "DRINK" lowers to "drink". |
| CategoryExamples.UpperDrinkTrimmed | src/main/kotlin/store/Enums.kt:19 | "DRINK" is its own trim. |
| CategoryExamples.UpperDrinkIsBeverage | src/main/kotlin/store/Enums.kt:7-23 | `BEVERAGE` accepts "DRINK". |
| CategoryExamples.ParseUpperCaseAlias | src/main/kotlin/store/Enums.kt:7-25 | "DRINK" parses to `BEVERAGE`: case does not matter. |
| CategoryExamples.MixedIceCreamFolded | src/main/kotlin/store/Enums.kt:19 | "Ice_Cream" lowers to "ice_cream". |
| CategoryExamples.MixedIceCreamTrimmed | src/main/kotlin/store/Enums.kt:19 | "Ice_Cream" is its own trim. |
| CategoryExamples.MixedIceCreamNormalized | src/main/kotlin/store/Enums.kt:19 | "Ice_Cream" normalizes to "ice_cream". |
| CategoryExamples.MixedIceCreamIsIceCream | src/main/kotlin/store/Enums.kt:10-23 | `ICE_CREAM` accepts "Ice_Cream". |
| CategoryExamples.MixedIceCreamNotEarlier | src/main/kotlin/store/Enums.kt:7-23 | No category declared before `ICE_CREAM` accepts "Ice_Cream". |
| CategoryExamples.ParseMixedCaseAlias | src/main/kotlin/store/Enums.kt:7-25 | "Ice_Cream" parses to `ICE_CREAM`. |
| CategoryExamples.LunchBoxFolded | src/main/kotlin/store/Enums.kt:19 | Lowering leaves the Korean "도시락" unchanged. |
| CategoryExamples.LunchBoxTrimmed | src/main/kotlin/store/Enums.kt:19 | "도시락" is its own trim. |
| CategoryExamples.LunchBoxNormalized | src/main/kotlin/store/Enums.kt:19 | "도시락" normalizes to itself. |
| CategoryExamples.LunchBoxIsMeal | src/main/kotlin/store/Enums.kt:7-23 | `CONVENIENCE_MEAL` accepts "도시락", and the two categories declared before it do not. |
| CategoryExamples.ParseKoreanAlias | src/main/kotlin/store/Enums.kt:7-25 | "도시락" parses to `CONVENIENCE_MEAL`. |
| CategoryExamples.SnackNameFolded | src/main/kotlin/store/Enums.kt:19 | Lowering leaves "과자/스낵" unchanged. |
| CategoryExamples.SnackNameTrimmed | src/main/kotlin/store/Enums.kt:19 | "과자/스낵" is its own trim. |
| CategoryExamples.SnackNameNormalized | src/main/kotlin/store/Enums.kt:19 | "과자/스낵" normalizes to itself. |
| CategoryExamples.SnackDisplayNameMatches | src/main/kotlin/store/Enums.kt:8-22 | `SNACK` accepts its display name "과자/스낵" and `BEVERAGE` does not. |
| CategoryExamples.ParseDisplayName | src/main/kotlin/store/Enums.kt:8-25 | "과자/스낵", which is no alias, parses to `SNACK` through the display name. |
| CategoryExamples.PaddedSnackNameTrimmed | src/main/kotlin/store/Enums.kt:19 | " 과자/스낵" trims to "과자/스낵". |
| CategoryExamples.PaddedSnackNameNormalized | src/main/kotlin/store/Enums.kt:19 | " 과자/스낵" normalizes to "과자/스낵". |
| CategoryExamples.SnackNameIsNoName | src/main/kotlin/store/Enums.kt:7-22 | " 과자/스낵" is no display name, and "과자/스낵" is no lowered constant name. |
| CategoryExamples.SnackNameIsNoAlias | src/main/kotlin/store/Enums.kt:7-14 | "과자/스낵" is no alias of any category. |
| CategoryExamples.PaddedDisplayNameMatchesNothing | src/main/kotlin/store/Enums.kt:7-23 | No category accepts " 과자/스낵". |
| CategoryExamples.ParseDisplayNameUntrimmed | src/main/kotlin/store/Enums.kt:17-25 | " 과자/스낵" parses to none: the display name is compared with the untrimmed input. |
| CategoryExamples.BlankInputs | src/main/kotlin/store/Enums.kt:18 | "" and " \t\n" are blank. |
| CategoryExamples.ParseBlank | src/main/kotlin/store/Enums.kt:17-18 | Null, empty and whitespace-only inputs parse to none. |

## Left out

- Kotlin `Int` overflow is not modelled. Stock arithmetic, `qty * priceAtSale`, revenue sums and `reorderPoint`'s `+ safety` use unbounded integers. Only `Double.toInt()`, which saturates rather than wraps, is written out.
- IEEE floating point is not modelled. Rates, thresholds, rotation percentages, ABC ratios and `avgDaily * leadDays` are exact rationals, so rounding artifacts such as `0.1 + 0.2` are absent. The one exception is division by a zero target in `stockStatus`/`needsReorder`, which takes IEEE's infinity and NaN outcomes: the ratio is below the threshold only for negative stock.
- The clock, `LocalDate.now()` and calendar arithmetic are not modelled. Today, the stamp date of a sale and the day component of `Period.between` are parameters. `ChronoUnit.DAYS.between(...).toInt()` is assumed to fit in an `Int`, so the long-to-int truncation is not modelled.
- `Inventory.DaysLeft` also stands for `remainingDays` of the product extensions (ProductExtensions.kt:9-10). That function differs only by reading the clock itself and returning a `Long`.
- `Analysis.TopByQty` is `Map.topN` of the product extensions (ProductExtensions.kt:27-28). It is the same sort-and-take as the ranking step of the analysis service.
- The analysis service's copies of `salesByProduct`, `topN` and `deadStock` in service/AnalysisService.kt are textually identical to those in AnalysisService.kt and are modelled once.
- `FoodProduct` and `BeverageProduct` add only an expiry date or nothing to `BaseProduct`, so they share `BaseProducts`.
- The inventory service's `allProducts`, `upsert` and `delete` are plain delegations to `findAll`, `save` and `delete` of the product store, so they are covered by `ProductRepository`.
- The report services, both console applications, `InventoryManager`'s printing, `krw()` currency formatting, `App.kt` and `Main.kt` are left out. They format text, read input or wire dependencies. Their numbers come from the modelled services. Only the manager's default policy (`ProductExtensions.ManagerPolicy`) is taken from InventoryManager.kt.
- model/Enums.kt declares a second, conflicting `ProductCategory`, which is not part of this model. Categories follow Enums.kt.
- Case folding covers ASCII letters only. Every alias and name is ASCII or Korean, and Korean has no case, so results are affected only for inputs with non-ASCII letters that have case.
- ProductExtensions.DiscountedPrice: for rates above 1 it is not floored at zero, as the source computes `(price * (1 - rate)).toInt()` directly. The bound `0 <= r <= price` is stated for rates in [0, 1] only.
- BaseProducts.ShortageAtMostTarget: stated as at most `max(target, 0)`. The plain "at most the target" is false for a negative target, where the shortage is 0.
- AbcAnalysis.Abc: distinctness of the result keys is not stated. The model keeps the first class recorded for an id (`AbcAnalysis.ClassFor`), which matches the map since the grouped keys are distinct.
- Pricing.SetManualDiscount: a rejected percent yields no new state. The old state is the caller's, so "the map is unchanged" holds by construction rather than by an ensures.
