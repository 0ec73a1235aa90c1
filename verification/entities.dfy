/** The records the services work on: the product snapshot the repositories
    store and the sale the ledger records (model/Sale.kt). Dates are day
    numbers. */
module Entities {
  import opened Common
  import opened Categories

  /** A stocked product as the services see it: `targetStock` is the desired
      level, `currentStock` the units on hand, and an absent `expiryDate`
      means the product is not expiry-managed. */
  datatype Product = Product(
    id: string,
    name: string,
    category: Category,
    price: int,
    targetStock: int,
    currentStock: int,
    expiryDate: Option<int>)

  /** One recorded sale: the unit price actually charged and the day it was
      recorded. */
  datatype Sale = Sale(productId: string, qty: int, priceAtSale: int, timestamp: int)
}
