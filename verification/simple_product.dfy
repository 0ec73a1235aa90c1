/** The mutable product of Product.kt: a stock that only `restock` and
    `sell` change, each validating its quantity first, and a price that
    `changePrice` replaces. A mutation is modelled as a function from the
    product before to the product after, or to the error `require` raises. */
module SimpleProduct {
  import opened Common
  import opened Categories

  datatype Product = Product(
    id: string,
    name: string,
    category: Category,
    price: int,
    reorderLevel: int,
    stock: int,
    expiry: Option<int>)

  /** The fields no mutator touches. */
  predicate SameIdentity(p: Product, q: Product) {
    p.id == q.id && p.category == q.category && p.reorderLevel == q.reorderLevel &&
    p.expiry == q.expiry && p.name == q.name
  }

  /** `restock(qty)`: a non-positive quantity is rejected; otherwise the
      stock grows by `qty` and nothing else changes. */
  function Restock(p: Product, qty: int): (r: Result<Product>)
    ensures r.Err? <==> qty <= 0
    ensures r.Err? ==> r.error == InvalidArgument
    ensures r.Ok? ==> r.value.stock == p.stock + qty && r.value.stock > p.stock
    ensures r.Ok? ==> SameIdentity(p, r.value) && r.value.price == p.price
  {
    if qty <= 0 then Err(InvalidArgument)
    else Ok(p.(stock := p.stock + qty))
  }

  /** `sell(qty)`: a non-positive quantity is rejected first, then one above
      the stock; otherwise the stock drops by `qty` and stays non-negative. */
  function Sell(p: Product, qty: int): (r: Result<Product>)
    ensures r.Err? <==> qty <= 0 || qty > p.stock
    ensures qty <= 0 ==> r == Err(InvalidArgument)
    ensures 0 < qty && qty > p.stock ==> r == Err(InsufficientStock)
    ensures r.Ok? ==> r.value.stock == p.stock - qty && 0 <= r.value.stock < p.stock
    ensures r.Ok? ==> SameIdentity(p, r.value) && r.value.price == p.price
  {
    if qty <= 0 then Err(InvalidArgument)
    else if qty > p.stock then Err(InsufficientStock)
    else Ok(p.(stock := p.stock - qty))
  }

  /** `changePrice(newPrice)`: a negative price is rejected; otherwise only
      the price changes. */
  function ChangePrice(p: Product, newPrice: int): (r: Result<Product>)
    ensures r.Err? <==> newPrice < 0
    ensures r.Err? ==> r.error == InvalidArgument
    ensures r.Ok? ==> r.value.price == newPrice && r.value.price >= 0
    ensures r.Ok? ==> SameIdentity(p, r.value) && r.value.stock == p.stock
  {
    if newPrice < 0 then Err(InvalidArgument)
    else Ok(p.(price := newPrice))
  }

  /** One call on a product. */
  datatype Mutation = RestockOf(qty: int) | SellOf(qty: int) | ChangePriceTo(price: int)

  function Mutate(p: Product, m: Mutation): Result<Product> {
    match m
    case RestockOf(q) => Restock(p, q)
    case SellOf(q) => Sell(p, q)
    case ChangePriceTo(x) => ChangePrice(p, x)
  }

  /** The calls in order; a call that throws leaves the product as it was. */
  function MutateAll(p: Product, ms: seq<Mutation>): Product
    decreases |ms|
  {
    if |ms| == 0 then p
    else
      var next := Mutate(p, ms[0]);
      MutateAll(if next.Ok? then next.value else p, ms[1..])
  }

  /** Starting from a non-negative stock, no sequence of calls makes it
      negative, and the identity fields never change. */
  lemma {:induction false} MutateAllKeepsInvariant(p: Product, ms: seq<Mutation>)
    requires p.stock >= 0
    ensures MutateAll(p, ms).stock >= 0
    ensures SameIdentity(p, MutateAll(p, ms))
    decreases |ms|
  {
    if |ms| > 0 {
      var next := Mutate(p, ms[0]);
      var q := if next.Ok? then next.value else p;
      assert q.stock >= 0 && SameIdentity(p, q);
      MutateAllKeepsInvariant(q, ms[1..]);
    }
  }

  /** Selling what was just restocked gives back the original product. */
  lemma RestockThenSell(p: Product, qty: int)
    requires qty > 0 && p.stock >= 0
    ensures Restock(p, qty).Ok?
    ensures Sell(Restock(p, qty).value, qty) == Ok(p)
  {
  }

  /** Restocking what was just sold gives back the original product. */
  lemma SellThenRestock(p: Product, qty: int)
    requires 0 < qty <= p.stock
    ensures Sell(p, qty).Ok?
    ensures Restock(Sell(p, qty).value, qty) == Ok(p)
  {
  }
}
