/**
 * The order record (the `orders` table) and the request body that creates
 * or updates one.
 */
module Models {
  import opened Wrappers

  /** The side of a trade order. */
  datatype OrderType = BUY | SELL

  /** A price as stored in the price column; nothing computes with it. */
  type Price(==)

  /** A timestamp produced by the database clock. */
  type Timestamp(==)

  /** The body of a create or update request. */
  datatype OrderCreate = OrderCreate(symbol: string, price: Price, quantity: int, orderType: OrderType)

  /** A stored row of the orders table. */
  datatype Order = Order(
    id: int,
    symbol: string,
    price: Price,
    quantity: int,
    orderType: OrderType,
    createdAt: Timestamp,
    updatedAt: Option<Timestamp>)

  /** One (key, value) entry of the request body's field dictionary. */
  datatype FieldValue =
    | SymbolField(symbol: string)
    | PriceField(price: Price)
    | QuantityField(quantity: int)
    | OrderTypeField(orderType: OrderType)

  /** How the database driver binds an int into an INTEGER column: a signed 64-bit value. */
  const MinInteger: int := -0x8000_0000_0000_0000
  const MaxInteger: int := 0x7FFF_FFFF_FFFF_FFFF

  predicate FitsInteger(q: int)
  {
    MinInteger <= q <= MaxInteger
  }

  /** What a failing commit raises: an int the driver cannot bind into an INTEGER column. */
  datatype StoreError = IntegerOverflow

  /** The value one dictionary entry carries is the request's value for that key. */
  predicate CarriesInput(f: FieldValue, input: OrderCreate)
  {
    match f
    case SymbolField(s) => s == input.symbol
    case PriceField(p) => p == input.price
    case QuantityField(q) => q == input.quantity
    case OrderTypeField(t) => t == input.orderType
  }

  /** The four mutable columns of `row` hold exactly the request's values. */
  predicate HasInput(row: Order, input: OrderCreate)
  {
    && row.symbol == input.symbol
    && row.price == input.price
    && row.quantity == input.quantity
    && row.orderType == input.orderType
  }

  /**
   * The request body's field dictionary, in declaration order: one entry
   * per field, each carrying the request's value.
   */
  function Items(input: OrderCreate): (r: seq<FieldValue>)
    ensures |r| == 4
    ensures r[0].SymbolField? && r[1].PriceField? && r[2].QuantityField? && r[3].OrderTypeField?
    ensures forall k :: 0 <= k < |r| ==> CarriesInput(r[k], input)
  {
    [SymbolField(input.symbol), PriceField(input.price),
     QuantityField(input.quantity), OrderTypeField(input.orderType)]
  }
}
