/**
 * The order store: the orders table as a sequence of rows in insertion
 * order, and the four operations that query and change it.
 */
module Crud {
  import opened Wrappers
  import opened Models

  function Min(a: int, b: int): (m: int) { if a <= b then a else b }
  function Max(a: int, b: int): (m: int) { if a >= b then a else b }

  /** SQL OFFSET: drop the first `skip` rows. */
  function Offset(rows: seq<Order>, skip: nat): (r: seq<Order>)
  {
    if skip >= |rows| then [] else rows[skip..]
  }

  /** SQL LIMIT: keep at most `limit` rows. */
  function Limit(rows: seq<Order>, limit: nat): (r: seq<Order>)
  {
    if limit >= |rows| then rows else rows[..limit]
  }

  /**
   * The page `offset(skip).limit(limit)` of the table: the rows
   * `orders[skip .. skip + limit]`, cut off at the end of the table.
   */
  function Page(orders: seq<Order>, skip: nat, limit: nat): (r: seq<Order>)
    ensures |r| == Min(limit, Max(0, |orders| - skip))
    ensures forall k :: 0 <= k < |r| ==> r[k] == orders[skip + k]
  {
    Limit(Offset(orders, skip), limit)
  }

  /** Two consecutive pages together are the page that spans both. */
  lemma PagesConcatenate(orders: seq<Order>, skip: nat, a: nat, b: nat)
    ensures Page(orders, skip, a) + Page(orders, skip + a, b) == Page(orders, skip, a + b)
  {
    var p, q, whole := Page(orders, skip, a), Page(orders, skip + a, b), Page(orders, skip, a + b);
    assert |p| + |q| == |whole|;
    forall k | 0 <= k < |whole|
      ensures (p + q)[k] == whole[k]
    {
      if k >= |p| {
        assert |p| == a;
        assert q[k - a] == orders[skip + k];
      }
    }
  }

  /**
   * `get_orders`: the driver binds `skip` and `limit` as 64-bit integers
   * and raises for a value out of that range; otherwise the page.
   */
  function GetOrders(orders: seq<Order>, skip: nat := 0, limit: nat := 100): (r: Result<seq<Order>, StoreError>)
    ensures r.Err? <==> !FitsInteger(skip) || !FitsInteger(limit)
    ensures r.Err? ==> r.error == IntegerOverflow
    ensures r.Ok? ==> r.value == Page(orders, skip, limit)
  {
    if !FitsInteger(skip) || !FitsInteger(limit) then Err(IntegerOverflow) else Ok(Page(orders, skip, limit))
  }

  /** With the defaults and at most 100 rows, the whole table is returned. */
  lemma DefaultPageIsWholeTable(orders: seq<Order>)
    requires |orders| <= 100
    ensures GetOrders(orders) == Ok(orders)
  {
  }

  /** The position of the first row whose id is `orderId`, or `|orders|` if none. */
  function FirstIndexOf(orders: seq<Order>, orderId: int): (k: nat)
    ensures k <= |orders|
    ensures k < |orders| ==> orders[k].id == orderId
    ensures forall j :: 0 <= j < k ==> orders[j].id != orderId
  {
    if orders == [] then 0
    else if orders[0].id == orderId then 0
    else 1 + FirstIndexOf(orders[1..], orderId)
  }

  /** `filter(id == orderId).first()` on the table: the first row with that id, or `None`. */
  function Lookup(orders: seq<Order>, orderId: int): (r: Option<Order>)
    ensures r.None? <==> forall k :: 0 <= k < |orders| ==> orders[k].id != orderId
    ensures r.Some? ==> r.value.id == orderId
    ensures r.Some? ==> exists k :: 0 <= k < |orders| && r.value == orders[k]
                                    && forall j :: 0 <= j < k ==> orders[j].id != orderId
  {
    var k := FirstIndexOf(orders, orderId);
    if k < |orders| then Some(orders[k]) else None
  }

  /**
   * `get_order`: the driver binds `orderId` as a 64-bit integer and raises
   * for an id out of that range; otherwise the first row with that id, or
   * `None`.
   */
  function GetOrder(orders: seq<Order>, orderId: int): (r: Result<Option<Order>, StoreError>)
    ensures r.Err? <==> !FitsInteger(orderId)
    ensures r.Err? ==> r.error == IntegerOverflow
    ensures r == Ok(None) <==> FitsInteger(orderId) && forall k :: 0 <= k < |orders| ==> orders[k].id != orderId
    ensures r.Ok? ==> r.value == Lookup(orders, orderId)
  {
    if !FitsInteger(orderId) then Err(IntegerOverflow) else Ok(Lookup(orders, orderId))
  }

  /** Ids grow strictly along the table, so no id occurs twice. */
  ghost predicate IdsIncreasing(orders: seq<Order>)
  {
    forall i, j :: 0 <= i < j < |orders| ==> orders[i].id < orders[j].id
  }

  /** In a table with increasing ids, looking up a row's id finds that row. */
  lemma LookupFindsRow(orders: seq<Order>, k: nat)
    requires IdsIncreasing(orders)
    requires k < |orders|
    ensures Lookup(orders, orders[k].id) == Some(orders[k])
  {
  }

  /** A row appended with an id not yet in use is found by that id. */
  lemma LookupAfterAppend(orders: seq<Order>, row: Order)
    requires forall k :: 0 <= k < |orders| ==> orders[k].id != row.id
    ensures Lookup(orders + [row], row.id) == Some(row)
  {
    assert (orders + [row])[|orders|] == row;
  }

  /** `setattr(row, key, value)` for one entry of the request dictionary: that column takes the value, no other changes. */
  function SetAttr(row: Order, f: FieldValue): (r: Order)
    ensures r.id == row.id && r.createdAt == row.createdAt && r.updatedAt == row.updatedAt
    ensures r.symbol == (if f.SymbolField? then f.symbol else row.symbol)
    ensures r.price == (if f.PriceField? then f.price else row.price)
    ensures r.quantity == (if f.QuantityField? then f.quantity else row.quantity)
    ensures r.orderType == (if f.OrderTypeField? then f.orderType else row.orderType)
  {
    match f
    case SymbolField(s) => row.(symbol := s)
    case PriceField(p) => row.(price := p)
    case QuantityField(q) => row.(quantity := q)
    case OrderTypeField(t) => row.(orderType := t)
  }

  /**
   * The row after `setattr` for each entry of `items`, in order: id and
   * timestamps are never touched, and a column no entry names keeps its value.
   */
  function ApplyItems(row: Order, items: seq<FieldValue>): (r: Order)
    ensures r.id == row.id && r.createdAt == row.createdAt && r.updatedAt == row.updatedAt
    ensures (forall k :: 0 <= k < |items| ==> !items[k].SymbolField?) ==> r.symbol == row.symbol
    ensures (forall k :: 0 <= k < |items| ==> !items[k].PriceField?) ==> r.price == row.price
    ensures (forall k :: 0 <= k < |items| ==> !items[k].QuantityField?) ==> r.quantity == row.quantity
    ensures (forall k :: 0 <= k < |items| ==> !items[k].OrderTypeField?) ==> r.orderType == row.orderType
  {
    if items == [] then row else SetAttr(ApplyItems(row, items[..|items| - 1]), items[|items| - 1])
  }

  /** Setting every entry of the request dictionary overwrites exactly the four request fields. */
  lemma ApplyItemsOverwrites(row: Order, input: OrderCreate)
    ensures ApplyItems(row, Items(input))
         == row.(symbol := input.symbol, price := input.price,
                 quantity := input.quantity, orderType := input.orderType)
  {
    var items := Items(input);
    assert ApplyItems(row, items[..1]) == row.(symbol := input.symbol) by {
      assert items[..1][..0] == [];
    }
    assert ApplyItems(row, items[..2]) == row.(symbol := input.symbol, price := input.price) by {
      assert items[..2][..1] == items[..1];
    }
    assert ApplyItems(row, items[..3])
        == row.(symbol := input.symbol, price := input.price, quantity := input.quantity) by {
      assert items[..3][..2] == items[..2];
    }
    assert items[..4] == items;
    assert items[..4][..3] == items[..3];
  }

  /**
   * The row after `update_order`'s attribute loop and commit: the four
   * request fields overwritten, id and created_at kept, and updated_at set
   * to the commit time exactly when some column actually changed (the
   * `onupdate` default fires only for an UPDATE that changes something).
   */
  function Updated(before: Order, input: OrderCreate, now: Timestamp): (after: Order)
    ensures HasInput(after, input)
    ensures after.id == before.id && after.createdAt == before.createdAt
    ensures after.updatedAt == if HasInput(before, input) then before.updatedAt else Some(now)
  {
    ApplyItemsOverwrites(before, input);
    var row := ApplyItems(before, Items(input));
    if row == before then row else row.(updatedAt := Some(now))
  }

  /** The orders table and the counter the database draws primary keys from. */
  class OrderStore {
    var orders: seq<Order>
    var nextId: int

    /**
     * Ids are positive, strictly increasing in insertion order, and below
     * `nextId`; every stored quantity fits the INTEGER column.
     */
    ghost predicate Valid()
      reads this
    {
      && nextId >= 1
      && IdsIncreasing(orders)
      && (forall k :: 0 <= k < |orders| ==> 1 <= orders[k].id < nextId)
      && (forall k :: 0 <= k < |orders| ==> FitsInteger(orders[k].quantity))
    }

    /** A freshly created, empty table. */
    constructor ()
      ensures Valid()
      ensures orders == [] && nextId == 1
    {
      orders := [];
      nextId := 1;
    }

    /**
     * `create_order`: a row holding the request's four fields, a fresh
     * primary key and the insertion time, appended to the table. The
     * commit raises, and nothing is stored, when the quantity does not fit
     * the 64-bit INTEGER column.
     */
    method CreateOrder(order: OrderCreate, now: Timestamp) returns (r: Result<Order, StoreError>)
      requires Valid()
      modifies this
      ensures Valid()
      ensures r.Err? <==> !FitsInteger(order.quantity)
      ensures r.Err? ==> r.error == IntegerOverflow && orders == old(orders) && nextId == old(nextId)
      ensures r.Ok? ==>
        var row := r.value;
        && HasInput(row, order)
        && row.id == old(nextId) && row.createdAt == now && row.updatedAt == None
        && (forall k :: 0 <= k < |old(orders)| ==> old(orders)[k].id != row.id)
        && orders == old(orders) + [row]
        && nextId == old(nextId) + 1
        && Lookup(orders, row.id) == Some(row)
    {
      if !FitsInteger(order.quantity) {
        return Err(IntegerOverflow);
      }
      var row := Order(nextId, order.symbol, order.price, order.quantity, order.orderType, now, None);
      assert forall k :: 0 <= k < |orders| ==> orders[k].id < row.id;
      LookupAfterAppend(orders, row);
      orders := orders + [row];
      nextId := nextId + 1;
      r := Ok(row);
    }

    /**
     * `update_order`: the lookup through `get_order` raises for an id out of
     * the 64-bit range; `None` and no change when no row has `orderId`;
     * otherwise the first such row is overwritten with the request's
     * fields, field by field, committed and returned. The commit raises,
     * and the table is unchanged, when the new quantity does not fit the
     * 64-bit INTEGER column.
     */
    method UpdateOrder(orderId: int, order: OrderCreate, now: Timestamp) returns (r: Result<Option<Order>, StoreError>)
      requires Valid()
      modifies this
      ensures Valid()
      ensures nextId == old(nextId)
      ensures r.Err? <==> !FitsInteger(orderId)
                          || (Lookup(old(orders), orderId).Some? && !FitsInteger(order.quantity))
      ensures r.Err? ==> r.error == IntegerOverflow
      ensures r == Ok(None) <==> GetOrder(old(orders), orderId) == Ok(None)
      ensures (r.Err? || r == Ok(None)) ==> orders == old(orders)
      ensures r.Ok? && r.value.Some? ==>
        var k := FirstIndexOf(old(orders), orderId);
        k < |old(orders)| && r.value.value == Updated(old(orders)[k], order, now)
        && orders == old(orders)[k := r.value.value]
    {
      var found := GetOrder(orders, orderId);
      if found.Err? {
        return Err(found.error);
      }
      if found.value.None? {
        return Ok(None);
      }
      var k := FirstIndexOf(orders, orderId);
      var before := orders[k];
      var row := before;
      var items := Items(order);
      var i := 0;
      while i < |items|
        invariant 0 <= i <= |items|
        invariant row == ApplyItems(before, items[..i])
      {
        assert items[..i + 1][..i] == items[..i];
        row := SetAttr(row, items[i]);
        i := i + 1;
      }
      assert items[..i] == items;
      ApplyItemsOverwrites(before, order);
      if row != before {
        if !FitsInteger(row.quantity) {
          return Err(IntegerOverflow);
        }
        row := row.(updatedAt := Some(now));
      }
      orders := orders[k := row];
      r := Ok(Some(row));
    }
  }
}
