/**
 * The endpoints that use the order store and the connection manager:
 * order creation with its notification, lookup by id with its 404, and
 * the WebSocket session that echoes every inbound text to all subscribers.
 */
module Api {
  import opened Wrappers
  import opened Models
  import opened Text
  import opened Crud
  import opened Connections

  /** How a price and an order type are written into a message. */
  datatype Rendering = Rendering(price: Price -> string, orderType: OrderType -> string)

  /** What an endpoint answers instead of a result. */
  datatype ApiError =
    | HttpError(status: int, detail: string)
    | StoreFailed(cause: StoreError)
    | SendFailed(handle: ConnId)

  /** `s` occurs in `m` as a contiguous piece. */
  predicate Contains(m: string, s: string)
  {
    exists i, j :: 0 <= i <= j <= |m| && m[i..j] == s
  }

  /**
   * The notification broadcast after an order is created, built from the
   * request: it starts with the symbol and ends with the price.
   */
  function NewOrderMessage(order: OrderCreate, show: Rendering): (m: string)
    ensures "New order created: " + order.symbol <= m
    ensures |show.price(order.price)| <= |m| && m[|m| - |show.price(order.price)|..] == show.price(order.price)
  {
    "New order created: " + order.symbol + " - " + show.orderType(order.orderType)
      + " - " + DecimalText(order.quantity) + " @ " + show.price(order.price)
  }

  /** A text occurs in any text that has it between a prefix and a suffix. */
  lemma ContainsMiddle(a: string, b: string, c: string)
    ensures Contains(a + b + c, b)
  {
    assert (a + b + c)[|a|..|a| + |b|] == b;
  }

  /** The creation notification contains the order type and the quantity's decimal text. */
  lemma NewOrderMessageFields(order: OrderCreate, show: Rendering)
    ensures var m := NewOrderMessage(order, show);
      && Contains(m, show.orderType(order.orderType))
      && Contains(m, DecimalText(order.quantity))
  {
    var head := "New order created: " + order.symbol + " - ";
    var t, q, p := show.orderType(order.orderType), DecimalText(order.quantity), show.price(order.price);
    var m := NewOrderMessage(order, show);
    assert m == head + t + (" - " + q + " @ " + p);
    ContainsMiddle(head, t, " - " + q + " @ " + p);
    assert m == (head + t + " - ") + q + (" @ " + p);
    ContainsMiddle(head + t + " - ", q, " @ " + p);
  }

  const UpdatePrefix: string := "Order update: "

  /** The notification broadcast for an inbound WebSocket text: the prefix, then the text. */
  function UpdateMessage(data: string): (m: string)
    ensures UpdatePrefix <= m && m[|UpdatePrefix|..] == data
  {
    UpdatePrefix + data
  }

  /**
   * The inbound text an update notification carries: `None` exactly for a
   * text without the prefix, and otherwise the text after it.
   */
  function UpdatePayload(m: string): (r: Option<string>)
    ensures r.None? <==> !(UpdatePrefix <= m)
    ensures r.Some? ==> m == UpdatePrefix + r.value
  {
    if |m| >= |UpdatePrefix| && m[..|UpdatePrefix|] == UpdatePrefix then Some(m[|UpdatePrefix|..]) else None
  }

  /** An update notification carries exactly the inbound text, and nothing else reads as one. */
  lemma UpdateRoundTrip(data: string, m: string)
    ensures UpdatePayload(UpdateMessage(data)) == Some(data)
    ensures UpdatePayload(m) == Some(data) <==> m == UpdateMessage(data)
  {
  }

  /** The update notifications for a sequence of inbound texts: one per text, each carrying its text. */
  function UpdateMessages(inbound: seq<string>): (r: seq<string>)
    ensures |r| == |inbound|
    ensures forall k :: 0 <= k < |r| ==> UpdatePayload(r[k]) == Some(inbound[k])
  {
    seq(|inbound|, k requires 0 <= k < |inbound| => UpdateMessage(inbound[k]))
  }

  const NotFound: ApiError := HttpError(404, "Order not found")

  /**
   * `get_trade_order`: the row with that id; a 404 "Order not found" when
   * there is none; the driver's error when the id does not fit a 64-bit
   * integer.
   */
  function GetTradeOrder(orders: seq<Order>, orderId: int): (r: Result<Order, ApiError>)
    ensures r == Err(StoreFailed(IntegerOverflow)) <==> !FitsInteger(orderId)
    ensures r == Err(NotFound)
        <==> FitsInteger(orderId) && forall k :: 0 <= k < |orders| ==> orders[k].id != orderId
    ensures r.Ok? ==> r.value.id == orderId && Some(r.value) == Lookup(orders, orderId)
    ensures FitsInteger(orderId) && Lookup(orders, orderId).Some? ==> r == Ok(Lookup(orders, orderId).value)
  {
    var found := GetOrder(orders, orderId);
    if found.Err? then Err(StoreFailed(found.error))
    else if found.value.None? then Err(NotFound)
    else Ok(found.value.value)
  }

  /** A created order is found again by its id, unless the driver cannot bind that id. */
  lemma GetTradeOrderAfterCreate(orders: seq<Order>, row: Order)
    requires IdsIncreasing(orders + [row])
    ensures GetTradeOrder(orders + [row], row.id)
         == if FitsInteger(row.id) then Ok(row) else Err(StoreFailed(IntegerOverflow))
  {
    LookupFindsRow(orders + [row], |orders|);
    assert (orders + [row])[|orders|] == row;
  }

  /**
   * `create_trade_order`: the order is stored first and the notification
   * built from the request is broadcast second. When storing raises, the
   * request ends there: nothing is stored and nothing is sent. A send that
   * fails aborts the broadcast and the request, but the order stays stored.
   */
  method CreateTradeOrder(store: OrderStore, manager: ConnectionManager, order: OrderCreate,
                          now: Timestamp, show: Rendering, broken: set<ConnId>)
    returns (r: Result<Order, ApiError>)
    requires store.Valid()
    modifies store, manager
    ensures store.Valid()
    ensures manager.activeConnections == old(manager.activeConnections)
    ensures !FitsInteger(order.quantity) ==>
      && r == Err(StoreFailed(IntegerOverflow))
      && store.orders == old(store.orders) && store.nextId == old(store.nextId)
      && manager.outbox == old(manager.outbox)
    ensures FitsInteger(order.quantity) ==>
      && |store.orders| == |old(store.orders)| + 1
      && store.orders[..|old(store.orders)|] == old(store.orders)
      && var row := store.orders[|old(store.orders)|];
      && HasInput(row, order) && row.id == old(store.nextId)
      && row.createdAt == now && row.updatedAt == None
      && var conns, n := manager.activeConnections, FirstBroken(manager.activeConnections, broken);
      && (r == if n < |conns| then Err(SendFailed(conns[n])) else Ok(row))
      && forall c :: manager.Sent(c)
           == SentIn(old(manager.outbox), c) + Repeat(NewOrderMessage(order, show), Count(conns[..n], c))
  {
    var created := store.CreateOrder(order, now);
    if created.Err? {
      return Err(StoreFailed(created.error));
    }
    var row := created.value;
    assert store.orders[..|old(store.orders)|] == old(store.orders);
    var failed := manager.Broadcast(NewOrderMessage(order, show), broken);
    if failed.Some? {
      return Err(SendFailed(failed.value));
    }
    r := Ok(row);
  }

  /**
   * The position of the first broadcast of a session whose send fails,
   * when `broken[k]` holds the handles whose send fails at the k-th
   * broadcast; `|broken|` when none fails.
   */
  function FirstFailedBroadcast(regs: seq<ConnId>, broken: seq<set<ConnId>>): (j: nat)
    ensures j <= |broken|
    ensures j < |broken| ==> FirstBroken(regs, broken[j]) < |regs|
    ensures forall k :: 0 <= k < j ==> FirstBroken(regs, broken[k]) == |regs|
  {
    if broken == [] then 0
    else if FirstBroken(regs, broken[0]) < |regs| then 0
    else 1 + FirstFailedBroadcast(regs, broken[1..])
  }

  /** The first failing broadcast is the one before which every broadcast succeeds and which fails. */
  lemma FirstFailedBroadcastIs(regs: seq<ConnId>, broken: seq<set<ConnId>>, i: nat)
    requires i <= |broken|
    requires forall k :: 0 <= k < i ==> FirstBroken(regs, broken[k]) == |regs|
    requires i < |broken| ==> FirstBroken(regs, broken[i]) < |regs|
    ensures FirstFailedBroadcast(regs, broken) == i
  {
  }

  /**
   * `websocket_endpoint` for one client `ws`: register it, broadcast an
   * update notification for each inbound text, and unregister it when the
   * client disconnects. `broken[k]` holds the handles whose send fails at
   * the k-th broadcast. A failing send is not a disconnect: it escapes the
   * loop and `ws` stays registered.
   */
  method WebSocketEndpoint(manager: ConnectionManager, ws: ConnId, inbound: seq<string>, broken: seq<set<ConnId>>)
    returns (r: Outcome<ApiError>)
    requires |broken| == |inbound|
    modifies manager
    ensures var regs := old(manager.activeConnections) + [ws];
      r.Pass? <==> FirstFailedBroadcast(regs, broken) == |inbound|
    ensures r.Pass? ==>
      var regs := old(manager.activeConnections) + [ws];
      && manager.activeConnections == RemoveFirst(regs, ws)
      && (forall c :: manager.Sent(c)
            == SentIn(old(manager.outbox), c) + Stream(UpdateMessages(inbound), Count(regs, c)))
    ensures r.Fail? ==>
      var regs := old(manager.activeConnections) + [ws];
      var j := FirstFailedBroadcast(regs, broken);
      && j < |inbound|
      && var n := FirstBroken(regs, broken[j]);
      && n < |regs|
      && manager.activeConnections == regs
      && r.error == SendFailed(regs[n])
      && (forall c :: manager.Sent(c)
            == SentIn(old(manager.outbox), c) + Stream(UpdateMessages(inbound[..j]), Count(regs, c))
               + Repeat(UpdateMessage(inbound[j]), Count(regs[..n], c)))
    ensures r.Pass? && ws !in old(manager.activeConnections) ==>
      && manager.activeConnections == old(manager.activeConnections)
      && manager.Sent(ws) == SentIn(old(manager.outbox), ws) + UpdateMessages(inbound)
  {
    ghost var before := manager.activeConnections;
    ghost var regs := before + [ws];
    manager.Connect(ws);
    ghost var sentBefore := manager.outbox;
    assert sentBefore == old(manager.outbox);
    var failed := ReceiveLoop(manager, inbound, broken);
    if failed.Some? {
      ghost var j := FirstFailedBroadcast(regs, broken);
      ghost var n := FirstBroken(regs, broken[j]);
      ghost var mid := DeliverEach(sentBefore, regs, UpdateMessages(inbound[..j]));
      forall c
        ensures manager.Sent(c)
             == SentIn(sentBefore, c) + Stream(UpdateMessages(inbound[..j]), Count(regs, c))
                + Repeat(UpdateMessage(inbound[j]), Count(regs[..n], c))
      {
        DeliverEachSends(sentBefore, regs, UpdateMessages(inbound[..j]), c);
        DeliverSends(mid, regs[..n], UpdateMessage(inbound[j]), c);
      }
      return Fail(SendFailed(failed.value));
    }
    var removed := manager.Disconnect(ws);
    r := Pass;
    forall c
      ensures manager.Sent(c) == SentIn(sentBefore, c) + Stream(UpdateMessages(inbound), Count(regs, c))
    {
      DeliverEachSends(sentBefore, regs, UpdateMessages(inbound), c);
    }
    if ws !in before {
      ConnectThenDisconnect(before, ws);
      assert regs[..|before|] == before;
      assert Count(regs, ws) == 1;
      StreamOnce(UpdateMessages(inbound));
    }
  }

  /**
   * The `while True` receive loop: each inbound text, in order, is
   * broadcast as an update notification to the registry. The loop ends
   * normally when the client disconnects, or at the first broadcast whose
   * send fails, after the earlier broadcasts reached everyone and that one
   * reached the entries before the failing handle.
   */
  method ReceiveLoop(manager: ConnectionManager, inbound: seq<string>, broken: seq<set<ConnId>>)
    returns (failed: Option<ConnId>)
    requires |broken| == |inbound|
    modifies manager
    ensures manager.activeConnections == old(manager.activeConnections)
    ensures failed.None? <==> FirstFailedBroadcast(manager.activeConnections, broken) == |inbound|
    ensures failed.None? ==>
      manager.outbox == DeliverEach(old(manager.outbox), manager.activeConnections, UpdateMessages(inbound))
    ensures failed.Some? ==>
      var regs := manager.activeConnections;
      var j := FirstFailedBroadcast(regs, broken);
      && j < |inbound|
      && var n := FirstBroken(regs, broken[j]);
      && n < |regs| && failed.value == regs[n]
      && manager.outbox
         == Deliver(DeliverEach(old(manager.outbox), regs, UpdateMessages(inbound[..j])), regs[..n], UpdateMessage(inbound[j]))
  {
    ghost var regs := manager.activeConnections;
    var i := 0;
    while i < |inbound|
      invariant 0 <= i <= |inbound|
      invariant manager.activeConnections == regs
      invariant FirstFailedBroadcast(regs, broken) >= i
      invariant manager.outbox == DeliverEach(old(manager.outbox), regs, UpdateMessages(inbound[..i]))
    {
      ghost var sent := manager.outbox;
      failed := manager.Broadcast(UpdateMessage(inbound[i]), broken[i]);
      if failed.Some? {
        FirstFailedBroadcastIs(regs, broken, i);
        assert manager.outbox == Deliver(sent, regs[..FirstBroken(regs, broken[i])], UpdateMessage(inbound[i]));
        return;
      }
      assert regs[..|regs|] == regs;
      ReceiveStep(old(manager.outbox), regs, inbound, i);
      i := i + 1;
    }
    assert inbound[..i] == inbound;
    failed := None;
  }

  /** One more inbound text adds one more full broadcast of its notification. */
  lemma ReceiveStep(outbox: map<ConnId, seq<string>>, regs: seq<ConnId>, inbound: seq<string>, i: nat)
    requires i < |inbound|
    ensures DeliverEach(outbox, regs, UpdateMessages(inbound[..i + 1]))
         == Deliver(DeliverEach(outbox, regs, UpdateMessages(inbound[..i])), regs, UpdateMessage(inbound[i]))
  {
    var msgs := UpdateMessages(inbound[..i]);
    assert UpdateMessages(inbound[..i + 1]) == msgs + [UpdateMessage(inbound[i])];
    assert (msgs + [UpdateMessage(inbound[i])])[..|msgs|] == msgs;
  }
}
