# Trade Orders API — registry, notifications and order store

This project models the core of a small order-intake service (a FastAPI
application). Clients submit trade orders over HTTP. The orders are
stored in a table, and every WebSocket subscriber is sent a text
notification. The model covers two parts:

* **The subscriber registry** (`ConnectionManager` in `app/main.py`). It
  holds the list of active connection handles. `connect` appends a
  handle. `disconnect` removes the first occurrence of a handle, the way
  Python's `list.remove` does. `broadcast` sends a text to every entry, in
  list order. The model also covers the endpoint code around the
  registry:
  * the two notification texts, `New order created: …` and
    `Order update: …`;
  * the create-order endpoint, which stores the order first and
    broadcasts second;
  * the WebSocket receive loop;
  * the 404 `Order not found` branch of lookup by id.
* **The order store** (`app/crud.py`). The database is replaced by an
  in-memory table: a sequence of rows in insertion order, plus the
  counter that primary keys are drawn from. Its operations are:
  * offset/limit listing;
  * creation with a fresh id;
  * lookup of the first row with an id;
  * update by id, which returns `None` when the id is missing.

Modules:

| file | module | models |
|---|---|---|
| wrappers.dfy | `Wrappers` | `Option`, `Result`, `Outcome` for `None` results and raised exceptions |
| models.dfy | `Models` | the `OrderType` enum, the `orders` row, the request body and its field dictionary |
| text.dfy | `Text` | how an f-string renders a Python `int` (the quantity in the notification) |
| crud.dfy | `Crud` | `get_orders`, `get_order`, and the `OrderStore` class with `create_order` and `update_order` |
| connections.dfy | `Connections` | the `ConnectionManager` class and the functions that specify it |
| api.dfy | `Api` | the message builders, `get_trade_order`, `create_trade_order`, `websocket_endpoint` |

How the model represents what it cannot run:

* `send_text` is an append to a per-handle outbox (`ConnectionManager.outbox`).
* A send that fails is given as the parameter `broken`: for one
  broadcast, the set of handles whose `send_text` raises; for a
  WebSocket session, one such set per inbound text, since a connection
  can break between two broadcasts.
* The text received by the WebSocket is the parameter `inbound`. It holds
  the payloads in the order they arrive, until the client disconnects.
* The database clock (`func.now()`) is the parameter `now`.
* How a price and an order type are written inside an f-string is the
  `Rendering` parameter. Prices and timestamps are opaque types with
  equality only. A Python float `repr` is not modelled, and the f-string
  text of a `(str, Enum)` member depends on the Python version.

Behaviour of the code that the model keeps:

* `disconnect` of a handle that is not registered raises `ValueError`
  (`list.remove`, app/main.py:59), and `Disconnect` returns that error.
* The broadcast loop stops at the first `send_text` that raises
  (app/main.py:67-68). Later entries get nothing, and nothing is
  unregistered.
* `connect` appends unconditionally (app/main.py:51), so a handle
  registered twice is sent every message twice.
* Nothing checks that price or quantity is positive (app/schemas.py:25-28
  declares only types), so any value is stored.
* The sqlite3 driver of the default database binds every Python int as
  a signed 64-bit integer and raises for one out of that range. This
  applies to the id of a lookup, to `skip` and `limit` of a listing, and
  to the quantity that a commit writes.

## Model

| member | source | states |
|---|---|---|
| `Connections.ConnectionManager.constructor` | app/main.py:40-42 | a new manager has no active connections |
| `Connections.ConnectionManager.Connect` | app/main.py:44-51 | the handle is appended: it becomes the last entry, every earlier entry is unchanged, and nothing is sent |
| `Connections.ConnectionManager.Disconnect` | app/main.py:53-59 | `ValueError` exactly when the handle is not registered; otherwise its first occurrence is removed; the outbox is unchanged |
| `Connections.RemoveFirst` | app/main.py:59 | a present handle is removed once (the length drops by one), and an absent handle leaves the list as it was |
| `Connections.RemoveFirstSplits` | app/main.py:59 | the removal cuts out exactly the first occurrence and keeps all other entries in their order |
| `Connections.RemoveFirstMultiset` | app/main.py:59 | the removal takes away one copy of the handle and no other entry |
| `Connections.RemoveFirstCount` | app/main.py:59 | after removal the handle occurs once less, and every other handle occurs as often as before |
| `Connections.ConnectThenDisconnect` | app/main.py:44-59 | connecting a handle that was not registered and then disconnecting it restores the original list |
| `Connections.IndexOf` | app/main.py:59 | the position of the first occurrence: no earlier entry is the handle, and it is in range exactly when the handle is registered |
| `Connections.Count` | app/main.py:67-68 | how often a handle is registered; zero exactly when it is absent |
| `Connections.ConnectionManager.Broadcast` | app/main.py:61-68 | the registry is unchanged; each entry before the first failing send gets the message once per occurrence, after what it already had; later entries and unregistered handles get nothing; the failing handle is reported |
| `Connections.FirstBroken` | app/main.py:67-68 | where the loop stops: every earlier entry sends successfully, and the entry there fails |
| `Connections.Repeat` | app/main.py:67-68 | the copies one handle receives: exactly `n` of them, each equal to the message |
| `Connections.DeliverSends` | app/main.py:67-68 | sending on each entry of a list appends the message to a handle once per occurrence, and an unregistered handle receives nothing |
| `Connections.DeliverEachSends` | app/main.py:142-144 | successive broadcasts to one list reach every handle in broadcast order, once per occurrence |
| `Connections.StreamOnce` | app/main.py:142-144 | a handle registered once receives exactly the broadcast messages, in order |
| `Connections.StreamNever` | app/main.py:67-68 | a handle that is not registered receives nothing |
| `Api.NewOrderMessage` | app/main.py:93 | the creation notification begins with `New order created: ` and the symbol, and ends with the price text |
| `Api.UpdateMessage` | app/main.py:144 | the update notification is the prefix `Order update: ` followed by exactly the inbound text |
| `Api.UpdatePayload` | app/main.py:144 | the inverse of the update notification: no payload exactly for a text without the prefix, otherwise the text after it |
| `Api.UpdateRoundTrip` | app/main.py:144 | the update notification for `d` carries exactly `d` after the prefix `Order update: `, and no other text reads as that notification |
| `Api.UpdateMessages` | app/main.py:142-144 | one notification per inbound text, in arrival order, each carrying its own text back through `UpdatePayload` |
| `Api.FirstFailedBroadcast` | app/main.py:142-144 | which broadcast of a session ends the loop: every earlier one reaches the whole registry, and that one has a failing send |
| `Api.ReceiveLoop` | app/main.py:142-144 | the registry is unchanged. Without a failing send, each inbound text in order is broadcast to the whole registry. Otherwise the loop stops at the first broadcast with a failing send, whichever inbound text that is: the earlier texts reached every entry, that text reached the entries before the failing handle, and the failing handle is reported |
| `Api.WebSocketEndpoint` | app/main.py:130-146 | the sender is registered, then every registered connection, the sender included, receives the update notifications in order, once per registration; on disconnect the sender's first entry is removed. A send failing at any broadcast escapes the `except`, leaves the sender registered, and leaves every handle with the earlier notifications plus, for the entries before the failing one, that broadcast's notification. When no send fails, a sender that was not registered before leaves the registry as it found it and receives exactly the notifications |
| `Api.NewOrderMessageFields` | app/main.py:93 | the creation notification starts with `New order created: ` and the symbol, ends with the price text, and contains the order type text and the quantity's decimal text |
| `Api.CreateTradeOrder` | app/main.py:81-94 | when storing raises (a quantity outside the 64-bit INTEGER range) the request ends with that error, nothing is stored and nothing is sent. Otherwise the order is stored with the request's fields first, and then its notification, built from the request, is broadcast. A failing send turns the response into that error, but the order stays stored |
| `Api.GetTradeOrder` | app/main.py:111-128 | the driver's error exactly when the id does not fit a 64-bit integer; a 404 with the detail "Order not found" exactly when the id fits and no row has it; otherwise, when a row has the id, exactly the row that `get_order` finds |
| `Api.GetTradeOrderAfterCreate` | app/main.py:111-128 | a row just appended with a fresh, largest id is returned by lookup of that id, unless the driver cannot bind that id |
| `Text.DecimalText` | app/main.py:93 | the quantity's text is non-empty and begins with `-` exactly when the quantity is negative |
| `Text.Digits` | app/main.py:93 | the digits of a natural number: all decimal digits, at least one, with no leading zero |
| `Text.DigitsRoundTrip` | app/main.py:93 | reading the digits back gives the number |
| `Text.DecimalRoundTrip` | app/main.py:93 | parsing the quantity's text gives back the quantity |
| `Text.DecimalTextInjective` | app/main.py:93 | different quantities have different texts |
| `Crud.Page` | app/crud.py:23 | `offset(skip).limit(limit)`: `min(limit, max(0, n - skip))` rows, the k-th being row `skip + k` |
| `Crud.PagesConcatenate` | app/crud.py:23 | two consecutive pages together make the page that spans both |
| `Crud.GetOrders` | app/crud.py:12-23 | the driver's error exactly when `skip` or `limit` does not fit a 64-bit integer, otherwise the page; the defaults are 0 and 100; reading changes nothing |
| `Crud.DefaultPageIsWholeTable` | app/crud.py:12 | with the default arguments, a table of at most 100 rows is listed whole |
| `Crud.FirstIndexOf` | app/crud.py:56 | the position of the first row with the id, or the table's length when there is none |
| `Crud.Lookup` | app/crud.py:56 | `filter(id == order_id).first()` on the table: `None` exactly when no row has the id; otherwise the first row with that id |
| `Crud.GetOrder` | app/crud.py:46-56 | the driver's error exactly when the id does not fit a 64-bit integer; `None` exactly when the id fits and no row has it; otherwise the lookup's row |
| `Crud.LookupFindsRow` | app/crud.py:56 | when ids increase along the table, looking up a row's id finds that row |
| `Crud.LookupAfterAppend` | app/crud.py:56 | a row appended with an id nobody uses is found by that id |
| `Crud.OrderStore.constructor` | app/models.py:39-52 | an empty table whose first id will be 1 |
| `Crud.OrderStore.CreateOrder` | app/crud.py:25-44 | the commit raises, and nothing changes, exactly when the quantity does not fit the 64-bit INTEGER column. Otherwise the new row has the request's symbol, price, quantity and order type, a fresh id, the insertion time and no update time; it is appended, earlier rows are unchanged, ids stay unique and increasing, and looking up its id finds it |
| `Models.Items` | app/crud.py:72 | `order.dict().items()`: one entry per request field, in declaration order, each carrying the request's value |
| `Crud.SetAttr` | app/crud.py:73 | `setattr` of one entry changes that column only; id and timestamps are kept |
| `Crud.ApplyItems` | app/crud.py:72-73 | the `setattr` loop never touches id or timestamps, and a column no entry names keeps its value |
| `Crud.ApplyItemsOverwrites` | app/crud.py:72-73 | the `setattr` loop over the request's fields overwrites exactly symbol, price, quantity and order type |
| `Crud.Updated` | app/crud.py:69-76 | the updated row holds the request's four fields and keeps its id and `created_at`. Its `updated_at` becomes the commit time exactly when some column changed; otherwise it is kept |
| `Crud.OrderStore.UpdateOrder` | app/crud.py:58-76 | when the id does not fit a 64-bit integer, the lookup raises and the store is unchanged. When no row has the id, returns `None` and the store is unchanged. When the row exists and the new quantity does not fit the 64-bit INTEGER column, the commit raises and the store is unchanged. Otherwise only the first such row is replaced by its updated form, which is also returned; ids stay valid |

## Left out

- Concurrency. Each handler runs as one sequential step, and receive
  tasks are not interleaved with each other. The source has no locking,
  so nothing about race-safety is claimed.
- `websocket.accept()` and the insides of `receive_text` and `send_text`
  (transport). Receiving is the `inbound` parameter; sending is an outbox
  append.
- The exception class a failing `send_text` raises. It is modelled as an
  error that is not `WebSocketDisconnect`, so it escapes the
  `except WebSocketDisconnect` of the receive loop. If it were a
  `WebSocketDisconnect`, the handler that triggered the broadcast would
  disconnect its own handle instead.
- The database is the default SQLite file (app/database.py:14). Another
  `DATABASE_URL` backend, with its own integer widths and id assignment,
  is not modelled.
- SQLAlchemy: the session, commit, refresh, and `get_db` (app/database.py).
  The table is an in-memory sequence.
  - Ids come from a counter that starts at 1. This matches SQLite rowids
    in this service, which never deletes a row.
  - `update_order` sets `updated_at` only when a column value changed.
    This is SQLAlchemy's behaviour: its `onupdate` default fires only for
    an UPDATE with a real change. Prices are compared by equality, so the
    NaN case of float comparison is not modelled.
- Crud.GetOrders: `skip` and `limit` are natural numbers. What SQL does
  with a negative OFFSET or LIMIT is database behaviour and is not
  modelled.
- SQLite's other storage rules. Only the driver's 64-bit range for
  bound integers is modelled (lookup id, `skip`, `limit`, the committed
  quantity).
- Crud.OrderStore.CreateOrder, Crud.OrderStore.UpdateOrder: a symbol
  holding a lone surrogate code point makes the driver's UTF-8 encoding
  raise at commit. A Dafny `string` cannot hold such a character, so
  this failure is not modelled, and "raises exactly when the quantity
  does not fit" holds only for the symbols the model can represent.
- Crud.OrderStore.CreateOrder: the id counter is unbounded. What SQLite
  does once the largest rowid 2^63-1 is in use is not modelled.
- Pydantic validation and FastAPI's 422 responses. There is also no check
  that price or quantity is positive, because the source has none.
- Python's float `repr`, and the f-string rendering of an `OrderType`
  member. Both are taken as the `Rendering` parameter.
- The `get_trade_orders` endpoint (app/main.py:96-109). It only forwards
  to `crud.get_orders`, which `Crud.GetOrders` models.
- The root endpoint, CORS, app construction and the test harness. These
  are configuration and plumbing.
