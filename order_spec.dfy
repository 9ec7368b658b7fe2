/**
  The order engine of app/Http/Controllers/OrderController.php, stated on values.

  The database is the `Db` record: the items table (stock ledger), the orders table
  with each order's rows of order_items, and the next auto-increment order id.
  Every controller action that writes runs inside one transaction, so each operation
  here maps a `Db` to a new `Db` and a result; an error result always comes with the
  unchanged `Db` (the rollback). Money is in integer cents.
*/
module OrderSpec {
  import opened Common

  type ItemId = nat
  type OrderId = nat

  /** A row of the items table: stock on hand and unit price. Stock is an `int`
      because nothing in the engine floors it at zero. */
  datatype Item = Item(quantity: int, price: int)

  datatype Status = Pending | Completed | Cancelled

  datatype OrderType = DineIn | Takeout | Online

  /** A row of order_items: the item, the quantity and the price snapshot. */
  datatype Line = Line(itemId: ItemId, quantity: int, price: int)

  datatype Order = Order(
    userId: nat,
    customerName: Option<string>,
    kind: OrderType,
    status: Status,
    wastage: bool,
    total: int,
    lines: seq<Line>)

  /** One entry of the request's `items` array: `{id, quantity}`. */
  datatype Request = Request(id: ItemId, quantity: int)

  datatype Error =
    | InsufficientStock(itemId: ItemId)  // "Not enough stock ..." validation error
    | MissingItem                        // a removed line's item row no longer exists
    | AlreadyCancelled                   // "Order is already cancelled"
    | NotPending                         // "Only pending orders can be completed."
    | NotFound                           // route model binding found no order

  datatype Result<T> = Ok(value: T) | Err(error: Error)

  datatype Db = Db(items: map<ItemId, Item>, orders: map<OrderId, Order>, nextId: OrderId)

  /** Every existing order id was handed out before `nextId`. */
  predicate Valid(db: Db) {
    forall id :: id in db.orders ==> id < db.nextId
  }

  /** Every row of an order asks for at least one unit, as the validation of `store` and
      of the edit guarantees for the rows they write. */
  predicate PositiveRows(lines: seq<Line>) {
    forall i :: 0 <= i < |lines| ==> lines[i].quantity >= 1
  }

  /** The invariant of the tables every action keeps: ids handed out in order, and no
      order row for zero or fewer units. */
  predicate WellFormed(db: Db) {
    && Valid(db)
    && forall id :: id in db.orders ==> PositiveRows(db.orders[id].lines)
  }

  /** No order has two rows for the same item. */
  predicate DistinctRows(lines: seq<Line>) {
    forall i, j :: 0 <= i < j < |lines| ==> lines[i].itemId != lines[j].itemId
  }

  predicate NonNegativeStock(items: map<ItemId, Item>) {
    forall id :: id in items ==> items[id].quantity >= 0
  }

  /** The validation rules of `store` and of the general edit: at least one entry,
      every id an existing item, every quantity at least 1. */
  predicate ValidRequest(items: map<ItemId, Item>, req: seq<Request>) {
    && |req| >= 1
    && forall k :: 0 <= k < |req| ==> req[k].id in items && req[k].quantity >= 1
  }

  predicate KnownIds(items: map<ItemId, Item>, req: seq<Request>) {
    forall k :: 0 <= k < |req| ==> req[k].id in items
  }

  predicate DistinctIds(req: seq<Request>) {
    forall j, k :: 0 <= j < k < |req| ==> req[j].id != req[k].id
  }

  /** The sum of price times quantity over a sequence of lines. */
  function LinesTotal(lines: seq<Line>): int {
    if lines == [] then 0
    else LinesTotal(lines[..|lines| - 1]) + lines[|lines| - 1].price * lines[|lines| - 1].quantity
  }

  /** Total quantity of item `id` over a sequence of lines. */
  function LineQty(lines: seq<Line>, id: ItemId): int {
    if lines == [] then 0
    else LineQty(lines[..|lines| - 1], id) + (if lines[|lines| - 1].itemId == id then lines[|lines| - 1].quantity else 0)
  }

  // ---------------------------------------------------------------------------
  // store
  // ---------------------------------------------------------------------------

  /** Total quantity of item `id` over all entries of a request; duplicates add up. */
  function Requested(req: seq<Request>, id: ItemId): int {
    if req == [] then 0
    else Requested(req[..|req| - 1], id) + (if req[|req| - 1].id == id then req[|req| - 1].quantity else 0)
  }

  /** The check of the first pass of `store`: the entry asks for more than the row holds. */
  predicate Short(items: map<ItemId, Item>, r: Request)
    requires r.id in items
  {
    items[r.id].quantity < r.quantity
  }

  /** The index, from `i` on, of the first entry the check pass rejects. */
  function FirstShortFrom(items: map<ItemId, Item>, req: seq<Request>, i: nat): (k: Option<nat>)
    requires KnownIds(items, req)
    ensures k.Some? ==> i <= k.value < |req| && Short(items, req[k.value])
    ensures k.Some? ==> forall j :: i <= j < k.value ==> !Short(items, req[j])
    ensures k.None? ==> forall j :: i <= j < |req| ==> !Short(items, req[j])
    decreases |req| - i
  {
    if i >= |req| then None
    else if Short(items, req[i]) then Some(i)
    else FirstShortFrom(items, req, i + 1)
  }

  /** The line `store` writes for one request entry: the item's price at creation. */
  function LineFor(items: map<ItemId, Item>, r: Request): Line
    requires r.id in items
  {
    Line(r.id, r.quantity, items[r.id].price)
  }

  /** The `$itemsToProcess` list of `store`: one line per entry, in request order. */
  function Snapshot(items: map<ItemId, Item>, req: seq<Request>): (lines: seq<Line>)
    requires KnownIds(items, req)
    ensures |lines| == |req|
  {
    if req == [] then []
    else Snapshot(items, req[..|req| - 1]) + [LineFor(items, req[|req| - 1])]
  }

  /** Line k of the snapshot is entry k of the request at the item's current price. */
  lemma {:induction false} SnapshotAt(items: map<ItemId, Item>, req: seq<Request>, k: nat)
    requires KnownIds(items, req) && k < |req|
    ensures Snapshot(items, req)[k] == LineFor(items, req[k])
  {
    var init := req[..|req| - 1];
    if k < |init| {
      assert init[k] == req[k];
      SnapshotAt(items, init, k);
    }
  }

  /** Stock after the commit pass: each row decremented by everything requested of it. */
  function Decremented(items: map<ItemId, Item>, req: seq<Request>): map<ItemId, Item> {
    map id | id in items :: items[id].(quantity := items[id].quantity - Requested(req, id))
  }

  /** `store` (OrderController.php:68-126). */
  function StoreOp(db: Db, userId: nat, customerName: Option<string>, kind: OrderType,
                   status: Status, req: seq<Request>): (Db, Result<OrderId>)
    requires ValidRequest(db.items, req)
  {
    match FirstShortFrom(db.items, req, 0)
    case Some(k) => (db, Err(InsufficientStock(req[k].id)))
    case None =>
      var lines := Snapshot(db.items, req);
      var order := Order(userId, customerName, kind, status, false, LinesTotal(lines), lines);
      (Db(Decremented(db.items, req), db.orders[db.nextId := order], db.nextId + 1), Ok(db.nextId))
  }

  // ---------------------------------------------------------------------------
  // update, cancel branch
  // ---------------------------------------------------------------------------

  /** Stock after the cancel branch gives every line's quantity back; a line whose
      item row no longer exists is skipped. */
  function Restocked(items: map<ItemId, Item>, lines: seq<Line>): map<ItemId, Item> {
    map id | id in items :: items[id].(quantity := items[id].quantity + LineQty(lines, id))
  }

  /** `update` when the request carries `wastage` (OrderController.php:150-184). */
  function CancelOp(db: Db, orderId: OrderId, wastage: bool): (Db, Result<Order>) {
    if orderId !in db.orders then (db, Err(NotFound))
    else
      var o := db.orders[orderId];
      if o.status == Cancelled then (db, Err(AlreadyCancelled))
      else
        var o' := o.(status := Cancelled, wastage := wastage);
        var items := if wastage then db.items else Restocked(db.items, o.lines);
        (db.(items := items, orders := db.orders[orderId := o']), Ok(o'))
  }

  // ---------------------------------------------------------------------------
  // update, general edit branch
  // ---------------------------------------------------------------------------

  /** `cur` indexes `lines` by item id: every row's item is a key, and every key points
      at a row of that item. */
  predicate KeyedRows(lines: seq<Line>, cur: map<ItemId, nat>) {
    && (forall id :: id in cur ==> cur[id] < |lines| && lines[cur[id]].itemId == id)
    && (forall i :: 0 <= i < |lines| ==> lines[i].itemId in cur)
  }

  /** `$order->orderItems->keyBy('item_id')`: each item id to the index of its LAST line. */
  function Current(lines: seq<Line>): (cur: map<ItemId, nat>)
    ensures KeyedRows(lines, cur)
    ensures forall i :: 0 <= i < |lines| ==> i <= cur[lines[i].itemId]
  {
    if lines == [] then map[]
    else Current(lines[..|lines| - 1])[lines[|lines| - 1].itemId := |lines| - 1]
  }

  /** `collect($validated['items'])->keyBy('id')`: each id to the quantity of its LAST entry. */
  function Wanted(req: seq<Request>): (w: map<ItemId, int>)
    ensures forall k :: 0 <= k < |req| ==> req[k].id in w
  {
    if req == [] then map[]
    else
      var init, last := req[..|req| - 1], req[|req| - 1];
      assert forall k :: 0 <= k < |init| ==> init[k] == req[k];
      Wanted(init)[last.id := last.quantity]
  }

  /** Every keyed id comes from some entry of the request, with that entry's quantity. */
  lemma {:induction false} WantedFromRequest(req: seq<Request>, id: ItemId)
    requires id in Wanted(req)
    ensures exists k :: 0 <= k < |req| && req[k].id == id && Wanted(req)[id] == req[k].quantity
  {
    var init, last := req[..|req| - 1], req[|req| - 1];
    if last.id != id {
      WantedFromRequest(init, id);
      var k :| 0 <= k < |init| && init[k].id == id && Wanted(init)[id] == init[k].quantity;
      assert req[k] == init[k];
    } else {
      assert req[|req| - 1].id == id;
    }
  }

  /** On a validated request every keyed id is a known item asking for at least one unit. */
  lemma WantedValid(items: map<ItemId, Item>, req: seq<Request>)
    requires ValidRequest(items, req)
    ensures forall id :: id in Wanted(req) ==> id in items && Wanted(req)[id] >= 1
  {
    forall id | id in Wanted(req)
      ensures id in items && Wanted(req)[id] >= 1
    {
      WantedFromRequest(req, id);
    }
  }

  /** The last entry for an id wins. */
  lemma {:induction false} WantedLastWins(req: seq<Request>, k: nat)
    requires k < |req|
    requires forall j :: k < j < |req| ==> req[j].id != req[k].id
    ensures Wanted(req)[req[k].id] == req[k].quantity
  {
    var init := req[..|req| - 1];
    if k < |init| {
      assert init[k] == req[k];
      WantedLastWins(init, k);
    }
  }

  /** The order in which the keyed request is walked: ids by first occurrence. */
  function KeyOrder(req: seq<Request>): (ks: seq<ItemId>)
    ensures forall i, j :: 0 <= i < j < |ks| ==> ks[i] != ks[j]
    ensures forall id :: id in ks <==> id in Wanted(req)
  {
    if req == [] then []
    else
      var ks := KeyOrder(req[..|req| - 1]);
      if req[|req| - 1].id in ks then ks else ks + [req[|req| - 1].id]
  }

  /** Quantity of the line the edit treats as current for `id` (0 when there is none). */
  function OldQty(lines: seq<Line>, id: ItemId): int {
    var cur := Current(lines);
    if id in cur then lines[cur[id]].quantity else 0
  }

  /** Quantity the edit asks for `id` (0 when the request drops it). */
  function NewQty(req: seq<Request>, id: ItemId): int {
    var w := Wanted(req);
    if id in w then w[id] else 0
  }

  /** The stock check of the edit for one keyed id `id` asking for `w[id]` units: an
      increase larger than the row's stock (kept line), or a new line larger than it. */
  predicate EditShort(items: map<ItemId, Item>, lines: seq<Line>, w: map<ItemId, int>, id: ItemId)
    requires id in items && id in w
  {
    if id in Current(lines) then
      var diff := w[id] - OldQty(lines, id);
      diff > 0 && items[id].quantity < diff
    else items[id].quantity < w[id]
  }

  /** The first id, in key order from position `i`, that fails the edit's stock check. */
  function FirstEditShortFrom(items: map<ItemId, Item>, lines: seq<Line>, w: map<ItemId, int>,
                              ks: seq<ItemId>, i: nat): (r: Option<ItemId>)
    requires forall id :: id in ks ==> id in items && id in w
    ensures r.Some? ==> exists k :: i <= k < |ks| && ks[k] == r.value && EditShort(items, lines, w, r.value) &&
                          forall j :: i <= j < k ==> !EditShort(items, lines, w, ks[j])
    ensures r.None? ==> forall j :: i <= j < |ks| ==> !EditShort(items, lines, w, ks[j])
    decreases |ks| - i
  {
    if i >= |ks| then None
    else if EditShort(items, lines, w, ks[i]) then Some(ks[i])
    else FirstEditShortFrom(items, lines, w, ks, i + 1)
  }

  /** The first short id, when the ones before it pass. */
  lemma {:induction false} FirstEditShortAt(items: map<ItemId, Item>, lines: seq<Line>, w: map<ItemId, int>,
                                            ks: seq<ItemId>, i: nat, k: nat)
    requires forall id :: id in ks ==> id in items && id in w
    requires i <= k < |ks| && EditShort(items, lines, w, ks[k])
    requires forall j :: i <= j < k ==> !EditShort(items, lines, w, ks[j])
    ensures FirstEditShortFrom(items, lines, w, ks, i) == Some(ks[k])
    decreases k - i
  {
    if i < k {
      FirstEditShortAt(items, lines, w, ks, i + 1, k);
    }
  }

  /** No short id at all. */
  lemma {:induction false} NoEditShort(items: map<ItemId, Item>, lines: seq<Line>, w: map<ItemId, int>,
                                       ks: seq<ItemId>, i: nat)
    requires forall id :: id in ks ==> id in items && id in w
    requires forall j :: i <= j < |ks| ==> !EditShort(items, lines, w, ks[j])
    ensures FirstEditShortFrom(items, lines, w, ks, i).None?
    decreases |ks| - i
  {
    if i < |ks| {
      NoEditShort(items, lines, w, ks, i + 1);
    }
  }

  /** Every line the edit removes still has its item row (the release would fail otherwise). */
  predicate Releasable(items: map<ItemId, Item>, lines: seq<Line>, req: seq<Request>) {
    forall id :: id in Current(lines) && id !in Wanted(req) ==> id in items
  }

  /** Stock after a successful edit: every row moves by old quantity minus new quantity. */
  function Reconciled(items: map<ItemId, Item>, lines: seq<Line>, req: seq<Request>): map<ItemId, Item> {
    map id | id in items :: items[id].(quantity := items[id].quantity + OldQty(lines, id) - NewQty(req, id))
  }

  /** The first `k` rows of the order after the edit: a current row that is still
      requested gets the new quantity and today's price, one that is not is deleted,
      and an earlier row of a duplicated item (invisible to keyBy) stays as it was. */
  function Revise(lines: seq<Line>, cur: map<ItemId, nat>, w: map<ItemId, int>, items: map<ItemId, Item>,
                  k: nat): seq<Line>
    requires KeyedRows(lines, cur) && k <= |lines|
    requires forall id :: id in w ==> id in items
  {
    if k == 0 then []
    else
      var l := lines[k - 1];
      var rest := Revise(lines, cur, w, items, k - 1);
      if cur[l.itemId] != k - 1 then rest + [l]
      else if l.itemId in w then rest + [Line(l.itemId, w[l.itemId], items[l.itemId].price)]
      else rest
  }

  /** The rows the edit creates, in key order: requested ids with no current row. */
  function Added(cur: map<ItemId, nat>, w: map<ItemId, int>, items: map<ItemId, Item>, ks: seq<ItemId>): seq<Line>
    requires forall id :: id in ks ==> id in w && id in items
  {
    if ks == [] then []
    else
      var id := ks[|ks| - 1];
      Added(cur, w, items, ks[..|ks| - 1]) + (if id in cur then [] else [Line(id, w[id], items[id].price)])
  }

  /** The `$totalAmount` of the edit: today's price times the new quantity, over the keyed request. */
  function KeyedTotal(w: map<ItemId, int>, items: map<ItemId, Item>, ks: seq<ItemId>): int
    requires forall id :: id in ks ==> id in w && id in items
  {
    if ks == [] then 0
    else
      var id := ks[|ks| - 1];
      KeyedTotal(w, items, ks[..|ks| - 1]) + items[id].price * w[id]
  }

  /** The order's total after a successful edit. */
  function EditedTotal(items: map<ItemId, Item>, req: seq<Request>): int
    requires ValidRequest(items, req)
  {
    WantedValid(items, req);
    KeyedTotal(Wanted(req), items, KeyOrder(req))
  }

  /** The order's rows after a successful edit. */
  function EditedLines(items: map<ItemId, Item>, lines: seq<Line>, req: seq<Request>): seq<Line>
    requires ValidRequest(items, req)
  {
    WantedValid(items, req);
    var w := Wanted(req);
    var cur := Current(lines);
    Revise(lines, cur, w, items, |lines|) + Added(cur, w, items, KeyOrder(req))
  }

  /** `update` without `wastage` (OrderController.php:186-277). */
  function EditOp(db: Db, orderId: OrderId, customerName: Option<string>, kind: OrderType,
                  status: Status, req: seq<Request>): (Db, Result<Order>)
    requires ValidRequest(db.items, req)
  {
    if orderId !in db.orders then (db, Err(NotFound))
    else
      var o := db.orders[orderId];
      WantedValid(db.items, req);
      match FirstEditShortFrom(db.items, o.lines, Wanted(req), KeyOrder(req), 0)
      case Some(id) => (db, Err(InsufficientStock(id)))
      case None =>
        if !Releasable(db.items, o.lines, req) then (db, Err(MissingItem))
        else
          var o' := o.(customerName := customerName, kind := kind, status := status,
                       total := EditedTotal(db.items, req),
                       lines := EditedLines(db.items, o.lines, req));
          (db.(items := Reconciled(db.items, o.lines, req), orders := db.orders[orderId := o']), Ok(o'))
  }

  /** `update`: the presence of `wastage` selects the cancel branch (OrderController.php:150). */
  function UpdateOp(db: Db, orderId: OrderId, wastage: Option<bool>, customerName: Option<string>,
                    kind: OrderType, status: Status, req: seq<Request>): (Db, Result<Order>)
    requires wastage.Some? ==> status == Cancelled
    requires wastage.None? ==> ValidRequest(db.items, req)
  {
    if wastage.Some? then CancelOp(db, orderId, wastage.value)
    else EditOp(db, orderId, customerName, kind, status, req)
  }

  // ---------------------------------------------------------------------------
  // complete, edit guard
  // ---------------------------------------------------------------------------

  /** `complete` (OrderController.php:279-293). */
  function CompleteOp(db: Db, orderId: OrderId): (Db, Result<Order>) {
    if orderId !in db.orders then (db, Err(NotFound))
    else
      var o := db.orders[orderId];
      if o.status != Pending then (db, Err(NotPending))
      else
        var o' := o.(status := Completed);
        (db.(orders := db.orders[orderId := o']), Ok(o'))
  }

  /** The guard of the edit form (OrderController.php:130): a cancelled order that was not
      wastage is frozen for everybody but a Super Admin. */
  predicate EditAllowed(o: Order, isSuperAdmin: bool)
  {
    !(o.status == Cancelled && !o.wastage && !isSuperAdmin)
  }
}
