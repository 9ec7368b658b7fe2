/**
  What the order engine of app/Http/Controllers/OrderController.php promises, proved
  about the operations of OrderSpec: how `store` moves stock and what it records, that
  a cancellation without wastage undoes a `store`, how the general edit moves stock,
  what `complete` accepts, and which invariants of the tables every action keeps.
*/
module OrderProperties {
  import opened Common
  import opened OrderSpec

  // ---------------------------------------------------------------------------
  // requested quantities
  // ---------------------------------------------------------------------------

  /** With distinct ids, the quantity requested of an entry's item is that entry's quantity. */
  lemma {:induction false} RequestedOne(req: seq<Request>, k: nat)
    requires DistinctIds(req) && k < |req|
    ensures Requested(req, req[k].id) == req[k].quantity
  {
    var init := req[..|req| - 1];
    if k < |init| {
      assert init[k] == req[k];
      assert DistinctIds(init);
      RequestedOne(init, k);
    } else {
      RequestedNone(init, req[k].id);
    }
  }

  /** An item no entry asks for is requested zero times. */
  lemma {:induction false} RequestedNone(req: seq<Request>, id: ItemId)
    requires forall k :: 0 <= k < |req| ==> req[k].id != id
    ensures Requested(req, id) == 0
  {
    if req != [] {
      var init := req[..|req| - 1];
      assert forall k :: 0 <= k < |init| ==> init[k] == req[k];
      RequestedNone(init, id);
    }
  }

  /** The lines `store` writes hold, per item, exactly what the request asked for. */
  lemma {:induction false} SnapshotQty(items: map<ItemId, Item>, req: seq<Request>, id: ItemId)
    requires KnownIds(items, req)
    ensures LineQty(Snapshot(items, req), id) == Requested(req, id)
  {
    if req != [] {
      var init := req[..|req| - 1];
      var s := Snapshot(items, req);
      assert s[..|s| - 1] == Snapshot(items, init);
      SnapshotQty(items, init, id);
    }
  }

  // ---------------------------------------------------------------------------
  // store
  // ---------------------------------------------------------------------------

  /** `store` succeeds exactly when every entry, checked on its own against the row's
      stock, fits; otherwise it names the first entry that does not and changes nothing. */
  lemma StoreSucceedsIffEachEntryFits(db: Db, userId: nat, customerName: Option<string>, kind: OrderType,
                                      status: Status, req: seq<Request>)
    requires ValidRequest(db.items, req)
    ensures var (db', r) := StoreOp(db, userId, customerName, kind, status, req);
            && (r.Ok? <==> forall k :: 0 <= k < |req| ==> req[k].quantity <= db.items[req[k].id].quantity)
            && (r.Err? ==> db' == db && exists k :: (0 <= k < |req| && r.error == InsufficientStock(req[k].id)
                                                   && db.items[req[k].id].quantity < req[k].quantity))
  {
    match FirstShortFrom(db.items, req, 0)
    case Some(k) =>
      assert db.items[req[k].id].quantity < req[k].quantity;
    case None =>
  }

  /** A successful `store` takes each entry's quantity off its item's row (ids distinct)
      and leaves every other row as it was. */
  lemma StoreDeductsStock(db: Db, userId: nat, customerName: Option<string>, kind: OrderType,
                          status: Status, req: seq<Request>)
    requires ValidRequest(db.items, req) && DistinctIds(req)
    requires StoreOp(db, userId, customerName, kind, status, req).1.Ok?
    ensures var items' := StoreOp(db, userId, customerName, kind, status, req).0.items;
            && items'.Keys == db.items.Keys
            && (forall k :: 0 <= k < |req| ==>
                  items'[req[k].id] == db.items[req[k].id].(quantity := db.items[req[k].id].quantity - req[k].quantity))
            && (forall id :: id in db.items && (forall k :: 0 <= k < |req| ==> req[k].id != id) ==>
                  items'[id] == db.items[id])
  {
    forall k | 0 <= k < |req|
      ensures Requested(req, req[k].id) == req[k].quantity
    {
      RequestedOne(req, k);
    }
    forall id | id in db.items && (forall k :: 0 <= k < |req| ==> req[k].id != id)
      ensures Requested(req, id) == 0
    {
      RequestedNone(req, id);
    }
  }

  /** A successful `store` writes a new order under the next id: the caller's user, name,
      type and status, not wastage, one row per entry in request order with the item's
      price at that moment, and the sum of price times quantity as total. Nothing else in
      the orders table changes. */
  lemma StoreRecordsOrder(db: Db, userId: nat, customerName: Option<string>, kind: OrderType,
                          status: Status, req: seq<Request>)
    requires Valid(db) && ValidRequest(db.items, req)
    requires StoreOp(db, userId, customerName, kind, status, req).1.Ok?
    ensures var (db', r) := StoreOp(db, userId, customerName, kind, status, req);
            && r.value == db.nextId && r.value !in db.orders
            && db'.nextId == db.nextId + 1 && Valid(db')
            && db'.orders.Keys == db.orders.Keys + {r.value}
            && (forall id :: id in db.orders ==> db'.orders[id] == db.orders[id])
            && var o := db'.orders[r.value];
               && o.userId == userId && o.customerName == customerName && o.kind == kind
               && o.status == status && !o.wastage
               && |o.lines| == |req|
               && (forall k :: 0 <= k < |req| ==>
                     o.lines[k] == Line(req[k].id, req[k].quantity, db.items[req[k].id].price))
               && o.total == LinesTotal(o.lines)
  {
    forall k | 0 <= k < |req|
      ensures Snapshot(db.items, req)[k] == Line(req[k].id, req[k].quantity, db.items[req[k].id].price)
    {
      SnapshotAt(db.items, req, k);
    }
  }

  /** With distinct ids, a successful `store` never drives a row below zero. */
  lemma StoreKeepsStockNonNegative(db: Db, userId: nat, customerName: Option<string>, kind: OrderType,
                                   status: Status, req: seq<Request>)
    requires ValidRequest(db.items, req) && DistinctIds(req) && NonNegativeStock(db.items)
    ensures NonNegativeStock(StoreOp(db, userId, customerName, kind, status, req).0.items)
  {
    if StoreOp(db, userId, customerName, kind, status, req).1.Ok? {
      StoreDeductsStock(db, userId, customerName, kind, status, req);
      var items' := StoreOp(db, userId, customerName, kind, status, req).0.items;
      forall id | id in items'
        ensures items'[id].quantity >= 0
      {
        if k :| 0 <= k < |req| && req[k].id == id {
          assert req[k].quantity <= db.items[id].quantity;
        }
      }
    }
  }

  /** The check pass compares each entry with the row as it was before the request, so
      two entries for the same item are each checked against the full stock: three units
      on hand, two entries of two, and the order goes through leaving minus one. */
  lemma DuplicateIdsOversell()
    ensures var db := Db(map[1 := Item(3, 10000)], map[], 1);
            var (db', r) := StoreOp(db, 7, None, DineIn, Pending, [Request(1, 2), Request(1, 2)]);
            r == Ok(1) && db'.items[1].quantity == -1
  {
    var items := map[1 := Item(3, 10000)];
    var req := [Request(1, 2), Request(1, 2)];
    assert req[..1] == [Request(1, 2)];
    assert req[..1][..0] == [];
    assert FirstShortFrom(items, req, 2) == None;
    assert FirstShortFrom(items, req, 0) == None;
    assert Requested(req, 1) == 4;
  }

  /** The store scenario of tests/Feature/OrderTest.php:12-34: ten units at 100.00, an
      order for two leaves eight and totals 200.00. */
  lemma StoreScenario(userId: nat)
    ensures var db := Db(map[1 := Item(10, 10000)], map[], 1);
            var (db', r) := StoreOp(db, userId, Some("Test Customer"), DineIn, Pending, [Request(1, 2)]);
            && r == Ok(1)
            && db'.items[1].quantity == 8
            && db'.orders[1].total == 20000
            && db'.orders[1].lines == [Line(1, 2, 10000)]
  {
    var items := map[1 := Item(10, 10000)];
    var req := [Request(1, 2)];
    assert req[..0] == [];
    assert FirstShortFrom(items, req, 0) == None;
    assert Requested(req, 1) == 2;
    var lines := [Line(1, 2, 10000)];
    assert Snapshot(items, req) == lines;
    assert lines[..0] == [];
    assert LinesTotal(lines) == 20000;
  }

  // ---------------------------------------------------------------------------
  // cancel
  // ---------------------------------------------------------------------------

  /** Cancelling, without wastage, an order `store` has just placed puts every row of the
      items table back where it was before the `store`; with wastage the stock stays spent. */
  lemma CancelUndoesStore(db: Db, userId: nat, customerName: Option<string>, kind: OrderType,
                          status: Status, req: seq<Request>)
    requires ValidRequest(db.items, req) && status != Cancelled
    requires StoreOp(db, userId, customerName, kind, status, req).1.Ok?
    ensures var (db1, r) := StoreOp(db, userId, customerName, kind, status, req);
            && CancelOp(db1, r.value, false).1.Ok?
            && CancelOp(db1, r.value, false).0.items == db.items
            && CancelOp(db1, r.value, true).0.items == db1.items
  {
    var (db1, r) := StoreOp(db, userId, customerName, kind, status, req);
    var lines := Snapshot(db.items, req);
    assert db1.orders[r.value].lines == lines;
    var back := Restocked(Decremented(db.items, req), lines);
    forall id | id in db.items
      ensures back[id] == db.items[id]
    {
      SnapshotQty(db.items, req, id);
    }
    assert back == db.items;
  }

  /** An order `store` wrote with status cancelled took its stock and can never give it
      back: the cancel branch refuses it. */
  lemma StoredCancelledKeepsStock(db: Db, userId: nat, customerName: Option<string>, kind: OrderType,
                                  req: seq<Request>, wastage: bool)
    requires ValidRequest(db.items, req)
    requires StoreOp(db, userId, customerName, kind, Cancelled, req).1.Ok?
    ensures var (db1, r) := StoreOp(db, userId, customerName, kind, Cancelled, req);
            CancelOp(db1, r.value, wastage) == (db1, Err(AlreadyCancelled))
  {
  }

  /** A cancelled order cannot be cancelled again, so its stock is never given back twice. */
  lemma CancelOnce(db: Db, orderId: OrderId, wastage: bool, again: bool)
    requires CancelOp(db, orderId, wastage).1.Ok?
    ensures var db1 := CancelOp(db, orderId, wastage).0;
            && db1.orders[orderId].status == Cancelled && db1.orders[orderId].wastage == wastage
            && CancelOp(db1, orderId, again) == (db1, Err(AlreadyCancelled))
  {
  }

  /** The cancel scenarios of tests/Feature/OrderTest.php:36-107: a completed order for two
      units, eight left on the shelf; cancelling it without wastage brings the shelf back to
      ten, with wastage it stays at eight, and either way the order ends cancelled. */
  lemma CancelScenarios(userId: nat)
    ensures var order := Order(userId, None, DineIn, Completed, false, 20000, [Line(1, 2, 10000)]);
            var db := Db(map[1 := Item(8, 10000)], map[1 := order], 2);
            && CancelOp(db, 1, false).1.Ok? && CancelOp(db, 1, true).1.Ok?
            && CancelOp(db, 1, false).0.items[1].quantity == 10
            && CancelOp(db, 1, true).0.items[1].quantity == 8
            && CancelOp(db, 1, false).0.orders[1].status == Cancelled
            && CancelOp(db, 1, true).0.orders[1].status == Cancelled
  {
    var lines := [Line(1, 2, 10000)];
    assert lines[..0] == [];
  }

  // ---------------------------------------------------------------------------
  // general edit
  // ---------------------------------------------------------------------------

  /** For the rows `store` wrote from a request with distinct ids, the edit's keyBy finds,
      per item, the quantity the request asked for. */
  lemma SnapshotOldQty(items: map<ItemId, Item>, req: seq<Request>, id: ItemId)
    requires KnownIds(items, req) && DistinctIds(req)
    ensures OldQty(Snapshot(items, req), id) == Requested(req, id)
    ensures id in Current(Snapshot(items, req)) <==> exists k :: 0 <= k < |req| && req[k].id == id
  {
    var lines := Snapshot(items, req);
    var cur := Current(lines);
    if id in cur {
      var k := cur[id];
      SnapshotAt(items, req, k);
      RequestedOne(req, k);
    } else {
      forall k | 0 <= k < |req|
        ensures req[k].id != id
      {
        SnapshotAt(items, req, k);
      }
      RequestedNone(req, id);
    }
  }

  /** With distinct ids, keyBy on the request loses nothing: the keyed quantity of an id is
      what the request asks for. */
  lemma WantedQty(req: seq<Request>, id: ItemId)
    requires DistinctIds(req)
    ensures NewQty(req, id) == Requested(req, id)
  {
    if id in Wanted(req) {
      WantedFromRequest(req, id);
      var k :| 0 <= k < |req| && req[k].id == id && Wanted(req)[id] == req[k].quantity;
      RequestedOne(req, k);
    } else {
      RequestedNone(req, id);
    }
  }

  /** On an order `store` just placed from `req1`, the edit's stock check for an id of
      `req2` fails exactly when the row, before `store`, held less than `req2` asks for. */
  lemma EditShortAfterStore(items: map<ItemId, Item>, req1: seq<Request>, req2: seq<Request>, id: ItemId)
    requires KnownIds(items, req1) && DistinctIds(req1) && DistinctIds(req2)
    requires forall k :: 0 <= k < |req1| ==> req1[k].quantity <= items[req1[k].id].quantity
    requires id in items && id in Wanted(req2)
    ensures EditShort(Decremented(items, req1), Snapshot(items, req1), Wanted(req2), id)
            <==> items[id].quantity < Wanted(req2)[id]
  {
    SnapshotOldQty(items, req1, id);
    WantedQty(req2, id);
  }

  /** On a just-placed order, the edit's stock check passes for every keyed id exactly
      when every entry of the new request fits the stock held before `store`. */
  lemma EditAfterStorePasses(items: map<ItemId, Item>, req1: seq<Request>, req2: seq<Request>)
    requires KnownIds(items, req1) && DistinctIds(req1) && ValidRequest(items, req2) && DistinctIds(req2)
    requires forall k :: 0 <= k < |req1| ==> req1[k].quantity <= items[req1[k].id].quantity
    ensures forall id :: id in Wanted(req2) ==> id in items
    ensures FirstEditShortFrom(Decremented(items, req1), Snapshot(items, req1), Wanted(req2), KeyOrder(req2), 0).None?
            <==> forall k :: 0 <= k < |req2| ==> req2[k].quantity <= items[req2[k].id].quantity
  {
    WantedValid(items, req2);
    var items1, lines, w, ks := Decremented(items, req1), Snapshot(items, req1), Wanted(req2), KeyOrder(req2);
    forall k | 0 <= k < |req2|
      ensures w[req2[k].id] == req2[k].quantity
    {
      WantedQty(req2, req2[k].id);
      RequestedOne(req2, k);
    }
    match FirstEditShortFrom(items1, lines, w, ks, 0)
    case Some(id) =>
      EditShortAfterStore(items, req1, req2, id);
      WantedFromRequest(req2, id);
    case None =>
      forall k | 0 <= k < |req2|
        ensures req2[k].quantity <= items[req2[k].id].quantity
      {
        var id := req2[k].id;
        assert id in ks;
        var j :| 0 <= j < |ks| && ks[j] == id;
        assert !EditShort(items1, lines, w, ks[j]);
        EditShortAfterStore(items, req1, req2, id);
      }
  }

  /** The stock effect of an edit of a just-placed order: as if the new request had been
      placed instead (distinct ids on both sides). */
  lemma EditAfterStoreStock(items: map<ItemId, Item>, req1: seq<Request>, req2: seq<Request>)
    requires KnownIds(items, req1) && DistinctIds(req1) && DistinctIds(req2)
    ensures Reconciled(Decremented(items, req1), Snapshot(items, req1), req2) == Decremented(items, req2)
  {
    var lines := Snapshot(items, req1);
    var a := Reconciled(Decremented(items, req1), lines, req2);
    var b := Decremented(items, req2);
    assert a.Keys == b.Keys;
    forall id | id in items
      ensures a[id] == b[id]
    {
      assert OldQty(lines, id) == Requested(req1, id) by { SnapshotOldQty(items, req1, id); }
      assert NewQty(req2, id) == Requested(req2, id) by { WantedQty(req2, id); }
      assert a[id].quantity == b[id].quantity;
    }
  }

  /** Editing an order `store` has just placed (distinct ids on both sides) succeeds exactly
      when placing the new request instead would, and leaves the items table exactly as
      placing it instead would: the edit conserves stock. */
  lemma EditAfterStoreIsLikeStore(db: Db, userId: nat, customerName: Option<string>, kind: OrderType,
                                  status: Status, req1: seq<Request>,
                                  customerName2: Option<string>, kind2: OrderType, status2: Status,
                                  req2: seq<Request>)
    requires ValidRequest(db.items, req1) && DistinctIds(req1)
    requires ValidRequest(db.items, req2) && DistinctIds(req2)
    requires StoreOp(db, userId, customerName, kind, status, req1).1.Ok?
    ensures var (db1, r) := StoreOp(db, userId, customerName, kind, status, req1);
            && ValidRequest(db1.items, req2)
            && var (db2, r2) := EditOp(db1, r.value, customerName2, kind2, status2, req2);
               && (r2.Ok? <==> StoreOp(db, userId, customerName2, kind2, status2, req2).1.Ok?)
               && (r2.Ok? ==> db2.items == StoreOp(db, userId, customerName2, kind2, status2, req2).0.items)
               && (r2.Err? ==> db2 == db1)
  {
    assert FirstShortFrom(db.items, req1, 0).None?;
    StoreOkShape(db, userId, customerName, kind, status, req1);
    StoreSucceedsIffEachEntryFits(db, userId, customerName, kind, status, req1);
    StoreSucceedsIffEachEntryFits(db, userId, customerName2, kind2, status2, req2);
    if FirstShortFrom(db.items, req2, 0).None? {
      StoreOkShape(db, userId, customerName2, kind2, status2, req2);
    }
    var db1 := StoreOp(db, userId, customerName, kind, status, req1).0;
    EditOfStored(db.items, db1, db.nextId, req1, customerName2, kind2, status2, req2);
  }

  /** What `store` leaves when its check pass finds no entry short: the new order under
      `nextId` holding the snapshot rows, and the stock decremented by the request. */
  lemma StoreOkShape(db: Db, userId: nat, customerName: Option<string>, kind: OrderType,
                     status: Status, req: seq<Request>)
    requires ValidRequest(db.items, req)
    requires FirstShortFrom(db.items, req, 0).None?
    ensures var (db1, r) := StoreOp(db, userId, customerName, kind, status, req);
            && r == Ok(db.nextId)
            && db1.items == Decremented(db.items, req)
            && db.nextId in db1.orders && db1.orders[db.nextId].lines == Snapshot(db.items, req)
  {
  }

  /** The edit of an order whose rows are the snapshot of `req1`, on the stock `store` left
      behind for it: it succeeds exactly when every entry of `req2` fits the stock held
      before `req1` was placed, and then leaves the stock `req2` alone would have left. */
  lemma EditOfStored(items: map<ItemId, Item>, db1: Db, orderId: OrderId, req1: seq<Request>,
                     customerName: Option<string>, kind: OrderType, status: Status, req2: seq<Request>)
    requires ValidRequest(items, req1) && DistinctIds(req1)
    requires ValidRequest(items, req2) && DistinctIds(req2)
    requires forall k :: 0 <= k < |req1| ==> req1[k].quantity <= items[req1[k].id].quantity
    requires db1.items == Decremented(items, req1)
    requires orderId in db1.orders && db1.orders[orderId].lines == Snapshot(items, req1)
    ensures ValidRequest(db1.items, req2)
    ensures var (db2, r2) := EditOp(db1, orderId, customerName, kind, status, req2);
            && (r2.Ok? <==> forall k :: 0 <= k < |req2| ==> req2[k].quantity <= items[req2[k].id].quantity)
            && (r2.Ok? ==> db2.items == Decremented(items, req2))
            && (r2.Err? ==> db2 == db1)
  {
    var lines := Snapshot(items, req1);
    WantedValid(db1.items, req2);
    assert FirstEditShortFrom(db1.items, lines, Wanted(req2), KeyOrder(req2), 0).None?
           <==> forall k :: 0 <= k < |req2| ==> req2[k].quantity <= items[req2[k].id].quantity by {
      EditAfterStorePasses(items, req1, req2);
    }
    assert Releasable(db1.items, lines, req2) by {
      SnapshotKnown(items, req1);
    }
    assert Reconciled(db1.items, lines, req2) == Decremented(items, req2) by {
      EditAfterStoreStock(items, req1, req2);
    }
  }

  /** The general edit with status cancelled is not a cancellation: resubmitting a
      just-placed order unchanged with status cancelled succeeds, marks it cancelled and
      gives no stock back, where the cancel branch would give it all back. */
  lemma EditToCancelledKeepsStock(db: Db, userId: nat, customerName: Option<string>, kind: OrderType,
                                  req: seq<Request>)
    requires ValidRequest(db.items, req) && DistinctIds(req)
    requires StoreOp(db, userId, customerName, kind, Pending, req).1.Ok?
    ensures var (db1, r) := StoreOp(db, userId, customerName, kind, Pending, req);
            && ValidRequest(db1.items, req)
            && var (db2, r2) := EditOp(db1, r.value, customerName, kind, Cancelled, req);
               && r2.Ok? && r2.value.status == Cancelled
               && db2.items == db1.items
               && CancelOp(db1, r.value, false).0.items == db.items
  {
    EditAfterStoreIsLikeStore(db, userId, customerName, kind, Pending, req, customerName, kind, Cancelled, req);
    CancelUndoesStore(db, userId, customerName, kind, Pending, req);
  }

  /** Cancelling without wastage and then resubmitting the same request with status
      pending revives the order while the stock it holds has already been given back:
      the edit sees the old rows as still reserved, so the items table ends as if the
      order had never been placed although it is pending again. */
  lemma ReopenAfterCancelKeepsRestock(db: Db, userId: nat, customerName: Option<string>, kind: OrderType,
                                      req: seq<Request>)
    requires ValidRequest(db.items, req) && DistinctIds(req)
    requires StoreOp(db, userId, customerName, kind, Pending, req).1.Ok?
    ensures var (db1, r) := StoreOp(db, userId, customerName, kind, Pending, req);
            var db2 := CancelOp(db1, r.value, false).0;
            && db2.items == db.items
            && ValidRequest(db2.items, req)
            && var (db3, r3) := EditOp(db2, r.value, customerName, kind, Pending, req);
               && r3.Ok? && r3.value.status == Pending
               && db3.items == db.items
  {
    assert FirstShortFrom(db.items, req, 0).None?;
    StoreOkShape(db, userId, customerName, kind, Pending, req);
    CancelUndoesStore(db, userId, customerName, kind, Pending, req);
    var db1 := StoreOp(db, userId, customerName, kind, Pending, req).0;
    var db2 := CancelOp(db1, db.nextId, false).0;
    assert db.nextId in db2.orders && db2.orders[db.nextId].lines == Snapshot(db.items, req);
    EditOfRestocked(db2, db.nextId, customerName, kind, Pending, req);
  }

  /** Resubmitting the request an order was placed with, on the stock held before it was
      placed: the edit finds every row unchanged, passes, and leaves the stock as it is. */
  lemma EditOfRestocked(db: Db, orderId: OrderId, customerName: Option<string>, kind: OrderType,
                        status: Status, req: seq<Request>)
    requires ValidRequest(db.items, req) && DistinctIds(req)
    requires orderId in db.orders && db.orders[orderId].lines == Snapshot(db.items, req)
    ensures var (db1, r) := EditOp(db, orderId, customerName, kind, status, req);
            && r.Ok? && r.value.status == status
            && db1.items == db.items
  {
    WantedValid(db.items, req);
    SnapshotPassesEdit(db.items, req);
    SnapshotKnown(db.items, req);
    SnapshotReconciled(db.items, req);
  }

  /** Every item the snapshot rows name is a row of the items table. */
  lemma SnapshotKnown(items: map<ItemId, Item>, req: seq<Request>)
    requires KnownIds(items, req) && DistinctIds(req)
    ensures forall id :: id in Current(Snapshot(items, req)) ==> id in items
  {
    forall id | id in Current(Snapshot(items, req))
      ensures id in items
    {
      SnapshotOldQty(items, req, id);
    }
  }

  /** Asking again for what the rows already hold passes the edit's stock check. */
  lemma SnapshotPassesEdit(items: map<ItemId, Item>, req: seq<Request>)
    requires ValidRequest(items, req) && DistinctIds(req)
    ensures forall id :: id in Wanted(req) ==> id in items
    ensures FirstEditShortFrom(items, Snapshot(items, req), Wanted(req), KeyOrder(req), 0).None?
  {
    WantedValid(items, req);
    var lines, w, ks := Snapshot(items, req), Wanted(req), KeyOrder(req);
    forall j | 0 <= j < |ks|
      ensures !EditShort(items, lines, w, ks[j])
    {
      var id := ks[j];
      SnapshotOldQty(items, req, id);
      WantedQty(req, id);
    }
    NoEditShort(items, lines, w, ks, 0);
  }

  /** Asking again for what the rows already hold moves no stock. */
  lemma SnapshotReconciled(items: map<ItemId, Item>, req: seq<Request>)
    requires KnownIds(items, req) && DistinctIds(req)
    ensures Reconciled(items, Snapshot(items, req), req) == items
  {
    var back := Reconciled(items, Snapshot(items, req), req);
    forall id | id in items
      ensures back[id] == items[id]
    {
      SnapshotReconciledAt(items, req, id);
    }
    assert back.Keys == items.Keys;
  }

  /** SnapshotReconciled at one item: what the rows hold of it is what the request asks. */
  lemma SnapshotReconciledAt(items: map<ItemId, Item>, req: seq<Request>, id: ItemId)
    requires KnownIds(items, req) && DistinctIds(req) && id in items
    ensures Reconciled(items, Snapshot(items, req), req)[id] == items[id]
  {
    SnapshotOldQty(items, req, id);
    WantedQty(req, id);
  }

  /** The guard of the edit form is not checked by `update`: a cancelled order without
      wastage, frozen for a cashier, is still edited, reopened and charged stock. */
  lemma EditIgnoresFreeze(userId: nat)
    ensures var order := Order(userId, None, DineIn, Cancelled, false, 20000, [Line(1, 2, 10000)]);
            var db := Db(map[1 := Item(10, 10000)], map[1 := order], 2);
            && !EditAllowed(order, false)
            && ValidRequest(db.items, [Request(1, 3)])
            && var (db1, r) := EditOp(db, 1, None, DineIn, Pending, [Request(1, 3)]);
               && r.Ok? && r.value.status == Pending
               && db1.items[1].quantity == 9
  {
    var lines := [Line(1, 2, 10000)];
    var req := [Request(1, 3)];
    assert lines[..0] == [] && req[..0] == [];
    assert Current(lines) == map[1 := 0];
    assert Wanted(req) == map[1 := 3];
    assert KeyOrder(req) == [1];
  }

  // ---------------------------------------------------------------------------
  // complete
  // ---------------------------------------------------------------------------

  /** `complete` accepts exactly a pending order, marks it completed, touches no stock and
      no other order, and cannot be repeated. */
  lemma CompleteOnlyFromPending(db: Db, orderId: OrderId)
    ensures CompleteOp(db, orderId).1.Ok? <==> orderId in db.orders && db.orders[orderId].status == Pending
    ensures var (db1, r) := CompleteOp(db, orderId);
            && (r.Ok? ==> && r.value == db.orders[orderId].(status := Completed)
                          && db1 == db.(orders := db.orders[orderId := r.value])
                          && CompleteOp(db1, orderId) == (db1, Err(NotPending)))
            && (r.Err? ==> db1 == db)
  {
  }

  // ---------------------------------------------------------------------------
  // invariants of the tables
  // ---------------------------------------------------------------------------

  /** Rows of at least one unit never give a negative quantity back. */
  lemma {:induction false} LineQtyNonNegative(lines: seq<Line>, id: ItemId)
    requires PositiveRows(lines)
    ensures LineQty(lines, id) >= 0
  {
    if lines != [] {
      var init := lines[..|lines| - 1];
      assert forall i :: 0 <= i < |init| ==> init[i] == lines[i];
      LineQtyNonNegative(init, id);
    }
  }

  /** The kept rows of an edit are old rows or rows for a requested quantity. */
  lemma {:induction false} RevisePositive(lines: seq<Line>, cur: map<ItemId, nat>, w: map<ItemId, int>,
                                          items: map<ItemId, Item>, k: nat)
    requires KeyedRows(lines, cur) && k <= |lines| && PositiveRows(lines)
    requires forall id :: id in w ==> id in items && w[id] >= 1
    ensures PositiveRows(Revise(lines, cur, w, items, k))
  {
    if k > 0 {
      RevisePositive(lines, cur, w, items, k - 1);
    }
  }

  /** The added rows of an edit carry requested quantities. */
  lemma {:induction false} AddedPositive(cur: map<ItemId, nat>, w: map<ItemId, int>, items: map<ItemId, Item>,
                                         ks: seq<ItemId>)
    requires forall id :: id in ks ==> id in w && id in items
    requires forall id :: id in w ==> w[id] >= 1
    ensures PositiveRows(Added(cur, w, items, ks))
  {
    if ks != [] {
      var init := ks[..|ks| - 1];
      assert forall id :: id in init ==> id in ks;
      AddedPositive(cur, w, items, init);
    }
  }

  /** `store` keeps the tables well formed. */
  lemma StoreKeepsWellFormed(db: Db, userId: nat, customerName: Option<string>, kind: OrderType,
                             status: Status, req: seq<Request>)
    requires WellFormed(db) && ValidRequest(db.items, req)
    ensures WellFormed(StoreOp(db, userId, customerName, kind, status, req).0)
  {
    var lines := Snapshot(db.items, req);
    forall i | 0 <= i < |lines|
      ensures lines[i].quantity >= 1
    {
      SnapshotAt(db.items, req, i);
    }
  }

  /** Both branches of `update` keep the tables well formed. */
  lemma UpdateKeepsWellFormed(db: Db, orderId: OrderId, wastage: Option<bool>, customerName: Option<string>,
                              kind: OrderType, status: Status, req: seq<Request>)
    requires WellFormed(db)
    requires wastage.Some? ==> status == Cancelled
    requires wastage.None? ==> ValidRequest(db.items, req)
    ensures WellFormed(UpdateOp(db, orderId, wastage, customerName, kind, status, req).0)
  {
    if wastage.None? {
      EditKeepsWellFormed(db, orderId, customerName, kind, status, req);
    }
  }

  /** The general edit writes only rows for at least one unit. */
  lemma EditKeepsWellFormed(db: Db, orderId: OrderId, customerName: Option<string>, kind: OrderType,
                            status: Status, req: seq<Request>)
    requires WellFormed(db) && ValidRequest(db.items, req)
    ensures WellFormed(EditOp(db, orderId, customerName, kind, status, req).0)
  {
    var (db1, r) := EditOp(db, orderId, customerName, kind, status, req);
    if r.Ok? {
      var lines := db.orders[orderId].lines;
      assert db1 == db.(items := db1.items, orders := db.orders[orderId := r.value]);
      assert r.value.lines == EditedLines(db.items, lines, req);
      EditedRowsPositive(db.items, lines, req);
      ReplaceOrderKeepsWellFormed(db, db1.items, orderId, r.value);
    }
  }

  /** The rows an edit writes are for at least one unit each when the old ones were. */
  lemma EditedRowsPositive(items: map<ItemId, Item>, lines: seq<Line>, req: seq<Request>)
    requires ValidRequest(items, req) && PositiveRows(lines)
    ensures PositiveRows(EditedLines(items, lines, req))
  {
    WantedValid(items, req);
    var cur, w := Current(lines), Wanted(req);
    RevisePositive(lines, cur, w, items, |lines|);
    AddedPositive(cur, w, items, KeyOrder(req));
    PositiveConcat(Revise(lines, cur, w, items, |lines|), Added(cur, w, items, KeyOrder(req)));
  }

  lemma PositiveConcat(a: seq<Line>, b: seq<Line>)
    requires PositiveRows(a) && PositiveRows(b)
    ensures PositiveRows(a + b)
  {
    assert forall i :: 0 <= i < |a + b| ==> (a + b)[i] == if i < |a| then a[i] else b[i - |a|];
  }

  /** Putting an order with positive rows in place of an existing one keeps the tables
      well formed, whatever the stock. */
  lemma ReplaceOrderKeepsWellFormed(db: Db, items: map<ItemId, Item>, orderId: OrderId, o: Order)
    requires WellFormed(db) && orderId in db.orders && PositiveRows(o.lines)
    ensures WellFormed(db.(items := items, orders := db.orders[orderId := o]))
  {
  }

  /** `complete` keeps the tables well formed. */
  lemma CompleteKeepsWellFormed(db: Db, orderId: OrderId)
    requires WellFormed(db)
    ensures WellFormed(CompleteOp(db, orderId).0)
  {
  }

  /** A cancellation never drives stock negative: it only gives units back. */
  lemma CancelKeepsStockNonNegative(db: Db, orderId: OrderId, wastage: bool)
    requires WellFormed(db) && NonNegativeStock(db.items)
    ensures NonNegativeStock(CancelOp(db, orderId, wastage).0.items)
  {
    if orderId in db.orders {
      forall id | id in db.items
        ensures LineQty(db.orders[orderId].lines, id) >= 0
      {
        LineQtyNonNegative(db.orders[orderId].lines, id);
      }
    }
  }

  /** The general edit never drives stock negative: its check is against the change in
      quantity, and a decrease or a removal only gives units back. */
  lemma EditKeepsStockNonNegative(db: Db, orderId: OrderId, customerName: Option<string>, kind: OrderType,
                                  status: Status, req: seq<Request>)
    requires WellFormed(db) && NonNegativeStock(db.items) && ValidRequest(db.items, req)
    ensures NonNegativeStock(EditOp(db, orderId, customerName, kind, status, req).0.items)
  {
    var (db1, r) := EditOp(db, orderId, customerName, kind, status, req);
    if r.Ok? {
      var lines := db.orders[orderId].lines;
      WantedValid(db.items, req);
      var w, ks, cur := Wanted(req), KeyOrder(req), Current(lines);
      assert FirstEditShortFrom(db.items, lines, w, ks, 0).None?;
      forall id | id in db.items
        ensures db1.items[id].quantity >= 0
      {
        if id in w {
          var j :| 0 <= j < |ks| && ks[j] == id;
          assert !EditShort(db.items, lines, w, id);
        }
        if id in cur {
          assert lines[cur[id]].quantity >= 1;
        }
      }
    }
  }

  // ---------------------------------------------------------------------------
  // rows after an edit
  // ---------------------------------------------------------------------------

  /** A row at the requested quantity of its item and at today's price. */
  predicate AtRequest(r: Line, w: map<ItemId, int>, items: map<ItemId, Item>) {
    r.itemId in w && r.itemId in items && r == Line(r.itemId, w[r.itemId], items[r.itemId].price)
  }

  /** On rows with distinct items, the kept part of an edit holds exactly the old rows
      still requested, each rewritten to the requested quantity at today's price. */
  lemma {:induction false} ReviseRows(lines: seq<Line>, cur: map<ItemId, nat>, w: map<ItemId, int>,
                                      items: map<ItemId, Item>, k: nat)
    requires KeyedRows(lines, cur) && k <= |lines| && DistinctRows(lines)
    requires forall id :: id in w ==> id in items
    ensures DistinctRows(Revise(lines, cur, w, items, k))
    ensures forall i :: 0 <= i < |Revise(lines, cur, w, items, k)| ==>
              && AtRequest(Revise(lines, cur, w, items, k)[i], w, items)
              && Revise(lines, cur, w, items, k)[i].itemId in cur
              && cur[Revise(lines, cur, w, items, k)[i].itemId] < k
    ensures forall j :: 0 <= j < k && lines[j].itemId in w ==> HasRow(Revise(lines, cur, w, items, k), lines[j].itemId)
  {
    if k > 0 {
      ReviseRows(lines, cur, w, items, k - 1);
      var l := lines[k - 1];
      assert cur[l.itemId] == k - 1 by {
        var c := cur[l.itemId];
        assert lines[c].itemId == l.itemId;
      }
      var rest := Revise(lines, cur, w, items, k - 1);
      assert forall i :: 0 <= i < |rest| ==> rest[i].itemId in cur && cur[rest[i].itemId] < k - 1;
      var rows := Revise(lines, cur, w, items, k);
      if l.itemId in w {
        assert rows == rest + [Line(l.itemId, w[l.itemId], items[l.itemId].price)];
        assert forall i :: 0 <= i < |rest| ==> rest[i].itemId != l.itemId;
        var last := [Line(l.itemId, w[l.itemId], items[l.itemId].price)];
        assert HasRow(last, l.itemId) by { assert last[0].itemId == l.itemId; }
        forall j | 0 <= j < k && lines[j].itemId in w
          ensures HasRow(rows, lines[j].itemId)
        {
          HasRowConcat(rest, last, lines[j].itemId);
        }
      } else {
        assert rows == rest;
      }
    }
  }

  /** The added part of an edit holds one row per requested id with no current row, in
      key order, at the requested quantity and today's price. */
  lemma {:induction false} AddedRows(cur: map<ItemId, nat>, w: map<ItemId, int>, items: map<ItemId, Item>,
                                     ks: seq<ItemId>)
    requires forall id :: id in ks ==> id in w && id in items
    requires forall i, j :: 0 <= i < j < |ks| ==> ks[i] != ks[j]
    ensures DistinctRows(Added(cur, w, items, ks))
    ensures forall i :: 0 <= i < |Added(cur, w, items, ks)| ==>
              && AtRequest(Added(cur, w, items, ks)[i], w, items)
              && Added(cur, w, items, ks)[i].itemId in ks
              && Added(cur, w, items, ks)[i].itemId !in cur
    ensures forall j :: 0 <= j < |ks| && ks[j] !in cur ==> HasRow(Added(cur, w, items, ks), ks[j])
  {
    if ks != [] {
      var init, id := ks[..|ks| - 1], ks[|ks| - 1];
      assert forall x :: x in init ==> x in ks;
      AddedRows(cur, w, items, init);
      var rest := Added(cur, w, items, init);
      forall i | 0 <= i < |rest|
        ensures rest[i].itemId != id
      {
        var j :| 0 <= j < |init| && init[j] == rest[i].itemId;
        assert ks[j] == init[j];
      }
      var last: seq<Line> := if id in cur then [] else [Line(id, w[id], items[id].price)];
      assert id !in cur ==> HasRow(last, id) by { if id !in cur { assert last[0].itemId == id; } }
      forall j | 0 <= j < |ks| && ks[j] !in cur
        ensures HasRow(Added(cur, w, items, ks), ks[j])
      {
        if j < |init| {
          assert init[j] == ks[j];
        }
        HasRowConcat(rest, last, ks[j]);
      }
    }
  }

  /** The rows of an order after an edit follow the keyed request: no item twice, every
      row at the requested quantity and today's price, and a row for every keyed id. */
  predicate FollowsRequest(rows: seq<Line>, w: map<ItemId, int>, items: map<ItemId, Item>) {
    && DistinctRows(rows)
    && (forall i :: 0 <= i < |rows| ==> AtRequest(rows[i], w, items))
    && (forall id :: id in w ==> HasRow(rows, id))
  }

  /** Kept rows followed by added rows: every row is a keyed id at its requested quantity. */
  lemma JoinedRowsRequested(lines: seq<Line>, cur: map<ItemId, nat>, w: map<ItemId, int>, items: map<ItemId, Item>,
                            ks: seq<ItemId>)
    requires KeyedRows(lines, cur) && DistinctRows(lines)
    requires forall id :: id in w ==> id in items
    requires forall id :: id in ks <==> id in w
    requires forall i, j :: 0 <= i < j < |ks| ==> ks[i] != ks[j]
    ensures forall i :: 0 <= i < |Revise(lines, cur, w, items, |lines|) + Added(cur, w, items, ks)| ==>
              AtRequest((Revise(lines, cur, w, items, |lines|) + Added(cur, w, items, ks))[i], w, items)
  {
    var kept: seq<Line> := Revise(lines, cur, w, items, |lines|);
    var added: seq<Line> := Added(cur, w, items, ks);
    ReviseRows(lines, cur, w, items, |lines|);
    AddedRows(cur, w, items, ks);
    forall i | 0 <= i < |kept + added|
      ensures AtRequest((kept + added)[i], w, items)
    {
      if i < |kept| {
        assert (kept + added)[i] == kept[i];
      } else {
        assert (kept + added)[i] == added[i - |kept|];
      }
    }
  }

  /** Kept rows followed by added rows: no item twice. */
  lemma JoinedRowsDistinct(lines: seq<Line>, cur: map<ItemId, nat>, w: map<ItemId, int>, items: map<ItemId, Item>,
                           ks: seq<ItemId>)
    requires KeyedRows(lines, cur) && DistinctRows(lines)
    requires forall id :: id in w ==> id in items
    requires forall id :: id in ks <==> id in w
    requires forall i, j :: 0 <= i < j < |ks| ==> ks[i] != ks[j]
    ensures DistinctRows(Revise(lines, cur, w, items, |lines|) + Added(cur, w, items, ks))
  {
    var kept: seq<Line> := Revise(lines, cur, w, items, |lines|);
    var added: seq<Line> := Added(cur, w, items, ks);
    assert DistinctRows(kept) && forall i :: 0 <= i < |kept| ==> kept[i].itemId in cur by {
      ReviseRows(lines, cur, w, items, |lines|);
    }
    assert DistinctRows(added) && forall i :: 0 <= i < |added| ==> added[i].itemId !in cur by {
      AddedRows(cur, w, items, ks);
    }
    ConcatDistinct(kept, added, cur);
  }

  /** Rows whose items are keys of `cur`, followed by rows whose items are not, repeat no
      item when neither part does. */
  lemma ConcatDistinct(a: seq<Line>, b: seq<Line>, cur: map<ItemId, nat>)
    requires DistinctRows(a) && DistinctRows(b)
    requires forall i :: 0 <= i < |a| ==> a[i].itemId in cur
    requires forall i :: 0 <= i < |b| ==> b[i].itemId !in cur
    ensures DistinctRows(a + b)
  {
    var rows := a + b;
    forall i, j | 0 <= i < j < |rows|
      ensures rows[i].itemId != rows[j].itemId
    {
      if j < |a| {
        assert rows[i] == a[i] && rows[j] == a[j];
      } else if |a| <= i {
        assert rows[i] == b[i - |a|] && rows[j] == b[j - |a|];
      } else {
        assert rows[i] == a[i] && rows[j] == b[j - |a|];
      }
    }
  }

  /** Some row of `rows` is for item `id`. */
  predicate HasRow(rows: seq<Line>, id: ItemId) {
    exists i :: 0 <= i < |rows| && rows[i].itemId == id
  }

  /** A requested id with a current row keeps a row after the edit. */
  lemma KeptCovers(lines: seq<Line>, cur: map<ItemId, nat>, w: map<ItemId, int>, items: map<ItemId, Item>,
                   id: ItemId)
    requires KeyedRows(lines, cur) && DistinctRows(lines)
    requires forall x :: x in w ==> x in items
    requires id in cur && id in w
    ensures HasRow(Revise(lines, cur, w, items, |lines|), id)
  {
    var m := cur[id];
    assert 0 <= m < |lines| && lines[m].itemId == id;
    ReviseRows(lines, cur, w, items, |lines|);
  }

  /** A requested id without a current row gets an added row. */
  lemma AddedCovers(cur: map<ItemId, nat>, w: map<ItemId, int>, items: map<ItemId, Item>, ks: seq<ItemId>,
                    id: ItemId)
    requires forall x :: x in ks ==> x in w && x in items
    requires forall i, j :: 0 <= i < j < |ks| ==> ks[i] != ks[j]
    requires id in ks && id !in cur
    ensures HasRow(Added(cur, w, items, ks), id)
  {
    var j :| 0 <= j < |ks| && ks[j] == id;
    AddedRows(cur, w, items, ks);
  }

  /** Kept rows followed by added rows: every keyed id has a row. */
  lemma JoinedRowsCover(lines: seq<Line>, cur: map<ItemId, nat>, w: map<ItemId, int>, items: map<ItemId, Item>,
                        ks: seq<ItemId>)
    requires KeyedRows(lines, cur) && DistinctRows(lines)
    requires forall id :: id in w ==> id in items
    requires forall id :: id in ks <==> id in w
    requires forall i, j :: 0 <= i < j < |ks| ==> ks[i] != ks[j]
    ensures forall id :: id in w ==> HasRow(Revise(lines, cur, w, items, |lines|) + Added(cur, w, items, ks), id)
  {
    var kept: seq<Line> := Revise(lines, cur, w, items, |lines|);
    var added: seq<Line> := Added(cur, w, items, ks);
    forall id | id in w
      ensures HasRow(kept + added, id)
    {
      if id in cur {
        KeptCovers(lines, cur, w, items, id);
      } else {
        AddedCovers(cur, w, items, ks, id);
      }
      HasRowConcat(kept, added, id);
    }
  }

  /** A row of either part is a row of the two together. */
  lemma HasRowConcat(a: seq<Line>, b: seq<Line>, id: ItemId)
    ensures HasRow(a, id) || HasRow(b, id) ==> HasRow(a + b, id)
  {
    if HasRow(a, id) {
      var i :| 0 <= i < |a| && a[i].itemId == id;
      assert (a + b)[i] == a[i];
    } else if HasRow(b, id) {
      var i :| 0 <= i < |b| && b[i].itemId == id;
      assert (a + b)[|a| + i] == b[i];
    }
  }

  /** After a successful edit of an order whose rows have distinct items, the order holds
      exactly one row per requested id, at the requested quantity and today's price. */
  lemma EditRowsFollowRequest(db: Db, orderId: OrderId, customerName: Option<string>, kind: OrderType,
                              status: Status, req: seq<Request>)
    requires ValidRequest(db.items, req) && orderId in db.orders && DistinctRows(db.orders[orderId].lines)
    requires EditOp(db, orderId, customerName, kind, status, req).1.Ok?
    ensures FollowsRequest(EditOp(db, orderId, customerName, kind, status, req).1.value.lines, Wanted(req), db.items)
  {
    var lines := db.orders[orderId].lines;
    WantedValid(db.items, req);
    var cur, w, ks := Current(lines), Wanted(req), KeyOrder(req);
    JoinedRowsRequested(lines, cur, w, db.items, ks);
    JoinedRowsDistinct(lines, cur, w, db.items, ks);
    JoinedRowsCover(lines, cur, w, db.items, ks);
  }
  /** The total of two runs of rows is the sum of their totals. */
  lemma {:induction false} LinesTotalAppend(a: seq<Line>, b: seq<Line>)
    ensures LinesTotal(a + b) == LinesTotal(a) + LinesTotal(b)
  {
    if b != [] {
      var init := b[..|b| - 1];
      assert (a + b)[..|a + b| - 1] == a + init;
      assert (a + b)[|a + b| - 1] == b[|b| - 1];
      LinesTotalAppend(a, init);
    } else {
      assert a + b == a;
    }
  }

  /** Removing row `p` takes its price times quantity off the total. */
  lemma LinesTotalRemove(rows: seq<Line>, p: nat)
    requires p < |rows|
    ensures LinesTotal(rows[..p] + rows[p + 1..]) == LinesTotal(rows) - rows[p].price * rows[p].quantity
  {
    var x := rows[p];
    assert rows == rows[..p] + ([x] + rows[p + 1..]);
    LinesTotalAppend(rows[..p], [x] + rows[p + 1..]);
    LinesTotalAppend([x], rows[p + 1..]);
    LinesTotalAppend(rows[..p], rows[p + 1..]);
    assert [x][..0] == [];
  }

  /** Rows with distinct items, each at the requested quantity and today's price, one for
      each id of `ks` and none other, add up to the edit's keyed total over `ks`. */
  lemma {:induction false} RowsTotalIsKeyedTotal(rows: seq<Line>, w: map<ItemId, int>, items: map<ItemId, Item>,
                                                  ks: seq<ItemId>)
    requires forall id :: id in ks ==> id in w && id in items
    requires forall i, j :: 0 <= i < j < |ks| ==> ks[i] != ks[j]
    requires DistinctRows(rows)
    requires forall i :: 0 <= i < |rows| ==> AtRequest(rows[i], w, items) && rows[i].itemId in ks
    requires forall id :: id in ks ==> HasRow(rows, id)
    ensures LinesTotal(rows) == KeyedTotal(w, items, ks)
    decreases |ks|
  {
    if ks != [] {
      var init, id := ks[..|ks| - 1], ks[|ks| - 1];
      assert HasRow(rows, id);
      var p :| 0 <= p < |rows| && rows[p].itemId == id;
      var rest := rows[..p] + rows[p + 1..];
      RemovedRowRest(rows, p, w, items, ks, rest, init);
      RemovedRowCover(rows, p, ks, rest, init);
      RowsTotalIsKeyedTotal(rest, w, items, init);
      LinesTotalRemove(rows, p);
      assert AtRequest(rows[p], w, items);
    }
  }

  /** Without the row of the last id of `ks`, the remaining rows are distinct, at the
      requested quantity, and of the other ids. */
  lemma RemovedRowRest(rows: seq<Line>, p: nat, w: map<ItemId, int>, items: map<ItemId, Item>, ks: seq<ItemId>,
                        rest: seq<Line>, init: seq<ItemId>)
    requires DistinctRows(rows) && ks != [] && p < |rows| && rows[p].itemId == ks[|ks| - 1]
    requires forall i :: 0 <= i < |rows| ==> AtRequest(rows[i], w, items) && rows[i].itemId in ks
    requires rest == rows[..p] + rows[p + 1..] && init == ks[..|ks| - 1]
    ensures DistinctRows(rest)
    ensures forall i :: 0 <= i < |rest| ==> AtRequest(rest[i], w, items) && rest[i].itemId in init
  {
    assert forall i :: 0 <= i < |rest| ==> rest[i] == rows[if i < p then i else i + 1];
    forall i | 0 <= i < |rest|
      ensures rest[i].itemId in init
    {
      var i0 := if i < p then i else i + 1;
      assert rows[i0].itemId != rows[p].itemId;
      var m :| 0 <= m < |ks| && ks[m] == rest[i].itemId;
      assert init[m] == ks[m];
    }
  }

  /** Without the row of the last id of `ks`, every other id of `ks` still has a row. */
  lemma RemovedRowCover(rows: seq<Line>, p: nat, ks: seq<ItemId>, rest: seq<Line>, init: seq<ItemId>)
    requires ks != [] && p < |rows| && rows[p].itemId == ks[|ks| - 1]
    requires forall i, j :: 0 <= i < j < |ks| ==> ks[i] != ks[j]
    requires forall id :: id in ks ==> HasRow(rows, id)
    requires rest == rows[..p] + rows[p + 1..] && init == ks[..|ks| - 1]
    ensures forall id :: id in init ==> HasRow(rest, id)
  {
    forall x | x in init
      ensures HasRow(rest, x)
    {
      var m :| 0 <= m < |init| && init[m] == x;
      assert ks[m] == x && x != ks[|ks| - 1];
      assert HasRow(rows, x);
      var q :| 0 <= q < |rows| && rows[q].itemId == x;
      var q0 := if q < p then q else q - 1;
      assert rest[q0] == rows[q];
    }
  }

  /** On an order whose rows have distinct items, a successful edit stores a total equal to
      the sum of price times quantity over the order's new rows. */
  lemma EditTotalMatchesRows(db: Db, orderId: OrderId, customerName: Option<string>, kind: OrderType,
                             status: Status, req: seq<Request>)
    requires ValidRequest(db.items, req) && orderId in db.orders && DistinctRows(db.orders[orderId].lines)
    requires EditOp(db, orderId, customerName, kind, status, req).1.Ok?
    ensures var o := EditOp(db, orderId, customerName, kind, status, req).1.value;
            o.total == LinesTotal(o.lines)
  {
    var o := EditOp(db, orderId, customerName, kind, status, req).1.value;
    EditRowsFollowRequest(db, orderId, customerName, kind, status, req);
    WantedValid(db.items, req);
    var w, ks := Wanted(req), KeyOrder(req);
    assert forall i :: 0 <= i < |o.lines| ==> o.lines[i].itemId in ks;
    RowsTotalIsKeyedTotal(o.lines, w, db.items, ks);
  }

  /** `store` with two entries for one item writes two rows of it, both counted in the
      total, and takes both quantities off the stock. */
  lemma DuplicateIdsStoreTwoRows(userId: nat)
    ensures var db := Db(map[1 := Item(15, 10000)], map[], 1);
            var (db1, r) := StoreOp(db, userId, None, DineIn, Pending, [Request(1, 2), Request(1, 3)]);
            && r == Ok(1)
            && db1.orders[1].lines == [Line(1, 2, 10000), Line(1, 3, 10000)]
            && db1.orders[1].total == 50000
            && db1.items[1].quantity == 10
  {
    DuplicateIdsPass();
    var lines := [Line(1, 2, 10000), Line(1, 3, 10000)];
    assert lines[..1] == [Line(1, 2, 10000)] && lines[..1][..0] == [];
    assert LinesTotal(lines) == 50000;
  }

  /** Both entries of that request fit the fifteen units, and together they ask for five. */
  lemma DuplicateIdsPass()
    ensures var items, req := map[1 := Item(15, 10000)], [Request(1, 2), Request(1, 3)];
            && ValidRequest(items, req)
            && FirstShortFrom(items, req, 0) == None
            && Snapshot(items, req) == [Line(1, 2, 10000), Line(1, 3, 10000)]
            && Requested(req, 1) == 5
  {
    var items := map[1 := Item(15, 10000)];
    var req := [Request(1, 2), Request(1, 3)];
    assert req[..1] == [Request(1, 2)] && req[..1][..0] == [];
    assert FirstShortFrom(items, req, 2) == None;
  }


  /** Editing an order with two rows of one item to four units rewrites only the last row
      (keyBy keeps the last), so the order keeps a row for two and a row for four (six units,
      600.00) while its stored total says 400.00, and only one more unit leaves the stock. */
  lemma DuplicateRowsEditTotal(userId: nat)
    ensures var lines := [Line(1, 2, 10000), Line(1, 3, 10000)];
            var db := Db(map[1 := Item(10, 10000)], map[1 := Order(userId, None, DineIn, Pending, false, 50000, lines)], 2);
            && ValidRequest(db.items, [Request(1, 4)])
            && var (db1, r) := EditOp(db, 1, None, DineIn, Pending, [Request(1, 4)]);
               && r.Ok?
               && r.value.lines == [Line(1, 2, 10000), Line(1, 4, 10000)]
               && r.value.total == 40000
               && LinesTotal(r.value.lines) == 60000
               && db1.items[1].quantity == 9
  {
    var lines := [Line(1, 2, 10000), Line(1, 3, 10000)];
    var req := [Request(1, 4)];
    DuplicateRowsEditPasses();
    DuplicateRowsEdited();
    DuplicateRowsEditedStock();
    assert ValidRequest(map[1 := Item(10, 10000)], req);
    var rows := [Line(1, 2, 10000), Line(1, 4, 10000)];
    assert rows[..1] == [Line(1, 2, 10000)] && rows[..1][..0] == [];
  }

  /** The stock check and the release check of that edit pass. */
  lemma DuplicateRowsEditPasses()
    ensures var items, lines, req := map[1 := Item(10, 10000)], [Line(1, 2, 10000), Line(1, 3, 10000)], [Request(1, 4)];
            && Wanted(req) == map[1 := 4] && KeyOrder(req) == [1]
            && FirstEditShortFrom(items, lines, map[1 := 4], [1], 0) == None
            && Releasable(items, lines, req)
  {
    var items := map[1 := Item(10, 10000)];
    var lines := [Line(1, 2, 10000), Line(1, 3, 10000)];
    var req := [Request(1, 4)];
    assert lines[..1] == [Line(1, 2, 10000)] && lines[..1][..0] == [] && req[..0] == [];
    var w, ks := map[1 := 4], [1];
    assert Current(lines) == map[1 := 1];
    assert Wanted(req) == w;
    assert OldQty(lines, 1) == 3;
    assert !EditShort(items, lines, w, 1);
    assert FirstEditShortFrom(items, lines, w, ks, 1) == None;
  }

  /** The keys of that edit: the order's last row of the item, and four units asked. */
  lemma DuplicateRowsKeys()
    ensures var lines, req := [Line(1, 2, 10000), Line(1, 3, 10000)], [Request(1, 4)];
            && Current(lines) == map[1 := 1]
            && Wanted(req) == map[1 := 4]
            && KeyOrder(req) == [1]
  {
    var lines := [Line(1, 2, 10000), Line(1, 3, 10000)];
    var req := [Request(1, 4)];
    assert lines[..1] == [Line(1, 2, 10000)] && lines[..1][..0] == [] && req[..0] == [];
  }

  /** The rows that edit writes: the earlier row as it was, the last one rewritten. */
  lemma DuplicateRowsEdited()
    ensures var items, lines, req := map[1 := Item(10, 10000)], [Line(1, 2, 10000), Line(1, 3, 10000)], [Request(1, 4)];
            && ValidRequest(items, req)
            && EditedLines(items, lines, req) == [Line(1, 2, 10000), Line(1, 4, 10000)]
  {
    var items := map[1 := Item(10, 10000)];
    var lines := [Line(1, 2, 10000), Line(1, 3, 10000)];
    DuplicateRowsKeys();
    var cur, w, ks := map[1 := 1], map[1 := 4], [1];
    assert Revise(lines, cur, w, items, 1) == [Line(1, 2, 10000)];
    assert ks[..0] == [];
    assert Added(cur, w, items, ks) == [];
  }

  /** The total and the stock that edit writes: four units at 100.00, and one more unit
      taken from ten. */
  lemma DuplicateRowsEditedStock()
    ensures var items, lines, req := map[1 := Item(10, 10000)], [Line(1, 2, 10000), Line(1, 3, 10000)], [Request(1, 4)];
            && ValidRequest(items, req)
            && EditedTotal(items, req) == 40000
            && Reconciled(items, lines, req)[1].quantity == 9
  {
    var lines := [Line(1, 2, 10000), Line(1, 3, 10000)];
    var req := [Request(1, 4)];
    DuplicateRowsKeys();
    assert [1][..0] == [];
    assert OldQty(lines, 1) == 3 && NewQty(req, 1) == 4;
  }
}
