/**
  The controller actions of app/Http/Controllers/OrderController.php as methods that
  change the tables step by step, the way the PHP does: loops over the request that
  decrement and increment item rows and write order rows. Each method is proved to
  leave exactly the state, and return exactly the result, of its operation in
  OrderSpec. A failing transaction restores the items table it started from.
*/
module OrderEngine {
  import opened Common
  import opened OrderSpec

  /** What the check pass of `store` hands to the commit pass. */
  datatype Checked = Checked(total: int, lines: seq<Line>)

  /** The first loop of `store` (OrderController.php:80-95): read each requested row,
      reject the first entry that asks for more than the row holds, and accumulate the
      total and the lines to write. Nothing is written. */
  method CheckStock(items: map<ItemId, Item>, req: seq<Request>) returns (r: Result<Checked>)
    requires KnownIds(items, req)
    ensures r.Ok? <==> forall k :: 0 <= k < |req| ==> items[req[k].id].quantity >= req[k].quantity
    ensures r.Ok? ==> r.value.lines == Snapshot(items, req) && r.value.total == LinesTotal(r.value.lines)
    ensures r.Ok? <==> FirstShortFrom(items, req, 0).None?
    ensures r.Err? ==> r.error == InsufficientStock(req[FirstShortFrom(items, req, 0).value].id)
  {
    var total := 0;
    var toProcess: seq<Line> := [];
    var i := 0;
    while i < |req|
      invariant 0 <= i <= |req|
      invariant forall j :: 0 <= j < i ==> !Short(items, req[j])
      invariant FirstShortFrom(items, req, 0) == FirstShortFrom(items, req, i)
      invariant toProcess == Snapshot(items, req[..i])
      invariant total == LinesTotal(toProcess)
    {
      var item := items[req[i].id];
      if item.quantity < req[i].quantity {
        return Err(InsufficientStock(req[i].id));
      }
      total := total + item.price * req[i].quantity;
      assert req[..i + 1][..i] == req[..i];
      toProcess := toProcess + [Line(req[i].id, req[i].quantity, item.price)];
      i := i + 1;
    }
    assert req[..i] == req;
    r := Ok(Checked(total, toProcess));
  }

  /** One decrement of the commit pass extends the decremented stock by one entry. */
  lemma DecrementedStep(items: map<ItemId, Item>, req: seq<Request>, i: nat)
    requires i < |req| && req[i].id in items
    ensures var d := Decremented(items, req[..i]);
            Decremented(items, req[..i + 1]) == d[req[i].id := d[req[i].id].(quantity := d[req[i].id].quantity - req[i].quantity)]
  {
    assert req[..i + 1][..i] == req[..i];
  }

  /** One increment of the cancel loop extends the restocked stock by one line. */
  lemma RestockedStep(items: map<ItemId, Item>, lines: seq<Line>, i: nat)
    requires i < |lines|
    ensures var s := Restocked(items, lines[..i]);
            Restocked(items, lines[..i + 1]) ==
              if lines[i].itemId in s then s[lines[i].itemId := s[lines[i].itemId].(quantity := s[lines[i].itemId].quantity + lines[i].quantity)]
              else s
  {
    assert lines[..i + 1][..i] == lines[..i];
  }

  /** What the first loop of the edit hands on: the order's rows with the kept ones
      rewritten, the new rows, and the new total. */
  datatype Synced = Synced(work: seq<Line>, added: seq<Line>, total: int)

  /** Row i of `work` is row i of `lines`, except that the row keyBy kept for a requested
      item carries the requested quantity and the item's price. */
  ghost predicate Rewritten(lines: seq<Line>, cur: map<ItemId, nat>, work: seq<Line>, w: map<ItemId, int>,
                            items: map<ItemId, Item>)
    requires KeyedRows(lines, cur)
    requires forall id :: id in w ==> id in items
  {
    && |work| == |lines|
    && forall i :: 0 <= i < |lines| ==>
         work[i] == if cur[lines[i].itemId] == i && lines[i].itemId in w
                    then Line(lines[i].itemId, w[lines[i].itemId], items[lines[i].itemId].price)
                    else lines[i]
  }

  /** The stock of one requested item after the first loop of the edit handled it: up by
      the quantity of its current row (if any), down by the requested quantity. */
  function Moved(items: map<ItemId, Item>, lines: seq<Line>, cur: map<ItemId, nat>, w: map<ItemId, int>,
                 id: ItemId): Item
    requires id in items && id in w
    requires forall x :: x in cur ==> cur[x] < |lines|
  {
    items[id].(quantity := items[id].quantity + (if id in cur then lines[cur[id]].quantity else 0) - w[id])
  }

  /** The items table after the first loop of the edit handled the ids `done`, in order. */
  ghost function Reserved(items: map<ItemId, Item>, lines: seq<Line>, cur: map<ItemId, nat>, w: map<ItemId, int>,
                          done: seq<ItemId>): map<ItemId, Item>
    requires forall id :: id in done ==> id in items && id in w
    requires forall x :: x in cur ==> cur[x] < |lines|
  {
    if done == [] then items
    else
      var id := done[|done| - 1];
      Reserved(items, lines, cur, w, done[..|done| - 1])[id := Moved(items, lines, cur, w, id)]
  }

  /** One iteration of the edit's first loop, on distinct ids: the id about to be handled
      still has its old stock row, and the stock and the accumulated rows and total grow by
      that id alone. */
  lemma HandledStep(items: map<ItemId, Item>, lines: seq<Line>, cur: map<ItemId, nat>, w: map<ItemId, int>,
                    ks: seq<ItemId>, j: nat)
    requires j < |ks|
    requires forall id :: id in ks ==> id in items && id in w
    requires forall x :: x in cur ==> cur[x] < |lines|
    requires forall a, b :: 0 <= a < b < |ks| ==> ks[a] != ks[b]
    ensures Reserved(items, lines, cur, w, ks[..j]).Keys == items.Keys
    ensures Reserved(items, lines, cur, w, ks[..j])[ks[j]] == items[ks[j]]
    ensures Reserved(items, lines, cur, w, ks[..j + 1]) ==
              Reserved(items, lines, cur, w, ks[..j])[ks[j] := Moved(items, lines, cur, w, ks[j])]
    ensures var s := SyncedAfter(lines, cur, w, items, ks[..j]);
            var l := Line(ks[j], w[ks[j]], items[ks[j]].price);
            SyncedAfter(lines, cur, w, items, ks[..j + 1]) ==
              if ks[j] in cur then Synced(s.work[cur[ks[j]] := l], s.added, s.total + l.price * l.quantity)
              else Synced(s.work, s.added + [l], s.total + l.price * l.quantity)
  {
    assert ks[..j + 1][..j] == ks[..j] && ks[..j + 1][j] == ks[j];
    assert ks[j] !in ks[..j];
    ReservedAt(items, lines, cur, w, ks[..j], ks[j]);
  }

  /** What the first loop of the edit has built after handling the ids `done`. */
  ghost function SyncedAfter(lines: seq<Line>, cur: map<ItemId, nat>, w: map<ItemId, int>, items: map<ItemId, Item>,
                             done: seq<ItemId>): Synced
    requires forall id :: id in done ==> id in items && id in w
    requires forall x :: x in cur ==> cur[x] < |lines|
  {
    Synced(Rewrites(lines, cur, w, items, done), Added(cur, w, items, done), KeyedTotal(w, items, done))
  }

  /** Pointwise reading of Reserved: handled ids moved, every other row untouched. */
  lemma {:induction false} ReservedAt(items: map<ItemId, Item>, lines: seq<Line>, cur: map<ItemId, nat>,
                                      w: map<ItemId, int>, done: seq<ItemId>, id: ItemId)
    requires forall x :: x in done ==> x in items && x in w
    requires forall x :: x in cur ==> cur[x] < |lines|
    ensures Reserved(items, lines, cur, w, done).Keys == items.Keys
    ensures id in items ==>
              Reserved(items, lines, cur, w, done)[id] == if id in done then Moved(items, lines, cur, w, id) else items[id]
  {
    if done != [] {
      var init := done[..|done| - 1];
      assert forall x :: x in init ==> x in done;
      assert id in done <==> id in init || id == done[|done| - 1];
      ReservedAt(items, lines, cur, w, init, id);
    }
  }

  /** The order's rows after the first loop of the edit handled the ids `done`: the row
      keyBy kept for each of them takes the requested quantity and the item's price. */
  ghost function Rewrites(lines: seq<Line>, cur: map<ItemId, nat>, w: map<ItemId, int>, items: map<ItemId, Item>,
                          done: seq<ItemId>): (work: seq<Line>)
    requires forall id :: id in done ==> id in items && id in w
    requires forall x :: x in cur ==> cur[x] < |lines|
    ensures |work| == |lines|
  {
    if done == [] then lines
    else
      var id := done[|done| - 1];
      var work := Rewrites(lines, cur, w, items, done[..|done| - 1]);
      if id in cur then work[cur[id] := Line(id, w[id], items[id].price)] else work
  }

  /** Pointwise reading of Rewrites. */
  lemma {:induction false} RewritesAt(lines: seq<Line>, cur: map<ItemId, nat>, w: map<ItemId, int>,
                                      items: map<ItemId, Item>, done: seq<ItemId>, i: nat)
    requires forall id :: id in done ==> id in items && id in w
    requires KeyedRows(lines, cur) && i < |lines|
    ensures Rewrites(lines, cur, w, items, done)[i] ==
              if cur[lines[i].itemId] == i && lines[i].itemId in done
              then Line(lines[i].itemId, w[lines[i].itemId], items[lines[i].itemId].price)
              else lines[i]
  {
    if done != [] {
      var init := done[..|done| - 1];
      var id := done[|done| - 1];
      assert forall x :: x in init ==> x in done;
      assert lines[i].itemId in done <==> lines[i].itemId in init || lines[i].itemId == id;
      RewritesAt(lines, cur, w, items, init, i);
    }
  }

  /** The items table after the removal loop of the edit walked the first `i` rows: the
      row keyBy kept for each item no longer requested gave its quantity back. */
  ghost function Released(items: map<ItemId, Item>, lines: seq<Line>, cur: map<ItemId, nat>, w: map<ItemId, int>,
                          i: nat): map<ItemId, Item>
    requires forall x :: x in cur ==> cur[x] < |lines|
  {
    map id | id in items ::
      if id in cur && cur[id] < i && id !in w
      then items[id].(quantity := items[id].quantity + lines[cur[id]].quantity)
      else items[id]
  }

  /** One more row walked changes Released at most at that row's item. */
  lemma ReleasedStep(items: map<ItemId, Item>, lines: seq<Line>, cur: map<ItemId, nat>, w: map<ItemId, int>, i: nat)
    requires forall x :: x in cur ==> cur[x] < |lines| && lines[cur[x]].itemId == x
    requires i < |lines| && lines[i].itemId in cur
    ensures var id, m := lines[i].itemId, Released(items, lines, cur, w, i);
            Released(items, lines, cur, w, i + 1) ==
              if cur[id] == i && id !in w && id in items
              then m[id := m[id].(quantity := m[id].quantity + lines[i].quantity)]
              else m
  {
  }

  /** After the whole first loop, every row keyBy kept for a requested item is rewritten. */
  lemma RewritesRewritten(lines: seq<Line>, cur: map<ItemId, nat>, w: map<ItemId, int>, items: map<ItemId, Item>,
                          ks: seq<ItemId>)
    requires KeyedRows(lines, cur)
    requires forall id :: id in w ==> id in items
    requires forall id :: id in ks <==> id in w
    ensures Rewritten(lines, cur, Rewrites(lines, cur, w, items, ks), w, items)
  {
    forall i | 0 <= i < |lines|
      ensures Rewrites(lines, cur, w, items, ks)[i] ==
                if cur[lines[i].itemId] == i && lines[i].itemId in w
                then Line(lines[i].itemId, w[lines[i].itemId], items[lines[i].itemId].price)
                else lines[i]
    {
      RewritesAt(lines, cur, w, items, ks, i);
    }
  }

  /** The two loops of the edit together move the stock exactly as Reconciled says. */
  lemma EditStock(items: map<ItemId, Item>, lines: seq<Line>, req: seq<Request>)
    requires ValidRequest(items, req)
    ensures forall id :: id in Wanted(req) ==> id in items
    ensures Reserved(items, lines, Current(lines), Wanted(req), KeyOrder(req)).Keys == items.Keys
    ensures Released(Reserved(items, lines, Current(lines), Wanted(req), KeyOrder(req)), lines, Current(lines), Wanted(req), |lines|)
            == Reconciled(items, lines, req)
  {
    WantedValid(items, req);
    var cur, w, ks := Current(lines), Wanted(req), KeyOrder(req);
    var mid := Reserved(items, lines, cur, w, ks);
    ReservedAt(items, lines, cur, w, ks, 0);
    ReleasedReserved(items, lines, req, mid);
  }

  /** The second loop of the edit, run on the stock the first one left, ends at Reconciled. */
  lemma ReleasedReserved(items: map<ItemId, Item>, lines: seq<Line>, req: seq<Request>, mid: map<ItemId, Item>)
    requires ValidRequest(items, req)
    requires forall x :: x in Wanted(req) ==> x in items
    requires mid == Reserved(items, lines, Current(lines), Wanted(req), KeyOrder(req)) && mid.Keys == items.Keys
    ensures Released(mid, lines, Current(lines), Wanted(req), |lines|) == Reconciled(items, lines, req)
  {
    var cur, w := Current(lines), Wanted(req);
    var fin, rec := Released(mid, lines, cur, w, |lines|), Reconciled(items, lines, req);
    ReleasedKeys(mid, lines, cur, w, |lines|);
    ReconciledKeys(items, lines, req);
    forall id | id in items
      ensures fin[id] == rec[id]
    {
      EditStockAt(items, lines, req, mid, id);
    }
    assert fin == rec;
  }

  lemma ReleasedKeys(items: map<ItemId, Item>, lines: seq<Line>, cur: map<ItemId, nat>, w: map<ItemId, int>, i: nat)
    requires forall x :: x in cur ==> cur[x] < |lines|
    ensures Released(items, lines, cur, w, i).Keys == items.Keys
  {
  }

  lemma ReconciledKeys(items: map<ItemId, Item>, lines: seq<Line>, req: seq<Request>)
    ensures Reconciled(items, lines, req).Keys == items.Keys
  {
  }

  /** EditStock at one item; `mid` is the stock after the first loop. */
  lemma EditStockAt(items: map<ItemId, Item>, lines: seq<Line>, req: seq<Request>, mid: map<ItemId, Item>, id: ItemId)
    requires ValidRequest(items, req) && id in items
    requires forall x :: x in Wanted(req) ==> x in items
    requires mid == Reserved(items, lines, Current(lines), Wanted(req), KeyOrder(req)) && mid.Keys == items.Keys
    ensures Released(mid, lines, Current(lines), Wanted(req), |lines|)[id]
              == items[id].(quantity := items[id].quantity + OldQty(lines, id) - NewQty(req, id))
  {
    var cur, w, ks := Current(lines), Wanted(req), KeyOrder(req);
    ReservedAt(items, lines, cur, w, ks, id);
    assert OldQty(lines, id) == if id in cur then lines[cur[id]].quantity else 0;
    assert NewQty(req, id) == if id in w then w[id] else 0;
  }

  /** The successful branch of StoreOp, spelled out. */
  lemma StoreOpOk(db: Db, userId: nat, customerName: Option<string>, kind: OrderType, status: Status,
                  req: seq<Request>)
    requires ValidRequest(db.items, req)
    requires FirstShortFrom(db.items, req, 0).None?
    ensures var lines := Snapshot(db.items, req);
            var order := Order(userId, customerName, kind, status, false, LinesTotal(lines), lines);
            StoreOp(db, userId, customerName, kind, status, req)
              == (Db(Decremented(db.items, req), db.orders[db.nextId := order], db.nextId + 1), Ok(db.nextId))
  {
  }

  /** The successful branch of EditOp, spelled out. */
  lemma EditOpOk(db: Db, orderId: OrderId, customerName: Option<string>, kind: OrderType, status: Status,
                 req: seq<Request>)
    requires ValidRequest(db.items, req) && orderId in db.orders
    requires forall id :: id in Wanted(req) ==> id in db.items
    requires FirstEditShortFrom(db.items, db.orders[orderId].lines, Wanted(req), KeyOrder(req), 0).None?
    requires Releasable(db.items, db.orders[orderId].lines, req)
    ensures var o := db.orders[orderId];
            var o' := o.(customerName := customerName, kind := kind, status := status,
                         total := EditedTotal(db.items, req), lines := EditedLines(db.items, o.lines, req));
            EditOp(db, orderId, customerName, kind, status, req)
              == (Db(Reconciled(db.items, o.lines, req), db.orders[orderId := o'], db.nextId), Ok(o'))
  {
  }

  /** The database tables the controller works on. */
  class Tables {
    var items: map<ItemId, Item>
    var orders: map<OrderId, Order>
    var nextId: OrderId

    function State(): Db
      reads this
    {
      Db(items, orders, nextId)
    }

    constructor (stock: map<ItemId, Item>)
      ensures State() == Db(stock, map[], 1) && Valid(State())
    {
      items, orders, nextId := stock, map[], 1;
    }

    /** `store`: the check pass, then the order row, then the commit pass. */
    method Store(userId: nat, customerName: Option<string>, kind: OrderType, status: Status, req: seq<Request>)
      returns (r: Result<OrderId>)
      requires ValidRequest(items, req)
      modifies this
      ensures (State(), r) == StoreOp(old(State()), userId, customerName, kind, status, req)
    {
      var checked := CheckStock(items, req);
      if checked.Err? {
        return Err(checked.error);
      }
      var id := Place(userId, customerName, kind, status, req, checked.value);
      r := Ok(id);
    }

    /** The part of `store` after a successful check pass (OrderController.php:98-116): the
        order row with the checked total, then the commit pass. */
    method Place(userId: nat, customerName: Option<string>, kind: OrderType, status: Status, req: seq<Request>,
                 checked: Checked) returns (id: OrderId)
      requires ValidRequest(items, req) && FirstShortFrom(items, req, 0).None?
      requires checked.lines == Snapshot(items, req) && checked.total == LinesTotal(checked.lines)
      modifies this
      ensures (State(), Ok(id)) == StoreOp(old(State()), userId, customerName, kind, status, req)
    {
      StoreOpOk(State(), userId, customerName, kind, status, req);
      var header := Order(userId, customerName, kind, status, false, checked.total, []);
      id := Commit(header, checked.lines, req);
    }

    /** The write pass of `store` (OrderController.php:98-116): create the order row under
        the next id, then for each prepared line append an order_items row to it and
        decrement the item's stock. */
    method Commit(header: Order, toProcess: seq<Line>, ghost req: seq<Request>) returns (id: OrderId)
      requires header.lines == []
      requires KnownIds(items, req) && toProcess == Snapshot(items, req)
      modifies this
      ensures id == old(nextId)
      ensures items == Decremented(old(items), req)
      ensures orders == old(orders)[id := header.(lines := toProcess)]
      ensures nextId == old(nextId) + 1
    {
      id := nextId;
      orders := orders[id := header];
      nextId := nextId + 1;
      assert toProcess[..0] == [];
      var i := 0;
      while i < |toProcess|
        invariant 0 <= i <= |toProcess|
        invariant items == Decremented(old(items), req[..i])
        invariant orders == old(orders)[id := header.(lines := toProcess[..i])]
        invariant nextId == old(nextId) + 1
      {
        CommitLine(id, header, toProcess, req, old(items), i);
        i := i + 1;
      }
      assert req[..i] == req && toProcess[..i] == toProcess;
    }

    /** One turn of the loop above: append line `i` to order `id` and take its quantity off
        the item's stock. */
    method CommitLine(id: OrderId, ghost header: Order, toProcess: seq<Line>, ghost req: seq<Request>,
                      ghost items0: map<ItemId, Item>, i: nat)
      requires i < |toProcess| && KnownIds(items0, req) && toProcess == Snapshot(items0, req)
      requires items == Decremented(items0, req[..i])
      requires id in orders && orders[id] == header.(lines := toProcess[..i])
      modifies this`items, this`orders
      ensures items == Decremented(items0, req[..i + 1])
      ensures orders == old(orders)[id := header.(lines := toProcess[..i + 1])]
    {
      var line := toProcess[i];
      SnapshotAt(items0, req, i);
      DecrementedStep(items0, req, i);
      assert toProcess[..i + 1] == toProcess[..i] + [line];
      orders := orders[id := orders[id].(lines := orders[id].lines + [line])];
      items := items[line.itemId := items[line.itemId].(quantity := items[line.itemId].quantity - line.quantity)];
    }

    /** `update` with `wastage`: mark the order cancelled and, unless it is wastage,
        give every line back to its item row. */
    method Cancel(orderId: OrderId, wastage: bool) returns (r: Result<Order>)
      modifies this
      ensures (State(), r) == CancelOp(old(State()), orderId, wastage)
    {
      if orderId !in orders {
        return Err(NotFound);
      }
      var o := orders[orderId];
      if o.status == Cancelled {
        return Err(AlreadyCancelled);
      }
      var updated := o.(status := Cancelled, wastage := wastage);
      orders := orders[orderId := updated];
      if !wastage {
        var i := 0;
        while i < |o.lines|
          invariant 0 <= i <= |o.lines|
          invariant items == Restocked(old(items), o.lines[..i])
          invariant orders == old(orders)[orderId := updated] && nextId == old(nextId)
        {
          var line := o.lines[i];
          RestockedStep(old(items), o.lines, i);
          if line.itemId in items {
            items := items[line.itemId := items[line.itemId].(quantity := items[line.itemId].quantity + line.quantity)];
          }
          i := i + 1;
        }
        assert o.lines[..i] == o.lines;
      }
      r := Ok(updated);
    }

    /** `update` without `wastage`: reconcile the order's current rows, keyed by item id,
        against the requested items, keyed by id, then rewrite the order's fields. A failure
        in either loop rolls the items table back. */
    method Edit(orderId: OrderId, customerName: Option<string>, kind: OrderType, status: Status, req: seq<Request>)
      returns (r: Result<Order>)
      requires ValidRequest(items, req)
      modifies this
      ensures (State(), r) == EditOp(old(State()), orderId, customerName, kind, status, req)
    {
      if orderId !in orders {
        return Err(NotFound);
      }
      var o := orders[orderId];
      var items0 := items;
      WantedValid(items, req);
      var moved := MoveStock(o.lines, req);
      if moved.Err? {
        items := items0;
        assert State() == old(State());
        return Err(moved.error);
      }
      EditOpOk(old(State()), orderId, customerName, kind, status, req);
      var updated := o.(customerName := customerName, kind := kind, status := status,
                        total := moved.value.total, lines := moved.value.lines);
      orders := orders[orderId := updated];
      r := Ok(updated);
    }

    /** Both loops of the general edit (OrderController.php:205-260) on the item rows. Fails
        at the first requested id that is short, or when the item of a removed row is gone;
        otherwise moves the stock as Reconciled says and yields the order's new rows and
        total. A failure may leave the item rows part-way: the caller rolls them back, as
        the surrounding transaction does. */
    method MoveStock(lines: seq<Line>, req: seq<Request>) returns (r: Result<Checked>)
      requires ValidRequest(items, req)
      requires forall id :: id in Wanted(req) ==> id in items
      modifies this`items
      ensures r.Ok? <==> FirstEditShortFrom(old(items), lines, Wanted(req), KeyOrder(req), 0).None?
                         && Releasable(old(items), lines, req)
      ensures r.Err? ==> r.error == match FirstEditShortFrom(old(items), lines, Wanted(req), KeyOrder(req), 0)
                                    case Some(id) => InsufficientStock(id)
                                    case None => MissingItem
      ensures r.Ok? ==> items == Reconciled(old(items), lines, req)
      ensures r.Ok? ==> r.value == Checked(EditedTotal(old(items), req), EditedLines(old(items), lines, req))
    {
      var items0 := items;
      var cur := Current(lines);
      var w := Wanted(req);
      var synced := ReserveRequested(lines, cur, w, KeyOrder(req));
      if synced.Err? {
        return Err(synced.error);
      }
      EditStock(items0, lines, req);
      RewritesRewritten(lines, cur, w, items0, KeyOrder(req));
      var kept := ReleaseRemoved(lines, cur, w, synced.value.work, items0);
      if kept.Err? {
        return Err(kept.error);
      }
      r := Ok(Checked(synced.value.total, kept.value + synced.value.added));
    }

    method Reserve(lines: seq<Line>, cur: map<ItemId, nat>, w: map<ItemId, int>, id: ItemId) returns (ok: bool)
      requires cur == Current(lines)
      requires id in items && id in w
      modifies this`items
      ensures ok <==> !EditShort(old(items), lines, w, id)
      ensures ok ==> items == old(items)[id := Moved(old(items), lines, cur, w, id)]
      ensures !ok ==> items == old(items)
    {
      var newQty := w[id];
      if id in cur {
        var diff := newQty - lines[cur[id]].quantity;
        if diff > 0 {
          if items[id].quantity < diff {
            return false;
          }
          items := items[id := items[id].(quantity := items[id].quantity - diff)];
        } else if diff < 0 {
          items := items[id := items[id].(quantity := items[id].quantity + -diff)];
        } else {
          assert items[id] == Moved(items, lines, cur, w, id);
          assert items == items[id := items[id]];
        }
      } else {
        if items[id].quantity < newQty {
          return false;
        }
        items := items[id := items[id].(quantity := items[id].quantity - newQty)];
      }
      ok := true;
    }

    /** The loop over the keyed request (OrderController.php:205-250), in key order: move
        the stock for each id, rewrite the row keyBy kept for it at today's price or prepare
        a new row, and add price times quantity to the total. Stops at the first id that is
        short. */
    method ReserveRequested(lines: seq<Line>, cur: map<ItemId, nat>, w: map<ItemId, int>, ks: seq<ItemId>)
      returns (r: Result<Synced>)
      requires cur == Current(lines)
      requires forall id :: id in w ==> id in items
      requires forall id :: id in ks ==> id in w
      requires forall a, b :: 0 <= a < b < |ks| ==> ks[a] != ks[b]
      modifies this`items
      ensures r.Ok? <==> FirstEditShortFrom(old(items), lines, w, ks, 0).None?
      ensures r.Err? ==> r.error == InsufficientStock(FirstEditShortFrom(old(items), lines, w, ks, 0).value)
      ensures r.Ok? ==> items == Reserved(old(items), lines, cur, w, ks)
      ensures r.Ok? ==> r.value.work == Rewrites(lines, cur, w, old(items), ks)
      ensures r.Ok? ==> r.value.added == Added(cur, w, old(items), ks)
      ensures r.Ok? ==> r.value.total == KeyedTotal(w, old(items), ks)
    {
      var acc := Synced(lines, [], 0);
      var j := 0;
      while j < |ks|
        invariant 0 <= j <= |ks|
        invariant items == Reserved(old(items), lines, cur, w, ks[..j])
        invariant acc == SyncedAfter(lines, cur, w, old(items), ks[..j])
        invariant forall k :: 0 <= k < j ==> !EditShort(old(items), lines, w, ks[k])
      {
        var ok;
        ok, acc := ReserveNext(lines, cur, w, ks, j, acc, old(items));
        if !ok {
          FirstEditShortAt(old(items), lines, w, ks, 0, j);
          return Err(InsufficientStock(ks[j]));
        }
        j := j + 1;
      }
      assert ks[..j] == ks;
      NoEditShort(old(items), lines, w, ks, 0);
      r := Ok(acc);
    }

    /** One turn of the loop above: move the stock for `ks[j]` and, when it fits, account
        for its row and its share of the total. */
    method ReserveNext(lines: seq<Line>, cur: map<ItemId, nat>, w: map<ItemId, int>, ks: seq<ItemId>, j: nat,
                       acc: Synced, ghost items0: map<ItemId, Item>)
      returns (ok: bool, acc': Synced)
      requires cur == Current(lines)
      requires j < |ks|
      requires forall id :: id in w ==> id in items0
      requires forall id :: id in ks ==> id in w
      requires forall a, b :: 0 <= a < b < |ks| ==> ks[a] != ks[b]
      requires items == Reserved(items0, lines, cur, w, ks[..j])
      requires acc == SyncedAfter(lines, cur, w, items0, ks[..j])
      modifies this`items
      ensures ok <==> !EditShort(items0, lines, w, ks[j])
      ensures ok ==> items == Reserved(items0, lines, cur, w, ks[..j + 1])
      ensures ok ==> acc' == SyncedAfter(lines, cur, w, items0, ks[..j + 1])
    {
      var id := ks[j];
      HandledStep(items0, lines, cur, w, ks, j);
      assert Moved(items, lines, cur, w, id) == Moved(items0, lines, cur, w, id);
      assert EditShort(items, lines, w, id) == EditShort(items0, lines, w, id);
      var line := Line(id, w[id], items[id].price);
      ok := Reserve(lines, cur, w, id);
      if id in cur {
        acc' := acc.(work := acc.work[cur[id] := line], total := acc.total + line.price * line.quantity);
      } else {
        acc' := acc.(added := acc.added + [line], total := acc.total + line.price * line.quantity);
      }
    }

    /** The loop over the current rows (OrderController.php:252-260): the row keyBy kept
        for an item that is no longer requested gives its quantity back and is deleted.
        Walks the rows in order; `work` holds the rows the first loop rewrote. Fails when
        the item row of a removed line no longer exists. */
    method ReleaseRemoved(lines: seq<Line>, cur: map<ItemId, nat>, w: map<ItemId, int>, work: seq<Line>,
                          ghost items0: map<ItemId, Item>)
      returns (r: Result<seq<Line>>)
      requires KeyedRows(lines, cur)
      requires forall id :: id in w ==> id in items0
      requires Rewritten(lines, cur, work, w, items0)
      modifies this`items
      ensures r.Ok? <==> forall id :: id in cur && id !in w ==> id in old(items)
      ensures r.Err? ==> r.error == MissingItem
      ensures r.Ok? ==> items == Released(old(items), lines, cur, w, |lines|)
      ensures r.Ok? ==> r.value == Revise(lines, cur, w, items0, |lines|)
    {
      var kept: seq<Line> := [];
      var i := 0;
      assert items == Released(old(items), lines, cur, w, 0);
      while i < |lines|
        invariant 0 <= i <= |lines|
        invariant items == Released(old(items), lines, cur, w, i)
        invariant forall id :: id in cur && cur[id] < i && id !in w ==> id in old(items)
        invariant kept == Revise(lines, cur, w, items0, i)
      {
        var ok;
        ok, kept := ReleaseAt(lines, cur, w, work, items0, old(items), i, kept);
        if !ok {
          return Err(MissingItem);
        }
        i := i + 1;
      }
      r := Ok(kept);
    }

    /** One turn of the loop above, on row `i`: keep the row, keep its rewritten form, or
        give its quantity back to the item (failing when the item is gone) and drop it. */
    method ReleaseAt(lines: seq<Line>, cur: map<ItemId, nat>, w: map<ItemId, int>, work: seq<Line>,
                     ghost items0: map<ItemId, Item>, ghost start: map<ItemId, Item>, i: nat, kept: seq<Line>)
      returns (ok: bool, kept': seq<Line>)
      requires KeyedRows(lines, cur) && i < |lines|
      requires forall id :: id in w ==> id in items0
      requires Rewritten(lines, cur, work, w, items0)
      requires items == Released(start, lines, cur, w, i)
      requires kept == Revise(lines, cur, w, items0, i)
      modifies this`items
      ensures ok <==> !(cur[lines[i].itemId] == i && lines[i].itemId !in w && lines[i].itemId !in start)
      ensures ok ==> items == Released(start, lines, cur, w, i + 1)
      ensures ok ==> kept' == Revise(lines, cur, w, items0, i + 1)
    {
      var line := lines[i];
      ReleasedStep(start, lines, cur, w, i);
      ok := true;
      if cur[line.itemId] != i {
        kept' := kept + [line];
      } else if line.itemId in w {
        kept' := kept + [work[i]];
      } else {
        kept' := kept;
        assert line.itemId in items <==> line.itemId in start;
        if line.itemId !in items {
          return false, kept';
        }
        items := items[line.itemId := items[line.itemId].(quantity := items[line.itemId].quantity + line.quantity)];
      }
    }

    /** `update`: a request carrying `wastage` is a cancellation, any other one a general edit. */
    method Update(orderId: OrderId, wastage: Option<bool>, customerName: Option<string>, kind: OrderType,
                  status: Status, req: seq<Request>)
      returns (r: Result<Order>)
      requires wastage.Some? ==> status == Cancelled
      requires wastage.None? ==> ValidRequest(items, req)
      modifies this
      ensures (State(), r) == UpdateOp(old(State()), orderId, wastage, customerName, kind, status, req)
    {
      if wastage.Some? {
        r := Cancel(orderId, wastage.value);
      } else {
        r := Edit(orderId, customerName, kind, status, req);
      }
    }

    /** `complete`: pending to completed, nothing else. */
    method Complete(orderId: OrderId) returns (r: Result<Order>)
      modifies this
      ensures (State(), r) == CompleteOp(old(State()), orderId)
    {
      if orderId !in orders {
        return Err(NotFound);
      }
      var o := orders[orderId];
      if o.status != Pending {
        return Err(NotPending);
      }
      var updated := o.(status := Completed);
      orders := orders[orderId := updated];
      r := Ok(updated);
    }
  }
}
