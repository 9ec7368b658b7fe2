/**
  The edit-mode ceiling of the cart (resources/js/composables/usePosCart.ts:63-66) against
  the stock check of the general edit (app/Http/Controllers/OrderController.php:205-226):
  on an order with one row per item, the client lets a quantity through exactly when the
  server would.
*/
module CartServer {
  import opened Common
  import OrderSpec
  import PosCart

  /** The original rows the edit page hands the cart, read from the order's rows. */
  function OriginalsOfLines(lines: seq<OrderSpec.Line>): (o: seq<PosCart.OriginalOrderItem>)
    ensures |o| == |lines|
    ensures forall k :: 0 <= k < |lines| ==> o[k] == PosCart.OriginalOrderItem(lines[k].itemId, lines[k].quantity)
  {
    seq(|lines|, k requires 0 <= k < |lines| => PosCart.OriginalOrderItem(lines[k].itemId, lines[k].quantity))
  }

  /** The cart's ceiling for an item of the edited order in edit mode. */
  function EditCeiling(lines: seq<OrderSpec.Line>, item: PosCart.CartItem): int {
    PosCart.MaxStock(PosCart.Options(PosCart.Edit, Some(OriginalsOfLines(lines))), item)
  }

  /** With one row per item, the quantity the cart reads for an item is the one the
      server's keyBy finds. */
  lemma OriginalIsOldQty(lines: seq<OrderSpec.Line>, id: nat)
    requires OrderSpec.DistinctRows(lines)
    ensures PosCart.OriginalQuantity(PosCart.Options(PosCart.Edit, Some(OriginalsOfLines(lines))), id)
            == OrderSpec.OldQty(lines, id)
  {
    var rows := OriginalsOfLines(lines);
    var cur := OrderSpec.Current(lines);
    if id in cur {
      var i := cur[id];
      assert rows[i].itemId == id;
      var k := PosCart.FindOriginal(rows, id).value;
      assert lines[k].itemId == id;
    } else {
      assert forall j :: 0 <= j < |rows| ==> rows[j].itemId != id;
    }
  }

  /** For an item of the edited order whose shelf is not negative, the cart accepts a
      quantity up to its ceiling exactly when the server's edit check accepts it. */
  lemma EditCeilingMatchesServerCheck(items: map<nat, OrderSpec.Item>, lines: seq<OrderSpec.Line>,
                                      w: map<nat, int>, item: PosCart.CartItem)
    requires OrderSpec.DistinctRows(lines)
    requires item.id in items && item.id in w
    requires item.stock == items[item.id].quantity && item.stock >= 0
    ensures w[item.id] <= EditCeiling(lines, item) <==> !OrderSpec.EditShort(items, lines, w, item.id)
  {
    OriginalIsOldQty(lines, item.id);
  }

  /** On an order with two rows of one item (which `store` writes for a request naming the
      item twice), the cart reads the first row and the server the last, so they disagree:
      with no stock left, rows of 1 and 5 units and 3 units asked, the cart refuses what
      the server accepts. */
  lemma DuplicateRowsDisagree()
    ensures var lines := [OrderSpec.Line(1, 1, 100), OrderSpec.Line(1, 5, 100)];
            var items := map[1 := OrderSpec.Item(0, 100)];
            var item := PosCart.CartItem(1, "", 100, 0);
            && 3 > EditCeiling(lines, item)
            && !OrderSpec.EditShort(items, lines, map[1 := 3], 1)
  {
    var lines := [OrderSpec.Line(1, 1, 100), OrderSpec.Line(1, 5, 100)];
    assert lines[..1] == [lines[0]] && lines[..1][..0] == [];
    assert OrderSpec.Current(lines) == map[1 := 1];
    var rows := OriginalsOfLines(lines);
    assert rows[0] == PosCart.OriginalOrderItem(1, 1);
    assert PosCart.FindOriginal(rows, 1) == Some(0);
  }
}
