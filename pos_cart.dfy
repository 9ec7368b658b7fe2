/**
  The point-of-sale cart of resources/js/composables/usePosCart.ts.

  The cart is an array of entries, each an item and the quantity chosen; at most one
  entry per item is the intended shape. Every item has a ceiling: its stock on hand, and
  in edit mode also the quantity the order being edited already holds (those units come
  back to the shelf when the edit is saved). The lookups and sums are pure functions on
  the entry sequence; the `Cart` class holds the array and changes it in place.
  Money is in integer cents.
*/
module PosCart {
  import opened Common

  datatype Mode = Create | Edit

  /** An item offered by the cart; `stock` is the quantity available on the shelf. */
  datatype CartItem = CartItem(id: nat, name: string, price: int, stock: int)

  datatype CartEntry = CartEntry(item: CartItem, quantity: int)

  /** A row of the order being edited, as handed to the cart. */
  datatype OriginalOrderItem = OriginalOrderItem(itemId: nat, quantity: int)

  datatype Options = Options(mode: Mode, originalOrderItems: Option<seq<OriginalOrderItem>>)

  /** A row of the order, with its item, from which the cart is filled in edit mode. */
  datatype OrderRow = OrderRow(item: CartItem, quantity: int)

  // ---------------------------------------------------------------------------
  // lookups
  // ---------------------------------------------------------------------------

  /** Array `find` over the original rows: the first row of the item, if any. */
  function FindOriginal(rows: seq<OriginalOrderItem>, id: nat): (k: Option<nat>)
    ensures k.Some? ==> k.value < |rows| && rows[k.value].itemId == id
    ensures k.Some? ==> forall j :: 0 <= j < k.value ==> rows[j].itemId != id
    ensures k.None? ==> forall j :: 0 <= j < |rows| ==> rows[j].itemId != id
  {
    if rows == [] then None
    else if rows[0].itemId == id then Some(0)
    else match FindOriginal(rows[1..], id)
      case None => None
      case Some(k) => Some(k + 1)
  }

  /** Array `find` over the cart: the first entry of the item, if any. */
  function FindEntry(cart: seq<CartEntry>, id: nat): (k: Option<nat>)
    ensures k.Some? ==> k.value < |cart| && cart[k.value].item.id == id
    ensures k.Some? ==> forall j :: 0 <= j < k.value ==> cart[j].item.id != id
    ensures k.None? ==> forall j :: 0 <= j < |cart| ==> cart[j].item.id != id
  {
    if cart == [] then None
    else if cart[0].item.id == id then Some(0)
    else match FindEntry(cart[1..], id)
      case None => None
      case Some(k) => Some(k + 1)
  }

  /** `getOriginalQuantity`: what the edited order already holds of the item, 0 outside
      edit mode, without original rows, or when the order has no row of it. */
  function OriginalQuantity(options: Options, id: nat): (q: int)
    ensures options.mode == Create || options.originalOrderItems.None? ==> q == 0
    ensures options.mode == Edit && options.originalOrderItems.Some? ==>
              var rows := options.originalOrderItems.value;
              && ((forall j :: 0 <= j < |rows| ==> rows[j].itemId != id) ==> q == 0)
              && forall k :: 0 <= k < |rows| && rows[k].itemId == id ==>
                             (forall j :: 0 <= j < k ==> rows[j].itemId != id) ==> q == rows[k].quantity
  {
    if options.mode != Edit || options.originalOrderItems.None? then 0
    else match FindOriginal(options.originalOrderItems.value, id)
      case None => 0
      case Some(k) => options.originalOrderItems.value[k].quantity
  }

  /** `getCartQuantity`: the quantity of the item's first entry, 0 when it has none. */
  function CartQuantity(cart: seq<CartEntry>, id: nat): (q: int)
    ensures (forall j :: 0 <= j < |cart| ==> cart[j].item.id != id) ==> q == 0
    ensures forall k :: 0 <= k < |cart| && cart[k].item.id == id ==>
                        (forall j :: 0 <= j < k ==> cart[j].item.id != id) ==> q == cart[k].quantity
  {
    match FindEntry(cart, id)
    case None => 0
    case Some(k) => cart[k].quantity
  }

  /** `getMaxStock`: the ceiling of an item, its stock plus, in edit mode, what the order
      being edited already holds. */
  function MaxStock(options: Options, item: CartItem): int {
    if options.mode == Create then item.stock
    else item.stock + OriginalQuantity(options, item.id)
  }

  /** `getRemainingStock`: how many more units of the item the cart may take. */
  function RemainingStock(options: Options, cart: seq<CartEntry>, item: CartItem): int {
    MaxStock(options, item) - CartQuantity(cart, item.id)
  }

  // ---------------------------------------------------------------------------
  // sums
  // ---------------------------------------------------------------------------

  /** The `reduce` of the cart with an accumulator starting at 0. */
  function SumOf(cart: seq<CartEntry>, f: CartEntry -> int): int {
    if cart == [] then 0 else SumOf(cart[..|cart| - 1], f) + f(cart[|cart| - 1])
  }

  function EntryTotal(c: CartEntry): int { c.item.price * c.quantity }

  function EntryCount(c: CartEntry): int { c.quantity }

  /** `cartTotal`: price times quantity, summed over the cart. */
  function CartTotal(cart: seq<CartEntry>): int { SumOf(cart, EntryTotal) }

  /** `cartItemCount`: the quantities, summed over the cart. */
  function CartItemCount(cart: seq<CartEntry>): int { SumOf(cart, EntryCount) }

  lemma SumAppend(cart: seq<CartEntry>, e: CartEntry, f: CartEntry -> int)
    ensures SumOf(cart + [e], f) == SumOf(cart, f) + f(e)
  {
    assert (cart + [e])[..|cart|] == cart;
  }

  /** Replacing one entry moves the sum by the difference of the two entries. */
  lemma {:induction false} SumUpdate(cart: seq<CartEntry>, k: nat, e: CartEntry, f: CartEntry -> int)
    requires k < |cart|
    ensures SumOf(cart[k := e], f) == SumOf(cart, f) - f(cart[k]) + f(e)
  {
    var n := |cart| - 1;
    if k < n {
      assert cart[k := e][..n] == cart[..n][k := e];
      SumUpdate(cart[..n], k, e, f);
    } else {
      assert cart[k := e][..n] == cart[..n];
    }
  }

  /** Removing one entry takes it out of the sum. */
  lemma {:induction false} SumRemove(cart: seq<CartEntry>, k: nat, f: CartEntry -> int)
    requires k < |cart|
    ensures SumOf(cart[..k] + cart[k + 1..], f) == SumOf(cart, f) - f(cart[k])
  {
    var n := |cart| - 1;
    if k < n {
      var init := cart[..n];
      assert init[..k] + init[k + 1..] + [cart[n]] == cart[..k] + cart[k + 1..];
      SumRemove(init, k, f);
      SumAppend(init[..k] + init[k + 1..], cart[n], f);
    } else {
      assert cart[..k] + cart[k + 1..] == cart[..n];
    }
  }

  // ---------------------------------------------------------------------------
  // the cart's invariant
  // ---------------------------------------------------------------------------

  /** At most one entry per item. */
  predicate DistinctItems(cart: seq<CartEntry>) {
    forall i, j :: 0 <= i < j < |cart| ==> cart[i].item.id != cart[j].item.id
  }

  /** The shape the cart keeps: one entry per item, each for at least one unit and no
      more than the item's ceiling. */
  predicate CartValid(options: Options, cart: seq<CartEntry>) {
    && DistinctItems(cart)
    && forall k :: 0 <= k < |cart| ==> 1 <= cart[k].quantity <= MaxStock(options, cart[k].item)
  }

  /** The item offered equals, as a value, the record the cart holds under that id. */
  predicate SameItem(cart: seq<CartEntry>, item: CartItem) {
    forall k :: 0 <= k < |cart| && cart[k].item.id == item.id ==> cart[k].item == item
  }

  // ---------------------------------------------------------------------------
  // the changes, as functions of the old cart
  // ---------------------------------------------------------------------------

  /** The cart after `addToCart`: nothing when the item has no units left; otherwise one
      more unit on the item's entry, or a new entry for one unit. The ceiling test on an
      existing entry never refuses once the remaining-stock test has passed. */
  function AfterAdd(options: Options, cart: seq<CartEntry>, item: CartItem): (c: seq<CartEntry>)
    ensures RemainingStock(options, cart, item) <= 0 ==> c == cart
    ensures RemainingStock(options, cart, item) > 0 && FindEntry(cart, item.id).Some? ==>
              var k := FindEntry(cart, item.id).value;
              c == cart[k := cart[k].(quantity := cart[k].quantity + 1)]
    ensures RemainingStock(options, cart, item) > 0 && FindEntry(cart, item.id).None? ==>
              c == cart + [CartEntry(item, 1)]
  {
    if RemainingStock(options, cart, item) <= 0 then cart
    else match FindEntry(cart, item.id)
      case Some(k) =>
        assert CartQuantity(cart, item.id) == cart[k].quantity;
        if cart[k].quantity < MaxStock(options, item)
        then cart[k := cart[k].(quantity := cart[k].quantity + 1)]
        else cart
      case None => cart + [CartEntry(item, 1)]
  }

  /** Where `splice(index, 1)` starts: a negative index counts from the end, an index
      past the end stops at the end. */
  function SpliceStart(len: nat, index: int): (k: nat)
    ensures k <= len
  {
    if index < 0 then (if len + index < 0 then 0 else len + index)
    else if index < len then index else len
  }

  /** `splice(index, 1)`: entry `index` (counted as above) removed, the others kept in order. */
  function Spliced(cart: seq<CartEntry>, index: int): (c: seq<CartEntry>)
    ensures SpliceStart(|cart|, index) == |cart| ==> c == cart
    ensures SpliceStart(|cart|, index) < |cart| ==> |c| == |cart| - 1
    ensures forall j :: 0 <= j < SpliceStart(|cart|, index) && j < |c| ==> c[j] == cart[j]
    ensures forall j :: SpliceStart(|cart|, index) <= j < |cart| - 1 ==> c[j] == cart[j + 1]
    ensures 0 <= index < |cart| ==> |c| == |cart| - 1 && multiset(c) + multiset{cart[index]} == multiset(cart)
  {
    var k := SpliceStart(|cart|, index);
    if k < |cart| then
      assert cart == cart[..k] + [cart[k]] + cart[k + 1..];
      cart[..k] + cart[k + 1..]
    else cart
  }

  /** The cart after `updateQuantity(index, delta)`: the entry leaves the cart when the
      new quantity is not positive, takes it when it is within the ceiling, and the cart
      is unchanged otherwise. */
  function AfterUpdate(options: Options, cart: seq<CartEntry>, index: nat, delta: int): (c: seq<CartEntry>)
    requires index < |cart|
    ensures cart[index].quantity + delta <= 0 ==> |c| == |cart| - 1 && c == cart[..index] + cart[index + 1..]
    ensures 0 < cart[index].quantity + delta <= MaxStock(options, cart[index].item) ==>
              |c| == |cart| && c[index].quantity == cart[index].quantity + delta &&
              c[index].item == cart[index].item &&
              forall j :: 0 <= j < |cart| && j != index ==> c[j] == cart[j]
    ensures cart[index].quantity + delta > 0 ==>
              cart[index].quantity + delta > MaxStock(options, cart[index].item) ==> c == cart
  {
    var newQty := cart[index].quantity + delta;
    if newQty <= 0 then Spliced(cart, index)
    else if newQty <= MaxStock(options, cart[index].item) then cart[index := cart[index].(quantity := newQty)]
    else cart
  }

  /** The cart `initializeCart` builds from the order's rows: one entry per row, in order. */
  function FromOrder(rows: seq<OrderRow>): (c: seq<CartEntry>)
    ensures |c| == |rows|
    ensures forall k :: 0 <= k < |rows| ==> c[k] == CartEntry(rows[k].item, rows[k].quantity)
  {
    seq(|rows|, k requires 0 <= k < |rows| => CartEntry(rows[k].item, rows[k].quantity))
  }

  /** The original rows the edit page hands the cart for an order. */
  function OriginalsOf(rows: seq<OrderRow>): (o: seq<OriginalOrderItem>)
    ensures |o| == |rows|
    ensures forall k :: 0 <= k < |rows| ==> o[k] == OriginalOrderItem(rows[k].item.id, rows[k].quantity)
  {
    seq(|rows|, k requires 0 <= k < |rows| => OriginalOrderItem(rows[k].item.id, rows[k].quantity))
  }

  // ---------------------------------------------------------------------------
  // the cart, changed in place
  // ---------------------------------------------------------------------------

  class Cart {
    const options: Options
    var entries: seq<CartEntry>

    constructor(options: Options)
      ensures this.options == options && entries == []
    {
      this.options := options;
      entries := [];
    }

    /** `addToCart` (usePosCart.ts:71-82), without its touch-duplicate guard. */
    method AddToCart(item: CartItem)
      modifies this
      ensures entries == AfterAdd(options, old(entries), item)
      ensures CartValid(options, old(entries)) && SameItem(old(entries), item) ==> CartValid(options, entries)
    {
      AddKeepsValid(options, entries, item);
      if RemainingStock(options, entries, item) <= 0 {
        return;
      }
      var existing := FindEntry(entries, item.id);
      match existing {
        case Some(k) =>
          var maxStock := MaxStock(options, item);
          if entries[k].quantity < maxStock {
            entries := entries[k := entries[k].(quantity := entries[k].quantity + 1)];
          }
        case None =>
          entries := entries + [CartEntry(item, 1)];
      }
    }

    /** `removeFromCart` (usePosCart.ts:84-86). */
    method RemoveFromCart(index: int)
      modifies this
      ensures entries == Spliced(old(entries), index)
      ensures CartValid(options, old(entries)) ==> CartValid(options, entries)
    {
      RemoveKeepsValid(options, entries, index);
      entries := Spliced(entries, index);
    }

    /** `updateQuantity` (usePosCart.ts:89-102), without its touch-duplicate guard. */
    method UpdateQuantity(index: nat, delta: int)
      requires index < |entries|
      modifies this
      ensures entries == AfterUpdate(options, old(entries), index, delta)
      ensures CartValid(options, old(entries)) ==> CartValid(options, entries)
    {
      UpdateKeepsValid(options, entries, index, delta);
      var cartItem := entries[index];
      var newQty := cartItem.quantity + delta;
      if newQty <= 0 {
        RemoveFromCart(index);
        return;
      }
      var maxStock := MaxStock(options, cartItem.item);
      if newQty <= maxStock {
        entries := entries[index := cartItem.(quantity := newQty)];
      }
    }

    /** `initializeCart` (usePosCart.ts:104-109). */
    method InitializeCart(rows: seq<OrderRow>)
      modifies this
      ensures entries == FromOrder(rows)
    {
      entries := FromOrder(rows);
    }
  }

  // ---------------------------------------------------------------------------
  // what the changes keep
  // ---------------------------------------------------------------------------

  /** In a valid cart the first entry of an item is its only one. */
  lemma OnlyEntry(options: Options, cart: seq<CartEntry>, k: nat)
    requires DistinctItems(cart) && k < |cart|
    ensures FindEntry(cart, cart[k].item.id) == Some(k)
    ensures CartQuantity(cart, cart[k].item.id) == cart[k].quantity
  {
  }

  /** A valid cart never holds more of an item than its ceiling allows: the remaining
      stock of every item it holds is never negative. */
  lemma RemainingNeverNegative(options: Options, cart: seq<CartEntry>, item: CartItem)
    requires CartValid(options, cart) && SameItem(cart, item)
    ensures RemainingStock(options, cart, item) >= 0 || FindEntry(cart, item.id).None?
    ensures FindEntry(cart, item.id).None? ==> RemainingStock(options, cart, item) == MaxStock(options, item)
  {
  }

  /** `addToCart` keeps the cart valid. */
  lemma AddKeepsValid(options: Options, cart: seq<CartEntry>, item: CartItem)
    ensures CartValid(options, cart) && SameItem(cart, item) ==> CartValid(options, AfterAdd(options, cart, item))
  {
    if CartValid(options, cart) && SameItem(cart, item) && RemainingStock(options, cart, item) > 0 {
      var c := AfterAdd(options, cart, item);
      match FindEntry(cart, item.id)
      case Some(k) =>
        assert cart[k].item == item;
        assert forall j :: 0 <= j < |c| ==> c[j].item == cart[j].item;
      case None =>
        assert c == cart + [CartEntry(item, 1)];
    }
  }

  /** `removeFromCart` keeps the cart valid. */
  lemma RemoveKeepsValid(options: Options, cart: seq<CartEntry>, index: int)
    ensures CartValid(options, cart) ==> CartValid(options, Spliced(cart, index))
  {
    var c := Spliced(cart, index);
    var s := SpliceStart(|cart|, index);
    if CartValid(options, cart) && s < |cart| {
      assert forall j :: 0 <= j < |c| ==> c[j] == cart[if j < s then j else j + 1];
    }
  }

  /** `updateQuantity` keeps the cart valid. */
  lemma UpdateKeepsValid(options: Options, cart: seq<CartEntry>, index: nat, delta: int)
    requires index < |cart|
    ensures CartValid(options, cart) ==> CartValid(options, AfterUpdate(options, cart, index, delta))
  {
    if cart[index].quantity + delta <= 0 {
      RemoveKeepsValid(options, cart, index);
    }
  }

  /** `addToCart` adds exactly one unit, at the item's price, or changes nothing. */
  lemma AddCountsOne(options: Options, cart: seq<CartEntry>, item: CartItem)
    requires SameItem(cart, item)
    ensures var c := AfterAdd(options, cart, item);
            && (RemainingStock(options, cart, item) > 0 ==>
                  CartItemCount(c) == CartItemCount(cart) + 1 && CartTotal(c) == CartTotal(cart) + item.price)
            && (RemainingStock(options, cart, item) <= 0 ==> c == cart)
  {
    if RemainingStock(options, cart, item) > 0 {
      match FindEntry(cart, item.id)
      case Some(k) =>
        var e := cart[k].(quantity := cart[k].quantity + 1);
        SumUpdate(cart, k, e, EntryCount);
        SumUpdate(cart, k, e, EntryTotal);
        assert cart[k].item == item;
      case None =>
        SumAppend(cart, CartEntry(item, 1), EntryCount);
        SumAppend(cart, CartEntry(item, 1), EntryTotal);
    }
  }

  /** `removeFromCart` of an entry takes exactly its units and its amount off the cart. */
  lemma RemoveCounts(cart: seq<CartEntry>, index: nat)
    requires index < |cart|
    ensures CartItemCount(Spliced(cart, index)) == CartItemCount(cart) - cart[index].quantity
    ensures CartTotal(Spliced(cart, index)) == CartTotal(cart) - cart[index].item.price * cart[index].quantity
  {
    SumRemove(cart, index, EntryCount);
    SumRemove(cart, index, EntryTotal);
  }

  /** `updateQuantity` moves the item count by exactly `delta` when it takes the new
      quantity, drops the entry's units when it removes it, and otherwise changes nothing. */
  lemma UpdateCounts(options: Options, cart: seq<CartEntry>, index: nat, delta: int)
    requires index < |cart|
    ensures var c := AfterUpdate(options, cart, index, delta);
            var q := cart[index].quantity + delta;
            && (q <= 0 ==> CartItemCount(c) == CartItemCount(cart) - cart[index].quantity)
            && (0 < q <= MaxStock(options, cart[index].item) ==>
                  && CartItemCount(c) == CartItemCount(cart) + delta
                  && CartTotal(c) == CartTotal(cart) + cart[index].item.price * delta)
            && (q > 0 && q > MaxStock(options, cart[index].item) ==> c == cart)
  {
    var q := cart[index].quantity + delta;
    if q <= 0 {
      RemoveCounts(cart, index);
    } else if q <= MaxStock(options, cart[index].item) {
      var e := cart[index].(quantity := q);
      SumUpdate(cart, index, e, EntryCount);
      SumUpdate(cart, index, e, EntryTotal);
    }
  }

  /** Filling the cart in edit mode from an order with one row per item, each for at least
      one unit, on shelves that are not negative, gives a valid cart: each row's quantity
      is within its ceiling of stock plus the row itself. */
  lemma InitializedCartValid(rows: seq<OrderRow>)
    requires forall i, j :: 0 <= i < j < |rows| ==> rows[i].item.id != rows[j].item.id
    requires forall k :: 0 <= k < |rows| ==> rows[k].quantity >= 1 && rows[k].item.stock >= 0
    ensures CartValid(Options(Edit, Some(OriginalsOf(rows))), FromOrder(rows))
  {
    var options := Options(Edit, Some(OriginalsOf(rows)));
    var c := FromOrder(rows);
    forall k | 0 <= k < |c|
      ensures c[k].quantity <= MaxStock(options, c[k].item)
    {
      assert OriginalQuantity(options, rows[k].item.id) == rows[k].quantity;
    }
  }
}
