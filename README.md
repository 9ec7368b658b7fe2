# Point-of-sale orders and stock, in Dafny

This project models the core of a small restaurant point-of-sale and inventory system
(Laravel on the server, Vue on the client) and proves properties of it:

- **The order controller** (`app/Http/Controllers/OrderController.php`) keeps the stock
  ledger, which is the `quantity` column of the items table, in step with orders:
  - `store` places an order and takes its quantities off the shelves;
  - `update` either cancels an order, giving the stock back unless it is wastage, or
    edits its rows and moves the stock by the difference;
  - `complete` closes a pending order;
  - a guard decides who may open the edit form of a cancelled order.

  `OrderSpec` states each action as a function from the tables (`Db`: items, orders,
  next order id) to new tables and a result. An error always leaves the tables as they
  were, which is the rollback of the transaction. `OrderEngine.Tables` holds the same
  tables as fields. Its methods run the controller's loops row by row and are proved to
  end in exactly the state and result of the `OrderSpec` function. `OrderProperties`
  proves what the actions promise:
  - cancelling undoes a placement;
  - an edit of a just-placed order moves stock exactly as placing the new request would;
  - stock never goes negative when request ids are distinct;
  - an edit of an order with one row per item leaves one row per requested id and a
    stored total equal to the sum of those rows;
  - `complete` only leaves pending;
  - the tables stay well formed.
- **The cart composable** (`resources/js/composables/usePosCart.ts`):
  - per item, a ceiling of stock on hand, plus in edit mode what the edited order
    already holds;
  - adding, removing and changing quantities within that ceiling;
  - the cart's total and item count.

  `PosCart` models the lookups as functions and the cart as a class over its entry
  sequence. `CartServer` proves that on an order with one row per item, the client's
  edit-mode ceiling accepts exactly what the server's edit check accepts.
- **The payment composable** (`resources/js/composables/usePosPayment.ts`): change due,
  rounding up to a banknote, the quick-cash suggestions, and the payment-method watcher.
  This is `PosPayment`.

Money is integer cents throughout: 100.00 is `10000`.

## Model

| member | source | states |
|---|---|---|
| OrderSpec.FirstShortFrom | app/Http/Controllers/OrderController.php:84-91 | the first request entry, from a position on, that asks for more than its item row holds; every entry before it fits; none means every entry fits |
| OrderSpec.SnapshotAt | app/Http/Controllers/OrderController.php:87-94 | row k that `store` prepares is entry k of the request, at the item's price at that moment |
| OrderSpec.Current | app/Http/Controllers/OrderController.php:199 | keyBy on the order's rows: every row's item is a key, every key points at a row of that item, and it is the last such row |
| OrderSpec.Wanted | app/Http/Controllers/OrderController.php:200 | keyBy on the request: every requested id is a key |
| OrderSpec.WantedFromRequest | app/Http/Controllers/OrderController.php:200 | every keyed id comes from an entry of the request and carries that entry's quantity |
| OrderSpec.WantedValid | app/Http/Controllers/OrderController.php:187-194 | after validation, every keyed id is an existing item asking for at least one unit |
| OrderSpec.WantedLastWins | app/Http/Controllers/OrderController.php:200 | the last entry for an id gives the keyed quantity |
| OrderSpec.KeyOrder | app/Http/Controllers/OrderController.php:205 | the edit walks each keyed id exactly once: no repeats, and exactly the keys of the keyed request |
| OrderSpec.FirstEditShortFrom | app/Http/Controllers/OrderController.php:215-239 | the first keyed id, in walking order, that fails the edit's check (an increase beyond stock on a kept row, or a new row beyond stock); none means all pass |
| OrderEngine.CheckStock | app/Http/Controllers/OrderController.php:84-95 | the check pass succeeds iff every entry fits its row's stock; on success it yields the rows to write and their price-times-quantity total; on failure it names the first entry that does not fit |
| OrderEngine.EditStock | app/Http/Controllers/OrderController.php:205-260 | the two loops of the edit together leave every item row at old stock + old quantity − new quantity |
| OrderEngine.ReleasedReserved | app/Http/Controllers/OrderController.php:252-260 | the removal loop, run on the stock the first loop left, ends exactly at the reconciled stock |
| OrderEngine.Tables.constructor | app/Http/Controllers/OrderController.php:68-126 | the tables start with the given stock, no orders, next id 1 |
| OrderEngine.Tables.Store | app/Http/Controllers/OrderController.php:68-126 | the state and result after `store` are those of StoreOp: a rejected entry leaves the tables untouched; otherwise the new order gets the next id and the stock goes down by the request |
| OrderEngine.Tables.Place | app/Http/Controllers/OrderController.php:98-116 | after a check pass that found every entry in stock, writing the order row and the commit pass end in the state and the successful result of StoreOp |
| OrderEngine.Tables.Commit | app/Http/Controllers/OrderController.php:98-116 | the write pass creates the order under the next id with the prepared rows and takes every entry's quantity off its item |
| OrderEngine.Tables.CommitLine | app/Http/Controllers/OrderController.php:107-116 | one turn of the write loop appends one row and decrements its item by that row's quantity |
| OrderEngine.Tables.Cancel | app/Http/Controllers/OrderController.php:150-184 | the state and result equal CancelOp: a missing order fails, and so does an order already cancelled; otherwise the order is marked cancelled with the given wastage flag, and the stock is given back row by row unless it is wastage |
| OrderEngine.Tables.Edit | app/Http/Controllers/OrderController.php:186-277 | the state and result equal EditOp, and on any failure the items table is rolled back |
| OrderEngine.Tables.MoveStock | app/Http/Controllers/OrderController.php:205-260 | both loops of the edit succeed iff no keyed id fails the check and every removed row's item still exists; then the stock is the reconciled stock, and the total and the rows are those of the edited order |
| OrderEngine.Tables.Reserve | app/Http/Controllers/OrderController.php:210-240 | one keyed id passes iff the check does not reject it; then its stock moves by old quantity minus new quantity; otherwise nothing changes |
| OrderEngine.Tables.ReserveRequested | app/Http/Controllers/OrderController.php:205-250 | the keyed loop fails at exactly the first short id; otherwise the stock, the rewritten rows, the added rows and the total are those of the whole keyed request |
| OrderEngine.Tables.ReserveNext | app/Http/Controllers/OrderController.php:205-250 | one turn of the keyed loop succeeds iff the id is not short, and then extends the stock and the accumulated rows and total by that id |
| OrderEngine.Tables.ReleaseRemoved | app/Http/Controllers/OrderController.php:252-260 | the removal loop succeeds iff every dropped item still has its row; then it gives back each dropped row's quantity and keeps the revised rows |
| OrderEngine.Tables.ReleaseAt | app/Http/Controllers/OrderController.php:252-260 | one row: it fails only when it is a dropped row whose item is gone; otherwise the stock and the kept rows grow by that row |
| OrderEngine.Tables.Update | app/Http/Controllers/OrderController.php:147-277 | a request with `wastage` is a cancellation, any other a general edit (UpdateOp) |
| OrderEngine.Tables.Complete | app/Http/Controllers/OrderController.php:279-293 | the state and result equal CompleteOp |
| OrderProperties.RequestedOne | app/Http/Controllers/OrderController.php:107-116 | with distinct ids, the total asked of an entry's item is that entry's quantity |
| OrderProperties.RequestedNone | app/Http/Controllers/OrderController.php:107-116 | an item no entry names is asked for zero times |
| OrderProperties.SnapshotQty | app/Http/Controllers/OrderController.php:107-113 | the rows `store` writes hold, per item, exactly the quantity requested |
| OrderProperties.StoreSucceedsIffEachEntryFits | app/Http/Controllers/OrderController.php:84-95 | `store` succeeds iff every entry fits its row's stock; a failure names the first entry that does not fit and changes nothing |
| OrderProperties.StoreDeductsStock | app/Http/Controllers/OrderController.php:115 | with distinct ids, a successful `store` lowers each requested row by its entry's quantity and leaves the other rows as they were |
| OrderProperties.StoreRecordsOrder | app/Http/Controllers/OrderController.php:98-113 | a successful `store` records a fresh order: the caller's fields, not wastage, one row per entry at the current price, total = sum of price × quantity; no other order changes |
| OrderProperties.StoreKeepsStockNonNegative | app/Http/Controllers/OrderController.php:84-116 | with distinct ids, `store` never drives a row below zero |
| OrderProperties.DuplicateIdsOversell | app/Http/Controllers/OrderController.php:84-116 | with an id repeated in the request, each entry is checked against the full stock: 3 on hand and two entries of 2 succeed and leave −1 |
| OrderProperties.DuplicateIdsPass | app/Http/Controllers/OrderController.php:84-95 | entries of 2 and 3 for an item with 15 units both pass the check, give two rows at the current price, and ask 5 units in all |
| OrderProperties.DuplicateIdsStoreTwoRows | app/Http/Controllers/OrderController.php:84-116 | a request with entries of 2 and 3 for one item writes two rows of it, a total of 500.00, and takes 5 units off 15 |
| OrderProperties.StoreScenario | tests/Feature/OrderTest.php:12-34 | 10 units at 100.00 and an order for 2 leave 8 and total 200.00 |
| OrderProperties.CancelUndoesStore | app/Http/Controllers/OrderController.php:166-174 | cancelling a just-placed order without wastage restores every item row; with wastage the stock stays spent |
| OrderProperties.StoredCancelledKeepsStock | app/Http/Controllers/OrderController.php:156-158 | an order placed with status cancelled can never be cancelled, so its stock never comes back |
| OrderProperties.CancelOnce | app/Http/Controllers/OrderController.php:156-158 | after a cancellation, a second one fails and changes nothing |
| OrderProperties.CancelScenarios | tests/Feature/OrderTest.php:36-107 | cancelling the completed test order without wastage brings 8 back to 10; with wastage it stays 8; either way the order ends cancelled |
| OrderProperties.SnapshotOldQty | app/Http/Controllers/OrderController.php:199-213 | on rows `store` wrote from distinct ids, the edit's keyBy finds each item's requested quantity, and finds exactly the requested items |
| OrderProperties.WantedQty | app/Http/Controllers/OrderController.php:200 | with distinct ids, keyBy on the request loses nothing |
| OrderProperties.EditShortAfterStore | app/Http/Controllers/OrderController.php:213-239 | on a just-placed order, the edit rejects an id iff that row held less, before the placement, than the new request asks |
| OrderProperties.EditAfterStorePasses | app/Http/Controllers/OrderController.php:205-239 | on a just-placed order, the edit's check passes for every keyed id iff each new entry fits the stock held before the placement |
| OrderProperties.EditAfterStoreStock | app/Http/Controllers/OrderController.php:205-260 | editing a just-placed order leaves the stock that placing the new request instead would have left |
| OrderProperties.EditAfterStoreIsLikeStore | app/Http/Controllers/OrderController.php:186-277 | editing a just-placed order succeeds iff placing the new request instead would, with the same stock afterwards: the edit conserves stock |
| OrderProperties.StoreOkShape | app/Http/Controllers/OrderController.php:98-116 | when no entry is short, `store` adds the order under the next id with the prepared rows and decrements the stock |
| OrderProperties.EditOfStored | app/Http/Controllers/OrderController.php:186-277 | an edit of an order whose rows came from one request, on the stock that request left, succeeds iff the new request fits the earlier stock, and then leaves the stock the new request alone would have left |
| OrderProperties.EditToCancelledKeepsStock | app/Http/Controllers/OrderController.php:186-277 | a general edit to status cancelled marks the order cancelled but gives no stock back |
| OrderProperties.ReopenAfterCancelKeepsRestock | app/Http/Controllers/OrderController.php:186-277 | editing a cancelled, restocked order back to pending treats its rows as still reserved, so the stock ends as if it had never been placed |
| OrderProperties.EditOfRestocked | app/Http/Controllers/OrderController.php:186-277 | resubmitting an order's own request passes and leaves the stock unchanged |
| OrderProperties.SnapshotKnown | app/Http/Controllers/OrderController.php:252-258 | every item that rows written by `store` name has an item row, so their release cannot fail |
| OrderProperties.SnapshotPassesEdit | app/Http/Controllers/OrderController.php:213-222 | asking again for what the rows already hold passes the edit's check |
| OrderProperties.SnapshotReconciled | app/Http/Controllers/OrderController.php:215-226 | asking again for what the rows already hold moves no stock |
| OrderProperties.SnapshotReconciledAt | app/Http/Controllers/OrderController.php:210-226 | for one item row: asking again for what the rows already hold leaves that row as it was |
| OrderProperties.EditIgnoresFreeze | app/Http/Controllers/OrderController.php:130 | the form guard freezes a cancelled non-wastage order, yet `update` still edits it: the order reopens and takes stock |
| OrderProperties.CompleteOnlyFromPending | app/Http/Controllers/OrderController.php:279-293 | `complete` succeeds iff the order exists and is pending; it marks that order completed, touches no stock and no other order, and cannot be repeated |
| OrderProperties.LineQtyNonNegative | app/Http/Controllers/OrderController.php:166-174 | the rows of an order never give back a negative quantity |
| OrderProperties.RevisePositive | app/Http/Controllers/OrderController.php:229-232 | rows kept by an edit are for at least one unit |
| OrderProperties.AddedPositive | app/Http/Controllers/OrderController.php:242-247 | rows added by an edit are for at least one unit |
| OrderProperties.StoreKeepsWellFormed | app/Http/Controllers/OrderController.php:98-116 | `store` keeps order ids below the next id and every row at one unit or more |
| OrderProperties.UpdateKeepsWellFormed | app/Http/Controllers/OrderController.php:147-277 | both branches of `update` keep the tables well formed |
| OrderProperties.EditKeepsWellFormed | app/Http/Controllers/OrderController.php:186-277 | the general edit keeps the tables well formed |
| OrderProperties.EditedRowsPositive | app/Http/Controllers/OrderController.php:229-247 | the rows an edit writes are for one unit or more |
| OrderProperties.CompleteKeepsWellFormed | app/Http/Controllers/OrderController.php:279-293 | `complete` keeps the tables well formed |
| OrderProperties.CancelKeepsStockNonNegative | app/Http/Controllers/OrderController.php:166-174 | a cancellation never drives stock negative |
| OrderProperties.EditKeepsStockNonNegative | app/Http/Controllers/OrderController.php:213-258 | the general edit never drives stock negative: it checks the change in quantity, and decreases and removals only give units back |
| OrderProperties.ReviseRows | app/Http/Controllers/OrderController.php:229-258 | on rows with distinct items, the kept part of an edit repeats no item, holds only requested ids at the requested quantity and current price, and has a row for every still-requested old item |
| OrderProperties.AddedRows | app/Http/Controllers/OrderController.php:233-248 | the added part holds one row per requested id that had no row, at the requested quantity and current price, with no repeats |
| OrderProperties.JoinedRowsRequested | app/Http/Controllers/OrderController.php:229-248 | every row after the edit is a keyed id at its requested quantity and current price |
| OrderProperties.JoinedRowsDistinct | app/Http/Controllers/OrderController.php:229-258 | no item appears twice in the rows after the edit |
| OrderProperties.JoinedRowsCover | app/Http/Controllers/OrderController.php:229-248 | every keyed id has a row after the edit |
| OrderProperties.KeptCovers | app/Http/Controllers/OrderController.php:210-232 | a keyed id that already had a row still has one after the edit |
| OrderProperties.AddedCovers | app/Http/Controllers/OrderController.php:233-247 | a keyed id that had no row gets one after the edit |
| OrderProperties.HasRowConcat | app/Http/Controllers/OrderController.php:229-258 | a row in the kept rows or in the added rows is a row of the order after the edit |
| OrderProperties.EditRowsFollowRequest | app/Http/Controllers/OrderController.php:186-277 | after a successful edit of an order with one row per item, the order holds exactly one row per requested id, at the requested quantity and current price |
| OrderProperties.LinesTotalAppend | app/Http/Controllers/OrderController.php:93 | the total over two runs of rows is the sum of their totals |
| OrderProperties.LinesTotalRemove | app/Http/Controllers/OrderController.php:93 | removing a row takes its price × quantity off the total |
| OrderProperties.RemovedRowRest | app/Http/Controllers/OrderController.php:205-249 | without the row of one keyed id, the other rows stay distinct, at the requested quantity, and of the other keyed ids |
| OrderProperties.RemovedRowCover | app/Http/Controllers/OrderController.php:205-249 | without the row of one keyed id, every other keyed id still has a row |
| OrderProperties.RowsTotalIsKeyedTotal | app/Http/Controllers/OrderController.php:205-249 | rows with distinct items, one per keyed id, each at the requested quantity and current price, add up to the edit's `$totalAmount` |
| OrderProperties.EditTotalMatchesRows | app/Http/Controllers/OrderController.php:186-277 | after a successful edit of an order with one row per item, the stored `total_amount` equals the sum of price × quantity over the order's rows |
| OrderProperties.DuplicateRowsEditTotal | app/Http/Controllers/OrderController.php:199-268 | an order with rows of 2 and 3 units of one item, edited to 4 units, keeps the row of 2 and rewrites the row of 3: rows worth 600.00 under a stored total of 400.00, and one unit leaves the stock |
| OrderProperties.DuplicateRowsEditPasses | app/Http/Controllers/OrderController.php:199-260 | that edit passes the stock check and the release check |
| OrderProperties.DuplicateRowsKeys | app/Http/Controllers/OrderController.php:199-200 | in that edit, keyBy points the item at its last row and asks four units of it |
| OrderProperties.DuplicateRowsEdited | app/Http/Controllers/OrderController.php:199-248 | that edit keeps the row of 2 as it was and rewrites the row of 3 to 4 at the current price |
| OrderProperties.DuplicateRowsEditedStock | app/Http/Controllers/OrderController.php:205-249 | that edit's total is four units at 100.00 and it takes one more unit from ten |
| PosCart.FindOriginal | resources/js/composables/usePosCart.ts:56-59 | the first original row of the item, or none when no row has it |
| PosCart.FindEntry | resources/js/composables/usePosCart.ts:61 | the first cart entry of the item, or none when no entry has it |
| PosCart.OriginalQuantity | resources/js/composables/usePosCart.ts:56-59 | 0 outside edit mode or without original rows; otherwise the quantity of the item's first original row, or 0 when it has none |
| PosCart.CartQuantity | resources/js/composables/usePosCart.ts:61 | the quantity of the item's first entry, 0 when it has none |
| PosCart.SumUpdate | resources/js/composables/usePosCart.ts:28-29 | replacing one entry moves a cart sum by the difference of the two entries |
| PosCart.SumRemove | resources/js/composables/usePosCart.ts:28-29 | removing one entry takes its share out of a cart sum |
| PosCart.AfterAdd | resources/js/composables/usePosCart.ts:71-82 | no change without remaining stock; otherwise one more unit on the item's entry, or a new entry for one unit |
| PosCart.SpliceStart | resources/js/composables/usePosCart.ts:85 | the position `splice` removes at lies within the cart |
| PosCart.Spliced | resources/js/composables/usePosCart.ts:85 | `splice(index, 1)` removes exactly one entry when the index is in range, keeping the others in order, and changes nothing past the end |
| PosCart.AfterUpdate | resources/js/composables/usePosCart.ts:89-102 | a quantity of zero or less removes the entry; one within the ceiling is taken, with all other entries unchanged; one above the ceiling changes nothing |
| PosCart.Cart.constructor | resources/js/composables/usePosCart.ts:25-26 | the cart starts empty with the given options |
| PosCart.Cart.AddToCart | resources/js/composables/usePosCart.ts:71-82 | the new cart is AfterAdd of the old one, and a valid cart stays valid |
| PosCart.Cart.RemoveFromCart | resources/js/composables/usePosCart.ts:84-86 | the new cart is the old one spliced at the index, and a valid cart stays valid |
| PosCart.Cart.UpdateQuantity | resources/js/composables/usePosCart.ts:89-102 | the new cart is AfterUpdate of the old one, and a valid cart stays valid |
| PosCart.Cart.InitializeCart | resources/js/composables/usePosCart.ts:104-109 | the cart becomes one entry per order row |
| PosCart.OnlyEntry | resources/js/composables/usePosCart.ts:61 | in a cart with one entry per item, an entry's lookup finds that entry and its quantity |
| PosCart.RemainingNeverNegative | resources/js/composables/usePosCart.ts:68 | in a valid cart, remaining stock is never negative for an item the cart holds, and is the full ceiling for one it does not hold |
| PosCart.AddKeepsValid | resources/js/composables/usePosCart.ts:71-82 | adding keeps one entry per item, each between one unit and its ceiling |
| PosCart.RemoveKeepsValid | resources/js/composables/usePosCart.ts:84-86 | removing keeps the cart valid |
| PosCart.UpdateKeepsValid | resources/js/composables/usePosCart.ts:89-102 | changing a quantity keeps the cart valid |
| PosCart.AddCountsOne | resources/js/composables/usePosCart.ts:71-82 | with stock remaining, adding raises the item count by one and the total by the item's price; otherwise the cart is unchanged |
| PosCart.RemoveCounts | resources/js/composables/usePosCart.ts:84-86 | removing an entry takes exactly its units off the count and its amount off the total |
| PosCart.UpdateCounts | resources/js/composables/usePosCart.ts:89-102 | a change that is taken moves the count by delta and the total by price × delta; a removal drops the entry's units; a change above the ceiling does nothing |
| PosCart.InitializedCartValid | resources/js/composables/usePosCart.ts:104-109 | a cart filled in edit mode from an order with one row per item is valid: each row fits its ceiling of stock plus itself |
| CartServer.OriginalIsOldQty | resources/js/composables/usePosCart.ts:56-59 | with one row per item, the cart's original quantity is the one the server's keyBy finds |
| CartServer.EditCeilingMatchesServerCheck | resources/js/composables/usePosCart.ts:63-66 | for an item of the edited order (one row per item, stock not negative), the cart's edit-mode ceiling admits a quantity iff the server's edit check does |
| CartServer.DuplicateRowsDisagree | resources/js/composables/usePosCart.ts:56-59 | on an order with two rows of one item, the cart reads the first row and the server the last: the cart refuses 3 units that the server accepts |
| PosPayment.ChangeDue | resources/js/composables/usePosPayment.ts:16-21 | never negative; for cash paid at or above the total, change + total = amount paid; nothing for GCash or an underpayment |
| PosPayment.RoundUp | resources/js/composables/usePosPayment.ts:24-27 | the value itself for a step that is not positive; otherwise a multiple of the step, at least the value and less than one step above it |
| PosPayment.RoundUpLeast | resources/js/composables/usePosPayment.ts:24-27 | no multiple of the step that is at least the value is below the round-up |
| PosPayment.RoundUpIs | resources/js/composables/usePosPayment.ts:24-27 | the multiple of the step within one step above the value is the round-up |
| PosPayment.IndexOf | resources/js/composables/usePosPayment.ts:53 | `indexOf`: a position holding the element, with no earlier one holding it |
| PosPayment.IndexOfSnoc | resources/js/composables/usePosPayment.ts:53 | appending an element moves no first occurrence, and a new element first occurs at the end |
| PosPayment.KeepFirst | resources/js/composables/usePosPayment.ts:53 | the filter keeps exactly the elements above the bound, without repeats |
| PosPayment.KeepFirstOrder | resources/js/composables/usePosPayment.ts:53 | the kept elements come in the order of their first occurrences in the input |
| PosPayment.KeepFirstAll | resources/js/composables/usePosPayment.ts:59 | on elements without repeats, all past the bound, the filter keeps everything in order |
| PosPayment.Take | resources/js/composables/usePosPayment.ts:54 | `slice(0, n)`: the first n elements, or all of them when there are fewer |
| PosPayment.InsertAdds | resources/js/composables/usePosPayment.ts:64 | inserting adds exactly the element |
| PosPayment.InsertSorted | resources/js/composables/usePosPayment.ts:64 | inserting into an ascending sequence keeps it ascending |
| PosPayment.SortAscending | resources/js/composables/usePosPayment.ts:64 | the numeric sort gives the same elements in ascending order |
| PosPayment.SortsTo | resources/js/composables/usePosPayment.ts:64 | the sort's result is the one ascending arrangement of its input |
| PosPayment.AscendingUnique | resources/js/composables/usePosPayment.ts:64 | two ascending arrangements of one multiset are equal |
| PosPayment.SortedDistinct | resources/js/composables/usePosPayment.ts:64 | sorting introduces no repeats |
| PosPayment.SortedAbove | resources/js/composables/usePosPayment.ts:64 | sorting keeps every element above a bound |
| PosPayment.Rounded | resources/js/composables/usePosPayment.ts:51-52 | one value per banknote of 100, 200, 500 and 1000 pesos, in that order: a multiple of that banknote, at least the total and less than a banknote above it |
| PosPayment.PlusTargetsAre | resources/js/composables/usePosPayment.ts:57-59 | for every total, the plus targets are the total plus 100 and plus 200 pesos |
| PosPayment.QuickCashOptionsShape | resources/js/composables/usePosPayment.ts:41-66 | no suggestion for a total that is not positive; otherwise every suggestion is above the total, and they strictly ascend, at most four |
| PosPayment.ExampleRoundedTargets | resources/js/composables/usePosPayment.ts:51-54 | for 350 pesos the round-up targets are 400, 500 and 1000 pesos (the repeated 400 dropped) |
| PosPayment.ExamplePlusTargets | resources/js/composables/usePosPayment.ts:57-60 | for 350 pesos the plus targets are 450 and 550 pesos |
| PosPayment.OptionsFromTargets | resources/js/composables/usePosPayment.ts:62-65 | with known candidates and no repeats among them, the suggestions are the four smallest, ascending |
| PosPayment.QuickCashExample | resources/js/composables/usePosPayment.ts:41-66 | a total of 350 pesos is offered 400, 450, 500 and 550 pesos |
| PosPayment.PaymentForm.constructor | resources/js/composables/usePosPayment.ts:4-9 | the form holds the given method, amount and reference |
| PosPayment.PaymentForm.SetExactAmount | resources/js/composables/usePosPayment.ts:30-32 | the amount paid becomes the total, so cash leaves no change; the other fields are kept |
| PosPayment.PaymentForm.AddCash | resources/js/composables/usePosPayment.ts:35-38 | the amount paid (0 when unset) grows by delta; the other fields are kept |
| PosPayment.PaymentForm.SwitchMethod | resources/js/composables/usePosPayment.ts:69-82 | switching to cash clears the reference; switching to GCash sets the amount to the total (no change due) and clears the reference; the same method again changes nothing |

## Left out

- Database locking (`lockForUpdate`) and concurrent requests are not modelled. Each action runs alone, and a transaction is modelled as restoring the items table on an error.
- `customer_name` is nullable but not required (OrderController.php:71 and 188). A request that omits the key reads an undefined array key at lines 100 and 264, which fails the request and rolls the transaction back. The model's `customerName` of `None` is an explicit null; the omitted key is not modelled.
- Request validation failures (HTTP 422) are preconditions. Each action requires a request that passes its validation rules (`ValidRequest`, and `status == Cancelled` for a cancellation), and the model does not describe the rejected ones.
- The index, show, create and edit pages are not modelled: the Inertia rendering, eager loading and the stock list on the create page. The only exception is the edit guard, `EditAllowed`.
- Activity logging, the payment columns (method, amount, reference) saved on the order and the authenticated user's id are not modelled. The user id is a parameter.
- Prices and amounts are floating point in PHP and JavaScript, and `toFixed(2)` rounds them. The model uses integer cents, so that rounding is the identity.
- Nothing checks stock against zero after a decrement (OrderController.php:115, 222 and 240). The checks at lines 87, 217 and 235 compare each entry with the stock before the request, so a `store` that repeats an id can drive stock below zero (`DuplicateIdsOversell`); a store with distinct ids, a cancellation and an edit cannot (`StoreKeepsStockNonNegative`, `CancelKeepsStockNonNegative`, `EditKeepsStockNonNegative`). The model follows the code: stock is an `int`.
- The wastage flag is assumed to default to false when an order is created (the migration is not part of this model), and an order's rows are a sequence with new rows appended.
- `addToCart` and `updateQuantity` have a guard that ignores a second call for the same key within a short time. That guard reads a clock and is not modelled.
- PosCart.Cart.UpdateQuantity requires an index within the cart. The source would throw on an entry that does not exist.
- PosCart.Cart.AddToCart keeps the cart valid only when the item offered equals, as a value, the record the cart holds under that id (`SameItem`). In create mode the cart holds the catalogue's own item (usePosCart.ts:80). In edit mode `initializeCart` holds a copy of the order's item (usePosCart.ts:106), which equals the catalogue's item when both were loaded in the same request. The model compares items by value and does not model object identity.
- PosPayment.PaymentForm: an unset amount counts as 0 in the change due. The source's `amount_paid` is always a number.
- PosPayment.QuickCashOptionsShape does not state the suggestions' exact values for every total. Exact values are proved for one total (`QuickCashExample`) and through the pipeline lemmas.
- OrderProperties.EditRowsFollowRequest and OrderProperties.EditTotalMatchesRows require an order whose rows have distinct items, and the stock lemmas of the edit assume distinct ids where stated. An order stored from a request that repeats an id has two rows of one item (`DuplicateIdsStoreTwoRows`). The edit rewrites only the last of them and keeps the earlier one, so the source stores a total that the order's rows contradict (`DuplicateRowsEditTotal`: rows worth 600.00 under a total of 400.00). The model follows the code.
- The Vue reactivity (`computed`, `watch`) is modelled as plain functions, and as a method that applies the watcher right after the method changes.
