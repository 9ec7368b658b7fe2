/**
  The payment helpers of the point-of-sale screen, resources/js/composables/usePosPayment.ts:
  the change due on a cash payment, rounding a total up to a banknote, the quick-cash
  suggestions, and the payment form's fields as the helpers and the payment-method
  watcher assign them. Amounts are integer cents, so one peso is 100.
*/
module PosPayment {
  import opened Common

  datatype PaymentMethod = Cash | GCash

  /** `changeDue`: for cash, what the customer gets back, never negative; for GCash, nothing. */
  function ChangeDue(paymentMethod: PaymentMethod, amountPaid: int, cartTotal: int): (c: int)
    ensures c >= 0
    ensures paymentMethod == Cash && amountPaid >= cartTotal ==> c + cartTotal == amountPaid
    ensures paymentMethod == GCash || amountPaid <= cartTotal ==> c == 0
  {
    if paymentMethod == Cash then (if amountPaid - cartTotal > 0 then amountPaid - cartTotal else 0)
    else 0
  }

  /** `roundUp`: the value itself for a step that is not positive, otherwise the least
      multiple of the step that is at least the value. */
  function RoundUp(value: int, step: int): (r: int)
    ensures step <= 0 ==> r == value
    ensures step > 0 ==> value <= r < value + step && r % step == 0
  {
    if step <= 0 then value
    else
      var q := (-value) / step;
      assert -value == q * step + (-value) % step;
      MultipleMod(-q, step);
      -q * step
  }

  lemma MultipleMod(q: int, step: int)
    requires step > 0
    ensures (q * step) % step == 0
  {
    var d, m := (q * step) / step, (q * step) % step;
    assert (q - d) * step == m;
    OnlyZeroFactor(q - d, step);
  }

  lemma OnlyZeroFactor(a: int, step: int)
    requires step > 0 && 0 <= a * step < step
    ensures a == 0
  {
  }

  /** No multiple of the step at least the value lies below `RoundUp`. */
  lemma RoundUpLeast(value: int, step: int, m: int)
    requires step > 0 && m % step == 0 && m >= value
    ensures m >= RoundUp(value, step)
  {
    var r := RoundUp(value, step);
    var i, j := r / step, m / step;
    assert r == i * step && m == j * step;
    assert (j - i + 1) * step > 0 by {
      assert (j - i + 1) * step == m - r + step;
    }
    PositiveFactor(j - i + 1, step);
    MulMonotone(i, j, step);
  }

  /** The multiple of the step less than one step above the value is the round-up. */
  lemma RoundUpIs(value: int, step: int, m: int)
    requires step > 0 && m % step == 0 && value <= m < value + step
    ensures RoundUp(value, step) == m
  {
    var r := RoundUp(value, step);
    RoundUpLeast(value, step, m);
    var i, j := r / step, m / step;
    assert r == i * step && m == j * step;
    assert (j - i) * step == m - r;
    OnlyZeroFactor(j - i, step);
  }

  lemma PositiveFactor(a: int, step: int)
    requires step > 0 && a * step > 0
    ensures a > 0
  {
  }

  lemma MulMonotone(a: int, b: int, step: int)
    requires a <= b && step > 0
    ensures a * step <= b * step
  {
  }

  // ---------------------------------------------------------------------------
  // quick cash
  // ---------------------------------------------------------------------------

  /** The banknotes the suggestions round up to: 100, 200, 500 and 1000 pesos. */
  const CashSteps: seq<int> := [10000, 20000, 50000, 100000]

  /** The amounts added to the total for the other suggestions: 100, 200 and 500 pesos. */
  const PlusSteps: seq<int> := [10000, 20000, 50000]

  predicate Distinct(s: seq<int>) {
    forall i, j :: 0 <= i < j < |s| ==> s[i] != s[j]
  }

  predicate Ascending(s: seq<int>) {
    forall i, j :: 0 <= i < j < |s| ==> s[i] <= s[j]
  }

  /** Passes the filter's bound: above `lo`, or anything when there is no bound. */
  predicate Above(v: int, lo: Option<int>) {
    lo.None? || v > lo.value
  }

  /** `arr.indexOf(x)`: the position of the first occurrence of `x`. */
  function IndexOf(arr: seq<int>, x: int): (k: nat)
    requires x in arr
    ensures k < |arr| && arr[k] == x
    ensures forall j :: 0 <= j < k ==> arr[j] != x
  {
    if arr[0] == x then 0
    else
      assert arr == [arr[0]] + arr[1..];
      1 + IndexOf(arr[1..], x)
  }

  /** Appending an element moves no first occurrence, and a new element first occurs at the end. */
  lemma IndexOfSnoc(init: seq<int>, last: int)
    ensures forall x :: x in init ==> IndexOf(init + [last], x) == IndexOf(init, x)
    ensures last !in init ==> IndexOf(init + [last], last) == |init|
  {
    var arr := init + [last];
    forall x | x in init
      ensures IndexOf(arr, x) == IndexOf(init, x)
    {
      assert arr[IndexOf(init, x)] == x;
    }
  }

  /** `filter((v, i, arr) => v > lo && arr.indexOf(v) === i)`, or without the bound when
      `lo` is `None`: the elements above the bound, each once, in the order of their first
      occurrences. */
  function KeepFirst(arr: seq<int>, lo: Option<int>): (r: seq<int>)
    ensures forall x :: x in r <==> x in arr && Above(x, lo)
    ensures Distinct(r)
  {
    if arr == [] then []
    else
      var init, last := arr[..|arr| - 1], arr[|arr| - 1];
      assert arr == init + [last];
      KeepFirst(init, lo) + (if Above(last, lo) && last !in init then [last] else [])
  }

  /** The kept elements come in the order of their first occurrences in `arr`. */
  lemma {:induction false} KeepFirstOrder(arr: seq<int>, lo: Option<int>)
    ensures forall i, j :: 0 <= i < j < |KeepFirst(arr, lo)| ==>
      IndexOf(arr, KeepFirst(arr, lo)[i]) < IndexOf(arr, KeepFirst(arr, lo)[j])
  {
    if arr != [] {
      var init, last := arr[..|arr| - 1], arr[|arr| - 1];
      assert arr == init + [last];
      KeepFirstOrder(init, lo);
      IndexOfSnoc(init, last);
    }
  }

  /** `slice(0, n)`. */
  function Take(s: seq<int>, n: nat): (r: seq<int>)
    ensures |r| == if n < |s| then n else |s|
    ensures forall i :: 0 <= i < |r| ==> r[i] == s[i]
  {
    if n < |s| then s[..n] else s
  }

  /** `x` put before the first element it does not exceed. */
  function Insert(x: int, s: seq<int>): seq<int> {
    if s == [] || x <= s[0] then [x] + s
    else [s[0]] + Insert(x, s[1..])
  }

  /** Inserting adds exactly `x`. */
  lemma {:induction false} InsertAdds(x: int, s: seq<int>)
    ensures multiset(Insert(x, s)) == multiset(s) + multiset{x}
  {
    if s != [] && x > s[0] {
      assert s == [s[0]] + s[1..];
      InsertAdds(x, s[1..]);
    }
  }

  /** Inserting into an ascending sequence keeps it ascending. */
  lemma {:induction false} InsertSorted(x: int, s: seq<int>)
    requires Ascending(s)
    ensures Ascending(Insert(x, s))
  {
    if s != [] && x > s[0] {
      var t := Insert(x, s[1..]);
      assert forall i :: 0 <= i < |t| ==> s[0] <= t[i] by {
        InsertAdds(x, s[1..]);
        forall i | 0 <= i < |t|
          ensures s[0] <= t[i]
        {
          assert t[i] in multiset(s[1..]) + multiset{x};
          if t[i] != x {
            assert t[i] in s[1..];
          }
        }
      }
      assert Ascending(t) by { InsertSorted(x, s[1..]); }
    }
  }

  /** `sort((a, b) => a - b)`: the same elements in ascending order. */
  function SortAscending(s: seq<int>): (r: seq<int>)
    ensures Ascending(r)
    ensures multiset(r) == multiset(s)
  {
    if s == [] then []
    else
      assert s == s[..|s| - 1] + [s[|s| - 1]];
      InsertSorted(s[|s| - 1], SortAscending(s[..|s| - 1]));
      InsertAdds(s[|s| - 1], SortAscending(s[..|s| - 1]));
      Insert(s[|s| - 1], SortAscending(s[..|s| - 1]))
  }

  /** `steps.map((s) => roundUp(total, s))`: for each banknote, the least multiple of it
      that is at least the total. */
  function Rounded(total: int): (r: seq<int>)
    ensures |r| == |CashSteps|
    ensures forall i :: 0 <= i < |r| ==> r[i] % CashSteps[i] == 0 && total <= r[i] < total + CashSteps[i]
  {
    seq(|CashSteps|, i requires 0 <= i < |CashSteps| => RoundUp(total, CashSteps[i]))
  }

  /** The round-ups above the total, without repeats, at most three. */
  function RoundedTargets(total: int): seq<int> {
    Take(KeepFirst(Rounded(total), Some(total)), 3)
  }

  /** `[100, 200, 500].map((d) => total + d)`: three amounts above the total, ascending. */
  function Plus(total: int): (r: seq<int>)
    ensures |r| == |PlusSteps|
    ensures forall i :: 0 <= i < |r| ==> r[i] > total
    ensures forall i, j :: 0 <= i < j < |r| ==> r[i] < r[j]
  {
    seq(|PlusSteps|, i requires 0 <= i < |PlusSteps| => total + PlusSteps[i])
  }

  /** The total plus 100 and plus 200 pesos. */
  function PlusTargets(total: int): seq<int> {
    Take(KeepFirst(Plus(total), None), 2)
  }

  /** `quickCashOptions` for a cart total: no suggestion for a total that is not positive;
      otherwise the round-up and plus targets together, without repeats, ascending, at
      most four. */
  function QuickCashOptions(total: int): seq<int> {
    if total <= 0 then []
    else Take(SortAscending(KeepFirst(RoundedTargets(total) + PlusTargets(total), None)), 4)
  }

  /** Repeats survive sorting: a permutation of a sequence without repeats has none. */
  lemma {:induction false} DistinctCount(s: seq<int>, x: int)
    requires Distinct(s)
    ensures multiset(s)[x] <= 1
  {
    if s != [] {
      var init := s[..|s| - 1];
      assert s == init + [s[|s| - 1]];
      assert Distinct(init);
      DistinctCount(init, x);
      if s[|s| - 1] == x {
        assert x !in init;
      }
    }
  }

  lemma RepeatCount(s: seq<int>, i: nat, j: nat)
    requires i < j < |s| && s[i] == s[j]
    ensures multiset(s)[s[i]] >= 2
  {
    assert s == s[..i] + [s[i]] + s[i + 1..j] + [s[j]] + s[j + 1..];
  }

  lemma SortedDistinct(s: seq<int>)
    requires Distinct(s)
    ensures Distinct(SortAscending(s))
  {
    var r := SortAscending(s);
    forall i, j | 0 <= i < j < |r|
      ensures r[i] != r[j]
    {
      if r[i] == r[j] {
        RepeatCount(r, i, j);
        DistinctCount(s, r[i]);
      }
    }
  }

  /** Sorting keeps every element above a bound. */
  lemma SortedAbove(s: seq<int>, lo: int)
    requires forall x :: x in s ==> x > lo
    ensures forall i :: 0 <= i < |SortAscending(s)| ==> SortAscending(s)[i] > lo
  {
    var r := SortAscending(s);
    forall i | 0 <= i < |r|
      ensures r[i] > lo
    {
      assert r[i] in multiset(r);
      assert r[i] in multiset(s);
      assert r[i] in s;
    }
  }

  /** What the quick-cash suggestions promise: none for a total that is not positive;
      otherwise every suggestion is above the total (so it is a tender with change), none
      repeats, they ascend, and there are at most four. */
  lemma QuickCashOptionsShape(total: int)
    ensures total <= 0 ==> QuickCashOptions(total) == []
    ensures forall i :: 0 <= i < |QuickCashOptions(total)| ==> QuickCashOptions(total)[i] > total
    ensures forall i, j :: 0 <= i < j < |QuickCashOptions(total)| ==>
              QuickCashOptions(total)[i] < QuickCashOptions(total)[j]
    ensures |QuickCashOptions(total)| <= 4
  {
    if total > 0 {
      var above := KeepFirst(Rounded(total), Some(total));
      var roundedTargets := RoundedTargets(total);
      var plusTargets := PlusTargets(total);
      var all := KeepFirst(roundedTargets + plusTargets, None);
      forall i | 0 <= i < |roundedTargets|
        ensures roundedTargets[i] > total
      {
        assert roundedTargets[i] == above[i];
        assert above[i] in above;
      }
      forall x | x in all
        ensures x > total
      {
        assert x in roundedTargets + plusTargets;
      }
      var sorted := SortAscending(all);
      SortedDistinct(all);
      SortedAbove(all, total);
      assert QuickCashOptions(total) == Take(sorted, 4);
    }
  }

  /** Without repeats and with every element past the bound, the filter keeps everything. */
  lemma {:induction false} KeepFirstAll(arr: seq<int>, lo: Option<int>)
    requires Distinct(arr) && forall i :: 0 <= i < |arr| ==> Above(arr[i], lo)
    ensures KeepFirst(arr, lo) == arr
  {
    if arr != [] {
      var init, last := arr[..|arr| - 1], arr[|arr| - 1];
      assert forall i :: 0 <= i < |init| ==> init[i] == arr[i];
      assert arr == init + [last];
      assert KeepFirst(init, lo) == init by { KeepFirstAll(init, lo); }
      assert last !in init by {
        assert forall i :: 0 <= i < |init| ==> init[i] != last;
      }
      assert Above(last, lo);
    }
  }

  /** There is only one ascending arrangement of a multiset. */
  lemma {:induction false} AscendingUnique(a: seq<int>, b: seq<int>)
    requires Ascending(a) && Ascending(b) && multiset(a) == multiset(b)
    ensures a == b
  {
    if a != [] {
      SameHead(a, b);
      assert multiset(a[1..]) == multiset(b[1..]) by { DropHead(a); DropHead(b); }
      AscendingUnique(a[1..], b[1..]);
      assert a == [a[0]] + a[1..] && b == [b[0]] + b[1..];
    } else {
      assert |multiset(b)| == 0;
    }
  }

  /** Two ascending arrangements of one multiset start alike. */
  lemma SameHead(a: seq<int>, b: seq<int>)
    requires Ascending(a) && Ascending(b) && multiset(a) == multiset(b) && a != []
    ensures b != [] && a[0] == b[0]
  {
    assert a[0] in multiset(b);
    assert b[0] in multiset(a);
  }

  lemma DropHead(a: seq<int>)
    requires a != []
    ensures multiset(a[1..]) == multiset(a) - multiset{a[0]}
  {
    assert a == [a[0]] + a[1..];
  }

  /** For 350 pesos the round-ups are 400, 400, 500 and 1000 pesos; the filter keeps
      three of them. */
  lemma ExampleRoundedTargets(total: int)
    requires total == 35000
    ensures RoundedTargets(total) == [40000, 50000, 100000]
  {
    ExampleRounded(total);
    ExampleKeepFirst(total);
  }

  lemma ExampleRounded(total: int)
    requires total == 35000
    ensures Rounded(total) == [40000, 40000, 50000, 100000]
  {
    RoundUpIs(total, CashSteps[0], 40000);
    RoundUpIs(total, CashSteps[1], 40000);
    RoundUpIs(total, CashSteps[2], 50000);
    RoundUpIs(total, CashSteps[3], 100000);
  }

  /** The filter drops the repeated 400 pesos and keeps the rest. */
  lemma ExampleKeepFirst(total: int)
    requires total == 35000
    ensures KeepFirst([40000, 40000, 50000, 100000], Some(total)) == [40000, 50000, 100000]
  {
    KeepFirstRepeatedHead(40000, 50000, 100000, Some(total));
  }

  /** Four candidates above the bound whose first two are equal and the rest new: the
      filter drops the second. */
  lemma KeepFirstRepeatedHead(a: int, c: int, d: int, lo: Option<int>)
    requires Above(a, lo) && Above(c, lo) && Above(d, lo)
    requires a != c && a != d && c != d
    ensures KeepFirst([a, a, c, d], lo) == [a, c, d]
  {
    assert [a, a, c, d][..3] == [a, a, c];
    KeepFirstRepeatedPair(a, c, lo);
  }

  lemma KeepFirstRepeatedPair(a: int, c: int, lo: Option<int>)
    requires Above(a, lo) && Above(c, lo) && a != c
    ensures KeepFirst([a, a, c], lo) == [a, c]
  {
    assert [a, a, c][..2] == [a, a];
    KeepFirstRepeated(a, lo);
  }

  lemma KeepFirstRepeated(a: int, lo: Option<int>)
    requires Above(a, lo)
    ensures KeepFirst([a, a], lo) == [a]
  {
    assert [a, a][..1] == [a] && [a][..0] == [];
    assert KeepFirst([a], lo) == [a];
  }

  /** For every total, the plus targets are the total plus 100 and plus 200 pesos: the
      filter drops nothing, and the slice keeps the first two. */
  lemma PlusTargetsAre(total: int)
    ensures PlusTargets(total) == [total + 10000, total + 20000]
  {
    KeepFirstAll(Plus(total), None);
  }

  /** For 350 pesos the plus targets are 450 and 550 pesos. */
  lemma ExamplePlusTargets(total: int)
    requires total == 35000
    ensures PlusTargets(total) == [45000, 55000]
  {
    assert Plus(total) == [45000, 55000, 85000];
    KeepFirstAll(Plus(total), None);
  }

  /** The last two stages of the pipeline on candidates without repeats: the four
      smallest, ascending. */
  lemma SortedCandidates(both: seq<int>, want: seq<int>)
    requires Distinct(both) && Ascending(want) && multiset(want) == multiset(both) && |want| >= 4
    ensures Take(SortAscending(KeepFirst(both, None)), 4) == want[..4]
  {
    assert KeepFirst(both, None) == both by { KeepFirstAll(both, None); }
    assert SortAscending(both) == want by { SortsTo(both, want); }
  }

  /** `both` lists the candidates for `total`, without repeats, and `want` is the same
      numbers in ascending order, at least four of them. */
  predicate CandidatesSortTo(total: int, both: seq<int>, want: seq<int>) {
    && total > 0
    && RoundedTargets(total) + PlusTargets(total) == both
    && Distinct(both) && Ascending(want) && multiset(both) == multiset(want) && |want| >= 4
  }

  /** When the candidates are known and without repeats, the suggestions are the first
      four of them in ascending order. */
  lemma OptionsFromTargets(total: int, both: seq<int>, want: seq<int>)
    requires CandidatesSortTo(total, both, want)
    ensures QuickCashOptions(total) == want[..4]
  {
    SortedCandidates(both, want);
  }

  /** The candidates for 350 pesos: the three round-ups, then the two plus targets, which
      sort to 400, 450, 500, 550 and 1000 pesos. */
  lemma ExampleCandidates(total: int)
    requires total == 35000
    ensures CandidatesSortTo(total, [40000, 50000, 100000, 45000, 55000], [40000, 45000, 50000, 55000, 100000])
  {
    ExampleRoundedTargets(total);
    ExamplePlusTargets(total);
    assert [40000, 50000, 100000] + [45000, 55000] == [40000, 50000, 100000, 45000, 55000];
    ExampleDistinct();
    ExampleAscending();
    ExampleSameNumbers();
  }

  lemma ExampleDistinct()
    ensures Distinct([40000, 50000, 100000, 45000, 55000])
  {
  }

  lemma ExampleAscending()
    ensures Ascending([40000, 45000, 50000, 55000, 100000])
  {
  }

  lemma ExampleSameNumbers()
    ensures multiset([40000, 50000, 100000, 45000, 55000]) == multiset([40000, 45000, 50000, 55000, 100000])
  {
  }

  /** A total of 350 pesos is offered 400, 450, 500 and 550 pesos. */
  lemma QuickCashExample(total: int)
    requires total == 35000
    ensures QuickCashOptions(total) == [40000, 45000, 50000, 55000]
  {
    var want := [40000, 45000, 50000, 55000, 100000];
    assert want[..4] == [40000, 45000, 50000, 55000];
    ExampleCandidates(total);
    OptionsFromTargets(total, [40000, 50000, 100000, 45000, 55000], want);
  }

  /** Sorting gives the one ascending arrangement of the same elements. */
  lemma SortsTo(s: seq<int>, want: seq<int>)
    requires Ascending(want) && multiset(want) == multiset(s)
    ensures SortAscending(s) == want
  {
    AscendingUnique(SortAscending(s), want);
  }

  // ---------------------------------------------------------------------------
  // the payment form
  // ---------------------------------------------------------------------------

  /** The payment fields of the order form; an unset amount is `None`. */
  class PaymentForm {
    var paymentMethod: PaymentMethod
    var amountPaid: Option<int>
    var paymentReference: string

    constructor(paymentMethod: PaymentMethod, amountPaid: Option<int>, paymentReference: string)
      ensures this.paymentMethod == paymentMethod && this.amountPaid == amountPaid
      ensures this.paymentReference == paymentReference
    {
      this.paymentMethod := paymentMethod;
      this.amountPaid := amountPaid;
      this.paymentReference := paymentReference;
    }

    /** `changeDue` on the form's current fields; an unset amount counts as nothing paid. */
    function Change(cartTotal: int): int
      reads this
    {
      ChangeDue(paymentMethod, amountPaid.GetOr(0), cartTotal)
    }

    /** `setExactAmount` (usePosPayment.ts:30-32): the amount paid becomes the total, so a
        cash payment leaves no change. */
    method SetExactAmount(cartTotal: int)
      modifies this
      ensures amountPaid == Some(cartTotal)
      ensures paymentMethod == old(paymentMethod) && paymentReference == old(paymentReference)
      ensures Change(cartTotal) == 0
    {
      amountPaid := Some(cartTotal);
    }

    /** `addCash` (usePosPayment.ts:35-38): the amount paid, taken as 0 when unset, grows by
        `delta`. */
    method AddCash(delta: int)
      modifies this
      ensures amountPaid == Some(old(amountPaid).GetOr(0) + delta)
      ensures paymentMethod == old(paymentMethod) && paymentReference == old(paymentReference)
    {
      var current := amountPaid.GetOr(0);
      amountPaid := Some(current + delta);
    }

    /** A change of payment method followed by the watcher (usePosPayment.ts:69-82):
        switching to cash clears the reference; switching to GCash sets the amount paid to
        the total and clears the reference; choosing the same method again changes nothing. */
    method SwitchMethod(newMethod: PaymentMethod, cartTotal: int)
      modifies this
      ensures paymentMethod == newMethod
      ensures old(paymentMethod) == newMethod ==>
                amountPaid == old(amountPaid) && paymentReference == old(paymentReference)
      ensures old(paymentMethod) == GCash && newMethod == Cash ==>
                paymentReference == "" && amountPaid == old(amountPaid)
      ensures old(paymentMethod) == Cash && newMethod == GCash ==>
                paymentReference == "" && amountPaid == Some(cartTotal) && Change(cartTotal) == 0
    {
      var oldMethod := paymentMethod;
      paymentMethod := newMethod;
      if newMethod == Cash && oldMethod == GCash {
        paymentReference := "";
      } else if newMethod == GCash && oldMethod == Cash {
        amountPaid := Some(cartTotal);
        paymentReference := "";
      }
    }
  }
}
