/** The two payout selectors of src/maximize-payout.service.ts: a greedy
    subset-sum selector that sorts its input in place, and an exact 0/1
    knapsack (each payment's value is its amount) solved by a table. */
module MaximizePayout {
  import opened PayoutOrder
  import opened Seqs

  /** `{ totalPayout, selectedPayments }`. */
  datatype Selection = Selection(totalPayout: int, selectedPayments: seq<Item>)

  predicate NonNegative(s: seq<Item>)
  {
    forall k :: 0 <= k < |s| ==> s[k].amount >= 0
  }

  predicate Positive(s: seq<Item>)
  {
    forall k :: 0 <= k < |s| ==> s[k].amount > 0
  }

  // ---------------------------------------------------------------------
  // Greedy selector

  /** The scan of the greedy selector over an already sorted list: walk the
      list in order and take every payment that still fits. */
  function Greedy(capacity: int, s: seq<Item>): Selection
    decreases |s|
  {
    if s == [] then Selection(0, [])
    else
      var prev := Greedy(capacity, s[..|s| - 1]);
      var x := s[|s| - 1];
      if prev.totalPayout + x.amount <= capacity
      then Selection(prev.totalPayout + x.amount, prev.selectedPayments + [x])
      else prev
  }

  /** The reported total is the sum of the reported payments. */
  lemma {:induction false} GreedySum(capacity: int, s: seq<Item>)
    ensures Greedy(capacity, s).totalPayout == Sum(Greedy(capacity, s).selectedPayments)
    decreases |s|
  {
    if s != [] {
      var prev := Greedy(capacity, s[..|s| - 1]);
      GreedySum(capacity, s[..|s| - 1]);
      var sel := prev.selectedPayments + [s[|s| - 1]];
      assert sel[..|sel| - 1] == prev.selectedPayments;
    }
  }

  /** A non-negative capacity is never exceeded. */
  lemma {:induction false} GreedyWithinCapacity(capacity: int, s: seq<Item>)
    requires capacity >= 0
    ensures Greedy(capacity, s).totalPayout <= capacity
    decreases |s|
  {
    if s != [] {
      GreedyWithinCapacity(capacity, s[..|s| - 1]);
    }
  }

  /** The selection keeps the scanned order and takes each payment at most once. */
  lemma {:induction false} GreedySubsequence(capacity: int, s: seq<Item>)
    ensures IsSubsequence(Greedy(capacity, s).selectedPayments, s)
    decreases |s|
  {
    if s != [] {
      var prev := Greedy(capacity, s[..|s| - 1]);
      GreedySubsequence(capacity, s[..|s| - 1]);
      var sel := prev.selectedPayments + [s[|s| - 1]];
      assert sel[..|sel| - 1] == prev.selectedPayments;
    }
  }

  /** When the whole list fits (and no amount is negative), everything is
      taken, in order. */
  lemma {:induction false} GreedyTakesAllThatFits(capacity: int, s: seq<Item>)
    requires NonNegative(s) && Sum(s) <= capacity
    ensures Greedy(capacity, s) == Selection(Sum(s), s)
    decreases |s|
  {
    if s != [] {
      var s' := s[..|s| - 1];
      assert Sum(s') <= Sum(s);
      GreedyTakesAllThatFits(capacity, s');
      assert s' + [s[|s| - 1]] == s;
    }
  }

  /** When every amount exceeds a non-negative capacity, nothing is taken. */
  lemma {:induction false} GreedyNothingFits(capacity: int, s: seq<Item>)
    requires capacity >= 0
    requires forall k :: 0 <= k < |s| ==> s[k].amount > capacity
    ensures Greedy(capacity, s) == Selection(0, [])
    decreases |s|
  {
    if s != [] {
      GreedyNothingFits(capacity, s[..|s| - 1]);
    }
  }

  /** Exchanges two neighbouring payments. */
  method SwapAdjacent(a: array<Item>, j: nat)
    requires 0 < j < a.Length
    modifies a
    ensures a[..] == old(a[..])[j - 1 := old(a[j])][j := old(a[j - 1])]
    ensures multiset(a[..]) == multiset(old(a[..]))
  {
    a[j - 1], a[j] := a[j], a[j - 1];
  }

  /** Moves `a[i]` left past every payment it goes before, so that the
      sorted prefix `a[..i]` grows to `a[..i + 1]`. */
  method InsertInto(a: array<Item>, i: nat)
    requires i < a.Length && Sorted(a[..i])
    modifies a
    ensures Sorted(a[..i + 1])
    ensures multiset(a[..i + 1]) == multiset(old(a[..i + 1]))
    ensures a[i + 1..] == old(a[i + 1..])
    ensures multiset(a[..]) == multiset(old(a[..]))
  {
    var j := SinkLeft(a, i);
    SunkIsSorted(a[..], i, j);
    PrefixMultiset(a[..], old(a[..]), i + 1);
  }

  /** The swapping loop of `InsertInto`: `a[i]` moves left to position `j`,
      where it no longer goes before its left neighbour. */
  method SinkLeft(a: array<Item>, i: nat) returns (j: nat)
    requires i < a.Length && Sorted(a[..i])
    modifies a
    ensures j <= i
    ensures multiset(a[..]) == multiset(old(a[..]))
    ensures a[i + 1..] == old(a[i + 1..])
    ensures forall p, q :: 0 <= p < q <= i && p != j && q != j ==> InOrder(a[p], a[q])
    ensures forall q :: j < q <= i ==> Before(a[j], a[q])
    ensures j == 0 || !Before(a[j], a[j - 1])
  {
    j := i;
    while 0 < j && Before(a[j], a[j - 1])
      invariant 0 <= j <= i
      invariant multiset(a[..]) == multiset(old(a[..]))
      invariant a[i + 1..] == old(a[i + 1..])
      invariant forall p, q :: 0 <= p < q <= i && p != j && q != j ==> InOrder(a[p], a[q])
      invariant forall q :: j < q <= i ==> Before(a[j], a[q])
    {
      SwapAdjacent(a, j);
      j := j - 1;
    }
  }

  /** Once `s[j]` stops before its left neighbour and goes before everything
      to its right up to `i`, the prefix `s[..i + 1]` is sorted. */
  lemma SunkIsSorted(s: seq<Item>, i: nat, j: nat)
    requires j <= i < |s|
    requires forall p, q :: 0 <= p < q <= i && p != j && q != j ==> InOrder(s[p], s[q])
    requires forall q :: j < q <= i ==> Before(s[j], s[q])
    requires j == 0 || !Before(s[j], s[j - 1])
    ensures Sorted(s[..i + 1])
  {
    forall p, q | 0 <= p < q <= i ensures InOrder(s[p], s[q]) {
      if q == j && p < j - 1 {
        InOrderTransitive(s[p], s[j - 1], s[j]);
      } else if p == j {
        BeforeAsymmetric(s[j], s[q]);
      }
    }
  }

  /** Step 1 of the greedy selector: `payments.sort(...)` in place, amounts
      descending and ties by ascending id. The result is the unique sorted
      permutation of the input. */
  method SortPayments(a: array<Item>)
    modifies a
    ensures Sorted(a[..])
    ensures multiset(a[..]) == multiset(old(a[..]))
    ensures a[..] == SortItems(old(a[..]))
  {
    var i := 0;
    while i < a.Length
      invariant 0 <= i <= a.Length
      invariant Sorted(a[..i])
      invariant multiset(a[..]) == multiset(old(a[..]))
    {
      InsertInto(a, i);
      i := i + 1;
    }
    assert a[..] == a[..a.Length];
    SortItemsCorrect(old(a[..]));
    SortedUnique(a[..], SortItems(old(a[..])));
  }

  /** The loop of `maximizePayout`: walks the sorted array once and takes
      every payment that still fits under `capacity`. */
  method ScanPayments(capacity: int, payments: array<Item>) returns (r: Selection)
    ensures r == Greedy(capacity, payments[..])
  {
    var selectedPayments: seq<Item> := [];
    var totalPayout := 0;
    for i := 0 to payments.Length
      invariant Selection(totalPayout, selectedPayments) == Greedy(capacity, payments[..i])
    {
      var payment := payments[i];
      assert payments[..i + 1][..i] == payments[..i];
      if totalPayout + payment.amount <= capacity {
        selectedPayments := selectedPayments + [payment];
        totalPayout := totalPayout + payment.amount;
      }
    }
    assert payments[..payments.Length] == payments[..];
    r := Selection(totalPayout, selectedPayments);
  }

  /** `maximizePayout`: sorts `payments` in place, then scans it and takes
      every payment that still fits under `capacity`. */
  method MaximizePayout(capacity: int, payments: array<Item>) returns (r: Selection)
    modifies payments
    ensures payments[..] == SortItems(old(payments[..]))
    ensures Sorted(payments[..]) && multiset(payments[..]) == multiset(old(payments[..]))
    ensures r == Greedy(capacity, payments[..])
    ensures r.totalPayout == Sum(r.selectedPayments)
    ensures capacity >= 0 ==> r.totalPayout <= capacity
    ensures IsSubsequence(r.selectedPayments, payments[..])
  {
    SortPayments(payments);
    r := ScanPayments(capacity, payments);
    GreedySum(capacity, payments[..]);
    if capacity >= 0 {
      GreedyWithinCapacity(capacity, payments[..]);
    }
    GreedySubsequence(capacity, payments[..]);
  }

  // ---------------------------------------------------------------------
  // Exact selector

  function Max(a: int, b: int): int { if a >= b then a else b }

  /** `dp[i][j]`: the best total of a subset of the first `i` payments that
      stays within `j`, following the table recurrence. */
  function Best(s: seq<Item>, i: nat, j: nat): (r: nat)
    requires i <= |s| && NonNegative(s)
    ensures r <= j
  {
    if i == 0 then 0
    else
      var w := s[i - 1].amount;
      if w <= j then Max(Best(s, i - 1, j), Best(s, i - 1, j - w) + w)
      else Best(s, i - 1, j)
  }

  /** Removing one element takes its amount off the sum. */
  lemma SumRemove(t: seq<Item>, k: nat)
    requires k < |t|
    ensures Sum(t) == Sum(t[..k] + t[k + 1..]) + t[k].amount
  {
    var a, x, b := t[..k], t[k], t[k + 1..];
    SplitAround(t, k);
    SumConcat(a + [x], b);
    SumSnoc(a, x);
    SumConcat(a, b);
  }

  lemma SumSnoc(a: seq<Item>, x: Item)
    ensures Sum(a + [x]) == Sum(a) + x.amount
  {
    assert (a + [x])[..|a|] == a;
  }

  lemma {:induction false} SumNonNegative(t: seq<Item>)
    requires NonNegative(t)
    ensures Sum(t) >= 0
    decreases |t|
  {
    if t != [] {
      SumNonNegative(t[..|t| - 1]);
    }
  }

  /** Payments with positive amounts add up to zero only when there are none. */
  lemma {:induction false} SumPositive(t: seq<Item>)
    requires Positive(t)
    ensures Sum(t) >= 0
    ensures Sum(t) == 0 <==> t == []
    decreases |t|
  {
    if t != [] {
      SumPositive(t[..|t| - 1]);
    }
  }

  /** Every element of a sub-collection of a non-negative list is non-negative. */
  lemma SubMultisetNonNegative(t: seq<Item>, s: seq<Item>)
    requires multiset(t) <= multiset(s) && NonNegative(s)
    ensures NonNegative(t)
  {
    forall k | 0 <= k < |t| ensures t[k].amount >= 0 {
      assert t[k] in multiset(s);
    }
  }

  /** The table entry is optimal: every collection of payments drawn from the
      first `i` (each at most as often as it occurs) whose sum fits in `j`
      sums to at most `dp[i][j]`. */
  lemma {:induction false} BestOptimal(s: seq<Item>, i: nat, j: nat, t: seq<Item>)
    requires i <= |s| && NonNegative(s)
    requires multiset(t) <= multiset(s[..i]) && Sum(t) <= j
    ensures Sum(t) <= Best(s, i, j)
    decreases i
  {
    if i == 0 {
      assert |t| == |multiset(t)| == 0;
    } else {
      var x := s[i - 1];
      assert s[..i] == s[..i - 1] + [x];
      assert multiset(s[..i]) == multiset(s[..i - 1]) + multiset{x};
      if x in multiset(t) {
        BestOptimalTaking(s, i, j, t);
      } else {
        assert multiset(t) <= multiset(s[..i - 1]) by {
          forall y | y in multiset(t) ensures multiset(t)[y] <= multiset(s[..i - 1])[y] {
            assert y != x;
          }
        }
        BestOptimal(s, i - 1, j, t);
      }
    }
  }

  /** Deleting one occurrence of `x` from a sub-collection of `a + [x]`
      leaves a sub-collection of `a`. */
  lemma RemoveAtSubMultiset(t: seq<Item>, k: nat, a: seq<Item>, x: Item)
    requires k < |t| && t[k] == x
    requires multiset(t) <= multiset(a + [x])
    ensures multiset(t[..k] + t[k + 1..]) <= multiset(a)
  {
    SplitAround(t, k);
    var t' := t[..k] + t[k + 1..];
    assert multiset(t) == multiset(t') + multiset{x};
    assert multiset(a + [x]) == multiset(a) + multiset{x};
    forall y ensures multiset(t')[y] <= multiset(a)[y] {
      assert multiset(t)[y] <= multiset(a + [x])[y];
    }
  }

  /** The case of `BestOptimal` where the collection uses payment `i - 1`. */
  lemma {:induction false} BestOptimalTaking(s: seq<Item>, i: nat, j: nat, t: seq<Item>)
    requires 0 < i <= |s| && NonNegative(s)
    requires multiset(t) <= multiset(s[..i]) && Sum(t) <= j
    requires s[i - 1] in multiset(t)
    ensures Sum(t) <= Best(s, i, j)
    decreases i, 0
  {
    var x := s[i - 1];
    assert x in t;
    var k :| 0 <= k < |t| && t[k] == x;
    var t' := t[..k] + t[k + 1..];
    SumRemove(t, k);
    assert s[..i] == s[..i - 1] + [x];
    RemoveAtSubMultiset(t, k, s[..i - 1], x);
    SubMultisetNonNegative(t', s[..i - 1]);
    SumNonNegative(t');
    assert x.amount <= j;
    BestOptimal(s, i - 1, j - x.amount, t');
    BestTaking(s, i, j);
  }

  /** Taking payment `i - 1` when it fits is one of the options `dp[i][j]` weighs. */
  lemma BestTaking(s: seq<Item>, i: nat, j: nat)
    requires 0 < i <= |s| && NonNegative(s) && s[i - 1].amount <= j
    ensures Best(s, i - 1, j - s[i - 1].amount) + s[i - 1].amount <= Best(s, i, j)
  {
  }

  /** Where `dp[i][j]` differs from `dp[i - 1][j]`, payment `i - 1` fits in `j`
      and the entry was reached by taking it. */
  lemma BestTaken(s: seq<Item>, i: nat, j: nat)
    requires 0 < i <= |s| && NonNegative(s)
    requires Best(s, i, j) != Best(s, i - 1, j)
    ensures s[i - 1].amount <= j
    ensures Best(s, i, j) == Best(s, i - 1, j - s[i - 1].amount) + s[i - 1].amount
  {
  }

  /** One row of the table: `dp[i][j]` for every `j` from `dp[i - 1]`. */
  method FillRow(payments: seq<Item>, capacity: nat, dp: array2<int>, i: nat)
    requires NonNegative(payments) && 1 <= i <= |payments|
    requires dp.Length0 == |payments| + 1 && dp.Length1 == capacity + 1
    requires forall i', j' {:trigger dp[i', j']} :: 0 <= i' < i && 0 <= j' <= capacity ==> dp[i', j'] == Best(payments, i', j')
    modifies dp
    ensures forall i', j' {:trigger dp[i', j']} :: 0 <= i' <= i && 0 <= j' <= capacity ==> dp[i', j'] == Best(payments, i', j')
    ensures forall i', j' {:trigger dp[i', j']} :: i < i' < dp.Length0 && 0 <= j' < dp.Length1 ==> dp[i', j'] == old(dp[i', j'])
  {
    for j := 0 to capacity + 1
      invariant forall i', j' {:trigger dp[i', j']} :: i < i' < dp.Length0 && 0 <= j' < dp.Length1 ==> dp[i', j'] == old(dp[i', j'])
      invariant forall i', j' {:trigger dp[i', j']} :: 0 <= i' < i && 0 <= j' <= capacity ==> dp[i', j'] == Best(payments, i', j')
      invariant forall j' {:trigger dp[i, j']} :: 0 <= j' < j ==> dp[i, j'] == Best(payments, i, j')
    {
      var currentPayment := payments[i - 1].amount;
      var entry;
      if currentPayment <= j {
        entry := Max(dp[i - 1, j], dp[i - 1, j - currentPayment] + currentPayment);
      } else {
        entry := dp[i - 1, j];
      }
      assert entry == Best(payments, i, j);
      dp[i, j] := entry;
    }
  }

  /** The backtracking loop of `maximizePayoutDP` over a filled table. */
  method Backtrack(payments: seq<Item>, capacity: nat, dp: array2<int>) returns (selectedPayments: seq<Item>)
    requires NonNegative(payments)
    requires dp.Length0 == |payments| + 1 && dp.Length1 == capacity + 1
    requires forall i', j' {:trigger dp[i', j']} :: 0 <= i' <= |payments| && 0 <= j' <= capacity ==> dp[i', j'] == Best(payments, i', j')
    ensures Sum(selectedPayments) == Best(payments, |payments|, capacity)
    ensures IsSubsequence(Reversed(selectedPayments), payments)
  {
    var n := |payments|;
    selectedPayments := [];
    var remainingCapacity := capacity;
    var i := n;
    while i > 0
      invariant 0 <= i <= n && 0 <= remainingCapacity <= capacity
      invariant Sum(selectedPayments) + Best(payments, i, remainingCapacity) == Best(payments, n, capacity)
      invariant IsSubsequence(Reversed(selectedPayments), payments[i..])
    {
      var x := payments[i - 1];
      assert payments[i - 1..] == [x] + payments[i..];
      if dp[i, remainingCapacity] != dp[i - 1, remainingCapacity] {
        BestTaken(payments, i, remainingCapacity);
        assert Reversed(selectedPayments + [x]) == [x] + Reversed(selectedPayments);
        SubsequenceConsBoth(x, Reversed(selectedPayments), payments[i..]);
        assert (selectedPayments + [x])[..|selectedPayments|] == selectedPayments;
        selectedPayments := selectedPayments + [x];
        remainingCapacity := remainingCapacity - x.amount;
      } else {
        SubsequenceConsRight(x, Reversed(selectedPayments), payments[i..]);
      }
      i := i - 1;
    }
    assert payments[0..] == payments;
  }

  /** `maximizePayoutDP`: the exact selector. Fills the table, reports
      `dp[n][capacity]` and backtracks from it. The input is not sorted; the
      chosen payments come out in reverse input order. */
  method MaximizePayoutDP(capacity: nat, payments: seq<Item>) returns (r: Selection)
    requires NonNegative(payments)
    ensures r.totalPayout == Best(payments, |payments|, capacity)
    ensures 0 <= r.totalPayout <= capacity
    ensures Sum(r.selectedPayments) == r.totalPayout
    ensures IsSubsequence(Reversed(r.selectedPayments), payments)
    ensures multiset(r.selectedPayments) <= multiset(payments)
    ensures forall t :: multiset(t) <= multiset(payments) && Sum(t) <= capacity ==> Sum(t) <= r.totalPayout
    ensures Positive(payments) ==> (r.selectedPayments == [] <==> r.totalPayout == 0)
  {
    var n := |payments|;
    var dp := new int[n + 1, capacity + 1]((_, _) => 0);
    for i := 1 to n + 1
      invariant forall i', j' {:trigger dp[i', j']} :: 0 <= i' < i && 0 <= j' <= capacity ==> dp[i', j'] == Best(payments, i', j')
    {
      FillRow(payments, capacity, dp, i);
    }
    var selectedPayments := Backtrack(payments, capacity, dp);
    r := Selection(dp[n, capacity], selectedPayments);
    SubsequenceMultiset(Reversed(selectedPayments), payments);
    ReversedMultiset(selectedPayments);
    ExactOptimal(capacity, payments);
    if Positive(payments) {
      forall k | 0 <= k < |selectedPayments| ensures selectedPayments[k].amount > 0 {
        assert selectedPayments[k] in multiset(payments);
      }
      SumPositive(selectedPayments);
    }
  }

  /** No collection drawn from the payments that fits the capacity sums to
      more than `dp[n][capacity]`. */
  lemma ExactOptimal(capacity: nat, payments: seq<Item>)
    requires NonNegative(payments)
    ensures forall t :: multiset(t) <= multiset(payments) && Sum(t) <= capacity ==>
                          Sum(t) <= Best(payments, |payments|, capacity)
  {
    assert payments[..|payments|] == payments;
    forall t | multiset(t) <= multiset(payments) && Sum(t) <= capacity
      ensures Sum(t) <= Best(payments, |payments|, capacity)
    {
      BestOptimal(payments, |payments|, capacity, t);
    }
  }

  /** On the same non-negative input, the exact selector's total is at least
      the greedy selector's: the greedy pick is itself a collection that fits. */
  lemma ExactBeatsGreedy(capacity: nat, payments: seq<Item>)
    requires NonNegative(payments)
    ensures Greedy(capacity, SortItems(payments)).totalPayout <= Best(payments, |payments|, capacity)
  {
    var sorted := SortItems(payments);
    var g := Greedy(capacity, sorted);
    SortItemsCorrect(payments);
    GreedySum(capacity, sorted);
    GreedyWithinCapacity(capacity, sorted);
    GreedySubsequence(capacity, sorted);
    SubsequenceMultiset(g.selectedPayments, sorted);
    assert payments[..|payments|] == payments;
    BestOptimal(payments, |payments|, capacity, g.selectedPayments);
  }
}
