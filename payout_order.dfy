/** The candidates the payout selectors work on and the order the greedy
    selector sorts them into (src/maximize-payout.service.ts). */
module PayoutOrder {
  import opened Seqs

  /** `{ id, availablePayOutAmount }`, the amount in integer cents. */
  datatype Item = Item(id: string, amount: int)

  /** Total amount of a list of candidates. */
  function Sum(s: seq<Item>): int
  {
    if s == [] then 0 else Sum(s[..|s| - 1]) + s[|s| - 1].amount
  }

  /** `a.localeCompare(b) < 0`, modelled as lexicographic order on characters. */
  predicate StrLess(a: string, b: string)
    decreases |a|
  {
    if a == [] then b != []
    else if b == [] then false
    else if a[0] != b[0] then a[0] < b[0]
    else StrLess(a[1..], b[1..])
  }

  /** The sort comparator returns a negative number: `x` goes before `y`.
      Larger amounts first; equal amounts by ascending id. */
  predicate Before(x: Item, y: Item)
  {
    x.amount > y.amount || (x.amount == y.amount && StrLess(x.id, y.id))
  }

  /** `x` may stand before `y` in a sorted list. */
  predicate InOrder(x: Item, y: Item)
  {
    !Before(y, x)
  }

  /** Every pair of positions respects the comparator. */
  predicate Sorted(s: seq<Item>)
  {
    forall i, j :: 0 <= i < j < |s| ==> InOrder(s[i], s[j])
  }

  lemma {:induction false} StrLessIrreflexive(a: string)
    ensures !StrLess(a, a)
    decreases |a|
  {
    if a != [] {
      StrLessIrreflexive(a[1..]);
    }
  }

  /** Two different strings are always ordered one way or the other. */
  lemma {:induction false} StrLessTotal(a: string, b: string)
    ensures a == b || StrLess(a, b) || StrLess(b, a)
    decreases |a|
  {
    if a != [] && b != [] && a[0] == b[0] {
      StrLessTotal(a[1..], b[1..]);
      if a[1..] == b[1..] {
        assert a == [a[0]] + a[1..] && b == [b[0]] + b[1..];
      }
    }
  }

  lemma {:induction false} StrLessAsymmetric(a: string, b: string)
    requires StrLess(a, b)
    ensures !StrLess(b, a)
    decreases |a|
  {
    if a != [] && b != [] && a[0] == b[0] {
      StrLessAsymmetric(a[1..], b[1..]);
    }
  }

  lemma {:induction false} StrLessTransitive(a: string, b: string, c: string)
    requires StrLess(a, b) && StrLess(b, c)
    ensures StrLess(a, c)
    decreases |a|
  {
    if a != [] && a[0] == b[0] && b[0] == c[0] {
      StrLessTransitive(a[1..], b[1..], c[1..]);
    }
  }

  /** The comparator is consistent: it never puts `x` before `y` and `y` before `x`. */
  lemma BeforeAsymmetric(x: Item, y: Item)
    requires Before(x, y)
    ensures InOrder(x, y)
  {
    if x.amount == y.amount {
      StrLessAsymmetric(x.id, y.id);
    }
  }

  lemma InOrderTransitive(x: Item, y: Item, z: Item)
    requires InOrder(x, y) && InOrder(y, z)
    ensures InOrder(x, z)
  {
    if x.amount == y.amount == z.amount {
      StrLessTotal(x.id, y.id);
      StrLessTotal(y.id, z.id);
      if StrLess(z.id, x.id) {
        if x.id != y.id {
          StrLessTransitive(z.id, x.id, y.id);
        }
      }
    }
  }

  /** Two candidates that may each stand before the other are the same candidate:
      the comparator leaves no ties between different items. */
  lemma InOrderAntisymmetric(x: Item, y: Item)
    requires InOrder(x, y) && InOrder(y, x)
    ensures x == y
  {
    StrLessTotal(x.id, y.id);
  }

  lemma InOrderTotal(x: Item, y: Item)
    ensures InOrder(x, y) || InOrder(y, x)
  {
    if Before(x, y) {
      BeforeAsymmetric(x, y);
    }
  }

  /** Inserts `x` into a sorted list at its place. */
  function Insert(x: Item, s: seq<Item>): seq<Item>
  {
    if s == [] then [x]
    else if InOrder(x, s[0]) then [x] + s
    else [s[0]] + Insert(x, s[1..])
  }

  /** A reference sort of the candidates: insertion sort under the comparator. */
  function SortItems(s: seq<Item>): seq<Item>
  {
    if s == [] then [] else Insert(s[0], SortItems(s[1..]))
  }

  lemma {:induction false} InsertMultiset(x: Item, s: seq<Item>)
    ensures multiset(Insert(x, s)) == multiset{x} + multiset(s)
    decreases |s|
  {
    if s != [] {
      assert s == [s[0]] + s[1..];
      if !InOrder(x, s[0]) {
        InsertMultiset(x, s[1..]);
      }
    }
  }

  lemma {:induction false} InsertSorted(x: Item, s: seq<Item>)
    requires Sorted(s)
    ensures Sorted(Insert(x, s))
    decreases |s|
  {
    if s != [] {
      if InOrder(x, s[0]) {
        InsertSortedFront(x, s);
      } else {
        InOrderTotal(x, s[0]);
        InsertSorted(x, s[1..]);
        InsertMultiset(x, s[1..]);
        InsertSortedBehind(x, s, Insert(x, s[1..]));
      }
    }
  }

  /** `x` goes in front when it may stand before the head. */
  lemma InsertSortedFront(x: Item, s: seq<Item>)
    requires Sorted(s) && s != [] && InOrder(x, s[0])
    ensures Sorted([x] + s)
  {
    var r := [x] + s;
    forall i, j | 0 <= i < j < |r| ensures InOrder(r[i], r[j]) {
      if i == 0 && j > 1 {
        InOrderTransitive(x, s[0], s[j - 1]);
      }
    }
  }

  /** The head stays in front of a sorted arrangement of `x` and the tail. */
  lemma InsertSortedBehind(x: Item, s: seq<Item>, t: seq<Item>)
    requires Sorted(s) && s != [] && InOrder(s[0], x)
    requires Sorted(t) && multiset(t) == multiset{x} + multiset(s[1..])
    ensures Sorted([s[0]] + t)
  {
    var r := [s[0]] + t;
    forall i, j | 0 <= i < j < |r| ensures InOrder(r[i], r[j]) {
      if i == 0 {
        assert t[j - 1] in multiset(t);
        if t[j - 1] != x {
          assert t[j - 1] in multiset(s[1..]);
          var k :| 0 <= k < |s[1..]| && s[1..][k] == t[j - 1];
          assert InOrder(s[0], s[k + 1]);
        }
      } else {
        assert InOrder(t[i - 1], t[j - 1]);
      }
    }
  }

  /** The reference sort returns a sorted permutation of its input. */
  lemma {:induction false} SortItemsCorrect(s: seq<Item>)
    ensures Sorted(SortItems(s))
    ensures multiset(SortItems(s)) == multiset(s)
    decreases |s|
  {
    if s != [] {
      SortItemsCorrect(s[1..]);
      InsertSorted(s[0], SortItems(s[1..]));
      InsertMultiset(s[0], SortItems(s[1..]));
      assert s == [s[0]] + s[1..];
    }
  }

  /** The head of a sorted list may stand before every element of the list. */
  lemma HeadFirst(s: seq<Item>, x: Item)
    requires Sorted(s) && x in multiset(s)
    ensures InOrder(s[0], x)
  {
    var i :| 0 <= i < |s| && s[i] == x;
    if i == 0 {
      InOrderTotal(x, x);
    }
  }

  lemma TailMultiset(s: seq<Item>)
    requires s != []
    ensures multiset(s[1..]) == multiset(s) - multiset{s[0]}
  {
    assert s == [s[0]] + s[1..];
  }

  lemma SortedTail(s: seq<Item>)
    requires Sorted(s) && s != []
    ensures Sorted(s[1..])
  {
    forall i, j | 0 <= i < j < |s| - 1 ensures InOrder(s[1..][i], s[1..][j]) {
      assert s[1..][i] == s[i + 1] && s[1..][j] == s[j + 1];
    }
  }

  /** There is only one sorted arrangement of a collection of candidates, so
      any correct sort, stable or not, gives the same list. */
  lemma {:induction false} SortedUnique(a: seq<Item>, b: seq<Item>)
    requires Sorted(a) && Sorted(b)
    requires multiset(a) == multiset(b)
    ensures a == b
    decreases |a|
  {
    assert |b| == |multiset(b)| == |multiset(a)| == |a|;
    if a != [] {
      HeadFirst(b, a[0]);
      HeadFirst(a, b[0]);
      InOrderAntisymmetric(a[0], b[0]);
      TailMultiset(a);
      TailMultiset(b);
      SortedTail(a);
      SortedTail(b);
      SortedUnique(a[1..], b[1..]);
      HeadTail(a);
      HeadTail(b);
    }
  }

  /** Summing a concatenation sums the parts. */
  lemma {:induction false} SumConcat(a: seq<Item>, b: seq<Item>)
    ensures Sum(a + b) == Sum(a) + Sum(b)
    decreases |b|
  {
    if b == [] {
      assert a + b == a;
    } else {
      var b' := b[..|b| - 1];
      assert (a + b)[..|a + b| - 1] == a + b';
      assert (a + b)[|a + b| - 1] == b[|b| - 1];
      SumConcat(a, b');
      assert Sum(a + b) == Sum(a + b') + b[|b| - 1].amount;
    }
  }
}
