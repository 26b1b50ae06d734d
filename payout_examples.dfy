/** The concrete scenarios of src/maximize-payout.service.spec.ts, stated
    about the model (amounts in the same units as the scenarios). */
module PayoutExamples {
  import opened PayoutOrder
  import opened MaximizePayout

  /** Capacity 70 over {30, 20, 50}: the sort puts 50 first, 30 no longer
      fits after it, 20 does; the scan does not stop at the first misfit. */
  lemma GreedyExampleSkipsMisfit()
    ensures SortItems([Item("1", 30), Item("2", 20), Item("3", 50)])
            == [Item("3", 50), Item("1", 30), Item("2", 20)]
    ensures Greedy(70, [Item("3", 50), Item("1", 30), Item("2", 20)])
            == Selection(70, [Item("3", 50), Item("2", 20)])
  {
    var a, b, c := Item("1", 30), Item("2", 20), Item("3", 50);
    assert Insert(b, [c]) == [c, b];
    assert Insert(a, [c, b]) == [c, a, b] by {
      assert !InOrder(a, c);
      assert Insert(a, [b]) == [a, b];
    }
    var s := [c, a, b];
    assert s[..2] == [c, a] && s[..2][..1] == [c] && [c][..0] == [];
  }

  /** Equal amounts are ordered by ascending id, whatever the input order. */
  lemma GreedyExampleTieBreak()
    ensures SortItems([Item("2", 50), Item("1", 50)]) == [Item("1", 50), Item("2", 50)]
    ensures Greedy(100, [Item("1", 50), Item("2", 50)])
            == Selection(100, [Item("1", 50), Item("2", 50)])
  {
    var a, b := Item("1", 50), Item("2", 50);
    assert StrLess("1", "2");
    assert Insert(b, [a]) == [a, b];
    var s := [a, b];
    assert s[..1] == [a] && [a][..0] == [];
  }

  /** Capacity 79 over ids 1..7 with amounts 30, 20, 50, 12, 8, 3, 1: the
      exact optimum is 79, reached by {1, 8, 50, 20}. */
  lemma ExactExample79(s: seq<Item>)
    requires s == [Item("1", 30), Item("2", 20), Item("3", 50), Item("4", 12),
                   Item("5", 8), Item("6", 3), Item("7", 1)]
    ensures Best(s, |s|, 79) == 79
  {
    var t := [s[1], s[2], s[4], s[6]];
    assert Sum(t) == 79 by {
      PickedSum(s[1], s[2], s[4], s[6]);
    }
    assert NonNegative(s);
    DrawnFrom(s, t);
    BestReaches(79, s, t);
  }

  lemma PickedSum(a: Item, b: Item, c: Item, d: Item)
    ensures Sum([a, b, c, d]) == a.amount + b.amount + c.amount + d.amount
  {
    assert [a, b, c, d] == [a, b] + [c, d];
    SumConcat([a, b], [c, d]);
    PairSum(a, b);
    PairSum(c, d);
  }

  /** Four items picked at distinct positions 1, 2, 4, 6 are drawn from `s`. */
  lemma DrawnFrom(s: seq<Item>, t: seq<Item>)
    requires |s| == 7 && t == [s[1], s[2], s[4], s[6]]
    ensures multiset(t) <= multiset(s)
  {
    var a, b, c, d := s[..1], s[1..3], s[3..4], s[5..6];
    assert s == a + b + c + [s[4]] + d + [s[6]];
    assert t == b + [s[4]] + [s[6]];
  }

  /** A collection that fills the capacity exactly shows the optimum is the capacity. */
  lemma BestReaches(capacity: nat, s: seq<Item>, t: seq<Item>)
    requires NonNegative(s) && multiset(t) <= multiset(s) && Sum(t) == capacity
    ensures Best(s, |s|, capacity) == capacity
  {
    ExactOptimal(capacity, s);
  }

  lemma PairSum(a: Item, b: Item)
    ensures Sum([a, b]) == a.amount + b.amount
  {
    assert [a, b][..1] == [a] && [a][..0] == [];
    assert Sum([a]) == Sum([]) + a.amount;
    assert Sum([a, b]) == Sum([a]) + b.amount;
  }

  /** {6, 5, 5} with ids 1, 2, 3 is already in the greedy selector's order. */
  lemma AlreadySorted(s: seq<Item>)
    requires s == [Item("1", 6), Item("2", 5), Item("3", 5)]
    ensures SortItems(s) == s
  {
    var a, b, c := s[0], s[1], s[2];
    assert StrLess("2", "3");
    assert s[1..] == [b, c] && [b, c][1..] == [c] && [c][1..] == [];
    assert SortItems([c]) == [c];
    assert Insert(b, [c]) == [b, c];
    assert SortItems([b, c]) == [b, c];
    assert Insert(a, [b, c]) == [a, b, c];
  }

  lemma GreedyTakesSix(s: seq<Item>)
    requires s == [Item("1", 6), Item("2", 5), Item("3", 5)]
    ensures Greedy(10, s) == Selection(6, [s[0]])
  {
    var a, b := s[0], s[1];
    assert s[..2] == [a, b] && s[..2][..1] == [a] && [a][..0] == [];
    assert Greedy(10, [a]) == Selection(6, [a]);
    assert Greedy(10, [a, b]) == Selection(6, [a]);
  }

  lemma ExactReachesTen(s: seq<Item>)
    requires s == [Item("1", 6), Item("2", 5), Item("3", 5)]
    ensures Best(s, |s|, 10) == 10
  {
    var t := [s[1], s[2]];
    var t1 := t[..1];
    assert t1 == [s[1]] && t1[..0] == [];
    assert Sum(t1) == 5;
    assert Sum(t) == 10;
    assert multiset(t) <= multiset(s);
    ExactOptimal(10, s);
  }

  /** The greedy selector is not optimal: over {6, 5, 5} with capacity 10 it
      takes 6 and then nothing fits, while 5 + 5 reaches 10. */
  lemma GreedyMissesOptimum(s: seq<Item>)
    requires s == [Item("1", 6), Item("2", 5), Item("3", 5)]
    ensures Greedy(10, SortItems(s)).totalPayout == 6
    ensures Best(s, |s|, 10) == 10
  {
    AlreadySorted(s);
    GreedyTakesSix(s);
    ExactReachesTen(s);
  }
}
