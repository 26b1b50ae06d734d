/** Sequence relations used to state what the selectors return. */
module Seqs {

  /** `t` can be obtained from `s` by deleting elements: the elements of `t`
      occupy distinct positions of `s`, in the same order. */
  predicate IsSubsequence<T(==)>(t: seq<T>, s: seq<T>)
    decreases |s|
  {
    if t == [] then true
    else if s == [] then false
    else
      (t[|t| - 1] == s[|s| - 1] && IsSubsequence(t[..|t| - 1], s[..|s| - 1]))
      || IsSubsequence(t, s[..|s| - 1])
  }

  /** `s` backwards. */
  function Reversed<T>(s: seq<T>): (r: seq<T>)
    ensures |r| == |s|
    ensures forall k :: 0 <= k < |s| ==> r[k] == s[|s| - 1 - k]
  {
    if s == [] then [] else [s[|s| - 1]] + Reversed(s[..|s| - 1])
  }

  /** A subsequence takes each element of `s` at most once. */
  lemma {:induction false} SubsequenceMultiset<T>(t: seq<T>, s: seq<T>)
    requires IsSubsequence(t, s)
    ensures multiset(t) <= multiset(s)
    decreases |s|
  {
    if t != [] {
      var s' := s[..|s| - 1];
      assert s == s' + [s[|s| - 1]];
      if t[|t| - 1] == s[|s| - 1] && IsSubsequence(t[..|t| - 1], s') {
        SubsequenceMultiset(t[..|t| - 1], s');
        assert t == t[..|t| - 1] + [t[|t| - 1]];
      } else {
        SubsequenceMultiset(t, s');
      }
    }
  }

  /** Putting an element in front of `s` keeps every subsequence of `s`. */
  lemma {:induction false} SubsequenceConsRight<T>(x: T, t: seq<T>, s: seq<T>)
    requires IsSubsequence(t, s)
    ensures IsSubsequence(t, [x] + s)
    decreases |s|
  {
    if t != [] {
      var s' := s[..|s| - 1];
      assert ([x] + s)[..|s|] == [x] + s';
      if t[|t| - 1] == s[|s| - 1] && IsSubsequence(t[..|t| - 1], s') {
        SubsequenceConsRight(x, t[..|t| - 1], s');
      } else {
        SubsequenceConsRight(x, t, s');
      }
    }
  }

  /** Putting the same element in front of both keeps the relation. */
  lemma {:induction false} SubsequenceConsBoth<T>(x: T, t: seq<T>, s: seq<T>)
    requires IsSubsequence(t, s)
    ensures IsSubsequence([x] + t, [x] + s)
    decreases |s|
  {
    if s == [] {
      assert t == [];
      assert ([x] + t)[..0] == [] == ([x] + s)[..0];
    } else {
      var s' := s[..|s| - 1];
      assert ([x] + s)[..|s|] == [x] + s';
      if t == [] {
        SubsequenceConsBoth(x, t, s');
      } else {
        assert ([x] + t)[..|t|] == [x] + t[..|t| - 1];
        if t[|t| - 1] == s[|s| - 1] && IsSubsequence(t[..|t| - 1], s') {
          SubsequenceConsBoth(x, t[..|t| - 1], s');
        } else {
          SubsequenceConsBoth(x, t, s');
        }
      }
    }
  }

  /** Reversing keeps the elements and their multiplicities. */
  lemma {:induction false} ReversedMultiset<T>(s: seq<T>)
    ensures multiset(Reversed(s)) == multiset(s)
    decreases |s|
  {
    if s != [] {
      ReversedMultiset(s[..|s| - 1]);
      assert s == s[..|s| - 1] + [s[|s| - 1]];
    }
  }

  /** A sequence is its prefix followed by the rest. */
  lemma SplitAt<T>(s: seq<T>, i: nat)
    requires i <= |s|
    ensures s == s[..i] + s[i..]
  {
  }

  /** A sequence is what comes before position `k`, the element at `k`, and the rest. */
  lemma SplitAround<T>(s: seq<T>, k: nat)
    requires k < |s|
    ensures s == s[..k] + [s[k]] + s[k + 1..]
  {
  }

  /** A non-empty sequence is its head followed by its tail. */
  lemma HeadTail<T>(s: seq<T>)
    requires s != []
    ensures s == [s[0]] + s[1..]
  {
  }

  /** Two arrangements of the same elements that agree from `n` on agree
      on the elements before `n`. */
  lemma PrefixMultiset<T>(s: seq<T>, t: seq<T>, n: nat)
    requires n <= |s| == |t| && multiset(s) == multiset(t) && s[n..] == t[n..]
    ensures multiset(s[..n]) == multiset(t[..n])
  {
    SplitAt(s, n);
    SplitAt(t, n);
    var ps, pt, rest := multiset(s[..n]), multiset(t[..n]), multiset(s[n..]);
    assert multiset(s) == ps + rest;
    assert multiset(t) == pt + rest;
    forall x ensures ps[x] == pt[x] {
      assert (ps + rest)[x] == (pt + rest)[x];
    }
  }
}
