/**
 The sorting step of `top`: `sorted(by: { a, b in a.1 > b.1 })` applied to
 (label, score) pairs. The library sort is not documented as stable, so all that
 is promised about it is that it returns a permutation of its input ordered by
 non-increasing score. This module provides one such sort (insertion into a
 descending sequence); which permutation of tied entries a caller ends up with is
 discussed in module TopKLemmas.
 */
module Sorting {

  /** The Swift `Prediction` tuple: a label and its probability. */
  type Prediction = (string, real)

  /** Scores never increase from left to right (any two positions). */
  predicate Descending(s: seq<Prediction>) {
    forall i, j :: 0 <= i < j < |s| ==> s[i].1 >= s[j].1
  }

  /** Scores never increase between neighbours. */
  predicate AdjacentDescending(s: seq<Prediction>) {
    forall i :: 0 <= i < |s| - 1 ==> s[i].1 >= s[i + 1].1
  }

  /** Comparing neighbours is enough: the two orderings coincide. */
  lemma {:induction false} AdjacentDescendingIffDescending(s: seq<Prediction>)
    ensures AdjacentDescending(s) <==> Descending(s)
  {
    if |s| >= 2 {
      AdjacentDescendingIffDescending(s[1..]);
      if AdjacentDescending(s) {
        assert AdjacentDescending(s[1..]);
        forall i, j | 0 <= i < j < |s| ensures s[i].1 >= s[j].1 {
          if i > 0 {
            assert s[1..][i - 1].1 >= s[1..][j - 1].1;
          } else if j > 1 {
            assert s[1..][0].1 >= s[1..][j - 1].1;
          }
        }
      }
    }
  }

  /** An entry scoring at least as much as every entry of `t` may go in front of it. */
  lemma PrependDescending(x: Prediction, t: seq<Prediction>)
    requires Descending(t)
    requires forall j :: 0 <= j < |t| ==> x.1 >= t[j].1
    ensures Descending([x] + t)
  {
    var r := [x] + t;
    forall i, j | 0 <= i < j < |r| ensures r[i].1 >= r[j].1 {
      if i > 0 {
        assert r[i] == t[i - 1] && r[j] == t[j - 1];
      } else {
        assert r[j] == t[j - 1];
      }
    }
  }

  /** Puts `p` in front of the first entry that does not score above it. */
  function Insert(p: Prediction, s: seq<Prediction>): (r: seq<Prediction>)
    requires Descending(s)
    ensures Descending(r)
    ensures multiset(r) == multiset(s) + multiset{p}
  {
    if s == [] || p.1 >= s[0].1 then [p] + s
    else
      var rest := Insert(p, s[1..]);
      assert s == [s[0]] + s[1..];
      forall j | 0 <= j < |rest| ensures s[0].1 >= rest[j].1 {
        assert rest[j] in multiset(s[1..]) + multiset{p};
      }
      PrependDescending(s[0], rest);
      [s[0]] + rest
  }

  /** A descending permutation of `s`. */
  function SortDescending(s: seq<Prediction>): (r: seq<Prediction>)
    ensures Descending(r)
    ensures multiset(r) == multiset(s)
    ensures |r| == |s|
  {
    if s == [] then []
    else
      assert s == [s[0]] + s[1..];
      Insert(s[0], SortDescending(s[1..]))
  }

  /** A sequence that is already in descending order is left exactly as it is. */
  lemma {:induction false} SortDescendingKeepsSorted(s: seq<Prediction>)
    requires Descending(s)
    ensures SortDescending(s) == s
  {
    if s != [] {
      SortDescendingKeepsSorted(s[1..]);
      assert s == [s[0]] + s[1..];
    }
  }
}
