/**
 The top-k selector of the MobileNet demo: `top(k, prob)` turns the classifier's
 label -> probability dictionary into (label, probability) pairs, sorts them by
 probability, highest first, and keeps the first `k`.

 Swift iterates a dictionary in an order it does not specify. That order is the
 parameter `order` here: any sequence that lists every key exactly once
 (`Enumerates`). Together with the sort of module Sorting it fixes one result. The
 result is characterised, independently of how it is computed, by `IsTopK`.
 */
module TopK {
  import opened Sorting

  /** No label occurs twice. */
  predicate Distinct(ls: seq<string>) {
    forall i, j :: 0 <= i < j < |ls| ==> ls[i] != ls[j]
  }

  /** The labels of a sequence as a set. */
  function Elems(ls: seq<string>): set<string> {
    set l | l in ls
  }

  /** `order` is one possible iteration order of `prob`: each key exactly once. */
  predicate Enumerates(order: seq<string>, prob: map<string, real>) {
    && Distinct(order)
    && (forall l :: l in order ==> l in prob)
    && (forall l :: l in prob ==> l in order)
  }

  /** The labels of a result, in order. */
  function Labels(r: seq<Prediction>): (ls: seq<string>)
    ensures |ls| == |r|
    ensures forall i :: 0 <= i < |r| ==> ls[i] == r[i].0
  {
    seq(|r|, i requires 0 <= i < |r| => r[i].0)
  }

  /** `p` is an entry of the dictionary: its label is a key mapped to its score. */
  predicate IsEntry(prob: map<string, real>, p: Prediction) {
    p.0 in prob && prob[p.0] == p.1
  }

  /** `prob.map { x in (x.key, x.value) }` when the dictionary is visited in `order`. */
  function Entries(prob: map<string, real>, order: seq<string>): (ps: seq<Prediction>)
    requires forall l :: l in order ==> l in prob
    ensures Labels(ps) == order
    ensures forall i :: 0 <= i < |ps| ==> IsEntry(prob, ps[i])
  {
    seq(|order|, i requires 0 <= i < |order| => (order[i], prob[order[i]]))
  }

  /**
   What any correct answer of `top(k, prob)` is: `k` pairs, highest score first,
   each an entry of `prob`, no label twice, and no entry left out scoring above
   an entry kept.
   */
  predicate IsTopK(k: int, prob: map<string, real>, r: seq<Prediction>) {
    && |r| == k
    && Descending(r)
    && (forall i :: 0 <= i < |r| ==> IsEntry(prob, r[i]))
    && Distinct(Labels(r))
    && (forall l, i :: l in prob && l !in Labels(r) && 0 <= i < |r| ==> prob[l] <= r[i].1)
  }

  /** A sequence has at most as many distinct labels as positions, exactly as many when none repeats. */
  lemma {:induction false} ElemsCard(ls: seq<string>)
    ensures |Elems(ls)| <= |ls|
    ensures Distinct(ls) ==> |Elems(ls)| == |ls|
  {
    if ls != [] {
      ElemsCard(ls[1..]);
      assert ls == [ls[0]] + ls[1..];
      assert Elems(ls) == {ls[0]} + Elems(ls[1..]);
      if Distinct(ls) {
        assert Distinct(ls[1..]);
        assert ls[0] !in Elems(ls[1..]);
      }
    }
  }

  /** An iteration order is exactly as long as the dictionary it visits. */
  lemma EnumerationLength(order: seq<string>, prob: map<string, real>)
    requires Enumerates(order, prob)
    ensures |order| == |prob|
  {
    ElemsCard(order);
    assert Elems(order) == prob.Keys;
  }

  /** A sequence whose labels are all different holds each pair at most once. */
  lemma {:induction false} CountAtMostOne(ps: seq<Prediction>, x: Prediction)
    requires Distinct(Labels(ps))
    ensures multiset(ps)[x] <= 1
  {
    if ps != [] {
      assert ps == [ps[0]] + ps[1..];
      assert Labels(ps[1..]) == Labels(ps)[1..];
      CountAtMostOne(ps[1..], x);
      if ps[0] == x {
        forall m | 0 <= m < |ps[1..]| ensures ps[1..][m] != x {
          assert Labels(ps)[0] != Labels(ps)[m + 1];
        }
        assert x !in ps[1..];
      }
    }
  }

  /** A pair at two positions is counted twice. */
  lemma RepeatedCountsTwice(s: seq<Prediction>, i: int, j: int)
    requires 0 <= i < j < |s| && s[i] == s[j]
    ensures multiset(s)[s[i]] >= 2
  {
    assert s == s[..i] + [s[i]] + s[i + 1..j] + [s[j]] + s[j + 1..];
  }

  /** Sorting the entries of `prob` taken in `order` yields only entries, with labels from `order`. */
  lemma SortedEntriesAreEntries(prob: map<string, real>, order: seq<string>)
    requires forall l :: l in order ==> l in prob
    ensures forall i :: 0 <= i < |SortDescending(Entries(prob, order))| ==>
      IsEntry(prob, SortDescending(Entries(prob, order))[i]) && SortDescending(Entries(prob, order))[i].0 in order
  {
    var e := Entries(prob, order);
    var s := SortDescending(e);
    forall i | 0 <= i < |s| ensures IsEntry(prob, s[i]) && s[i].0 in order {
      assert s[i] in multiset(e);
      var m :| 0 <= m < |e| && e[m] == s[i];
      assert Labels(e)[m] == s[i].0;
    }
  }

  /** Sorting the entries of `prob` taken in `order` repeats no label. */
  lemma SortedEntriesDistinct(prob: map<string, real>, order: seq<string>)
    requires forall l :: l in order ==> l in prob
    requires Distinct(order)
    ensures Distinct(Labels(SortDescending(Entries(prob, order))))
  {
    var e := Entries(prob, order);
    var s := SortDescending(e);
    SortedEntriesAreEntries(prob, order);
    forall i, j | 0 <= i < j < |s| ensures Labels(s)[i] != Labels(s)[j] {
      if s[i].0 == s[j].0 {
        assert IsEntry(prob, s[i]) && IsEntry(prob, s[j]);
        assert s[i].1 == s[j].1;
        assert s[i] == s[j];
        RepeatedCountsTwice(s, i, j);
        CountAtMostOne(e, s[i]);
        assert false;
      }
    }
  }

  /** Sorting the entries of `prob` taken in `order` loses no label of `order`. */
  lemma SortedEntriesComplete(prob: map<string, real>, order: seq<string>)
    requires forall l :: l in order ==> l in prob
    ensures forall l :: l in order ==> l in Labels(SortDescending(Entries(prob, order)))
  {
    var e := Entries(prob, order);
    var s := SortDescending(e);
    forall l | l in order ensures l in Labels(s) {
      var m :| 0 <= m < |order| && order[m] == l;
      assert Labels(e)[m] == l;
      assert e[m] in multiset(s);
      var n :| 0 <= n < |s| && s[n] == e[m];
      assert Labels(s)[n] == l;
    }
  }

  /**
   In a descending sequence holding every key of `prob`, a key missing from the
   first `k` pairs scores no more than any of them.
   */
  lemma PrefixMaximal(prob: map<string, real>, s: seq<Prediction>, k: int)
    requires Descending(s)
    requires forall i :: 0 <= i < |s| ==> IsEntry(prob, s[i])
    requires forall l :: l in prob ==> l in Labels(s)
    requires 0 <= k <= |s|
    ensures forall l, i :: l in prob && l !in Labels(s[..k]) && 0 <= i < k ==> prob[l] <= s[i].1
  {
    assert Labels(s[..k]) == Labels(s)[..k];
    forall l, i | l in prob && l !in Labels(s[..k]) && 0 <= i < k ensures prob[l] <= s[i].1 {
      var n :| 0 <= n < |s| && Labels(s)[n] == l;
    }
  }

  /** The first `k` pairs of such a sequence, which also repeats no label, answer `top(k, prob)`. */
  lemma PrefixIsTopK(prob: map<string, real>, s: seq<Prediction>, k: int)
    requires Descending(s)
    requires forall i :: 0 <= i < |s| ==> IsEntry(prob, s[i])
    requires Distinct(Labels(s))
    requires forall l :: l in prob ==> l in Labels(s)
    requires 0 <= k <= |s|
    ensures IsTopK(k, prob, s[..k])
  {
    PrefixMaximal(prob, s, k);
    assert Labels(s[..k]) == Labels(s)[..k];
  }

  /**
   `top(k, prob)` with the dictionary visited in `order`: entries as pairs, sorted
   by descending score, the first `k` kept. The Swift function traps when
   `k > prob.count` (its precondition) and when `k < 0` (`prefix(through: k - 1)`
   with a negative bound); hence the requires.
   */
  function Top(k: int, prob: map<string, real>, order: seq<string>): (r: seq<Prediction>)
    requires Enumerates(order, prob)
    requires 0 <= k <= |prob|
    ensures IsTopK(k, prob, r)
  {
    EnumerationLength(order, prob);
    SortedEntriesAreEntries(prob, order);
    SortedEntriesDistinct(prob, order);
    SortedEntriesComplete(prob, order);
    var s := SortDescending(Entries(prob, order));
    PrefixIsTopK(prob, s, k);
    s[..k]
  }

  /**
   The Camera demo's variant `prefix(min(k, prob.count))`: too large a `k` is
   clamped to the size of the dictionary, and then every entry is returned. A
   negative `k` traps in `prefix`.
   */
  function TopClamped(k: int, prob: map<string, real>, order: seq<string>): (r: seq<Prediction>)
    requires Enumerates(order, prob)
    requires 0 <= k
    ensures IsTopK(if k <= |prob| then k else |prob|, prob, r)
    ensures k >= |prob| ==> forall l :: l in prob ==> l in Labels(r)
  {
    EnumerationLength(order, prob);
    SortedEntriesComplete(prob, order);
    var n := if k <= |prob| then k else |prob|;
    assert n == |prob| ==> SortDescending(Entries(prob, order))[..n] == SortDescending(Entries(prob, order));
    Top(n, prob, order)
  }
}
