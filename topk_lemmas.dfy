/**
 Properties of `top(k, prob)` that relate several answers or several calls: the
 best entry comes first, an answer exists exactly when the Swift precondition
 holds, the scores of an answer are determined (only the order of equal scores
 is left open), and every answer that differs only in how ties are ordered is
 produced by some dictionary iteration order.
 */
module TopKLemmas {
  import opened Sorting
  import opened TopK

  /** When `k >= 1`, the first pair has the highest score in the whole dictionary. */
  lemma TopKHeadIsMaximum(k: int, prob: map<string, real>, r: seq<Prediction>)
    requires IsTopK(k, prob, r)
    requires k >= 1
    ensures r[0].0 in prob
    ensures forall l :: l in prob ==> prob[l] <= r[0].1
  {
    forall l | l in prob ensures prob[l] <= r[0].1 {
      if l in Labels(r) {
        var i :| 0 <= i < |r| && Labels(r)[i] == l;
        assert IsEntry(prob, r[i]);
      }
    }
  }

  /**
   An answer exists exactly when `0 <= k <= prob.count`, the condition under which
   the Swift function does not trap.
   */
  lemma TopKExistsIffInRange(k: int, prob: map<string, real>)
    ensures (exists r :: IsTopK(k, prob, r)) <==> 0 <= k <= |prob|
  {
    if exists r :: IsTopK(k, prob, r) {
      var r :| IsTopK(k, prob, r);
      ElemsCard(Labels(r));
      assert Elems(Labels(r)) <= prob.Keys by {
        forall l | l in Elems(Labels(r)) ensures l in prob {
          var i :| 0 <= i < |r| && Labels(r)[i] == l;
          assert IsEntry(prob, r[i]);
        }
      }
      SubsetCard(Elems(Labels(r)), prob.Keys);
    }
    if 0 <= k <= |prob| {
      var order := EnumerationOf(prob.Keys);
      assert IsTopK(k, prob, Top(k, prob, order));
    }
  }

  /** A subset is no larger than its superset. */
  lemma {:induction false} SubsetCard(a: set<string>, b: set<string>)
    requires a <= b
    ensures |a| <= |b|
    decreases a
  {
    if a != {} {
      var x :| x in a;
      SubsetCard(a - {x}, b - {x});
    }
  }

  /** Every finite set of labels can be listed in some order, each label once. */
  lemma {:induction false} EnumerationOf(keys: set<string>) returns (order: seq<string>)
    ensures Distinct(order)
    ensures forall l :: l in order <==> l in keys
    decreases keys
  {
    if keys == {} {
      order := [];
    } else {
      var x :| x in keys;
      var rest := EnumerationOf(keys - {x});
      order := [x] + rest;
      forall i, j | 0 <= i < j < |order| ensures order[i] != order[j] {
        if i > 0 {
          assert order[i] == rest[i - 1] && order[j] == rest[j - 1];
        } else {
          assert order[j] in rest;
        }
      }
    }
  }

  /**
   At any position two answers to the same question hold the same score: they can
   differ only in which of several equally scored labels they list, and where.
   */
  lemma TopKScoresDetermined(k: int, prob: map<string, real>, r1: seq<Prediction>, r2: seq<Prediction>)
    requires IsTopK(k, prob, r1)
    requires IsTopK(k, prob, r2)
    ensures forall i :: 0 <= i < k ==> r1[i].1 == r2[i].1
  {
    forall i | 0 <= i < k ensures r1[i].1 == r2[i].1 {
      ScoreNotAbove(k, prob, r1, r2, i);
      ScoreNotAbove(k, prob, r2, r1, i);
    }
  }

  /**
   Pigeonhole: if `r1[i]` scored above `r2[i]`, the `i + 1` labels `r1[0..i]` would
   all score above `r2[i]`, yet only the `i` labels before position `i` of `r2` do.
   */
  lemma ScoreNotAbove(k: int, prob: map<string, real>, r1: seq<Prediction>, r2: seq<Prediction>, i: int)
    requires IsTopK(k, prob, r1)
    requires IsTopK(k, prob, r2)
    requires 0 <= i < k
    ensures r1[i].1 <= r2[i].1
  {
    if r1[i].1 > r2[i].1 {
      var above := Labels(r1)[..i + 1];
      var before := Labels(r2)[..i];
      forall l | l in Elems(above) ensures l in Elems(before) {
        var j :| 0 <= j < i + 1 && above[j] == l;
        LabelAboveComesBefore(k, prob, r1, r2, i, j);
      }
      assert Distinct(above);
      ElemsCard(above);
      ElemsCard(before);
      SubsetCard(Elems(above), Elems(before));
    }
  }

  /** Under the hypothesis of ScoreNotAbove, each of `r1[0..i]` appears before position `i` of `r2`. */
  lemma LabelAboveComesBefore(k: int, prob: map<string, real>, r1: seq<Prediction>, r2: seq<Prediction>, i: int, j: int)
    requires IsTopK(k, prob, r1)
    requires IsTopK(k, prob, r2)
    requires 0 <= j <= i < k
    requires r1[i].1 > r2[i].1
    ensures r1[j].0 in Labels(r2)[..i]
  {
    var l := r1[j].0;
    assert IsEntry(prob, r1[j]);
    assert prob[l] > r2[i].1;
    var m :| 0 <= m < k && Labels(r2)[m] == l;
    assert IsEntry(prob, r2[m]);
    assert Labels(r2)[..i][m] == l;
  }

  /**
   Ties are unconstrained: every answer allowed by `IsTopK` is what `top` returns
   for some iteration order of the dictionary (the one that lists the answer's
   labels first, in the answer's order, then the remaining keys by descending
   score).
   */
  lemma EveryTopKIsReachable(k: int, prob: map<string, real>, r: seq<Prediction>)
    requires IsTopK(k, prob, r)
    ensures 0 <= k <= |prob|
    ensures exists order :: Enumerates(order, prob) && Top(k, prob, order) == r
  {
    TopKExistsIffInRange(k, prob);
    var rest := EnumerationOf(prob.Keys - Elems(Labels(r)));
    SortedEntriesAreEntries(prob, rest);
    SortedEntriesDistinct(prob, rest);
    SortedEntriesComplete(prob, rest);
    var tail := SortDescending(Entries(prob, rest));
    var full := r + tail;
    var order := Labels(full);
    assert Labels(full) == Labels(r) + Labels(tail);

    forall i, j | 0 <= i < |r| && 0 <= j < |tail| ensures r[i].1 >= tail[j].1 {
      assert IsEntry(prob, tail[j]);
      assert tail[j].0 !in Labels(r);
    }
    assert Descending(full) by {
      forall i, j | 0 <= i < j < |full| ensures full[i].1 >= full[j].1 {
        if j < |r| {
          assert full[i] == r[i] && full[j] == r[j];
        } else if i >= |r| {
          assert full[i] == tail[i - |r|] && full[j] == tail[j - |r|];
        } else {
          assert full[i] == r[i] && full[j] == tail[j - |r|];
        }
      }
    }
    assert Distinct(order) by {
      forall i, j | 0 <= i < j < |order| ensures order[i] != order[j] {
        if j < |r| {
          assert order[i] == Labels(r)[i] && order[j] == Labels(r)[j];
        } else if i >= |r| {
          assert order[i] == Labels(tail)[i - |r|] && order[j] == Labels(tail)[j - |r|];
        } else {
          assert order[j] == tail[j - |r|].0;
          assert tail[j - |r|].0 in rest;
        }
      }
    }
    assert forall i :: 0 <= i < |full| ==> IsEntry(prob, full[i]) by {
      forall i | 0 <= i < |full| ensures IsEntry(prob, full[i]) {
        if i < |r| {
          assert full[i] == r[i];
        } else {
          assert full[i] == tail[i - |r|];
        }
      }
    }
    assert Enumerates(order, prob) by {
      forall l | l in prob ensures l in order {
        if l !in Labels(r) {
          assert l in rest;
          assert l in Labels(tail);
        }
      }
    }
    assert Entries(prob, order) == full;
    SortDescendingKeepsSorted(full);
    assert Top(k, prob, order) == full[..k];
    assert full[..k] == r;
  }

  /** The classifier output of the worked example below. */
  function Animals(): map<string, real> {
    map["cat" := 0.9, "dog" := 0.05, "bird" := 0.03, "fox" := 0.01, "owl" := 0.01]
  }

  /** Facts about the example: its size, its expected answer, and which labels carry the top three scores. */
  lemma AnimalsFacts()
    ensures |Animals()| == 5
    ensures IsTopK(3, Animals(), [("cat", 0.9), ("dog", 0.05), ("bird", 0.03)])
    ensures forall l :: l in Animals() && Animals()[l] == 0.9 ==> l == "cat"
    ensures forall l :: l in Animals() && Animals()[l] == 0.05 ==> l == "dog"
    ensures forall l :: l in Animals() && Animals()[l] == 0.03 ==> l == "bird"
  {
    var prob := Animals();
    var expected := [("cat", 0.9), ("dog", 0.05), ("bird", 0.03)];
    assert prob.Keys == {"cat", "dog", "bird", "fox", "owl"};
    assert Labels(expected) == ["cat", "dog", "bird"];
  }

  /**
   A worked example: five labels, three of them clearly ahead. Whatever order the
   dictionary is visited in, the answer for `k = 3` is cat, dog, bird.
   */
  lemma ThreeOfFiveExample(order: seq<string>)
    requires Enumerates(order, Animals())
    ensures Top(3, Animals(), order) == [("cat", 0.9), ("dog", 0.05), ("bird", 0.03)]
  {
    var prob := Animals();
    var expected := [("cat", 0.9), ("dog", 0.05), ("bird", 0.03)];
    AnimalsFacts();
    var r := Top(3, prob, order);
    TopKScoresDetermined(3, prob, r, expected);
    assert IsEntry(prob, r[0]) && IsEntry(prob, r[1]) && IsEntry(prob, r[2]);
  }
}
