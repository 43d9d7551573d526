/**
 * The summary `predict` returns for a non-empty detection list: the five most frequent
 * classes (`Counter.most_common(5)`) with their counts and mean confidences.
 */
module Aggregation {
  import opened Common
  import opened DetectionAdapter
  import opened ClassTally

  /** One `(class, count)` item of the Counter. */
  datatype ClassCount = ClassCount(cls: string, count: nat)

  /** One entry of the response's `detections` list. */
  datatype ClassStat = ClassStat(cls: string, count: nat, confidence: real, totalDetections: nat)

  /** The `n` of `most_common(n)`. */
  const TopClasses: nat := 5

  /** The Counter's items in its insertion order. */
  function Items(order: seq<string>, counts: map<string, nat>): seq<ClassCount>
    requires forall i :: 0 <= i < |order| ==> order[i] in counts
  {
    seq(|order|, i requires 0 <= i < |order| => ClassCount(order[i], counts[order[i]]))
  }

  /** The Counter of the classes of a detection list, as items in first-seen order. */
  function CounterItems(dets: seq<Detection>): seq<ClassCount>
  {
    Items(FirstSeen(dets), CountMap(dets))
  }

  // ---------------------------------------------------------------- ordering

  predicate SortedByCount(s: seq<ClassCount>)
  {
    forall i, j :: 0 <= i < j < |s| ==> s[i].count >= s[j].count
  }

  predicate ClassesDistinct(s: seq<ClassCount>)
  {
    forall i, j :: 0 <= i < j < |s| ==> s[i].cls != s[j].cls
  }

  /** Class `a` is listed before class `b` in `order`. */
  predicate Before(order: seq<string>, a: string, b: string)
  {
    exists p, q :: 0 <= p < q < |order| && order[p] == a && order[q] == b
  }

  /** The items of `s` whose count is `v`, in order. */
  function WithCount(s: seq<ClassCount>, v: nat): seq<ClassCount>
  {
    if s == [] then []
    else WithCount(s[..|s| - 1], v) + (if s[|s| - 1].count == v then [s[|s| - 1]] else [])
  }

  /** Place `x` behind every item counting at least as much as it does. */
  function InsertByCount(x: ClassCount, s: seq<ClassCount>): seq<ClassCount>
  {
    if s == [] || s[|s| - 1].count >= x.count then s + [x]
    else InsertByCount(x, s[..|s| - 1]) + [s[|s| - 1]]
  }

  /** Sort by descending count, keeping the input order among equal counts. */
  function SortByCount(s: seq<ClassCount>): seq<ClassCount>
  {
    if s == [] then [] else InsertByCount(s[|s| - 1], SortByCount(s[..|s| - 1]))
  }

  /** `Counter.most_common(n)`: the first `n` items of the stable descending sort. */
  function MostCommon(items: seq<ClassCount>, n: nat): seq<ClassCount>
  {
    Take(SortByCount(items), n)
  }

  lemma {:induction false} InsertPermutes(x: ClassCount, s: seq<ClassCount>)
    ensures multiset(InsertByCount(x, s)) == multiset(s) + multiset{x}
    ensures |InsertByCount(x, s)| == |s| + 1
    ensures forall y :: y in InsertByCount(x, s) <==> y == x || y in s
  {
    if !(s == [] || s[|s| - 1].count >= x.count) {
      var init, last := s[..|s| - 1], s[|s| - 1];
      InsertPermutes(x, init);
      assert s == init + [last];
    }
  }

  lemma {:induction false} InsertSorted(x: ClassCount, s: seq<ClassCount>)
    requires SortedByCount(s)
    ensures SortedByCount(InsertByCount(x, s))
  {
    if !(s == [] || s[|s| - 1].count >= x.count) {
      var init, last := s[..|s| - 1], s[|s| - 1];
      InsertSorted(x, init);
      InsertPermutes(x, init);
      var r' := InsertByCount(x, init);
      forall i | 0 <= i < |r'| ensures r'[i].count >= last.count {
        assert r'[i] in r';
        if r'[i] != x {
          var j :| 0 <= j < |init| && init[j] == r'[i];
          assert s[j] == init[j];
        }
      }
    }
  }

  lemma {:induction false} WithCountSnoc(s: seq<ClassCount>, y: ClassCount, v: nat)
    ensures WithCount(s + [y], v) == WithCount(s, v) + (if y.count == v then [y] else [])
  {
    assert (s + [y])[..|s|] == s;
  }

  lemma {:induction false} InsertWithCount(x: ClassCount, s: seq<ClassCount>, v: nat)
    ensures WithCount(InsertByCount(x, s), v) == WithCount(s, v) + (if x.count == v then [x] else [])
  {
    if s == [] || s[|s| - 1].count >= x.count {
      WithCountSnoc(s, x, v);
    } else {
      var init, last := s[..|s| - 1], s[|s| - 1];
      assert s == init + [last];
      var r' := InsertByCount(x, init);
      var xs := if x.count == v then [x] else [];
      var ls := if last.count == v then [last] else [];
      calc {
        WithCount(InsertByCount(x, s), v);
        WithCount(r' + [last], v);
        { WithCountSnoc(r', last, v); }
        WithCount(r', v) + ls;
        { InsertWithCount(x, init, v); }
        WithCount(init, v) + xs + ls;
        { SwapEmpty(WithCount(init, v), xs, ls); }
        WithCount(init, v) + ls + xs;
        { WithCountSnoc(init, last, v); }
        WithCount(s, v) + xs;
      }
    }
  }

  /** Two parts of which one is empty can be appended in either order. */
  lemma {:induction false} SwapEmpty(a: seq<ClassCount>, xs: seq<ClassCount>, ls: seq<ClassCount>)
    requires xs == [] || ls == []
    ensures a + xs + ls == a + ls + xs
  {
    if xs == [] {
      assert a + xs == a && a + ls + xs == a + ls;
    } else {
      assert a + xs + ls == a + xs && a + ls == a;
    }
  }

  lemma {:induction false} InsertDistinct(x: ClassCount, s: seq<ClassCount>)
    requires ClassesDistinct(s) && forall i :: 0 <= i < |s| ==> s[i].cls != x.cls
    ensures ClassesDistinct(InsertByCount(x, s))
  {
    if !(s == [] || s[|s| - 1].count >= x.count) {
      var init, last := s[..|s| - 1], s[|s| - 1];
      InsertDistinct(x, init);
      InsertPermutes(x, init);
      var r' := InsertByCount(x, init);
      forall i | 0 <= i < |r'| ensures r'[i].cls != last.cls {
        assert r'[i] in r';
        if r'[i] != x {
          var j :| 0 <= j < |init| && init[j] == r'[i];
          assert s[j] == init[j];
        }
      }
    }
  }

  /** The sort is a permutation of its input. */
  lemma {:induction false} SortPermutes(s: seq<ClassCount>)
    ensures multiset(SortByCount(s)) == multiset(s)
  {
    if s != [] {
      var init, last := s[..|s| - 1], s[|s| - 1];
      SortPermutes(init);
      InsertPermutes(last, SortByCount(init));
      assert s == init + [last];
    }
  }

  lemma {:induction false} SortMembers(s: seq<ClassCount>)
    ensures |SortByCount(s)| == |s|
    ensures forall y :: y in SortByCount(s) <==> y in s
  {
    SortPermutes(s);
    assert |multiset(SortByCount(s))| == |multiset(s)|;
    forall y ensures y in SortByCount(s) <==> y in s {
      assert y in SortByCount(s) <==> y in multiset(SortByCount(s));
      assert y in s <==> y in multiset(s);
    }
  }

  /** The sort orders by descending count. */
  lemma {:induction false} SortSorted(s: seq<ClassCount>)
    ensures SortedByCount(SortByCount(s))
  {
    if s != [] {
      SortSorted(s[..|s| - 1]);
      InsertSorted(s[|s| - 1], SortByCount(s[..|s| - 1]));
    }
  }

  /** The sort is stable: the items of each count keep their input order. */
  lemma {:induction false} SortStable(s: seq<ClassCount>, v: nat)
    ensures WithCount(SortByCount(s), v) == WithCount(s, v)
  {
    if s != [] {
      var init := s[..|s| - 1];
      SortStable(init, v);
      InsertWithCount(s[|s| - 1], SortByCount(init), v);
      WithCountSnoc(init, s[|s| - 1], v);
      assert s == init + [s[|s| - 1]];
    }
  }

  /** Sorting items with distinct classes keeps them distinct. */
  lemma {:induction false} SortDistinct(s: seq<ClassCount>)
    requires ClassesDistinct(s)
    ensures ClassesDistinct(SortByCount(s))
  {
    if s != [] {
      var init, last := s[..|s| - 1], s[|s| - 1];
      SortDistinct(init);
      SortMembers(init);
      var sorted := SortByCount(init);
      forall i | 0 <= i < |sorted| ensures sorted[i].cls != last.cls {
        assert sorted[i] in sorted;
        var j :| 0 <= j < |init| && init[j] == sorted[i];
        assert s[j] == init[j];
      }
      InsertDistinct(last, sorted);
    }
  }

  lemma {:induction false} MostCommonSorted(items: seq<ClassCount>, n: nat)
    ensures |MostCommon(items, n)| == (if |items| <= n then |items| else n)
    ensures SortedByCount(MostCommon(items, n))
  {
    var sorted, top := SortByCount(items), MostCommon(items, n);
    SortMembers(items);
    SortSorted(items);
    forall i, j | 0 <= i < j < |top| ensures top[i].count >= top[j].count {
      assert top[i] == sorted[i] && top[j] == sorted[j];
    }
  }

  lemma {:induction false} MostCommonFromItems(items: seq<ClassCount>, n: nat)
    ensures forall y :: y in MostCommon(items, n) ==> y in items
  {
    var sorted, top := SortByCount(items), MostCommon(items, n);
    SortMembers(items);
    forall y | y in top ensures y in items {
      var i :| 0 <= i < |top| && top[i] == y;
      assert sorted[i] == y;
    }
  }

  lemma {:induction false} MostCommonMaximal(items: seq<ClassCount>, n: nat)
    ensures forall y :: y in items && y !in MostCommon(items, n) ==>
              forall i :: 0 <= i < |MostCommon(items, n)| ==> y.count <= MostCommon(items, n)[i].count
  {
    var sorted, top := SortByCount(items), MostCommon(items, n);
    SortMembers(items);
    SortSorted(items);
    forall y, i | y in items && y !in top && 0 <= i < |top| ensures y.count <= top[i].count {
      var j :| 0 <= j < |sorted| && sorted[j] == y;
      assert j >= |top|;
      assert top[i] == sorted[i];
    }
  }

  lemma {:induction false} MostCommonDistinct(items: seq<ClassCount>, n: nat)
    requires ClassesDistinct(items)
    ensures ClassesDistinct(MostCommon(items, n))
  {
    var sorted, top := SortByCount(items), MostCommon(items, n);
    SortDistinct(items);
    forall i, j | 0 <= i < j < |top| ensures top[i].cls != top[j].cls {
      assert top[i] == sorted[i] && top[j] == sorted[j];
    }
  }

  /** The items of `s[..k]` of one count are a prefix of the items of `s` of that count. */
  lemma {:induction false} WithCountPrefix(s: seq<ClassCount>, k: nat, v: nat)
    requires k <= |s|
    ensures WithCount(s[..k], v) <= WithCount(s, v)
  {
    if k < |s| {
      var init := s[..|s| - 1];
      assert s[..k] == init[..k];
      WithCountPrefix(init, k, v);
      assert WithCount(init, v) <= WithCount(s, v);
    } else {
      assert s[..k] == s;
    }
  }

  /**
   * Among the items of one count, `most_common(n)` keeps a prefix of the Counter's items
   * of that count: ties are listed in the Counter's order.
   */
  lemma {:induction false} MostCommonStable(items: seq<ClassCount>, n: nat)
    ensures forall v :: WithCount(MostCommon(items, n), v) <= WithCount(items, v)
  {
    var sorted := SortByCount(items);
    forall v ensures WithCount(MostCommon(items, n), v) <= WithCount(items, v) {
      SortStable(items, v);
      if n < |sorted| {
        WithCountPrefix(sorted, n, v);
      }
    }
  }

  /** An item of count `v` has a place among the items of count `v`. */
  lemma {:induction false} WithCountHas(s: seq<ClassCount>, i: nat, v: nat)
    requires i < |s| && s[i].count == v
    ensures exists a :: 0 <= a < |WithCount(s, v)| && WithCount(s, v)[a] == s[i]
  {
    var init := s[..|s| - 1];
    var w := WithCount(init, v);
    if i < |s| - 1 {
      WithCountHas(init, i, v);
      var a :| 0 <= a < |w| && w[a] == init[i];
      assert WithCount(s, v)[a] == s[i];
    } else {
      assert WithCount(s, v)[|w|] == s[i];
    }
  }

  /** Two items of count `v` keep their order among the items of count `v`. */
  lemma {:induction false} WithCountKeepsOrder(s: seq<ClassCount>, i: nat, j: nat, v: nat)
    requires i < j < |s| && s[i].count == v && s[j].count == v
    ensures exists a, b :: 0 <= a < b < |WithCount(s, v)| && WithCount(s, v)[a] == s[i] && WithCount(s, v)[b] == s[j]
  {
    var init := s[..|s| - 1];
    var w := WithCount(init, v);
    if j < |s| - 1 {
      WithCountKeepsOrder(init, i, j, v);
      var a, b :| 0 <= a < b < |w| && w[a] == init[i] && w[b] == init[j];
      assert WithCount(s, v)[a] == s[i] && WithCount(s, v)[b] == s[j];
    } else {
      WithCountHas(init, i, v);
      var a :| 0 <= a < |w| && w[a] == init[i];
      assert WithCount(s, v)[a] == s[i] && WithCount(s, v)[|w|] == s[j];
    }
  }

  /** The items of count `v` come from `s`. */
  lemma {:induction false} WithCountFrom(s: seq<ClassCount>, a: nat, v: nat)
    requires a < |WithCount(s, v)|
    ensures exists p :: 0 <= p < |s| && s[p] == WithCount(s, v)[a]
  {
    var init := s[..|s| - 1];
    var w := WithCount(init, v);
    if a < |w| {
      WithCountFrom(init, a, v);
      var p :| 0 <= p < |init| && init[p] == w[a];
      assert s[p] == WithCount(s, v)[a];
    } else {
      assert s[|s| - 1] == WithCount(s, v)[a];
    }
  }

  /** The items of count `v` appear in `s` in the same order. */
  lemma {:induction false} WithCountInOrder(s: seq<ClassCount>, a: nat, b: nat, v: nat)
    requires a < b < |WithCount(s, v)|
    ensures exists p, q :: 0 <= p < q < |s| && s[p] == WithCount(s, v)[a] && s[q] == WithCount(s, v)[b]
  {
    var init := s[..|s| - 1];
    var w := WithCount(init, v);
    if b < |w| {
      WithCountInOrder(init, a, b, v);
      var p, q :| 0 <= p < q < |init| && init[p] == w[a] && init[q] == w[b];
      assert s[p] == WithCount(s, v)[a] && s[q] == WithCount(s, v)[b];
    } else {
      WithCountFrom(init, a, v);
      var p :| 0 <= p < |init| && init[p] == w[a];
      assert s[p] == WithCount(s, v)[a] && s[|s| - 1] == WithCount(s, v)[b];
    }
  }

  /**
   * `most_common(n)` keeps at most `n` items, in descending count order, each an item of
   * the Counter, no item left out counts more than any item kept, and items of equal
   * count are listed in the Counter's order.
   */
  lemma {:induction false} MostCommonProperties(items: seq<ClassCount>, n: nat)
    ensures |MostCommon(items, n)| == (if |items| <= n then |items| else n)
    ensures SortedByCount(MostCommon(items, n))
    ensures forall y :: y in MostCommon(items, n) ==> y in items
    ensures forall y :: y in items && y !in MostCommon(items, n) ==>
              forall i :: 0 <= i < |MostCommon(items, n)| ==> y.count <= MostCommon(items, n)[i].count
    ensures ClassesDistinct(items) ==> ClassesDistinct(MostCommon(items, n))
    ensures forall v :: WithCount(MostCommon(items, n), v) <= WithCount(items, v)
  {
    MostCommonSorted(items, n);
    MostCommonFromItems(items, n);
    MostCommonMaximal(items, n);
    MostCommonStable(items, n);
    if ClassesDistinct(items) {
      MostCommonDistinct(items, n);
    }
  }

  // ---------------------------------------------------------------- the summary

  /** The comprehension building one entry per most-common item. */
  function Stats(top: seq<ClassCount>, confidences: map<string, seq<real>>, total: nat): seq<ClassStat>
    requires forall i :: 0 <= i < |top| ==> top[i].cls in confidences && |confidences[top[i].cls]| > 0
  {
    seq(|top|, i requires 0 <= i < |top| =>
      ClassStat(top[i].cls, top[i].count, Mean(confidences[top[i].cls]), total))
  }

  /** The Counter's items are the detected classes in first-seen order with their counts. */
  lemma {:induction false} CounterItemsProperties(dets: seq<Detection>)
    ensures |CounterItems(dets)| == |FirstSeen(dets)|
    ensures forall i :: 0 <= i < |CounterItems(dets)| ==>
              CounterItems(dets)[i] == ClassCount(FirstSeen(dets)[i], CountOf(FirstSeen(dets)[i], dets))
    ensures forall y :: y in CounterItems(dets) ==>
              y.cls in FirstSeen(dets) && y.count == CountOf(y.cls, dets) && y.count >= 1
    ensures forall c :: Occurs(c, dets) ==> ClassCount(c, CountOf(c, dets)) in CounterItems(dets)
    ensures ClassesDistinct(CounterItems(dets))
  {
    var fs, items := FirstSeen(dets), CounterItems(dets);
    FirstSeenProperties(dets);
    forall y | y in items
      ensures y.cls in fs && y.count == CountOf(y.cls, dets) && y.count >= 1
    {
      var i :| 0 <= i < |items| && items[i] == y;
      assert y.cls == fs[i];
      CountProperties(y.cls, dets);
    }
    forall c | Occurs(c, dets) ensures ClassCount(c, CountOf(c, dets)) in items {
      var i :| 0 <= i < |fs| && fs[i] == c;
      assert items[i] == ClassCount(c, CountOf(c, dets));
    }
  }

  /** The top items of a detection list's Counter; every one of them occurs. */
  function TopItems(dets: seq<Detection>): (top: seq<ClassCount>)
    ensures forall i :: 0 <= i < |top| ==>
              top[i].cls in ConfidenceMap(dets) && |ConfidenceMap(dets)[top[i].cls]| == top[i].count >= 1
  {
    var top := MostCommon(CounterItems(dets), TopClasses);
    MostCommonProperties(CounterItems(dets), TopClasses);
    CounterItemsProperties(dets);
    assert forall i :: 0 <= i < |top| ==> top[i] in CounterItems(dets) by {
      forall i | 0 <= i < |top| ensures top[i] in CounterItems(dets) {
        assert top[i] in top;
      }
    }
    forall i | 0 <= i < |top| ensures top[i].cls in ConfidenceMap(dets) && |ConfidenceMap(dets)[top[i].cls]| == top[i].count {
      CountProperties(top[i].cls, dets);
    }
    top
  }

  /** Two kept items of equal count appear in the Counter's items in the same order. */
  lemma {:induction false} MostCommonTies(items: seq<ClassCount>, n: nat, i: nat, j: nat)
    requires i < j < |MostCommon(items, n)| && MostCommon(items, n)[i].count == MostCommon(items, n)[j].count
    ensures exists p, q :: 0 <= p < q < |items| && items[p] == MostCommon(items, n)[i] && items[q] == MostCommon(items, n)[j]
  {
    var top := MostCommon(items, n);
    var v := top[i].count;
    MostCommonStable(items, n);
    WithCountKeepsOrder(top, i, j, v);
    var wt, wi := WithCount(top, v), WithCount(items, v);
    var a, b :| 0 <= a < b < |wt| && wt[a] == top[i] && wt[b] == top[j];
    assert wt <= wi;
    assert wi[a] == top[i] && wi[b] == top[j];
    WithCountInOrder(items, a, b, v);
  }

  /** Top items of equal count are listed in the order their classes were first detected. */
  lemma {:induction false} TopItemsTies(dets: seq<Detection>)
    ensures forall i, j :: 0 <= i < j < |TopItems(dets)| && TopItems(dets)[i].count == TopItems(dets)[j].count ==>
              Before(FirstSeen(dets), TopItems(dets)[i].cls, TopItems(dets)[j].cls)
  {
    var items, top := CounterItems(dets), TopItems(dets);
    forall i, j | 0 <= i < j < |top| && top[i].count == top[j].count
      ensures Before(FirstSeen(dets), top[i].cls, top[j].cls)
    {
      MostCommonTies(items, TopClasses, i, j);
      var p, q :| 0 <= p < q < |items| && items[p] == top[i] && items[q] == top[j];
      assert FirstSeen(dets)[p] == top[i].cls && FirstSeen(dets)[q] == top[j].cls;
    }
  }

  /** The `detections` part of `predict`'s response for a detection list. */
  function Summary(dets: seq<Detection>): seq<ClassStat>
  {
    Stats(TopItems(dets), ConfidenceMap(dets), |dets|)
  }

  /**
   * The top items: at most five, each a detected class with its count, in descending
   * count order, each class once, no class left out detected more often, and items of
   * equal count in the order their classes were first detected.
   */
  lemma {:induction false} TopItemsProperties(dets: seq<Detection>)
    ensures var top := TopItems(dets);
            && |top| == (if |FirstSeen(dets)| <= TopClasses then |FirstSeen(dets)| else TopClasses)
            && (forall i :: 0 <= i < |top| ==> top[i].cls in FirstSeen(dets) && top[i].count == CountOf(top[i].cls, dets) >= 1)
            && SortedByCount(top)
            && ClassesDistinct(top)
            && (forall c :: Occurs(c, dets) && (forall i :: 0 <= i < |top| ==> top[i].cls != c) ==>
                  forall i :: 0 <= i < |top| ==> CountOf(c, dets) <= top[i].count)
            && (forall i, j :: 0 <= i < j < |top| && top[i].count == top[j].count ==>
                  Before(FirstSeen(dets), top[i].cls, top[j].cls))
  {
    var items, top := CounterItems(dets), TopItems(dets);
    CounterItemsProperties(dets);
    MostCommonProperties(items, TopClasses);
    TopItemsTies(dets);
    forall i | 0 <= i < |top|
      ensures top[i].cls in FirstSeen(dets) && top[i].count == CountOf(top[i].cls, dets) >= 1
    {
      assert top[i] in top;
    }
    forall c, i | Occurs(c, dets) && (forall k :: 0 <= k < |top| ==> top[k].cls != c) && 0 <= i < |top|
      ensures CountOf(c, dets) <= top[i].count
    {
      var y := ClassCount(c, CountOf(c, dets));
      assert y in items;
      assert y !in top;
    }
  }

  /**
   * The `detections` entries for a non-empty detection list: one to five, each a detected
   * class with its count, its mean confidence and the overall number of detections, in
   * descending count order, each class once, no class left out detected more often, and
   * entries of equal count in the order their classes were first detected.
   */
  lemma {:induction false} SummaryProperties(dets: seq<Detection>)
    requires dets != []
    ensures var s := Summary(dets);
            && |s| == (if |FirstSeen(dets)| <= TopClasses then |FirstSeen(dets)| else TopClasses)
            && 1 <= |s| <= TopClasses
            && (forall i :: 0 <= i < |s| ==>
                  && s[i].count == CountOf(s[i].cls, dets) >= 1
                  && s[i].confidence == Mean(ConfidencesOf(s[i].cls, dets))
                  && s[i].totalDetections == |dets|)
            && (forall i, j :: 0 <= i < j < |s| ==> s[i].count >= s[j].count && s[i].cls != s[j].cls)
            && (forall c :: Occurs(c, dets) && (forall i :: 0 <= i < |s| ==> s[i].cls != c) ==>
                  forall i :: 0 <= i < |s| ==> CountOf(c, dets) <= s[i].count)
            && (forall i, j :: 0 <= i < j < |s| && s[i].count == s[j].count ==>
                  Before(FirstSeen(dets), s[i].cls, s[j].cls))
  {
    TopItemsProperties(dets);
    SummaryEntries(dets);
    SummaryTies(dets);
    FirstSeenProperties(dets);
    assert |FirstSeen(dets)| >= 1;
  }

  /** Entries of equal count are listed in the order their classes were first detected. */
  lemma {:induction false} SummaryTies(dets: seq<Detection>)
    ensures forall i, j :: 0 <= i < j < |Summary(dets)| && Summary(dets)[i].count == Summary(dets)[j].count ==>
              Before(FirstSeen(dets), Summary(dets)[i].cls, Summary(dets)[j].cls)
  {
    var s, top := Summary(dets), TopItems(dets);
    TopItemsTies(dets);
    SummaryEntries(dets);
    forall i, j | 0 <= i < j < |s| && s[i].count == s[j].count
      ensures Before(FirstSeen(dets), s[i].cls, s[j].cls)
    {
      assert s[i].cls == top[i].cls && s[j].cls == top[j].cls;
      assert top[i].count == top[j].count;
    }
  }

  /** Entry `i` of the summary describes top item `i`. */
  lemma {:induction false} SummaryEntries(dets: seq<Detection>)
    ensures |Summary(dets)| == |TopItems(dets)|
    ensures forall i :: 0 <= i < |TopItems(dets)| ==>
              Summary(dets)[i] == ClassStat(TopItems(dets)[i].cls, TopItems(dets)[i].count,
                                            Mean(ConfidencesOf(TopItems(dets)[i].cls, dets)), |dets|)
  {
    var top := TopItems(dets);
    forall i | 0 <= i < |top|
      ensures ConfidenceMap(dets)[top[i].cls] == ConfidencesOf(top[i].cls, dets)
    {
    }
  }

  // ---------------------------------------------------------------- reported counts

  /** The sum of the items' counts. */
  function TotalCount(s: seq<ClassCount>): nat
  {
    if s == [] then 0 else TotalCount(s[..|s| - 1]) + s[|s| - 1].count
  }

  /** The sum of the counts reported in the `detections` entries. */
  function ReportedCount(s: seq<ClassStat>): nat
  {
    if s == [] then 0 else ReportedCount(s[..|s| - 1]) + s[|s| - 1].count
  }

  lemma {:induction false} TotalCountAppend(a: seq<ClassCount>, b: seq<ClassCount>)
    ensures TotalCount(a + b) == TotalCount(a) + TotalCount(b)
  {
    if b != [] {
      var init := b[..|b| - 1];
      assert (a + b)[..|a + b| - 1] == a + init;
      TotalCountAppend(a, init);
    } else {
      assert a + b == a;
    }
  }

  lemma {:induction false} InsertTotal(x: ClassCount, s: seq<ClassCount>)
    ensures TotalCount(InsertByCount(x, s)) == TotalCount(s) + x.count
  {
    if s == [] || s[|s| - 1].count >= x.count {
      assert (s + [x])[..|s|] == s;
    } else {
      var init, last := s[..|s| - 1], s[|s| - 1];
      var r' := InsertByCount(x, init);
      InsertTotal(x, init);
      assert (r' + [last])[..|r'|] == r';
    }
  }

  /** Sorting keeps the sum of the counts. */
  lemma {:induction false} SortTotal(s: seq<ClassCount>)
    ensures TotalCount(SortByCount(s)) == TotalCount(s)
  {
    if s != [] {
      SortTotal(s[..|s| - 1]);
      InsertTotal(s[|s| - 1], SortByCount(s[..|s| - 1]));
    }
  }

  /** Items pairing each class of `cs` with its count sum to the classes' counts. */
  lemma {:induction false} ItemsTotal(items: seq<ClassCount>, cs: seq<string>, dets: seq<Detection>)
    requires |items| == |cs|
    requires forall i :: 0 <= i < |items| ==> items[i] == ClassCount(cs[i], CountOf(cs[i], dets))
    ensures TotalCount(items) == SumCounts(cs, dets)
  {
    if items != [] {
      ItemsTotal(items[..|items| - 1], cs[..|cs| - 1], dets);
    }
  }

  /** Items that each count at least once sum to at least their number. */
  lemma {:induction false} TotalAtLeastLength(s: seq<ClassCount>)
    requires forall i :: 0 <= i < |s| ==> s[i].count >= 1
    ensures TotalCount(s) >= |s|
  {
    if s != [] {
      TotalAtLeastLength(s[..|s| - 1]);
    }
  }

  /** Entries carrying the items' counts report the items' total. */
  lemma {:induction false} ReportedMatches(s: seq<ClassStat>, top: seq<ClassCount>)
    requires |s| == |top|
    requires forall i :: 0 <= i < |s| ==> s[i].count == top[i].count
    ensures ReportedCount(s) == TotalCount(top)
  {
    if s != [] {
      ReportedMatches(s[..|s| - 1], top[..|top| - 1]);
    }
  }

  /** The Counter's counts add up to the number of detections. */
  lemma {:induction false} CounterTotal(dets: seq<Detection>)
    ensures TotalCount(CounterItems(dets)) == |dets|
  {
    CounterItemsProperties(dets);
    ItemsTotal(CounterItems(dets), FirstSeen(dets), dets);
    CountsSumToTotal(dets);
  }

  /** The reported counts are the top items' counts. */
  lemma {:induction false} ReportedTopTotal(dets: seq<Detection>)
    ensures ReportedCount(Summary(dets)) == TotalCount(TopItems(dets))
  {
    SummaryEntries(dets);
    ReportedMatches(Summary(dets), TopItems(dets));
  }

  /** With more than five classes the items left out of the top count at least once. */
  lemma {:induction false} TopTotalBelow(dets: seq<Detection>)
    requires |FirstSeen(dets)| > TopClasses
    ensures TotalCount(TopItems(dets)) < TotalCount(SortByCount(CounterItems(dets)))
  {
    var items, top := CounterItems(dets), TopItems(dets);
    var sorted := SortByCount(items);
    CounterItemsProperties(dets);
    SortMembers(items);
    var rest := sorted[TopClasses..];
    assert sorted == top + rest;
    TotalCountAppend(top, rest);
    forall i | 0 <= i < |rest| ensures rest[i].count >= 1 {
      assert rest[i] == sorted[TopClasses + i];
      assert rest[i] in sorted;
    }
    TotalAtLeastLength(rest);
  }

  /**
   * The counts reported in `detections` add up to `len(all_detections)` exactly when at
   * most five classes were detected; with more, the classes left out are missing from it.
   */
  lemma {:induction false} SummaryCountsSum(dets: seq<Detection>)
    ensures |FirstSeen(dets)| <= TopClasses ==> ReportedCount(Summary(dets)) == |dets|
    ensures |FirstSeen(dets)| > TopClasses ==> ReportedCount(Summary(dets)) < |dets|
  {
    var items := CounterItems(dets);
    CounterTotal(dets);
    SortTotal(items);
    ReportedTopTotal(dets);
    if |FirstSeen(dets)| > TopClasses {
      TopTotalBelow(dets);
    } else {
      CounterItemsProperties(dets);
      SortMembers(items);
      assert TopItems(dets) == SortByCount(items);
    }
  }
}
