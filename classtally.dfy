/**
 * Per-class bookkeeping over a detection list: the `class_counts` / `class_confidences`
 * dictionaries that `infer_activity` builds and that `predict` builds again (as a
 * `Counter` and a dictionary of confidence lists) for its summary.
 */
module ClassTally {
  import opened Common
  import opened DetectionAdapter

  /** The detected classes in first-seen order, each once (the dictionaries' key order). */
  function FirstSeen(dets: seq<Detection>): seq<string>
  {
    if dets == [] then []
    else
      var earlier := FirstSeen(dets[..|dets| - 1]);
      var c := dets[|dets| - 1].cls;
      if c in earlier then earlier else earlier + [c]
  }

  /** How many detections carry class `c`. */
  function CountOf(c: string, dets: seq<Detection>): nat
  {
    if dets == [] then 0
    else CountOf(c, dets[..|dets| - 1]) + (if dets[|dets| - 1].cls == c then 1 else 0)
  }

  /** The confidences of the detections of class `c`, in detection order. */
  function ConfidencesOf(c: string, dets: seq<Detection>): seq<real>
  {
    if dets == [] then []
    else
      var d := dets[|dets| - 1];
      ConfidencesOf(c, dets[..|dets| - 1]) + (if d.cls == c then [d.confidence] else [])
  }

  predicate Distinct(s: seq<string>)
  {
    forall i, j :: 0 <= i < j < |s| ==> s[i] != s[j]
  }

  predicate Occurs(c: string, dets: seq<Detection>)
  {
    exists i :: 0 <= i < |dets| && dets[i].cls == c
  }

  /** First-seen order lists exactly the classes that occur, each once. */
  lemma {:induction false} FirstSeenProperties(dets: seq<Detection>)
    ensures Distinct(FirstSeen(dets))
    ensures forall c :: c in FirstSeen(dets) <==> Occurs(c, dets)
    ensures |FirstSeen(dets)| <= |dets|
    ensures dets != [] ==> FirstSeen(dets) != [] && FirstSeen(dets)[0] == dets[0].cls
  {
    if dets != [] {
      var init := dets[..|dets| - 1];
      FirstSeenProperties(init);
      forall c ensures Occurs(c, dets) <==> Occurs(c, init) || dets[|dets| - 1].cls == c {
        if Occurs(c, init) {
          var i :| 0 <= i < |init| && init[i].cls == c;
          assert dets[i].cls == c;
        }
        if Occurs(c, dets) {
          var i :| 0 <= i < |dets| && dets[i].cls == c;
          if i < |init| {
            assert init[i].cls == c;
          }
        }
      }
      if init != [] {
        assert init[0] == dets[0];
      }
    }
  }

  /** A class is counted iff it occurs; the confidence list has one entry per detection. */
  lemma {:induction false} CountProperties(c: string, dets: seq<Detection>)
    ensures CountOf(c, dets) > 0 <==> Occurs(c, dets)
    ensures |ConfidencesOf(c, dets)| == CountOf(c, dets)
    ensures CountOf(c, dets) <= |dets|
  {
    if dets != [] {
      var init := dets[..|dets| - 1];
      CountProperties(c, init);
      if Occurs(c, init) {
        var i :| 0 <= i < |init| && init[i].cls == c;
        assert dets[i].cls == c;
      }
      if Occurs(c, dets) {
        var i :| 0 <= i < |dets| && dets[i].cls == c;
        if i < |init| {
          assert init[i].cls == c;
        }
      }
    }
  }

  /** Sum of the counts of the given classes. */
  function SumCounts(cs: seq<string>, dets: seq<Detection>): nat
  {
    if cs == [] then 0 else SumCounts(cs[..|cs| - 1], dets) + CountOf(cs[|cs| - 1], dets)
  }

  lemma {:induction false} SumCountsStep(cs: seq<string>, dets: seq<Detection>, d: Detection)
    requires Distinct(cs)
    ensures SumCounts(cs, dets + [d]) == SumCounts(cs, dets) + (if d.cls in cs then 1 else 0)
  {
    if cs != [] {
      var init := cs[..|cs| - 1];
      assert (dets + [d])[..|dets + [d]| - 1] == dets;
      SumCountsStep(init, dets, d);
      assert d.cls in cs <==> d.cls in init || d.cls == cs[|cs| - 1];
      if d.cls == cs[|cs| - 1] {
        assert d.cls !in init by {
          forall i | 0 <= i < |init| ensures init[i] != d.cls {
            assert init[i] == cs[i];
          }
        }
      }
    }
  }

  /** The per-class counts add up to the number of detections. */
  lemma {:induction false} CountsSumToTotal(dets: seq<Detection>)
    ensures SumCounts(FirstSeen(dets), dets) == |dets|
  {
    if dets != [] {
      var init := dets[..|dets| - 1];
      var d := dets[|dets| - 1];
      assert dets == init + [d];
      var earlier := FirstSeen(init);
      CountsSumToTotal(init);
      FirstSeenProperties(init);
      SumCountsStep(earlier, init, d);
      if d.cls !in earlier {
        assert FirstSeen(dets) == earlier + [d.cls];
        assert (earlier + [d.cls])[..|earlier|] == earlier;
        CountProperties(d.cls, init);
      }
    }
  }

  /** `order`, `counts` and `confidences` are the tallies of `dets`. */
  ghost predicate Tallied(dets: seq<Detection>, order: seq<string>, counts: map<string, nat>,
                    confidences: map<string, seq<real>>)
  {
    && order == FirstSeen(dets)
    && (forall c :: c in counts <==> c in order)
    && (forall c :: c in confidences <==> c in order)
    && (forall c :: c in counts ==> counts[c] == CountOf(c, dets))
    && (forall c :: c in confidences ==> confidences[c] == ConfidencesOf(c, dets))
  }

  /** A class not yet tallied has no detections so far. */
  lemma {:induction false} Untallied(dets: seq<Detection>, c: string)
    requires c !in FirstSeen(dets)
    ensures CountOf(c, dets) == 0 && ConfidencesOf(c, dets) == []
  {
    FirstSeenProperties(dets);
    CountProperties(c, dets);
  }

  lemma {:induction false} CountsStep(dets: seq<Detection>, i: nat, counts0: map<string, nat>, counts: map<string, nat>)
    requires i < |dets|
    requires forall k :: k in counts0 ==> counts0[k] == CountOf(k, dets[..i])
    requires dets[i].cls !in counts0 ==> CountOf(dets[i].cls, dets[..i]) == 0
    requires forall k :: k in counts ==> k in counts0 || k == dets[i].cls
    requires dets[i].cls in counts
    requires counts[dets[i].cls] == (if dets[i].cls in counts0 then counts0[dets[i].cls] else 0) + 1
    requires forall k :: k in counts0 && k != dets[i].cls ==> k in counts && counts[k] == counts0[k]
    ensures forall k :: k in counts ==> counts[k] == CountOf(k, dets[..i + 1])
  {
    assert dets[..i + 1][..i] == dets[..i];
  }

  lemma {:induction false} ConfidencesStep(dets: seq<Detection>, i: nat, confidences0: map<string, seq<real>>,
                        confidences: map<string, seq<real>>)
    requires i < |dets|
    requires forall k :: k in confidences0 ==> confidences0[k] == ConfidencesOf(k, dets[..i])
    requires dets[i].cls !in confidences0 ==> ConfidencesOf(dets[i].cls, dets[..i]) == []
    requires forall k :: k in confidences ==> k in confidences0 || k == dets[i].cls
    requires dets[i].cls in confidences
    requires confidences[dets[i].cls] ==
               (if dets[i].cls in confidences0 then confidences0[dets[i].cls] else []) + [dets[i].confidence]
    requires forall k :: k in confidences0 && k != dets[i].cls ==> k in confidences && confidences[k] == confidences0[k]
    ensures forall k :: k in confidences ==> confidences[k] == ConfidencesOf(k, dets[..i + 1])
  {
    assert dets[..i + 1][..i] == dets[..i];
  }

  /** One pass of the counting loop keeps the tallies exact. */
  lemma {:induction false} TallyExtend(dets: seq<Detection>, i: nat, order0: seq<string>, counts0: map<string, nat>,
                    confidences0: map<string, seq<real>>, order: seq<string>,
                    counts: map<string, nat>, confidences: map<string, seq<real>>)
    requires i < |dets| && Tallied(dets[..i], order0, counts0, confidences0)
    requires var c := dets[i].cls;
             && order == (if c in counts0 then order0 else order0 + [c])
             && (forall k :: k in counts <==> k in counts0 || k == c)
             && (forall k :: k in confidences <==> k in confidences0 || k == c)
             && counts[c] == (if c in counts0 then counts0[c] else 0) + 1
             && confidences[c] == (if c in confidences0 then confidences0[c] else []) + [dets[i].confidence]
             && (forall k :: k in counts0 && k != c ==> counts[k] == counts0[k])
             && (forall k :: k in confidences0 && k != c ==> confidences[k] == confidences0[k])
    ensures order == FirstSeen(dets[..i + 1])
    ensures forall k :: k in counts <==> k in order
    ensures forall k :: k in confidences <==> k in order
    ensures forall k :: k in counts ==> counts[k] == CountOf(k, dets[..i + 1])
    ensures forall k :: k in confidences ==> confidences[k] == ConfidencesOf(k, dets[..i + 1])
  {
    var c, before, after := dets[i].cls, dets[..i], dets[..i + 1];
    assert c !in counts0 ==> CountOf(c, before) == 0 && ConfidencesOf(c, before) == [] by {
      if c !in order0 {
        Untallied(before, c);
      }
    }
    assert order == FirstSeen(after) by {
      assert after[..i] == before;
    }
    assert forall k :: k in order <==> k in order0 || k == c;
    assert forall k :: k in counts <==> k in order;
    assert forall k :: k in confidences <==> k in order;
    assert forall k :: k in counts ==> counts[k] == CountOf(k, after) by {
      CountsStep(dets, i, counts0, counts);
    }
    assert forall k :: k in confidences ==> confidences[k] == ConfidencesOf(k, after) by {
      ConfidencesStep(dets, i, confidences0, confidences);
    }
  }

  /** Exact tallies answer every question about a class. */
  lemma {:induction false} TalliedFacts(dets: seq<Detection>, order: seq<string>, counts: map<string, nat>,
                     confidences: map<string, seq<real>>)
    requires Tallied(dets, order, counts, confidences)
    ensures forall c :: c in counts <==> Occurs(c, dets)
    ensures forall c :: c in confidences <==> Occurs(c, dets)
    ensures forall c :: CountOf(c, dets) == (if c in counts then counts[c] else 0)
  {
    FirstSeenProperties(dets);
    forall c ensures CountOf(c, dets) == (if c in counts then counts[c] else 0) {
      CountProperties(c, dets);
    }
  }

  /** The counts of all tallied classes. */
  function CountMap(dets: seq<Detection>): map<string, nat>
  {
    map c | c in FirstSeen(dets) :: CountOf(c, dets)
  }

  /** The confidence lists of all tallied classes. */
  function ConfidenceMap(dets: seq<Detection>): map<string, seq<real>>
  {
    map c | c in FirstSeen(dets) :: ConfidencesOf(c, dets)
  }

  /** The counting loop's map is the tally map. */
  lemma {:induction false} TallyIsCountMap(dets: seq<Detection>, counts: map<string, nat>)
    requires forall c :: c in counts <==> Occurs(c, dets)
    requires forall c :: c in counts ==> counts[c] == CountOf(c, dets)
    ensures counts == CountMap(dets)
  {
    FirstSeenProperties(dets);
  }

  /** The loop's confidence map is the tally's. */
  lemma {:induction false} TallyIsConfidenceMap(dets: seq<Detection>, confidences: map<string, seq<real>>)
    requires forall c :: c in confidences <==> Occurs(c, dets)
    requires forall c :: c in confidences ==> confidences[c] == ConfidencesOf(c, dets)
    ensures confidences == ConfidenceMap(dets)
  {
    FirstSeenProperties(dets);
  }

  /** The counting loop: per-class counts and confidence lists, keys in first-seen order. */
  method Tally(dets: seq<Detection>)
    returns (order: seq<string>, counts: map<string, nat>, confidences: map<string, seq<real>>)
    ensures order == FirstSeen(dets)
    ensures forall c :: c in counts <==> Occurs(c, dets)
    ensures forall c :: c in confidences <==> Occurs(c, dets)
    ensures forall c :: c in counts ==> counts[c] == CountOf(c, dets)
    ensures forall c :: c in confidences ==> confidences[c] == ConfidencesOf(c, dets)
    ensures forall c :: CountOf(c, dets) == (if c in counts then counts[c] else 0)
  {
    order, counts, confidences := [], map[], map[];
    for i := 0 to |dets|
      invariant Tallied(dets[..i], order, counts, confidences)
    {
      var d := dets[i];
      ghost var order0, counts0, confidences0 := order, counts, confidences;
      if d.cls !in counts {
        order := order + [d.cls];
        counts := counts[d.cls := 0];
        confidences := confidences[d.cls := []];
      }
      counts := counts[d.cls := counts[d.cls] + 1];
      confidences := confidences[d.cls := confidences[d.cls] + [d.confidence]];
      TallyExtend(dets, i, order0, counts0, confidences0, order, counts, confidences);
    }
    assert dets[..|dets|] == dets;
    TalliedFacts(dets, order, counts, confidences);
  }
}
