/** `infer_activity`: ordered, cumulative phrase rules over per-class counts. */
module ActivityInference {
  import opened Common
  import opened DetectionAdapter
  import opened ClassTally

  /**
   * One phrase rule: it fires when class `cls` was counted at least `minCount` times
   * and, for a person-gated rule, the person gate holds as well.
   */
  datatype Rule = Rule(cls: string, minCount: nat, personGated: bool, phrase: string)

  /** The activity phrases. */
  const WatchingTv: string := "Person watching TV"
  const UsingLaptop: string := "Person using laptop"
  const UsingPhone: string := "Person using phone"
  const WithDog: string := "Person with dog"
  const WithCat: string := "Person with cat"
  const NearCar: string := "Person near car"
  const WithBicycle: string := "Person with bicycle"
  const Sitting: string := "Person sitting"
  const AtTable: string := "Person at table"
  const MultipleCars: string := "Multiple cars present"
  const TruckPresent: string := "Truck present"
  const BusPresent: string := "Bus present"
  const MotorcyclePresent: string := "Motorcycle present"
  const MultipleDogs: string := "Multiple dogs present"
  const MultipleCats: string := "Multiple cats present"

  /** The rules in the order their phrases are emitted. */
  const Rules: seq<Rule> := [
    Rule("tv", 1, true, WatchingTv),
    Rule("laptop", 1, true, UsingLaptop),
    Rule("cell phone", 1, true, UsingPhone),
    Rule("dog", 1, true, WithDog),
    Rule("cat", 1, true, WithCat),
    Rule("car", 1, true, NearCar),
    Rule("bicycle", 1, true, WithBicycle),
    Rule("chair", 1, true, Sitting),
    Rule("table", 1, true, AtTable),
    Rule("car", 2, false, MultipleCars),
    Rule("truck", 1, false, TruckPresent),
    Rule("bus", 1, false, BusPresent),
    Rule("motorcycle", 1, false, MotorcyclePresent),
    Rule("dog", 2, false, MultipleDogs),
    Rule("cat", 2, false, MultipleCats)
  ]

  /** How many of the rules are person-gated; they come first. */
  const PersonRuleCount: nat := 9

  const NoObjectsMessage: string := "No objects detected"
  const NoActivityMessage: string := "No specific activity detected"

  /** A class's count in a tally, zero for a class never seen. */
  function CountIn(counts: map<string, nat>, c: string): nat
  {
    if c in counts then counts[c] else 0
  }

  /** The person gate: at least two person detections with mean confidence above 0.5. */
  predicate PersonConfident(dets: seq<Detection>)
  {
    var confs := ConfidencesOf("person", dets);
    CountOf("person", dets) >= 2 && |confs| > 0 && Mean(confs) > 0.5
  }

  /** The count condition of a rule alone: `'cls' in class_counts and class_counts['cls'] >= n`. */
  predicate Matches(r: Rule, counts: map<string, nat>)
  {
    r.cls in counts && counts[r.cls] >= r.minCount
  }

  /** A rule fires when its count condition holds and, if person-gated, the gate holds. */
  predicate Fires(r: Rule, counts: map<string, nat>, personOk: bool)
  {
    Matches(r, counts) && (r.personGated ==> personOk)
  }

  /** The phrases of the firing rules, in rule order. */
  function FiredPhrases(rules: seq<Rule>, counts: map<string, nat>, personOk: bool): seq<string>
  {
    if rules == [] then []
    else
      var r := rules[|rules| - 1];
      FiredPhrases(rules[..|rules| - 1], counts, personOk)
      + (if Fires(r, counts, personOk) then [r.phrase] else [])
  }

  /** `[f"{count} {class_name}" for class_name, count in class_counts.items() if count > 0]` */
  function Described(order: seq<string>, counts: map<string, nat>): seq<string>
    requires forall c :: c in order ==> c in counts
  {
    if order == [] then []
    else
      var c := order[|order| - 1];
      Described(order[..|order| - 1], counts)
      + (if counts[c] > 0 then [NatToString(counts[c]) + " " + c] else [])
  }

  /** The activity string `infer_activity` returns. */
  function Activity(dets: seq<Detection>): string
  {
    if dets == [] then NoObjectsMessage
    else
      var fired := FiredPhrases(Rules, CountMap(dets), PersonConfident(dets));
      if fired != [] then Join(fired, "; ")
      else
        var parts := Described(FirstSeen(dets), CountMap(dets));
        if parts != [] then "Detected: " + Join(parts, ", ") else NoActivityMessage
  }

  // ---------------------------------------------------------------- properties

  /** The tally map gives every class its number of detections. */
  lemma {:induction false} CountMapAgrees(dets: seq<Detection>, c: string)
    ensures CountIn(CountMap(dets), c) == CountOf(c, dets)
  {
    FirstSeenProperties(dets);
    CountProperties(c, dets);
  }

  /** For a rule that asks for at least one detection, the count condition is on `CountOf`. */
  lemma {:induction false} MatchesCountOf(r: Rule, dets: seq<Detection>)
    requires r.minCount >= 1
    ensures Matches(r, CountMap(dets)) <==> CountOf(r.cls, dets) >= r.minCount
  {
    CountMapAgrees(dets, r.cls);
  }

  /** The gate stated without division: sum of person confidences above half their number. */
  lemma {:induction false} PersonGateWithoutDivision(dets: seq<Detection>)
    ensures PersonConfident(dets) <==>
              CountOf("person", dets) >= 2
              && Sum(ConfidencesOf("person", dets)) > (CountOf("person", dets) as real) / 2.0
  {
    CountProperties("person", dets);
    var confs := ConfidencesOf("person", dets);
    if CountOf("person", dets) >= 2 {
      MeanAboveHalf(Sum(confs), |confs| as real);
    }
  }

  /** For a positive count `n`, `total / n > 0.5` iff `total > n / 2`. */
  lemma {:induction false} MeanAboveHalf(total: real, n: real)
    requires n > 0.0
    ensures total / n > 0.5 <==> total > n / 2.0
  {
    var q := total / n;
    assert total == q * n;
    assert n / 2.0 == 0.5 * n;
    assert total - n / 2.0 == (q - 0.5) * n;
  }

  /** Rule order is phrase order: the phrase list distributes over a split of the rules. */
  lemma {:induction false} FiredAppend(a: seq<Rule>, b: seq<Rule>, counts: map<string, nat>, personOk: bool)
    ensures FiredPhrases(a + b, counts, personOk) ==
              FiredPhrases(a, counts, personOk) + FiredPhrases(b, counts, personOk)
    decreases |b|
  {
    if b != [] {
      var b' := b[..|b| - 1];
      assert (a + b)[..|a + b| - 1] == a + b';
      FiredAppend(a, b', counts, personOk);
    } else {
      assert a + b == a;
    }
  }

  /** A phrase is emitted iff one of its rules fires. */
  lemma {:induction false} FiredIff(rules: seq<Rule>, counts: map<string, nat>, personOk: bool, p: string)
    ensures p in FiredPhrases(rules, counts, personOk) <==>
              exists i :: 0 <= i < |rules| && rules[i].phrase == p && Fires(rules[i], counts, personOk)
  {
    if rules != [] {
      var init := rules[..|rules| - 1];
      FiredIff(init, counts, personOk, p);
      if exists i :: 0 <= i < |init| && init[i].phrase == p && Fires(init[i], counts, personOk) {
        var i :| 0 <= i < |init| && init[i].phrase == p && Fires(init[i], counts, personOk);
        assert rules[i] == init[i];
      }
      if exists i :: 0 <= i < |rules| && rules[i].phrase == p && Fires(rules[i], counts, personOk) {
        var i :| 0 <= i < |rules| && rules[i].phrase == p && Fires(rules[i], counts, personOk);
        if i < |init| {
          assert init[i] == rules[i];
        }
      }
    }
  }

  /** With pairwise different phrases, no phrase is emitted twice. */
  lemma {:induction false} FiredDistinct(rules: seq<Rule>, counts: map<string, nat>, personOk: bool)
    requires forall i, j :: 0 <= i < j < |rules| ==> rules[i].phrase != rules[j].phrase
    ensures Distinct(FiredPhrases(rules, counts, personOk))
  {
    if rules != [] {
      var init := rules[..|rules| - 1];
      var last := rules[|rules| - 1];
      FiredDistinct(init, counts, personOk);
      forall i | 0 <= i < |init| ensures init[i].phrase != last.phrase {
        assert init[i] == rules[i];
      }
      FiredIff(init, counts, personOk, last.phrase);
    }
  }

  lemma {:induction false} RulePhrasesDistinct()
    ensures forall i, j :: 0 <= i < j < |Rules| ==> Rules[i].phrase != Rules[j].phrase
  {
  }

  /**
   * The emitted phrases: each at most once, in rule order; a phrase appears iff its class
   * was detected often enough and, for the nine person phrases, the person gate (at least
   * two persons whose confidences sum to more than half their number) holds.
   */
  lemma {:induction false} ActivityPhrases(dets: seq<Detection>)
    ensures var fired := FiredPhrases(Rules, CountMap(dets), PersonConfident(dets));
            Distinct(fired)
            && (forall i :: 0 <= i < |Rules| ==>
                  (Rules[i].phrase in fired <==>
                     CountOf(Rules[i].cls, dets) >= Rules[i].minCount
                     && (i < PersonRuleCount ==>
                           CountOf("person", dets) >= 2
                           && Sum(ConfidencesOf("person", dets)) > (CountOf("person", dets) as real) / 2.0)))
  {
    var counts, ok := CountMap(dets), PersonConfident(dets);
    RulePhrasesDistinct();
    RuleShape();
    FiredDistinct(Rules, counts, ok);
    PersonGateWithoutDivision(dets);
    forall i | 0 <= i < |Rules|
      ensures Rules[i].phrase in FiredPhrases(Rules, counts, ok) <==> Fires(Rules[i], counts, ok)
      ensures Matches(Rules[i], counts) <==> CountOf(Rules[i].cls, dets) >= Rules[i].minCount
    {
      FiredIff(Rules, counts, ok, Rules[i].phrase);
      MatchesCountOf(Rules[i], dets);
    }
  }

  /** The phrase `f"{count} {class_name}"` for a class of the detection list. */
  function CountPhrase(c: string, dets: seq<Detection>): string
  {
    NatToString(CountOf(c, dets)) + " " + c
  }

  lemma {:induction false} DescribedAllCounted(order: seq<string>, dets: seq<Detection>)
    requires forall c :: c in order ==> c in CountMap(dets)
    ensures Described(order, CountMap(dets)) ==
              seq(|order|, i requires 0 <= i < |order| => CountPhrase(order[i], dets))
  {
    if order != [] {
      var init := order[..|order| - 1];
      var c := order[|order| - 1];
      DescribedAllCounted(init, dets);
      assert CountMap(dets)[c] == CountOf(c, dets) > 0 by {
        assert c in order && c in CountMap(dets);
        FirstSeenProperties(dets);
        CountProperties(c, dets);
      }
      var whole := seq(|order|, i requires 0 <= i < |order| => CountPhrase(order[i], dets));
      var front := seq(|init|, i requires 0 <= i < |init| => CountPhrase(init[i], dets));
      assert whole == front + [CountPhrase(c, dets)];
    }
  }

  /**
   * Without a firing rule, non-empty input yields the summary of every class with its
   * count, in first-seen order, joined by commas.
   */
  lemma {:induction false} FallbackSummary(dets: seq<Detection>)
    requires dets != [] && FiredPhrases(Rules, CountMap(dets), PersonConfident(dets)) == []
    ensures var fs := FirstSeen(dets);
            Activity(dets) == "Detected: " + Join(seq(|fs|, i requires 0 <= i < |fs| => CountPhrase(fs[i], dets)), ", ")
  {
    var fs := FirstSeen(dets);
    FirstSeenProperties(dets);
    DescribedAllCounted(fs, dets);
  }

  /** Every rule phrase starts with a capital other than `N`. */
  lemma {:induction false} FiredPhrasesInitials(rules: seq<Rule>, counts: map<string, nat>, personOk: bool)
    requires forall i :: 0 <= i < |rules| ==> |rules[i].phrase| > 0 && rules[i].phrase[0] != 'N'
    ensures forall k :: 0 <= k < |FiredPhrases(rules, counts, personOk)| ==>
              |FiredPhrases(rules, counts, personOk)[k]| > 0 && FiredPhrases(rules, counts, personOk)[k][0] != 'N'
  {
    if rules != [] {
      FiredPhrasesInitials(rules[..|rules| - 1], counts, personOk);
    }
  }

  /**
   * The outcomes are told apart: only empty input gives the "no objects" message, and the
   * "no specific activity" message is never produced.
   */
  lemma {:induction false} ActivityOutcomes(dets: seq<Detection>)
    ensures dets == [] <==> Activity(dets) == NoObjectsMessage
    ensures Activity(dets) != NoActivityMessage
  {
    if dets != [] {
      var fired := FiredPhrases(Rules, CountMap(dets), PersonConfident(dets));
      if fired == [] {
        FallbackSummary(dets);
        assert Activity(dets)[0] == 'D';
      } else {
        FiredPhrasesInitials(Rules, CountMap(dets), PersonConfident(dets));
        JoinFirst(fired, "; ");
        assert Activity(dets)[0] != 'N';
      }
    }
  }

  // ---------------------------------------------------------------- the method

  /** The shape of the rule table: the person-gated rules first, each asking for a detection. */
  lemma {:induction false} RuleShape()
    ensures |Rules| == 15
    ensures forall k :: 0 <= k < |Rules| ==> (Rules[k].personGated <==> k < PersonRuleCount)
    ensures forall k :: 0 <= k < |Rules| ==> Rules[k].minCount >= 1
  {
  }

  /** Without the person gate none of the person rules fires. */
  lemma {:induction false} GatedPrefixSilent(rules: seq<Rule>, k: nat, counts: map<string, nat>)
    requires k <= |rules| && forall i :: 0 <= i < k ==> rules[i].personGated
    ensures FiredPhrases(rules[..k], counts, false) == []
  {
    if k > 0 {
      GatedPrefixSilent(rules, k - 1, counts);
      assert rules[..k][..k - 1] == rules[..k - 1];
    }
  }

  /**
   * One `if` of the chain, `if 'cls' in class_counts and class_counts['cls'] >= n:
   * activities.append(phrase)`, for rule `k` of the table `rules`, which names `cls`, `n`
   * and `phrase`. Applied to the phrases of the rules before it, it yields the phrases of
   * the rules up to and including it.
   */
  method ApplyRule(activities: seq<string>, counts: map<string, nat>, rules: seq<Rule>, k: int,
                   ghost personOk: bool)
    returns (result: seq<string>)
    requires 0 <= k < |rules| && (rules[k].personGated ==> personOk)
    ensures result == activities + (if Matches(rules[k], counts) then [rules[k].phrase] else [])
    ensures activities == FiredPhrases(rules[..k], counts, personOk) ==>
              result == FiredPhrases(rules[..k + 1], counts, personOk)
  {
    var r := rules[k];
    result := activities;
    if r.cls in counts && counts[r.cls] >= r.minCount {
      result := result + [r.phrase];
    }
    assert rules[..k + 1][..k] == rules[..k];
  }

  /**
   * The nine person `if`s, taken once the person gate has passed, over the rule table
   * `rules` (`InferActivity` passes `Rules`).
   */
  method PersonActivities(counts: map<string, nat>, rules: seq<Rule>) returns (activities: seq<string>)
    requires |rules| == 15 && forall k :: 0 <= k < PersonRuleCount ==> rules[k].personGated
    ensures activities == FiredPhrases(rules[..PersonRuleCount], counts, true)
  {
    activities := [];
    assert rules[..0] == [];
    activities := ApplyRule(activities, counts, rules, 0, true);
    activities := ApplyRule(activities, counts, rules, 1, true);
    activities := ApplyRule(activities, counts, rules, 2, true);
    activities := ApplyRule(activities, counts, rules, 3, true);
    activities := ApplyRule(activities, counts, rules, 4, true);
    activities := ApplyRule(activities, counts, rules, 5, true);
    activities := ApplyRule(activities, counts, rules, 6, true);
    activities := ApplyRule(activities, counts, rules, 7, true);
    activities := ApplyRule(activities, counts, rules, 8, true);
  }

  /** The vehicle and pet `if`s, appended after whatever the person `if`s produced. */
  method OtherActivities(counts: map<string, nat>, rules: seq<Rule>, activities0: seq<string>,
                         ghost personOk: bool)
    returns (activities: seq<string>)
    requires |rules| == 15 && forall k :: PersonRuleCount <= k < 15 ==> !rules[k].personGated
    requires activities0 == FiredPhrases(rules[..PersonRuleCount], counts, personOk)
    ensures activities == FiredPhrases(rules, counts, personOk)
  {
    activities := activities0;
    activities := ApplyRule(activities, counts, rules, 9, personOk);
    activities := ApplyRule(activities, counts, rules, 10, personOk);
    activities := ApplyRule(activities, counts, rules, 11, personOk);
    activities := ApplyRule(activities, counts, rules, 12, personOk);
    activities := ApplyRule(activities, counts, rules, 13, personOk);
    activities := ApplyRule(activities, counts, rules, 14, personOk);
    assert rules[..15] == rules;
  }

  /** The loop of `infer_activity` that averages each class's confidences. */
  method Averages(order: seq<string>, confidences: map<string, seq<real>>)
    returns (averages: map<string, real>)
    requires forall c :: c in order ==> c in confidences && |confidences[c]| > 0
    ensures forall c :: c in averages <==> c in order
    ensures forall c :: c in averages ==> averages[c] == Mean(confidences[c])
  {
    averages := map[];
    for i := 0 to |order|
      invariant forall c :: c in averages <==> c in order[..i]
      invariant forall c :: c in averages ==> c in order && averages[c] == Mean(confidences[c])
    {
      var c := order[i];
      assert order[..i + 1] == order[..i] + [c];
      averages := averages[c := Sum(confidences[c]) / (|confidences[c]| as real)];
    }
    assert order[..|order|] == order;
  }

  /** The gate as the code computes it, from the counts and the averaged confidences. */
  lemma {:induction false} PersonGateComputed(dets: seq<Detection>, counts: map<string, nat>, averages: map<string, real>)
    requires counts == CountMap(dets)
    requires "person" in counts ==>
               && "person" in averages && |ConfidencesOf("person", dets)| > 0
               && averages["person"] == Mean(ConfidencesOf("person", dets))
    ensures PersonConfident(dets) <==>
              "person" in counts && counts["person"] >= 2
              && (if "person" in averages then averages["person"] else 0.0) > 0.5
  {
    CountMapAgrees(dets, "person");
    CountProperties("person", dets);
  }

  /**
   * `infer_activity`: tally the classes, average their confidences, run the if-chain of
   * rules appending phrases, and join them, falling back to a per-class summary.
   */
  method InferActivity(dets: seq<Detection>) returns (activity: string)
    ensures activity == Activity(dets)
  {
    if |dets| == 0 {
      return NoObjectsMessage;
    }
    var order, counts, confidences := Tally(dets);
    FirstSeenProperties(dets);
    TallyIsCountMap(dets, counts);
    forall c | c in order ensures c in confidences && |confidences[c]| > 0 {
      CountProperties(c, dets);
    }
    var averages := Averages(order, confidences);
    ghost var personOk := PersonConfident(dets);
    PersonGateComputed(dets, counts, averages);
    RuleShape();

    var activities: seq<string> := [];
    if "person" in counts && counts["person"] >= 2 {
      var personConf := if "person" in averages then averages["person"] else 0.0;
      if personConf > 0.5 {
        activities := PersonActivities(counts, Rules);
      }
    }
    if !personOk {
      GatedPrefixSilent(Rules, PersonRuleCount, counts);
    }
    activities := OtherActivities(counts, Rules, activities, personOk);

    if |activities| == 0 {
      var detected := Described(order, counts);
      if |detected| > 0 {
        return "Detected: " + Join(detected, ", ");
      }
      return NoActivityMessage;
    }
    return Join(activities, "; ");
  }
}
