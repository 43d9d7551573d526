/** The result filtering of `detect_objects`: confidence threshold and class allow-list. */
module DetectionAdapter {
  import opened Common

  datatype BoundingBox = BoundingBox(x1: real, y1: real, x2: real, y2: real)

  /** One retained observation: class label, confidence and box in frame pixels. */
  datatype Detection = Detection(cls: string, confidence: real, bbox: BoundingBox)

  /** One row of the detector's box tensor: corners, score and class id. */
  datatype RawBox = RawBox(x1: real, y1: real, x2: real, y2: real, score: real, classId: int)

  /**
   * What one detector call gives: it raised, or it produced rows together with the
   * model's id-to-name table.
   */
  datatype DetectorOutput = Raised | Output(boxes: seq<RawBox>, names: map<int, string>)

  const ConfidenceThreshold: real := 0.3

  /** The thirteen class labels `detect_objects` lets through. */
  const AllowedClasses: seq<string> :=
    ["person", "car", "truck", "bus", "motorcycle", "bicycle",
     "tv", "laptop", "cell phone", "dog", "cat", "chair", "table"]

  /** Rows that survive `if score < 0.3: continue` and so have their class name looked up. */
  predicate Scored(b: RawBox) { b.score >= ConfidenceThreshold }

  /** Some looked-up row has a class id missing from the name table: the lookup raises. */
  predicate LookupFails(boxes: seq<RawBox>, names: map<int, string>)
  {
    exists i :: 0 <= i < |boxes| && Scored(boxes[i]) && boxes[i].classId !in names
  }

  predicate Keep(b: RawBox, names: map<int, string>)
  {
    Scored(b) && b.classId in names && names[b.classId] in AllowedClasses
  }

  function ToDetection(b: RawBox, names: map<int, string>): Detection
    requires b.classId in names
  {
    Detection(names[b.classId], b.score, BoundingBox(b.x1, b.y1, b.x2, b.y2))
  }

  /** The kept rows, converted, in detector order. */
  function Kept(boxes: seq<RawBox>, names: map<int, string>): seq<Detection>
  {
    if boxes == [] then []
    else
      var b := boxes[|boxes| - 1];
      Kept(boxes[..|boxes| - 1], names) + (if Keep(b, names) then [ToDetection(b, names)] else [])
  }

  /** What `detect_objects` returns for one detector outcome. */
  function DetectSpec(out: DetectorOutput): seq<Detection>
  {
    match out
    case Raised => []
    case Output(boxes, names) => if LookupFails(boxes, names) then [] else Kept(boxes, names)
  }

  /** A detection is kept iff some row passes both filters and converts to it. */
  lemma {:induction false} KeptIff(boxes: seq<RawBox>, names: map<int, string>, d: Detection)
    ensures d in Kept(boxes, names) <==>
              exists i :: 0 <= i < |boxes| && Keep(boxes[i], names) && ToDetection(boxes[i], names) == d
  {
    if boxes != [] {
      var init := boxes[..|boxes| - 1];
      KeptIff(init, names, d);
      if exists i :: 0 <= i < |init| && Keep(init[i], names) && ToDetection(init[i], names) == d {
        var i :| 0 <= i < |init| && Keep(init[i], names) && ToDetection(init[i], names) == d;
        assert boxes[i] == init[i];
      }
      if exists i :: 0 <= i < |boxes| && Keep(boxes[i], names) && ToDetection(boxes[i], names) == d {
        var i :| 0 <= i < |boxes| && Keep(boxes[i], names) && ToDetection(boxes[i], names) == d;
        if i < |init| {
          assert init[i] == boxes[i];
        }
      }
    }
  }

  /** The filter keeps detector order: it distributes over concatenation. */
  lemma {:induction false} KeptAppend(a: seq<RawBox>, b: seq<RawBox>, names: map<int, string>)
    ensures Kept(a + b, names) == Kept(a, names) + Kept(b, names)
    decreases |b|
  {
    if b != [] {
      var b' := b[..|b| - 1];
      assert (a + b)[..|a + b| - 1] == a + b';
      KeptAppend(a, b', names);
    } else {
      assert a + b == a;
    }
  }

  /** Every returned detection is confident enough and of an allowed class. */
  lemma {:induction false} DetectSound(out: DetectorOutput)
    ensures forall d :: d in DetectSpec(out) ==>
              d.confidence >= ConfidenceThreshold && d.cls in AllowedClasses
    ensures out.Output? ==> |DetectSpec(out)| <= |out.boxes|
  {
    if out.Output? && !LookupFails(out.boxes, out.names) {
      forall d | d in DetectSpec(out)
        ensures d.confidence >= ConfidenceThreshold && d.cls in AllowedClasses
      {
        KeptIff(out.boxes, out.names, d);
      }
      KeptLength(out.boxes, out.names);
    }
  }

  lemma {:induction false} KeptLength(boxes: seq<RawBox>, names: map<int, string>)
    ensures |Kept(boxes, names)| <= |boxes|
  {
    if boxes != [] {
      KeptLength(boxes[..|boxes| - 1], names);
    }
  }

  /**
   * `detect_objects` after inference: walk the rows, skip low scores, look up the class
   * name (a missing id raises, and the handler returns nothing for the frame), and keep
   * allowed classes.
   */
  method DetectObjects(out: DetectorOutput) returns (detections: seq<Detection>)
    ensures detections == DetectSpec(out)
  {
    if out.Raised? {
      return [];
    }
    var boxes, names := out.boxes, out.names;
    detections := [];
    for i := 0 to |boxes|
      invariant !LookupFails(boxes[..i], names)
      invariant detections == Kept(boxes[..i], names)
    {
      var r := boxes[i];
      assert boxes[..i + 1][..i] == boxes[..i];
      if r.score < 0.3 {
        continue;
      }
      if r.classId !in names {
        assert !LookupFails(boxes[..i], names);
        return [];
      }
      var className := names[r.classId];
      if className in AllowedClasses {
        detections := detections + [Detection(className, r.score, BoundingBox(r.x1, r.y1, r.x2, r.y2))];
      }
    }
    assert boxes[..|boxes|] == boxes;
  }
}
