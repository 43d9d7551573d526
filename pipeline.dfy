/**
 * The analysis behind `POST /predict`: validate the file name, sample frames, detect
 * objects in each, and summarise the detections together with the inferred activity.
 */
module Pipeline {
  import opened Common
  import opened Validation
  import opened FrameSampler
  import opened DetectionAdapter
  import opened ClassTally
  import opened ActivityInference
  import opened Aggregation

  /** The successful response body. */
  datatype Analysis = Analysis(detections: seq<ClassStat>, activity: string,
                               framesProcessed: nat, totalObjectsDetected: nat)

  /** The detections of every frame, frame after frame, each frame's in detector order. */
  function AllDetections(frames: seq<Frame>, detector: Frame -> DetectorOutput): seq<Detection>
  {
    if frames == [] then []
    else AllDetections(frames[..|frames| - 1], detector) + DetectSpec(detector(frames[|frames| - 1]))
  }

  /** The loop of `predict` that runs the detector on each frame and extends the list. */
  method CollectDetections(frames: seq<Frame>, detector: Frame -> DetectorOutput)
    returns (all: seq<Detection>)
    ensures all == AllDetections(frames, detector)
  {
    all := [];
    for i := 0 to |frames|
      invariant all == AllDetections(frames[..i], detector)
    {
      var detections := DetectObjects(detector(frames[i]));
      if detections != [] {
        all := all + detections;
      }
      assert frames[..i + 1][..i] == frames[..i];
    }
    assert frames[..|frames|] == frames;
  }

  /**
   * Every collected detection comes from one of the frames and passes the detector's
   * filters; a frame can only add detections, never remove earlier ones.
   */
  lemma {:induction false} AllDetectionsSound(frames: seq<Frame>, detector: Frame -> DetectorOutput)
    ensures forall d :: d in AllDetections(frames, detector) ==>
              d.confidence >= ConfidenceThreshold && d.cls in AllowedClasses
              && exists f :: f in frames && d in DetectSpec(detector(f))
  {
    if frames != [] {
      var init, last := frames[..|frames| - 1], frames[|frames| - 1];
      AllDetectionsSound(init, detector);
      DetectSound(detector(last));
      forall d | d in AllDetections(frames, detector)
        ensures exists f :: f in frames && d in DetectSpec(detector(f))
      {
        if d in AllDetections(init, detector) {
          var f :| f in init && d in DetectSpec(detector(f));
          assert f in frames;
        } else {
          assert last in frames;
        }
      }
    }
  }

  /** A frame's detections all appear in the collected list. */
  lemma {:induction false} AllDetectionsComplete(frames: seq<Frame>, detector: Frame -> DetectorOutput, f: Frame)
    requires f in frames
    ensures forall d :: d in DetectSpec(detector(f)) ==> d in AllDetections(frames, detector)
  {
    var init := frames[..|frames| - 1];
    if f != frames[|frames| - 1] {
      assert f in init by {
        var j :| 0 <= j < |frames| && frames[j] == f;
        assert init[j] == f;
      }
      AllDetectionsComplete(init, detector, f);
    }
  }

  /** What `predict` answers for an upload, its decoded video and the detector. */
  function PredictSpec(filename: string, video: Video, detector: Frame -> DetectorOutput): Result<Analysis>
  {
    var valid := ValidateVideoFile(filename);
    if valid.Err? then Err(valid.error)
    else
      var extracted := ExtractSpec(video, DefaultMaxFrames);
      if extracted.Err? then Err(extracted.error)
      else
        var frames := extracted.value;
        var dets := AllDetections(frames, detector);
        if dets == [] then Err(NoDetections)
        else Ok(Analysis(Summary(dets), Activity(dets), |frames|, |dets|))
  }

  /**
   * `predict`: validation, extraction with the budget of 15 frames, detection over the
   * frames, and, when something was detected, the per-class summary and the activity.
   */
  method Predict(filename: string, video: Video, detector: Frame -> DetectorOutput)
    returns (r: Result<Analysis>)
    ensures r == PredictSpec(filename, video, detector)
  {
    var valid := ValidateVideoFile(filename);
    if valid.Err? {
      return Err(valid.error);
    }
    var extracted := ExtractFrames(video, DefaultMaxFrames);
    if extracted.Err? {
      return Err(extracted.error);
    }
    var frames := extracted.value;
    var allDetections := CollectDetections(frames, detector);
    if allDetections == [] {
      return Err(NoDetections);
    }
    var order, counts, confidences := Tally(allDetections);
    TallyIsCountMap(allDetections, counts);
    TallyIsConfidenceMap(allDetections, confidences);
    var top := MostCommon(Items(order, counts), TopClasses);
    assert top == TopItems(allDetections);
    var detections := Stats(top, confidences, |allDetections|);
    var activity := InferActivity(allDetections);
    return Ok(Analysis(detections, activity, |frames|, |allDetections|));
  }

  // ---------------------------------------------------------------- properties

  /**
   * A successful analysis reports between one and fifteen frames, a non-empty summary,
   * the inferred activity of the collected detections, and their number.
   */
  lemma {:induction false} PredictOk(filename: string, video: Video, detector: Frame -> DetectorOutput)
    requires PredictSpec(filename, video, detector).Ok?
    ensures var a := PredictSpec(filename, video, detector).value;
            var frames := ExtractSpec(video, DefaultMaxFrames).value;
            && ValidateVideoFile(filename).Ok?
            && ExtractSpec(video, DefaultMaxFrames).Ok?
            && 1 <= a.framesProcessed == |frames| <= DefaultMaxFrames
            && a.totalObjectsDetected == |AllDetections(frames, detector)| >= 1
            && a.detections == Summary(AllDetections(frames, detector))
            && 1 <= |a.detections| <= TopClasses
            && a.activity == Activity(AllDetections(frames, detector))
            && a.activity != NoObjectsMessage
  {
    var frames := ExtractSpec(video, DefaultMaxFrames).value;
    var dets := AllDetections(frames, detector);
    ExtractProperties(video, DefaultMaxFrames);
    SummaryProperties(dets);
    ActivityOutcomes(dets);
  }

  /**
   * The failures, checked in order: a bad file name stops the request before the video is
   * looked at, and a video reporting no frames stops it before the detector is run.
   */
  lemma {:induction false} PredictFailures(filename: string, video: Video, detector: Frame -> DetectorOutput)
    ensures ValidateVideoFile(filename).Err? ==>
              PredictSpec(filename, video, detector) == Err(ValidateVideoFile(filename).error)
    ensures ValidateVideoFile(filename).Ok? && !video.isOpen ==>
              PredictSpec(filename, video, detector) == Err(CouldNotOpen)
    ensures ValidateVideoFile(filename).Ok? && video.isOpen && video.totalFrames == 0 ==>
              forall other :: PredictSpec(filename, video, other) == Err(EmptySource)
    ensures ValidateVideoFile(filename).Ok? && PredictSpec(filename, video, detector).Err? ==>
              PredictSpec(filename, video, detector).error in {CouldNotOpen, EmptySource, NoUsableFrames, NoDetections}
  {
    ExtractProperties(video, DefaultMaxFrames);
  }

  /** A detector that never reports anything makes every readable upload fail with `NoDetections`. */
  lemma {:induction false} SilentDetector(filename: string, video: Video, detector: Frame -> DetectorOutput)
    requires forall f :: detector(f) == Raised
    requires ValidateVideoFile(filename).Ok? && ExtractSpec(video, DefaultMaxFrames).Ok?
    ensures PredictSpec(filename, video, detector) == Err(NoDetections)
  {
    var frames := ExtractSpec(video, DefaultMaxFrames).value;
    SilentFrames(frames, detector);
  }

  lemma {:induction false} SilentFrames(frames: seq<Frame>, detector: Frame -> DetectorOutput)
    requires forall f :: detector(f) == Raised
    ensures AllDetections(frames, detector) == []
  {
    if frames != [] {
      SilentFrames(frames[..|frames| - 1], detector);
    }
  }
}
