# Video-Detection backend, modelled in Dafny

The backend of Video-Detection takes an uploaded video and answers with what it saw. One
request to `POST /predict` does the following.

1. It checks the file name's extension against five video formats.
2. It samples at most fifteen frames: every frame of a short video, or three bands
   (start, middle, end) of a long one. It drops frames that fail to read or are too dark
   or too bright.
3. It runs an object detector on each kept frame. Only detections with a score of at least
   0.3 and one of thirteen class labels are kept.
4. It summarises the detections: the five most frequent classes with their counts and
   mean confidences, an activity sentence drawn from a fixed, ordered table of rules, and
   the numbers of frames and detections.

This project models those steps in `backend/main.py` and proves what they promise.

| file | module | models |
|---|---|---|
| `common.dfy` | `Common` | errors, `Result`, sums and means, `str.join`, `str(n)`, `s[:n]` |
| `validation.dfy` | `Validation` | `validate_video_file`, with POSIX `os.path.splitext` and `str.lower` |
| `framesampler.dfy` | `FrameSampler` | `extract_frames`: the position planner, the reading loop, the error cases |
| `detectionadapter.dfy` | `DetectionAdapter` | `detect_objects` after inference: threshold, allow-list, failure handling |
| `classtally.dfy` | `ClassTally` | the per-class count and confidence dictionaries built in `infer_activity` and in `predict` |
| `activityinference.dfy` | `ActivityInference` | `infer_activity` |
| `aggregation.dfy` | `Aggregation` | `Counter.most_common(5)` and the `detections` list of the response |
| `pipeline.dfy` | `Pipeline` | `predict`: the order of the stages, the detection loop, the response |

## How the model is built

- **Loops are methods.** Each loop of the source becomes a Dafny method with loop
  invariants. Its `ensures` ties the result to a specification function on values.
  - The planner's three band loops and the reading loop of `extract_frames`.
  - The detection-row loop of `detect_objects`.
  - The counting loop and the averaging loop of `infer_activity`.
  - The per-frame loop of `predict`.
- **Lemmas prove the promises.** What the source promises is proved as lemmas about those
  specification functions.
- **The outside world is a parameter.**
  - The video decoder is a `Video` value: whether it opened, the frame count it reports,
    and a function from a seek position to what reading there gives.
  - The object detector is a function from a frame to a `DetectorOutput`.
  - Both are deterministic.
- **The rule table is shared.** `infer_activity` is an if-chain of fifteen rules. Each rule
  names a class, a minimum count, a phrase, and whether it needs the person gate. The model
  keeps those four facts once, in the table `ActivityInference.Rules`.
  - `ApplyRule` is one `if` of the chain, applied to row `k` of the table it is given.
  - `PersonActivities` and `OtherActivities` apply the nine gated rows and the six other rows
    in source order.
  - They take the table as a parameter, and `InferActivity` passes `Rules`.
- **Arithmetic follows Python.** Every planner operand is non-negative, so Dafny's `/` agrees
  with Python's `//`.
  - `int(max_frames * 0.3)` and `int(max_frames * 0.4)` are written `(3 * m) / 10` and
    `(4 * m) / 10`.
  - This agrees with the double-precision computation for every budget a caller can pass.
    The only caller passes 15: the bands are then 4, 6 and 5 frames.
- **Follows the code where the comments disagree.** The code's comments call the bands "30%,
  middle 40%, end 30%". The end band's positions, `t - (e - i) * t // e`, actually start at
  frame 0 and spread over the whole video. So whenever there is a start band, the plan is
  not ascending and it seeks frame 0 twice. `FrameSampler.PlanRevisitsFirstFrame` proves
  this. The model follows the code.
- **The reading loop's budget test.** With a zero budget, the first successful read stops
  the loop, because a failed read `continue`s past the budget test. The model keeps this
  behaviour.
- **Stable ties in the summary.** `Counter.most_common(5)` lists equal counts in first-seen
  order. The model writes it as a stable insertion sort by descending count. It proves the
  result is sorted, is a permutation of the Counter's items, and keeps the input order
  within each count. This order carries through to the five top items and the response's
  `detections` entries: entries of equal count follow the order in which their classes were
  first detected.

## Model

| member | source | states |
|---|---|---|
| `Validation.ValidateVideoFile` | backend/main.py:59-71 | an empty name fails with `NoFileName`; any other name is accepted exactly when its lower-cased `splitext` extension is one of `.mp4 .avi .mov .mkv .wmv`, and otherwise fails with `InvalidFormat` |
| `Validation.AcceptedIff` | backend/main.py:64-67 | stated without `splitext`: a name is accepted iff its last four characters lower-case to an allowed extension and its last path component has a non-dot character before that final dot |
| `Validation.AcceptedShape` | backend/main.py:64-67 | an accepted name's extension is its last four characters, preceded in the last component by a non-dot character |
| `Validation.AllowedSuffixIsExtension` | backend/main.py:66-67 | four final characters that lower-case to an allowed extension and follow a non-dot character are exactly what `splitext` returns as the extension |
| `Validation.SplitExtRoundTrip` | backend/main.py:66 | root plus extension is the name; a non-empty extension starts with its only dot and holds no `/` |
| `Validation.LowerCharKeepsSeparators` | backend/main.py:66 | lower-casing maps `.` and `/` to themselves and no other character to them |
| `Validation.ExampleUpperCase` | backend/main.py:66-67 | `clip.MP4` is accepted, because the comparison is made after lower-casing |
| `Validation.ExampleHiddenFile` | backend/main.py:66-67 | `.mp4` is rejected: a leading dot does not start an extension |
| `Validation.ExampleDirectory` | backend/main.py:66-67 | `a.mp4/b` is rejected: only the last path component can carry the extension |
| `FrameSampler.EndBandSize` | backend/main.py:106-111 | the three band sizes add up to the budget, and the end band is non-empty whenever the budget is positive |
| `FrameSampler.PlanShort` | backend/main.py:104-105 | a video of at most `m` frames is planned as every frame index, in order |
| `FrameSampler.PlanLong` | backend/main.py:105-124 | a longer video is planned as exactly `m` positions, all inside `[0, t)`, with the middle band inside `[t/4, 3t/4)` and a non-empty end band |
| `FrameSampler.PlanBandEdges` | backend/main.py:105-124 | a long video's plan begins with the first start position, ends its middle band at the last middle position and begins its end band with the first end position |
| `FrameSampler.StartBandStartsAtZero` | backend/main.py:113-115 | the first start-band position is frame 0 |
| `FrameSampler.EndBandStartsAtZero` | backend/main.py:122-124 | the first end-band position is frame 0 too |
| `FrameSampler.PlanRevisitsFirstFrame` | backend/main.py:105-124 | for `t > m >= 4`, frame 0 is planned twice and the position before the end band is positive, so the plan is not ascending |
| `FrameSampler.StartPositionBounds` | backend/main.py:113-115 | every start-band position lies in `[0, t)` |
| `FrameSampler.MiddlePositionBounds` | backend/main.py:117-121 | every middle-band position lies in `[t/4, 3t/4)` |
| `FrameSampler.EndPositionBounds` | backend/main.py:122-124 | every end-band position lies in `[0, t - t/e]` |
| `FrameSampler.AppendStartBand` | backend/main.py:113-115 | the start-band loop appends `i * t // s` for every `i < s`, in order |
| `FrameSampler.AppendMiddleBand` | backend/main.py:117-121 | the middle-band loop appends `t//4 + i * (3t//4 - t//4) // k` for every `i < k`, in order |
| `FrameSampler.AppendEndBand` | backend/main.py:122-124 | the end-band loop appends `t - (e - i) * t // e` for every `i < e`, in order |
| `FrameSampler.PlanPositions` | backend/main.py:101-124 | the planning code produces exactly the plan |
| `FrameSampler.UsableFramesSound` | backend/main.py:127-140 | every usable frame was read at a planned position and has a mean grey level strictly between 20 and 235 |
| `FrameSampler.UsableFramesComplete` | backend/main.py:127-140 | every planned position that reads a usable frame contributes it |
| `FrameSampler.UsableFramesPrefix` | backend/main.py:127-143 | reading fewer positions yields a prefix of the usable frames |
| `FrameSampler.ReadStep` | backend/main.py:127-136 | reading one more position adds its frame exactly when it is usable, and the first successful read is either here or further on |
| `FrameSampler.BudgetReached` | backend/main.py:142-143 | once `m >= 1` usable frames are in hand, they are the selection |
| `FrameSampler.FirstReadStops` | backend/main.py:130-143 | with a zero budget, the first successful read ends the loop, and its frame is kept only if usable |
| `FrameSampler.AllRead` | backend/main.py:127-143 | a loop that reads every position without reaching the budget has its selection |
| `FrameSampler.SelectFrames` | backend/main.py:127-143 | the reading loop, with its `continue` and `break`, keeps exactly the selection: the first `m` usable frames, or for `m = 0` the first decoded frame if it is usable |
| `FrameSampler.SelectionProperties` | backend/main.py:127-143 | the selection holds at most `max(m, 1)` frames, each read at a planned position and usable, and for `m >= 1` it is a prefix of the usable frames and all of them when there are at most `m` |
| `FrameSampler.FirstDecodedSound` | backend/main.py:130-136 | the first decoded frame was read at a planned position |
| `FrameSampler.ExtractFrames` | backend/main.py:73-155 | `extract_frames` fails with `CouldNotOpen`, `EmptySource` or `NoUsableFrames` in that order of checks, and otherwise returns the selection over the plan |
| `FrameSampler.ExtractProperties` | backend/main.py:79-151 | with a positive budget, a reported frame count of 0 fails with `EmptySource`; success gives 1 to `m` usable frames, each read inside the video; a failure is one of the three named errors |
| `DetectionAdapter.DetectObjects` | backend/main.py:157-197 | a raising detector, or a scored row whose class id is missing from the name table, gives no detections for the frame; otherwise the rows with score at least 0.3 and an allowed label, converted, in detector order |
| `DetectionAdapter.KeptIff` | backend/main.py:175-191 | a detection is returned iff some row passes both filters and converts to it |
| `DetectionAdapter.KeptAppend` | backend/main.py:175-191 | the row filter keeps detector order: it distributes over concatenation |
| `DetectionAdapter.KeptLength` | backend/main.py:175-191 | at most one detection per row |
| `DetectionAdapter.DetectSound` | backend/main.py:179-191 | every returned detection has confidence at least 0.3 and one of the thirteen labels, and there are no more of them than rows |
| `ClassTally.FirstSeenProperties` | backend/main.py:205-214 | the dictionary key order lists exactly the detected classes, each once, the first detection's class first |
| `ClassTally.CountProperties` | backend/main.py:212-217 | a class has a positive count iff it was detected; its confidence list has one entry per detection of it |
| `ClassTally.SumCountsStep` | backend/main.py:216 | one more detection raises the sum of the counts of its class, and only of its class, by one |
| `ClassTally.CountsSumToTotal` | backend/main.py:204-217 | the per-class counts add up to the number of detections |
| `ClassTally.Untallied` | backend/main.py:212-214 | a class not yet among the keys has no detections so far |
| `ClassTally.CountsStep` | backend/main.py:216 | one step of the loop keeps every stored count exact |
| `ClassTally.ConfidencesStep` | backend/main.py:217 | one step of the loop keeps every stored confidence list exact |
| `ClassTally.TallyExtend` | backend/main.py:208-217 | one pass of the counting loop keeps the key order, both key sets and all stored values exact |
| `ClassTally.TalliedFacts` | backend/main.py:204-217 | exact tallies have as keys exactly the detected classes and give every class its count, 0 for absent ones |
| `ClassTally.TallyIsCountMap` | backend/main.py:326 | a counts map keyed by the detected classes with exact counts is the tally of the list |
| `ClassTally.TallyIsConfidenceMap` | backend/main.py:329-334 | a confidence map keyed by the detected classes with exact lists is the tally of the list |
| `ClassTally.Tally` | backend/main.py:204-217 | the counting loop yields the first-seen key order and, for exactly the detected classes, their counts and confidence lists in detection order |
| `ActivityInference.Averages` | backend/main.py:219-222 | the averaging loop maps every class to the mean of its confidences |
| `ActivityInference.CountMapAgrees` | backend/main.py:212-217 | the count map gives each class its number of detections, 0 if absent |
| `ActivityInference.MatchesCountOf` | backend/main.py:232-265 | a rule's count test `'c' in class_counts and class_counts['c'] >= n` holds iff `c` was detected at least `n` times |
| `ActivityInference.MeanAboveHalf` | backend/main.py:229-231 | for `n > 0`, `total / n > 0.5` iff `total > n / 2` |
| `ActivityInference.PersonGateWithoutDivision` | backend/main.py:228-231 | the person gate holds iff there are at least two person detections whose confidences sum to more than half their number |
| `ActivityInference.PersonGateComputed` | backend/main.py:228-231 | the gate the code computes from the counts and the averages is the person gate |
| `ActivityInference.RuleShape` | backend/main.py:228-265 | the table has fifteen rules, the nine person-gated ones first, each asking for at least one detection |
| `ActivityInference.GatedPrefixSilent` | backend/main.py:228-231 | when the gate fails none of the person rules contributes a phrase |
| `ActivityInference.ApplyRule` | backend/main.py:232-265 | one `if` of the chain appends its phrase exactly when its count test holds, extending the phrases of the rules before it to those up to it |
| `ActivityInference.PersonActivities` | backend/main.py:232-249 | the nine person `if`s yield the phrases of the firing person rules, in order |
| `ActivityInference.OtherActivities` | backend/main.py:251-265 | the six vehicle and pet `if`s append the phrases of their firing rules, completing the phrase list |
| `ActivityInference.FiredAppend` | backend/main.py:224-265 | the phrase list of two runs of rules is the concatenation of their phrase lists |
| `ActivityInference.FiredIff` | backend/main.py:224-265 | a phrase is emitted iff one of its rules fires |
| `ActivityInference.FiredDistinct` | backend/main.py:224-265 | rules with pairwise different phrases never emit a phrase twice |
| `ActivityInference.RulePhrasesDistinct` | backend/main.py:232-265 | the fifteen phrases are pairwise different |
| `ActivityInference.ActivityPhrases` | backend/main.py:224-265 | each phrase appears at most once, and appears iff its class reaches the rule's count and, for the nine person phrases, the person gate holds |
| `ActivityInference.DescribedAllCounted` | backend/main.py:269 | the fallback lists `"{count} {class}"` for every listed class, in order; none is dropped by the `count > 0` test |
| `ActivityInference.FallbackSummary` | backend/main.py:267-271 | with detections but no firing rule, the answer is `Detected: ` followed by every class with its count, in first-seen order, comma-separated |
| `ActivityInference.FiredPhrasesInitials` | backend/main.py:232-265 | every emitted phrase starts with a capital other than `N` |
| `ActivityInference.ActivityOutcomes` | backend/main.py:199-275 | only an empty list yields `No objects detected`, and `No specific activity detected` is never produced |
| `ActivityInference.InferActivity` | backend/main.py:199-275 | `infer_activity` returns the specified activity: the joined phrases, else the class summary, else the two fixed messages |
| `Common.NatToString` | backend/main.py:269 | `str(count)` is a non-empty string of decimal digits with no leading zero |
| `Common.NatToStringRoundTrip` | backend/main.py:269 | reading the digits of `str(n)` back gives `n` |
| `Common.JoinFirst` | backend/main.py:275 | a join starts with the first character of its first part |
| `Aggregation.InsertPermutes` | backend/main.py:337 | inserting an item adds exactly that item |
| `Aggregation.InsertSorted` | backend/main.py:337 | inserting into a list sorted by descending count keeps it sorted |
| `Aggregation.WithCountSnoc` | backend/main.py:337 | appending an item adds it to the items of its count only |
| `Aggregation.InsertWithCount` | backend/main.py:337 | insertion places the new item behind every item of equal count |
| `Aggregation.InsertDistinct` | backend/main.py:337 | inserting an item of a new class keeps the classes pairwise different |
| `Aggregation.SortPermutes` | backend/main.py:337 | the sort is a permutation of the Counter's items |
| `Aggregation.SortMembers` | backend/main.py:337 | the sort keeps the length and exactly the members of its input |
| `Aggregation.SortSorted` | backend/main.py:337 | the sort orders by descending count |
| `Aggregation.SortStable` | backend/main.py:337 | the sort is stable: for every count, the items with that count keep their first-seen order |
| `Aggregation.SortDistinct` | backend/main.py:337 | the sort keeps the classes pairwise different |
| `Aggregation.MostCommonSorted` | backend/main.py:337 | `most_common(n)` keeps `min(n, #items)` items in descending count order |
| `Aggregation.MostCommonFromItems` | backend/main.py:337 | every kept item is an item of the Counter |
| `Aggregation.MostCommonMaximal` | backend/main.py:337 | no item left out counts more than any kept item |
| `Aggregation.MostCommonDistinct` | backend/main.py:337 | distinct classes stay distinct |
| `Aggregation.MostCommonStable` | backend/main.py:337 | for every count, the kept items of that count are the first of the Counter's items of that count, in the Counter's order |
| `Aggregation.MostCommonTies` | backend/main.py:337 | two kept items of equal count appear in the Counter's items in the same order |
| `Aggregation.MostCommonProperties` | backend/main.py:337 | together: size, order, membership, maximality, distinctness and tie order of `most_common(n)` |
| `Aggregation.CounterItemsProperties` | backend/main.py:326 | the Counter lists the detected classes in first-seen order with their counts, each at least 1 and each class once |
| `Aggregation.TopItems` | backend/main.py:337-347 | every top item is a detected class whose confidence list is non-empty and as long as its count |
| `Aggregation.TopItemsTies` | backend/main.py:326-337 | top items of equal count are listed in the order their classes were first detected |
| `Aggregation.TopItemsProperties` | backend/main.py:326-337 | the top items: up to five detected classes with their counts, in descending count order, each once, no class left out detected more often, and equal counts in first-seen order |
| `Aggregation.SummaryEntries` | backend/main.py:339-349 | entry `i` of `detections` carries top item `i`'s class and count, the mean of that class's confidences, and the overall number of detections |
| `Aggregation.SummaryTies` | backend/main.py:337-349 | `detections` entries of equal count are listed in the order their classes were first detected |
| `Aggregation.SummaryProperties` | backend/main.py:324-349 | for a non-empty list: one to five entries, each a detected class with its exact count, mean confidence and the total, in descending count order, each class once, no class left out detected more often, and equal counts in first-seen order |
| `Aggregation.SortTotal` | backend/main.py:337 | sorting keeps the sum of the Counter's counts |
| `Aggregation.CounterTotal` | backend/main.py:326 | the Counter's counts add up to `len(all_detections)` |
| `Aggregation.ReportedTopTotal` | backend/main.py:339-349 | the counts reported in `detections` add up to the top items' counts |
| `Aggregation.TopTotalBelow` | backend/main.py:326-337 | with more than five classes, the top items count strictly less than all the Counter's items |
| `Aggregation.SummaryCountsSum` | backend/main.py:326-349 | the reported counts add up to `len(all_detections)` when at most five classes were detected, and to less than it when more were |
| `Pipeline.CollectDetections` | backend/main.py:312-321 | the per-frame loop collects every frame's detections, frame after frame |
| `Pipeline.AllDetectionsSound` | backend/main.py:312-321 | every collected detection comes from one of the frames and passes the detector's filters |
| `Pipeline.AllDetectionsComplete` | backend/main.py:312-321 | every detection of every frame is collected |
| `Pipeline.SilentFrames` | backend/main.py:312-321 | a detector that always fails yields no detections |
| `Pipeline.Predict` | backend/main.py:277-360 | `predict` validates the name, extracts up to 15 frames, detects, and answers with the summary, the activity and both counts, or with the first error met |
| `Pipeline.PredictOk` | backend/main.py:307-357 | a successful answer reports 1 to 15 frames, at least one detection, one to five summary entries, and an activity other than `No objects detected` |
| `Pipeline.PredictFailures` | backend/main.py:280-360 | a bad name fails before the video is looked at; an unopenable video fails with `CouldNotOpen`; a video reporting zero frames fails whatever the detector does; once the name is valid, every failure is one of the four later errors |
| `Pipeline.SilentDetector` | backend/main.py:324-360 | a detector that always fails turns every valid, readable upload into `NoDetections` |

## Left out

- HTTP and framework code is not modelled: the FastAPI app, CORS, startup, `load_model`,
  `run_app.py`, and the `/` and `/health` endpoints. Nothing here decides an analysis result.
- Status codes and the wrapping of messages are not modelled. Each failure becomes one
  `Error` value, because the status code and detail text carry no more information than
  the error's identity. In the code:
  - every `HTTPException` raised inside `extract_frames` and inside the processing block of
    `predict` is caught again and re-raised as a 500 with a prefixed message;
  - this happens even to the "no objects detected" 400.
- The upload's content and the temporary file are not modelled (`predict`, lines 292-305 and
  366-379 of `backend/main.py`). This covers the empty-content check, writing and removing the file, and a failed
  save. The video is given to the model as an already opened `Video` value.
- `load_model` failures (lines 286-290 of `backend/main.py`) are not modelled. The model is assumed loaded.
- Decoding is not modelled: `cv2` seeking and decoding, grey-scale conversion, and averaging
  the pixels. A read gives `ReadFailed` or the frame's mean grey level as a real number.
- Detection itself is not modelled: the YOLO inference, its own `conf`/`iou` settings, and
  the resize of frames larger than 1920×1080 (lines 162-170 of `backend/main.py`). The detector's output is a
  parameter. Converting `class_id` from float to int is taken as already done (`RawBox.classId`).
- Floating point is not modelled. Scores, confidences and their means are reals. The
  threshold comparisons `score < 0.3`, `20 < b < 235` and `mean > 0.5` are on reals.
- The `fps` lookup (unused), all logging, and the dead `step` computation at lines 94-99 of `backend/main.py` are
  not modelled.
- Validation.ValidateVideoFile: `str.lower` is modelled only on ASCII capitals and the
  KELVIN SIGN. Those are the characters whose lower case could complete an allowed
  extension.
  - Other non-ASCII characters are left as they are. That does not change membership in the
    allow-set.
  - `splitext` is the POSIX one.
- FrameSampler.ExtractProperties: stated for a positive budget only. The only caller passes
  15. A negative `max_frames` cannot be expressed, because the budget is a `nat`.
- `test_detection.py` is not modelled. It is a manual script that drives the running
  service.
