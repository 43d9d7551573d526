/**
 * Frame sampling of `extract_frames`: the seek-position planner and the loop that reads
 * the planned frames and keeps those of usable brightness.
 */
module FrameSampler {
  import opened Common

  /** A decoded frame kept for detection: where it was read and its mean grey level. */
  datatype Frame = Frame(position: int, brightness: real)

  /** What one seek-and-read gives: a failed read, or a frame with its mean grey level. */
  datatype ReadOutcome = ReadFailed | Decoded(brightness: real)

  /**
   * The decoder's view of the video: whether it could be opened, the frame count it
   * reports, and the (deterministic) result of seeking to a position and reading.
   */
  datatype Video = Video(isOpen: bool, totalFrames: int, read: int -> ReadOutcome)

  /** The frame budget `predict` passes to `extract_frames`. */
  const DefaultMaxFrames: nat := 15

  // ---------------------------------------------------------------- planning

  /** `int(max_frames * 0.3)` */
  function StartBandSize(m: nat): nat { (3 * m) / 10 }

  /** `int(max_frames * 0.4)` */
  function MiddleBandSize(m: nat): nat { (4 * m) / 10 }

  /** `max_frames - start_frames - middle_frames`; at least one once the budget is positive. */
  function EndBandSize(m: nat): (e: nat)
    ensures StartBandSize(m) + MiddleBandSize(m) + e == m
    ensures m >= 1 ==> e >= 1
  {
    m - StartBandSize(m) - MiddleBandSize(m)
  }

  /** `i * total_frames // start_frames` */
  function StartPosition(t: int, s: nat, i: nat): int
    requires i < s
  {
    i * t / s
  }

  /** `middle_start + i * (middle_end - middle_start) // middle_frames` */
  function MiddlePosition(t: int, k: nat, i: nat): int
    requires i < k
  {
    t / 4 + i * (3 * t / 4 - t / 4) / k
  }

  /** `total_frames - (end_frames - i) * total_frames // end_frames` */
  function EndPosition(t: int, e: nat, i: nat): int
    requires i < e
  {
    t - (e - i) * t / e
  }

  /** `list(range(n))` */
  function Range(n: int): (r: seq<int>)
    ensures |r| == (if n > 0 then n else 0)
    ensures forall j :: 0 <= j < |r| ==> r[j] == j
  {
    seq(if n > 0 then n else 0, j => j)
  }

  /** The frame positions `extract_frames` seeks to, in order. */
  function Plan(t: int, m: nat): seq<int>
  {
    if t <= m then Range(t)
    else
      var s, k, e := StartBandSize(m), MiddleBandSize(m), EndBandSize(m);
      seq(s, i requires 0 <= i < s => StartPosition(t, s, i))
      + seq(k, i requires 0 <= i < k => MiddlePosition(t, k, i))
      + seq(e, i requires 0 <= i < e => EndPosition(t, e, i))
  }

  lemma {:induction false} PositiveFactor(n: int, x: int)
    requires n > 0 && n * x > 0
    ensures x > 0
  {
  }

  /** A lower bound on a quotient from a lower bound on the dividend. */
  lemma {:induction false} DivLower(x: int, n: int, q: int)
    requires n > 0 && n * q <= x
    ensures q <= x / n
  {
    var d := x / n;
    assert x == n * d + x % n;
    assert n * (d + 1 - q) == n * d + n - n * q;
    PositiveFactor(n, d + 1 - q);
  }

  /** An upper bound on a quotient from an upper bound on the dividend. */
  lemma {:induction false} DivUpper(x: int, n: int, q: int)
    requires n > 0 && x < n * q
    ensures x / n < q
  {
  }

  lemma {:induction false} MulMono(n: int, a: int, b: int)
    requires n >= 0 && a <= b
    ensures n * a <= n * b
  {
  }

  lemma {:induction false} DivMono(a: int, b: int, n: int)
    requires 0 <= a <= b && n > 0
    ensures a / n <= b / n
  {
    assert n * (a / n) <= a;
    DivLower(b, n, a / n);
  }

  /** For `0 <= i < n` and `t >= 0`, `i * t // n` lies in `[0, t)` (or is 0 when t is 0). */
  lemma {:induction false} ScaledIndexBelow(i: nat, n: nat, t: int)
    requires i < n && t >= 0
    ensures 0 <= i * t / n
    ensures t > 0 ==> i * t / n < t
  {
    MulMono(t, 0, i);
    DivLower(i * t, n, 0);
    if t > 0 {
      MulMono(t, i, n - 1);
      DivUpper(i * t, n, t);
    }
  }

  /** For `1 <= j <= n <= t`, `j * t // n` lies in `[1, t]`. */
  lemma {:induction false} ScaledCountWithin(j: nat, n: nat, t: int)
    requires 1 <= j <= n <= t
    ensures 1 <= j * t / n <= t
  {
    MulMono(t, j, n);
    DivUpper(j * t, n, t + 1);
    MulMono(t, 1, j);
    DivLower(j * t, n, 1);
  }

  lemma {:induction false} StartPositionBounds(t: int, s: nat, i: nat)
    requires i < s && t > 0
    ensures 0 <= StartPosition(t, s, i) < t
  {
    ScaledIndexBelow(i, s, t);
  }

  lemma {:induction false} MiddlePositionBounds(t: int, k: nat, i: nat)
    requires i < k && t >= 2
    ensures t / 4 <= MiddlePosition(t, k, i) < 3 * t / 4
  {
    ScaledIndexBelow(i, k, 3 * t / 4 - t / 4);
  }

  lemma {:induction false} EndPositionBounds(t: int, e: nat, i: nat)
    requires i < e <= t
    ensures 0 <= EndPosition(t, e, i) <= t - t / e
  {
    ScaledCountWithin(e - i, e, t);
    MulMono(t, 1, e - i);
    DivMono(t, (e - i) * t, e);
  }

  /** A short video is planned as every frame index, in order. */
  lemma {:induction false} PlanShort(t: int, m: nat)
    requires 0 < t <= m
    ensures Plan(t, m) == Range(t)
    ensures |Plan(t, m)| == t
    ensures forall j :: 0 <= j < t ==> Plan(t, m)[j] == j
  {
  }

  /**
   * A long video is planned as exactly `m` positions, all inside the video; the middle
   * band stays inside the middle half, and the end band is never empty.
   */
  lemma {:induction false} PlanLong(t: int, m: nat)
    requires t > m >= 1
    ensures |Plan(t, m)| == m
    ensures forall j :: 0 <= j < m ==> 0 <= Plan(t, m)[j] < t
    ensures forall j :: StartBandSize(m) <= j < StartBandSize(m) + MiddleBandSize(m) ==>
              t / 4 <= Plan(t, m)[j] < 3 * t / 4
    ensures EndBandSize(m) >= 1
  {
    var p := Plan(t, m);
    var s, k, e := StartBandSize(m), MiddleBandSize(m), EndBandSize(m);
    forall j | 0 <= j < m
      ensures 0 <= p[j] < t
      ensures s <= j < s + k ==> t / 4 <= p[j] < 3 * t / 4
    {
      if j < s {
        StartPositionBounds(t, s, j);
      } else if j < s + k {
        MiddlePositionBounds(t, k, j - s);
      } else {
        EndPositionBounds(t, e, j - s - k);
        ScaledCountWithin(1, e, t);
        assert 1 * t == t;
      }
    }
  }

  /** Where the three bands begin and end inside the plan of a long video. */
  lemma {:induction false} PlanBandEdges(t: int, m: nat)
    requires t > m >= 4
    ensures StartBandSize(m) >= 1 && MiddleBandSize(m) >= 1
    ensures |Plan(t, m)| == m
    ensures Plan(t, m)[0] == StartPosition(t, StartBandSize(m), 0)
    ensures Plan(t, m)[StartBandSize(m) + MiddleBandSize(m) - 1]
              == MiddlePosition(t, MiddleBandSize(m), MiddleBandSize(m) - 1)
    ensures Plan(t, m)[StartBandSize(m) + MiddleBandSize(m)] == EndPosition(t, EndBandSize(m), 0)
  {
  }

  /** The first start-band position is `0 * t // s`, that is frame 0. */
  lemma {:induction false} StartBandStartsAtZero(t: int, s: nat)
    requires s >= 1
    ensures StartPosition(t, s, 0) == 0
  {
    assert 0 * t == 0;
  }

  /** The first end-band position is `t - e * t // e`, that is frame 0. */
  lemma {:induction false} EndBandStartsAtZero(t: int, e: nat)
    requires e >= 1 && t >= 0
    ensures EndPosition(t, e, 0) == 0
  {
    DivLower(e * t, e, t);
    DivUpper(e * t, e, t + 1);
  }

  /**
   * The end band's first position is frame 0, so with a non-empty start band the plan
   * seeks frame 0 twice and is not ascending.
   */
  lemma {:induction false} PlanRevisitsFirstFrame(t: int, m: nat)
    requires t > m >= 4
    ensures Plan(t, m)[0] == 0
    ensures Plan(t, m)[StartBandSize(m) + MiddleBandSize(m)] == 0
    ensures Plan(t, m)[StartBandSize(m) + MiddleBandSize(m) - 1] > 0
  {
    PlanBandEdges(t, m);
    StartBandStartsAtZero(t, StartBandSize(m));
    EndBandStartsAtZero(t, EndBandSize(m));
    MiddlePositionBounds(t, MiddleBandSize(m), MiddleBandSize(m) - 1);
  }

  /** The start-band loop: `s` positions spread over the whole video, appended. */
  method AppendStartBand(positions: seq<int>, t: int, s: nat) returns (r: seq<int>)
    ensures r == positions + seq(s, j requires 0 <= j < s => StartPosition(t, s, j))
  {
    r := positions;
    for i := 0 to s
      invariant r == positions + seq(i, j requires 0 <= j < i => StartPosition(t, s, j))
    {
      r := r + [i * t / s];
    }
  }

  /** The middle-band loop: `k` positions spread over `[t / 4, 3 * t / 4)`, appended. */
  method AppendMiddleBand(positions: seq<int>, t: int, k: nat) returns (r: seq<int>)
    ensures r == positions + seq(k, j requires 0 <= j < k => MiddlePosition(t, k, j))
  {
    r := positions;
    var middleStart := t / 4;
    var middleEnd := 3 * t / 4;
    for i := 0 to k
      invariant r == positions + seq(i, j requires 0 <= j < i => MiddlePosition(t, k, j))
    {
      r := r + [middleStart + i * (middleEnd - middleStart) / k];
    }
  }

  /** The end-band loop: `e` positions counted back from the end, appended. */
  method AppendEndBand(positions: seq<int>, t: int, e: nat) returns (r: seq<int>)
    ensures r == positions + seq(e, j requires 0 <= j < e => EndPosition(t, e, j))
  {
    r := positions;
    for i := 0 to e
      invariant r == positions + seq(i, j requires 0 <= j < i => EndPosition(t, e, j))
    {
      r := r + [t - (e - i) * t / e];
    }
  }

  /** The planning part of `extract_frames`: all frames of a short video, else three bands. */
  method PlanPositions(t: int, m: nat) returns (positions: seq<int>)
    ensures positions == Plan(t, m)
  {
    if t <= m {
      positions := Range(t);
      return;
    }
    var s, k, e := StartBandSize(m), MiddleBandSize(m), EndBandSize(m);
    positions := [];
    positions := AppendStartBand(positions, t, s);
    positions := AppendMiddleBand(positions, t, k);
    positions := AppendEndBand(positions, t, e);
  }

  // ---------------------------------------------------------------- selection

  /** The brightness filter: a frame is kept only if its mean grey level is in (20, 235). */
  predicate UsableBrightness(b: real) { 20.0 < b < 235.0 }

  predicate Usable(o: ReadOutcome) { o.Decoded? && UsableBrightness(o.brightness) }

  /** Every frame at the given positions that reads and passes the filter, in position order. */
  function UsableFrames(positions: seq<int>, read: int -> ReadOutcome): (r: seq<Frame>)
    ensures |r| <= |positions|
  {
    if positions == [] then []
    else
      var p := positions[|positions| - 1];
      UsableFrames(positions[..|positions| - 1], read)
      + (if Usable(read(p)) then [Frame(p, read(p).brightness)] else [])
  }

  /** The first position whose read succeeds, with what was read there. */
  function FirstDecoded(positions: seq<int>, read: int -> ReadOutcome): Option<Frame>
  {
    if positions == [] then None
    else if read(positions[0]).Decoded? then Some(Frame(positions[0], read(positions[0]).brightness))
    else FirstDecoded(positions[1..], read)
  }

  /**
   * What the reading loop keeps. The budget test sits after the brightness test but is
   * skipped by a failed read, so a positive budget keeps the first `m` usable frames,
   * while a zero budget stops at the first successful read, keeping that frame if usable.
   */
  function Selection(positions: seq<int>, read: int -> ReadOutcome, m: nat): seq<Frame>
  {
    if m >= 1 then Take(UsableFrames(positions, read), m)
    else match FirstDecoded(positions, read)
      case None => []
      case Some(f) => if UsableBrightness(f.brightness) then [f] else []
  }

  lemma {:induction false} UsableFramesPrefix(positions: seq<int>, read: int -> ReadOutcome, j: nat)
    requires j <= |positions|
    ensures UsableFrames(positions[..j], read) <= UsableFrames(positions, read)
    decreases |positions|
  {
    if j < |positions| {
      var init := positions[..|positions| - 1];
      assert positions[..j] == init[..j];
      UsableFramesPrefix(init, read, j);
    } else {
      assert positions[..j] == positions;
    }
  }

  /** Every usable frame was read at a planned position and passed the filter. */
  lemma {:induction false} UsableFramesSound(positions: seq<int>, read: int -> ReadOutcome)
    ensures forall f :: f in UsableFrames(positions, read) ==>
              f.position in positions && read(f.position) == Decoded(f.brightness)
              && UsableBrightness(f.brightness)
  {
    if positions != [] {
      UsableFramesSound(positions[..|positions| - 1], read);
    }
  }

  /** A planned position that reads a usable frame contributes it. */
  lemma {:induction false} UsableFramesComplete(positions: seq<int>, read: int -> ReadOutcome, p: int)
    requires p in positions && Usable(read(p))
    ensures Frame(p, read(p).brightness) in UsableFrames(positions, read)
  {
    var init := positions[..|positions| - 1];
    if p != positions[|positions| - 1] {
      assert p in init by {
        var j :| 0 <= j < |positions| && positions[j] == p;
        assert init[j] == p;
      }
      UsableFramesComplete(init, read, p);
    }
  }

  /** The frame-selection contract: only usable frames, within the budget, in plan order. */
  lemma {:induction false} SelectionProperties(positions: seq<int>, read: int -> ReadOutcome, m: nat)
    ensures |Selection(positions, read, m)| <= (if m >= 1 then m else 1)
    ensures forall f :: f in Selection(positions, read, m) ==>
              f.position in positions && read(f.position) == Decoded(f.brightness)
              && UsableBrightness(f.brightness)
    ensures m >= 1 ==> Selection(positions, read, m) <= UsableFrames(positions, read)
    ensures m >= 1 && |UsableFrames(positions, read)| <= m ==>
              Selection(positions, read, m) == UsableFrames(positions, read)
  {
    UsableFramesSound(positions, read);
    if m == 0 {
      FirstDecodedSound(positions, read);
    }
  }

  lemma {:induction false} FirstDecodedSound(positions: seq<int>, read: int -> ReadOutcome)
    ensures FirstDecoded(positions, read).Some? ==>
              var f := FirstDecoded(positions, read).value;
              f.position in positions && read(f.position) == Decoded(f.brightness)
  {
    if positions != [] && !read(positions[0]).Decoded? {
      FirstDecodedSound(positions[1..], read);
    }
  }

  /** What reading position `i` adds to the usable frames, and to the search for the first read. */
  lemma {:induction false} ReadStep(positions: seq<int>, read: int -> ReadOutcome, i: nat)
    requires i < |positions|
    ensures UsableFrames(positions[..i + 1], read) == UsableFrames(positions[..i], read)
              + (if Usable(read(positions[i])) then [Frame(positions[i], read(positions[i]).brightness)] else [])
    ensures FirstDecoded(positions[i..], read) ==
              if read(positions[i]).Decoded? then Some(Frame(positions[i], read(positions[i]).brightness))
              else FirstDecoded(positions[i + 1..], read)
  {
    assert positions[..i + 1][..i] == positions[..i];
    assert positions[i..][1..] == positions[i + 1..];
  }

  /** Once `m` usable frames are in hand the loop has its selection. */
  lemma {:induction false} BudgetReached(positions: seq<int>, read: int -> ReadOutcome, j: nat, m: nat)
    requires 1 <= m && j <= |positions| && |UsableFrames(positions[..j], read)| == m
    ensures Selection(positions, read, m) == UsableFrames(positions[..j], read)
  {
    UsableFramesPrefix(positions, read, j);
  }

  /** With a zero budget the first successful read ends the loop. */
  lemma {:induction false} FirstReadStops(positions: seq<int>, read: int -> ReadOutcome, i: nat)
    requires i < |positions| && read(positions[i]).Decoded?
    requires FirstDecoded(positions, read) == FirstDecoded(positions[i..], read)
    ensures Selection(positions, read, 0) ==
              if UsableBrightness(read(positions[i]).brightness)
              then [Frame(positions[i], read(positions[i]).brightness)] else []
  {
    ReadStep(positions, read, i);
  }

  /** A loop that reads every position without reaching the budget. */
  lemma {:induction false} AllRead(positions: seq<int>, read: int -> ReadOutcome, m: nat)
    ensures UsableFrames(positions[..|positions|], read) == UsableFrames(positions, read)
    ensures m >= 1 && |UsableFrames(positions, read)| < m ==> Selection(positions, read, m) == UsableFrames(positions, read)
    ensures m == 0 && FirstDecoded(positions, read) == FirstDecoded(positions[|positions|..], read) ==>
              Selection(positions, read, m) == []
  {
    assert positions[..|positions|] == positions;
    assert positions[|positions|..] == [];
  }

  /** The reading loop of `extract_frames`, with `continue` on a failed read and the early `break`. */
  method SelectFrames(positions: seq<int>, read: int -> ReadOutcome, m: nat) returns (frames: seq<Frame>)
    ensures frames == Selection(positions, read, m)
  {
    frames := [];
    var i := 0;
    while i < |positions|
      invariant 0 <= i <= |positions|
      invariant m >= 1 ==> frames == UsableFrames(positions[..i], read) && |frames| < m
      invariant m == 0 ==> frames == [] && FirstDecoded(positions, read) == FirstDecoded(positions[i..], read)
    {
      var pos := positions[i];
      var outcome := read(pos);
      ReadStep(positions, read, i);
      if !outcome.Decoded? {
        i := i + 1;
        continue;
      }
      if 20.0 < outcome.brightness < 235.0 {
        frames := frames + [Frame(pos, outcome.brightness)];
      }
      if |frames| >= m {
        if m >= 1 {
          BudgetReached(positions, read, i + 1, m);
        } else {
          FirstReadStops(positions, read, i);
        }
        return;
      }
      i := i + 1;
    }
    AllRead(positions, read, m);
  }

  // ---------------------------------------------------------------- extract_frames

  /** The outcome `extract_frames` promises for a video and a frame budget. */
  function ExtractSpec(video: Video, m: nat): Result<seq<Frame>>
  {
    if !video.isOpen then Err(CouldNotOpen)
    else if video.totalFrames == 0 then Err(EmptySource)
    else
      var frames := Selection(Plan(video.totalFrames, m), video.read, m);
      if frames == [] then Err(NoUsableFrames) else Ok(frames)
  }

  /** `extract_frames`: plan the positions, read them, and fail rather than return nothing. */
  method ExtractFrames(video: Video, m: nat) returns (r: Result<seq<Frame>>)
    ensures r == ExtractSpec(video, m)
  {
    if !video.isOpen {
      return Err(CouldNotOpen);
    }
    if video.totalFrames == 0 {
      return Err(EmptySource);
    }
    var positions := PlanPositions(video.totalFrames, m);
    var frames := SelectFrames(positions, video.read, m);
    if frames == [] {
      return Err(NoUsableFrames);
    }
    return Ok(frames);
  }

  /**
   * Extraction either fails with a named error or returns between 1 and `m` usable frames,
   * each read inside the video; a zero frame count fails before any read.
   */
  lemma {:induction false} ExtractProperties(video: Video, m: nat)
    requires m >= 1
    ensures video.isOpen && video.totalFrames == 0 ==> ExtractSpec(video, m) == Err(EmptySource)
    ensures ExtractSpec(video, m).Ok? ==>
              var frames := ExtractSpec(video, m).value;
              1 <= |frames| <= m
              && forall f :: f in frames ==>
                   0 <= f.position < video.totalFrames
                   && video.read(f.position) == Decoded(f.brightness)
                   && UsableBrightness(f.brightness)
    ensures ExtractSpec(video, m).Err? ==>
              ExtractSpec(video, m).error in {CouldNotOpen, EmptySource, NoUsableFrames}
  {
    var t := video.totalFrames;
    if video.isOpen && t != 0 {
      var plan := Plan(t, m);
      SelectionProperties(plan, video.read, m);
      if t > m {
        PlanLong(t, m);
      }
      forall p | p in plan ensures 0 <= p < t {
        var j :| 0 <= j < |plan| && plan[j] == p;
      }
    }
  }
}
