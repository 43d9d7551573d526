/** Upload file-name validation: `validate_video_file`. */
module Validation {
  import opened Common

  /** The allow-set of video extensions, compared after lower-casing. */
  const AllowedExtensions: set<string> := {".mp4", ".avi", ".mov", ".mkv", ".wmv"}

  /** Index of the last occurrence of `c` in `s`, or -1 (Python's `str.rfind`). */
  function RFind(s: string, c: char): (r: int)
    ensures -1 <= r < |s|
    ensures r >= 0 ==> s[r] == c
    ensures forall j :: r < j < |s| ==> s[j] != c
  {
    if s == [] then -1
    else if s[|s| - 1] == c then |s| - 1
    else RFind(s[..|s| - 1], c)
  }

  /** True when some character strictly between `lo` and `hi` is not a dot. */
  predicate HasNonDotBetween(s: string, lo: int, hi: int)
    requires -1 <= lo && hi <= |s|
  {
    exists k :: lo < k < hi && s[k] != '.'
  }

  /**
   * The extension in the sense of POSIX `os.path.splitext`: the suffix starting at the
   * last dot of the last path component, provided that dot is preceded in the component
   * by a character other than a dot (leading dots do not start an extension).
   */
  function Extension(p: string): string
  {
    var sep := RFind(p, '/');
    var dot := RFind(p, '.');
    if dot > sep && HasNonDotBetween(p, sep, dot) then p[dot..] else ""
  }

  /** The first half of `os.path.splitext`. */
  function Root(p: string): string
  {
    p[..|p| - |Extension(p)|]
  }

  lemma {:induction false} SplitExtRoundTrip(p: string)
    ensures |Extension(p)| <= |p|
    ensures Root(p) + Extension(p) == p
    ensures Extension(p) != "" ==> Extension(p)[0] == '.'
    ensures forall i :: 0 <= i < |Extension(p)| ==> Extension(p)[i] != '/'
    ensures forall i :: 1 <= i < |Extension(p)| ==> Extension(p)[i] != '.'
  {
  }

  /**
   * Python's `str.lower` on one character, restricted to what decides membership in the
   * allow-set: ASCII capitals and the KELVIN SIGN (U+212A), which lower-cases to `k`.
   */
  function LowerChar(c: char): char
  {
    if 'A' <= c <= 'Z' then (c as int + 32) as char
    else if c == 'K' then 'k'
    else c
  }

  function Lower(s: string): (r: string)
    ensures |r| == |s|
    ensures forall i :: 0 <= i < |s| ==> r[i] == LowerChar(s[i])
  {
    if s == [] then "" else Lower(s[..|s| - 1]) + [LowerChar(s[|s| - 1])]
  }

  /** `validate_video_file`: `Ok(())` when the upload may be processed. */
  function ValidateVideoFile(filename: string): (r: Result<()>)
    ensures r.Ok? <==> filename != "" && Lower(Extension(filename)) in AllowedExtensions
    ensures filename == "" ==> r == Err(NoFileName)
    ensures r.Err? && filename != "" ==> r == Err(InvalidFormat)
  {
    if filename == "" then Err(NoFileName)
    else if Lower(Extension(filename)) !in AllowedExtensions then Err(InvalidFormat)
    else Ok(())
  }

  /** Lower-casing maps the separators onto themselves and nothing else onto them. */
  lemma {:induction false} LowerCharKeepsSeparators(c: char)
    ensures LowerChar(c) == '.' <==> c == '.'
    ensures LowerChar(c) == '/' <==> c == '/'
  {
  }

  /** An accepted name ends in a four-character extension starting at its last dot. */
  lemma {:induction false} AcceptedShape(p: string)
    requires ValidateVideoFile(p).Ok?
    ensures |p| >= 4 && Extension(p) == p[|p| - 4..]
    ensures HasNonDotBetween(p, RFind(p, '/'), |p| - 4)
  {
    var dot := RFind(p, '.');
    var le := Lower(Extension(p));
    assert |le| == 4 by {
      assert le == ".mp4" || le == ".avi" || le == ".mov" || le == ".mkv" || le == ".wmv";
    }
    assert Extension(p) == p[dot..];
  }

  /** A name whose last four characters lower-case to an allowed extension has them as its extension. */
  lemma {:induction false} AllowedSuffixIsExtension(p: string)
    requires |p| >= 4 && Lower(p[|p| - 4..]) in AllowedExtensions
    requires HasNonDotBetween(p, RFind(p, '/'), |p| - 4)
    ensures Extension(p) == p[|p| - 4..]
  {
    var t := p[|p| - 4..];
    var lt := Lower(t);
    assert lt == ".mp4" || lt == ".avi" || lt == ".mov" || lt == ".mkv" || lt == ".wmv";
    assert lt[0] == '.' && lt[1] != '.' && lt[2] != '.' && lt[3] != '.';
    assert lt[1] != '/' && lt[2] != '/' && lt[3] != '/';
    LowerCharKeepsSeparators(t[0]);
    LowerCharKeepsSeparators(t[1]);
    LowerCharKeepsSeparators(t[2]);
    LowerCharKeepsSeparators(t[3]);
    assert p[|p| - 4] == '.';
    assert RFind(p, '.') == |p| - 4;
    assert RFind(p, '/') < |p| - 4;
  }

  /**
   * Independent characterisation of acceptance, without splitext: a non-empty name is
   * accepted iff its last four characters lower-case to an allowed extension and the last
   * path component holds a non-dot character before that final dot.
   */
  lemma {:induction false} AcceptedIff(p: string)
    ensures ValidateVideoFile(p).Ok? <==>
      (|p| >= 4 && Lower(p[|p| - 4..]) in AllowedExtensions
       && HasNonDotBetween(p, RFind(p, '/'), |p| - 4))
  {
    if ValidateVideoFile(p).Ok? {
      AcceptedShape(p);
    }
    if |p| >= 4 && Lower(p[|p| - 4..]) in AllowedExtensions && HasNonDotBetween(p, RFind(p, '/'), |p| - 4) {
      AllowedSuffixIsExtension(p);
    }
  }

  /** Concrete cases from the splitext rules. */
  lemma {:induction false} ExampleUpperCase()
    ensures ValidateVideoFile("clip.MP4") == Ok(())
  {
    var p := "clip.MP4";
    assert p[4] == '.' && p[5] == 'M' && p[6] == 'P' && p[7] == '4';
    assert RFind(p, '/') == -1;
    assert RFind(p, '.') == 4;
    assert p[0] != '.';
    assert Extension(p) == ".MP4";
    assert Lower(".MP4") == ".mp4";
  }

  lemma {:induction false} ExampleHiddenFile()
    ensures ValidateVideoFile(".mp4") == Err(InvalidFormat)
  {
    var p := ".mp4";
    assert p[0] == '.' && p[1] == 'm' && p[2] == 'p' && p[3] == '4';
    assert RFind(p, '/') == -1;
    assert RFind(p, '.') == 0;
    assert Extension(p) == "";
  }

  lemma {:induction false} ExampleDirectory()
    ensures ValidateVideoFile("a.mp4/b") == Err(InvalidFormat)
  {
    var p := "a.mp4/b";
    assert p[1] == '.' && p[2] == 'm' && p[3] == 'p' && p[4] == '4' && p[5] == '/' && p[6] == 'b';
    assert RFind(p, '/') == 5;
    assert RFind(p, '.') == 1;
    assert Extension(p) == "";
  }
}
