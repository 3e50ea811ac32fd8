/** `validate_relative_path` and what an accepted artifact path cannot do. */
module Paths {
  import opened Common
  import opened Text

  const MAX_RELATIVE_PATH := 512
  const NUL: char := 0 as char

  /** Unicode's full upper-casing and case folding, character by character. */
  datatype Casing = Casing(upper: char -> string, fold: char -> string) {
    function Upper(s: string): string {
      if s == "" then "" else upper(s[0]) + Upper(s[1..])
    }

    /** `str.casefold`. */
    function Fold(s: string): string {
      if s == "" then "" else fold(s[0]) + Fold(s[1..])
    }

    /** ASCII letters fold and upper-case among themselves, other ASCII stays. */
    ghost predicate Lawful() {
      forall c: char | c as int < 128 ::
        && fold(c) == [if 'A' <= c <= 'Z' then c + ' ' else c]
        && upper(c) == [if 'a' <= c <= 'z' then c - ' ' else c]
    }
  }

  datatype PathError =
    | EmptyPath | TooLong | HasNul | AbsolutePath | DriveQualified
    | BadSegment | HasColon | TrailingDotOrSpace | ReservedDevice

  const RESERVED_DEVICE_NAMES: set<string> :=
    {"CON", "PRN", "AUX", "NUL", "CONIN$", "CONOUT$",
     "COM0", "COM1", "COM2", "COM3", "COM4", "COM5", "COM6", "COM7", "COM8", "COM9",
     "LPT0", "LPT1", "LPT2", "LPT3", "LPT4", "LPT5", "LPT6", "LPT7", "LPT8", "LPT9"}

  predicate Reserved(casing: Casing, segment: string) {
    casing.Upper(Before(segment, '.')) in RESERVED_DEVICE_NAMES
  }

  function SegmentError(casing: Casing, segment: string): Option<PathError> {
    if segment in ["", ".", ".."] then Some(BadSegment)
    else if Has(segment, ':') then Some(HasColon)
    else if segment[|segment| - 1] in ['.', ' '] then Some(TrailingDotOrSpace)
    else if Reserved(casing, segment) then Some(ReservedDevice)
    else None
  }

  /** The first segment that is refused decides. */
  function FirstError(casing: Casing, segments: seq<string>): (e: Option<PathError>)
    ensures e.None? <==> forall k | 0 <= k < |segments| :: SegmentError(casing, segments[k]).None?
  {
    if segments == [] then None
    else
      match SegmentError(casing, segments[0])
      case Some(e) => Some(e)
      case None => FirstError(casing, segments[1..])
  }

  function Segments(path: string): seq<string> {
    Split(Swap(path, '\\', '/'), "/")
  }

  /** The canonical POSIX form of an artifact path, or why it is refused. */
  function ValidateRelativePath(casing: Casing, relpath: string): Result<string, PathError> {
    if relpath == "" then Err(EmptyPath)
    else if |relpath| > MAX_RELATIVE_PATH then Err(TooLong)
    else if Has(relpath, NUL) then Err(HasNul)
    else
      var text := Swap(relpath, '\\', '/');
      if text[0] == '/' then Err(AbsolutePath)
      else if |text| > 1 && text[1] == ':' then Err(DriveQualified)
      else
        var parts := Split(text, "/");
        match FirstError(casing, parts)
        case Some(e) => Err(e)
        case None => Ok(Join(parts, "/"))
  }

  /** What a caller can check beforehand: exactly these paths are accepted. */
  ghost predicate Acceptable(casing: Casing, relpath: string) {
    && 0 < |relpath| <= MAX_RELATIVE_PATH
    && Free(relpath, NUL)
    && forall k | 0 <= k < |Segments(relpath)| :: SegmentError(casing, Segments(relpath)[k]).None?
  }

  /** A path is accepted if and only if every segment is sound; the result only turns `\` into `/`. */
  lemma AcceptedExactly(casing: Casing, relpath: string)
    ensures ValidateRelativePath(casing, relpath).Ok? <==> Acceptable(casing, relpath)
    ensures Acceptable(casing, relpath) ==> ValidateRelativePath(casing, relpath) == Ok(Swap(relpath, '\\', '/'))
  {
    var text := Swap(relpath, '\\', '/');
    JoinSplit(text, "/");
    if relpath != "" && text[0] == '/' {
      assert StartsWith(text, "/");
      assert Segments(relpath)[0] == "";
    }
    if |text| > 1 && text[0] != '/' && text[1] == ':' {
      FirstSegmentPrefix(text);
      assert Segments(relpath)[0][1] == ':';
    }
  }

  /** The first segment starts as the path does. */
  lemma FirstSegmentPrefix(text: string)
    requires |text| > 1 && text[0] != '/' && text[1] == ':'
    ensures |Split(text, "/")[0]| > 1 && Split(text, "/")[0][1] == ':'
  {
    assert text[..1] == [text[0]] && text[1..][0] == ':';
    assert text[1..][..1] == ":";
    assert Split(text[1..], "/")[0] != "" && Split(text[1..], "/")[0][0] == ':';
  }

  /** Validating a canonical path changes nothing. */
  lemma ValidateIdempotent(casing: Casing, relpath: string)
    requires ValidateRelativePath(casing, relpath).Ok?
    ensures var path := ValidateRelativePath(casing, relpath).value;
            ValidateRelativePath(casing, path) == Ok(path)
  {
    AcceptedExactly(casing, relpath);
    var path := Swap(relpath, '\\', '/');
    assert Swap(path, '\\', '/') == path;
    AcceptedExactly(casing, path);
  }

  // ---------------------------------------------------------------------------
  // The refusals
  // ---------------------------------------------------------------------------

  /** Everything before the first dot is one of the names Windows keeps for devices, in any case. */
  ghost predicate Device(casing: Casing, segment: string) {
    exists stem :: StemOf(segment, stem) && casing.Upper(stem) in
        {"CON", "PRN", "AUX", "NUL", "CONIN$", "CONOUT$",
            "COM0", "COM1", "COM2", "COM3", "COM4", "COM5", "COM6", "COM7", "COM8", "COM9",
            "LPT0", "LPT1", "LPT2", "LPT3", "LPT4", "LPT5", "LPT6", "LPT7", "LPT8", "LPT9"}
  }

  predicate StemOf(segment: string, stem: string) {
    && |stem| <= |segment| && segment[..|stem|] == stem && '.' !in stem
    && (|stem| < |segment| ==> segment[|stem|] == '.')
  }

  lemma DeviceExactly(casing: Casing, segment: string)
    ensures Reserved(casing, segment) <==> Device(casing, segment)
  {
    var stem := Before(segment, '.');
    assert StemOf(segment, stem);
    forall t | StemOf(segment, t) ensures t == stem {
      BeforeUnique(segment, '.', t);
    }
    hide StemOf;
  }

  /** Why a segment is refused: the first of these complaints, or none. */
  lemma SegmentTable(casing: Casing, segment: string)
    ensures var e := SegmentError(casing, segment);
            if segment in {"", ".", ".."} then e == Some(BadSegment)
            else if ':' in segment then e == Some(HasColon)
            else if segment[|segment| - 1] == '.' || segment[|segment| - 1] == ' ' then e == Some(TrailingDotOrSpace)
            else if Device(casing, segment) then e == Some(ReservedDevice)
            else e == None
  {
    DeviceExactly(casing, segment);
    hide Reserved, Device;
  }

  /** Why a path is refused: the first of these complaints, or that of its first unsound segment. */
  lemma RefusalTable(casing: Casing, path: string)
    ensures var r := ValidateRelativePath(casing, path);
            if path == "" then r == Err(EmptyPath)
            else if |path| > 512 then r == Err(TooLong)
            else if 0 as char in path then r == Err(HasNul)
            else if path[0] in {'/', '\\'} then r == Err(AbsolutePath)
            else if |path| > 1 && path[1] == ':' then r == Err(DriveQualified)
            else if r.Err? then
              exists k: nat :: FirstUnsound(casing, Segments(path), k)
                  && SegmentError(casing, Segments(path)[k]) == Some(r.error)
            else forall k | 0 <= k < |Segments(path)| :: SegmentError(casing, Segments(path)[k]).None?
  {
    FirstNamed(casing, Segments(path));
    hide SegmentError, FirstUnsound;
  }

  ghost predicate FirstUnsound(casing: Casing, segments: seq<string>, k: nat) {
    && k < |segments| && SegmentError(casing, segments[k]).Some?
    && forall j | 0 <= j < k :: SegmentError(casing, segments[j]).None?
  }

  lemma {:induction false} FirstNamed(casing: Casing, segments: seq<string>)
    ensures FirstError(casing, segments).Some? ==>
              exists k: nat :: FirstUnsound(casing, segments, k)
                  && SegmentError(casing, segments[k]) == FirstError(casing, segments)
  {
    hide SegmentError;
    if segments != [] {
      if SegmentError(casing, segments[0]).Some? {
        assert FirstUnsound(casing, segments, 0);
      } else if FirstError(casing, segments).Some? {
        FirstNamed(casing, segments[1..]);
        var k: nat :| FirstUnsound(casing, segments[1..], k)
            && SegmentError(casing, segments[1..][k]) == FirstError(casing, segments[1..]);
        assert forall j | 0 < j < k + 1 :: segments[j] == segments[1..][j - 1];
        assert FirstUnsound(casing, segments, k + 1);
      }
    }
  }

  // ---------------------------------------------------------------------------
  // Containment
  // ---------------------------------------------------------------------------

  /** How an operating system follows segments from a directory; `None` above the top. */
  function Walk(from: seq<string>, segments: seq<string>): Option<seq<string>>
    decreases |segments|
  {
    if segments == [] then Some(from)
    else if segments[0] in ["", "."] then Walk(from, segments[1..])
    else if segments[0] == ".." then (if from == [] then None else Walk(from[..|from| - 1], segments[1..]))
    else Walk(from + [segments[0]], segments[1..])
  }

  lemma {:induction false} WalkDescends(from: seq<string>, segments: seq<string>)
    requires forall k | 0 <= k < |segments| :: segments[k] !in ["", ".", ".."]
    ensures Walk(from, segments) == Some(from + segments)
    decreases |segments|
  {
    if segments != [] {
      WalkDescends(from + [segments[0]], segments[1..]);
      assert from + [segments[0]] + segments[1..] == from + segments;
    } else {
      assert from + segments == from;
    }
  }

  /** From any root, an accepted path leads strictly below the root, each segment one level down. */
  lemma Contained(casing: Casing, relpath: string, root: seq<string>)
    requires ValidateRelativePath(casing, relpath).Ok?
    ensures var parts := Split(ValidateRelativePath(casing, relpath).value, "/");
            parts != [] && Walk(root, parts) == Some(root + parts)
  {
    AcceptedExactly(casing, relpath);
    var parts := Segments(relpath);
    forall k | 0 <= k < |parts| ensures parts[k] !in ["", ".", ".."] {
      assert SegmentError(casing, parts[k]).None?;
    }
    WalkDescends(root, parts);
  }

  // ---------------------------------------------------------------------------
  // Aliases
  // ---------------------------------------------------------------------------

  /** A filesystem that strips trailing dots and spaces from every name and ignores case. */
  function Landing(casing: Casing, path: string): string {
    casing.Fold(Join(StripEach(Split(path, "/")), "/"))
  }

  function StripEach(segments: seq<string>): seq<string> {
    if segments == [] then []
    else [StripRight(segments[0], c => c == '.' || c == ' ')] + StripEach(segments[1..])
  }

  lemma {:induction false} StripEachKeeps(segments: seq<string>)
    requires forall k | 0 <= k < |segments| :: segments[k] != "" && segments[k][|segments[k]| - 1] !in ['.', ' ']
    ensures StripEach(segments) == segments
  {
    if segments != [] {
      StripEachKeeps(segments[1..]);
    }
  }

  /** An accepted path lands on its own case-folded name: nothing of it is stripped. */
  lemma LandsAsFolded(casing: Casing, relpath: string)
    requires ValidateRelativePath(casing, relpath).Ok?
    ensures var path := ValidateRelativePath(casing, relpath).value;
            Landing(casing, path) == casing.Fold(path)
  {
    AcceptedExactly(casing, relpath);
    var parts := Segments(relpath);
    forall k | 0 <= k < |parts| ensures parts[k] != "" && parts[k][|parts[k]| - 1] !in ['.', ' '] {
      assert SegmentError(casing, parts[k]).None?;
    }
    StripEachKeeps(parts);
    JoinSplit(Swap(relpath, '\\', '/'), "/");
  }
}
