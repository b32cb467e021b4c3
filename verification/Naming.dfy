// Suggesting an output name that is not taken yet. `lower` is the platform's conversion
// to lower case; the results hold whatever it does.
module Naming {
  import opened Decimal
  import opened Sequences

  datatype Stem = Stem(directory: string, stem: string, ext: string)

  /** The last position of a character that satisfies `p`, or -1. */
  function LastIndex(p: char -> bool, s: string): (i: int)
    ensures -1 <= i < |s|
    ensures i >= 0 ==> p(s[i])
    ensures forall k :: i < k < |s| ==> !p(s[k])
  {
    if s == [] then -1
    else if p(s[|s| - 1]) then |s| - 1
    else LastIndex(p, s[..|s| - 1])
  }

  predicate IsSeparator(c: char) {
    c == '/' || c == '\\'
  }

  predicate IsDot(c: char) {
    c == '.'
  }

  function PathStemAndExt(lower: string -> string, input: string): Stem {
    var separator := LastIndex(IsSeparator, input);
    var directory := input[..separator + 1];
    var filename := input[separator + 1..];
    var dot := LastIndex(IsDot, filename);
    var stem := if dot > 0 then filename[..dot] else filename;
    Stem(directory, stem, lower(if dot > 0 then filename[dot + 1..] else "bin"))
  }

  lemma LastIndexIs(p: char -> bool, s: string, i: nat)
    requires i < |s| && p(s[i]) && forall k :: i < k < |s| ==> !p(s[k])
    ensures LastIndex(p, s) == i
  {
  }

  /** A name without separators. */
  predicate IsPlain(name: string) {
    forall i :: 0 <= i < |name| ==> name[i] != '/' && name[i] != '\\'
  }

  lemma SplitsAtSeparator(directory: string, filename: string)
    requires directory == "" || directory[|directory| - 1] in "/\\"
    requires IsPlain(filename)
    ensures var at := LastIndex(IsSeparator, directory + filename);
      (directory + filename)[..at + 1] == directory && (directory + filename)[at + 1..] == filename
  {
    var input := directory + filename;
    assert forall k :: |directory| <= k < |input| ==> input[k] == filename[k - |directory|];
    if directory != "" {
      LastIndexIs(IsSeparator, input, |directory| - 1);
    }
  }

  lemma SplitsAtDot(stem: string, ext: string)
    requires stem != "" && '.' !in ext
    ensures LastIndex(IsDot, stem + "." + ext) == |stem|
    ensures '.' !in stem[1..] ==> LastIndex(IsDot, stem) <= 0
  {
    var filename := stem + "." + ext;
    assert forall k :: |stem| < k < |filename| ==> filename[k] in ext;
    LastIndexIs(IsDot, filename, |stem|);
    if '.' !in stem[1..] {
      assert forall k :: 0 < k < |stem| ==> stem[k] in stem[1..];
    }
  }

  lemma FileNameParts(filename: string, stem: string, ext: string)
    requires stem != "" && IsPlain(stem) && IsPlain(ext) && '.' !in ext && filename == stem + "." + ext
    ensures IsPlain(filename) && LastIndex(IsDot, filename) == |stem|
    ensures filename[..|stem|] == stem && filename[|stem| + 1..] == ext
  {
    SplitsAtDot(stem, ext);
  }

  lemma PartsOf(lower: string -> string, input: string, directory: string, filename: string)
    requires directory == "" || directory[|directory| - 1] in "/\\"
    requires IsPlain(filename) && LastIndex(IsDot, filename) > 0 && input == directory + filename
    ensures var dot := LastIndex(IsDot, filename);
      PathStemAndExt(lower, input) == Stem(directory, filename[..dot], lower(filename[dot + 1..]))
  {
    SplitsAtSeparator(directory, filename);
  }

  /** A path is taken apart at its last separator and at the last dot after it. */
  lemma TakenApart(lower: string -> string, input: string, directory: string, stem: string, ext: string)
    requires directory == "" || directory[|directory| - 1] in "/\\"
    requires stem != "" && IsPlain(stem) && IsPlain(ext) && '.' !in ext && input == directory + (stem + "." + ext)
    ensures PathStemAndExt(lower, input) == Stem(directory, stem, lower(ext))
  {
    FileNameParts(stem + "." + ext, stem, ext);
    PartsOf(lower, input, directory, stem + "." + ext);
  }

  /** Without such a dot, of which one that opens the file name is none, it has a stem only. */
  lemma NothingToTakeOff(lower: string -> string, input: string, directory: string, stem: string)
    requires directory == "" || directory[|directory| - 1] in "/\\"
    requires stem != "" && IsPlain(stem) && '.' !in stem[1..] && input == directory + stem
    ensures PathStemAndExt(lower, input) == Stem(directory, stem, lower("bin"))
  {
    SplitsAtSeparator(directory, stem);
    SplitsAtDot(stem, "");
  }

  const SINGLE_FILE_BITMAP_INPUTS: seq<string> := [
    "heic", "heif", "psd", "dng", "cr2", "cr3", "arw", "nef", "orf", "rw2", "pef", "raf",
    "tiff", "tif", "bmp"]

  predicate IsDirectoryOutput(lower: string -> string, input: string, target: string) {
    var normalized := lower(target);
    if normalized == "csv" && PathStemAndExt(lower, input).ext == "xlsx" then true
    else if normalized !in ["png", "jpg", "jpeg"] then false
    else PathStemAndExt(lower, input).ext !in SINGLE_FILE_BITMAP_INPUTS
  }

  function DirectorySuffix(normalized: string): string {
    if normalized == "csv" then "converted-csv-sheets" else "converted-" + normalized + "-pages"
  }

  function Normalized(target: string): string {
    if target == "jpeg" then "jpg" else target
  }

  /** The shape all suggestions share; only `mark` varies. */
  function Named(lower: string -> string, input: string, normalized: string, mark: string): string {
    var s := PathStemAndExt(lower, input);
    var suffix :=
      if IsDirectoryOutput(lower, input, normalized) then "." + DirectorySuffix(normalized)
      else ".converted." + normalized;
    (s.directory + s.stem) + mark + suffix
  }

  function Mark(ext: string, k: nat): string {
    if k == 0 then ""
    else if k == 1 then ".from-" + ext
    else ".from-" + ext + "-" + Digits(k)
  }

  /** The names in the order they are tried: number 0, number 1, then 2, 3, ... */
  function Candidate(lower: string -> string, input: string, normalized: string, k: nat): string {
    Named(lower, input, normalized, Mark(PathStemAndExt(lower, input).ext, k))
  }

  /** Which conversions write a directory: of spreadsheets to tables, and to three picture
      formats from anything that is not a single picture. */
  lemma DirectoryOutputWhen(lower: string -> string, input: string, target: string)
    ensures IsDirectoryOutput(lower, input, target) <==>
              var ext := PathStemAndExt(lower, input).ext;
              || (lower(target) == "csv" && ext == "xlsx")
              || (lower(target) in ["png", "jpg", "jpeg"]
                  && ext !in ["heic", "heif", "psd", "dng", "cr2", "cr3", "arw", "nef", "orf", "rw2", "pef", "raf", "tiff", "tif", "bmp"])
  {
  }

  /** What follows the stem in all names suggested for an input. */
  lemma TailIs(lower: string -> string, input: string, normalized: string, mark: string)
    ensures var s := PathStemAndExt(lower, input);
      Named(lower, input, normalized, mark) ==
        s.directory + s.stem + mark +
          if !IsDirectoryOutput(lower, input, normalized) then ".converted." + normalized
          else if normalized == "csv" then ".converted-csv-sheets"
          else ".converted-" + normalized + "-pages"
  {
    assert "." + "converted-csv-sheets" == ".converted-csv-sheets";
    assert "." + ("converted-" + normalized + "-pages") == ".converted-" + normalized + "-pages";
  }

  /** The names suggested for an input, in full. */
  lemma SuggestedNames(lower: string -> string, input: string, directory: string, stem: string, ext: string, normalized: string, k: nat)
    requires directory == "" || directory[|directory| - 1] in "/\\"
    requires stem != "" && IsPlain(stem) && IsPlain(ext) && '.' !in ext && input == directory + (stem + "." + ext)
    ensures Candidate(lower, input, normalized, k) ==
              directory + stem
              + (if k == 0 then "" else if k == 1 then ".from-" + lower(ext) else ".from-" + lower(ext) + "-" + Digits(k))
              + if !IsDirectoryOutput(lower, input, normalized) then ".converted." + normalized
                else if normalized == "csv" then ".converted-csv-sheets"
                else ".converted-" + normalized + "-pages"
  {
    TakenApart(lower, input, directory, stem, ext);
    TailIs(lower, input, normalized, Mark(PathStemAndExt(lower, input).ext, k));
  }

  lemma SamePrefix(p: string, a: string, b: string)
    requires p + a == p + b
    ensures a == b
  {
    assert a == (p + a)[|p|..] && b == (p + b)[|p|..];
  }

  lemma SameSuffix(a: string, b: string, s: string)
    requires a + s == b + s
    ensures a == b
  {
    assert |a| == |a + s| - |s| == |b|;
    assert a == (a + s)[..|a|] && b == (b + s)[..|a|];
  }

  lemma MarksDistinct(ext: string, i: nat, k: nat)
    requires Mark(ext, i) == Mark(ext, k)
    ensures i == k
  {
    if i >= 2 && k >= 2 {
      SamePrefix(".from-" + ext + "-", Digits(i), Digits(k));
      DigitsInjective(i, k);
    }
  }

  lemma CandidatesDistinct(lower: string -> string, input: string, normalized: string, i: nat, k: nat)
    requires Candidate(lower, input, normalized, i) == Candidate(lower, input, normalized, k)
    ensures i == k
  {
    var s := PathStemAndExt(lower, input);
    var head := s.directory + s.stem;
    var suffix := if IsDirectoryOutput(lower, input, normalized) then "." + DirectorySuffix(normalized) else ".converted." + normalized;
    SameSuffix(head + Mark(s.ext, i), head + Mark(s.ext, k), suffix);
    SamePrefix(head, Mark(s.ext, i), Mark(s.ext, k));
    MarksDistinct(s.ext, i, k);
  }

  /** Pigeonhole: candidates that are all reserved are no more than the reserved names. */
  lemma TakenBound(lower: string -> string, input: string, normalized: string, reserved: seq<string>, k: nat)
    requires forall i :: 0 <= i < k ==> Candidate(lower, input, normalized, i) in reserved
    ensures k <= |reserved|
  {
    var names := seq(k, i requires 0 <= i < k => Candidate(lower, input, normalized, i));
    forall i, j | 0 <= i < j < k ensures names[i] != names[j] {
      if names[i] == names[j] { CandidatesDistinct(lower, input, normalized, i, j); }
    }
    Pigeonhole(names, reserved);
  }

  /** The search ends and returns the first candidate that is not reserved. It
      never skips more names than are reserved. */
  method SuggestedConvertedName(lower: string -> string, input: string, target: string, reserved: seq<string>)
    returns (name: string, ghost skipped: nat)
    ensures skipped <= |reserved|
    ensures var normalized := if target == "jpeg" then "jpg" else target;
      && name == Candidate(lower, input, normalized, skipped) && name !in reserved
      && forall i :: 0 <= i < skipped ==> Candidate(lower, input, normalized, i) in reserved
  {
    var normalized := Normalized(target);
    var ext := PathStemAndExt(lower, input).ext;
    var first := Named(lower, input, normalized, "");
    if first !in reserved { return first, 0; }
    var second := Named(lower, input, normalized, ".from-" + ext);
    TakenBound(lower, input, normalized, reserved, 1);
    if second !in reserved { return second, 1; }
    var index := 2;
    TakenBound(lower, input, normalized, reserved, 2);
    while true
      invariant 2 <= index <= |reserved|
      invariant forall i :: 0 <= i < index ==> Candidate(lower, input, normalized, i) in reserved
      decreases |reserved| - index
    {
      var candidate := Named(lower, input, normalized, ".from-" + ext + "-" + Digits(index));
      assert candidate == Candidate(lower, input, normalized, index);
      if candidate !in reserved { return candidate, index; }
      index := index + 1;
      TakenBound(lower, input, normalized, reserved, index);
    }
  }
}
