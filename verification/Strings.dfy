module Strings {

  /** `to_ascii_lowercase` of a character. */
  function LowerChar(c: char): char {
    if 'A' <= c <= 'Z' then c - 'A' + 'a' else c
  }

  function ToLower(s: string): string {
    seq(|s|, i requires 0 <= i < |s| => LowerChar(s[i]))
  }

  predicate EqualButCase(a: string, b: string) {
    |a| == |b|
    && forall i :: 0 <= i < |a| ==>
         || a[i] == b[i]
         || ('A' <= a[i] <= 'Z' && b[i] as int == a[i] as int + 32)
         || ('A' <= b[i] <= 'Z' && a[i] as int == b[i] as int + 32)
  }

  lemma SameLower(a: string, b: string)
    ensures ToLower(a) == ToLower(b) <==> EqualButCase(a, b)
  {
    if |a| == |b| {
      forall i | 0 <= i < |a| ensures ToLower(a)[i] == LowerChar(a[i]) && ToLower(b)[i] == LowerChar(b[i]) {
        SameLowerChar(a[i], b[i]);
      }
    }
  }

  /** The order of strings: by the first differing character, prefixes first. */
  predicate Below(a: string, b: string) {
    a == [] || (b != [] && (a[0] < b[0] || (a[0] == b[0] && Below(a[1..], b[1..]))))
  }

  /** `a` is a beginning of `b`, or smaller where the two first differ. */
  ghost predicate DiffersBelow(a: string, b: string, k: int) {
    && 0 <= k <= |a| && k <= |b| && a[..k] == b[..k]
    && (k == |a| || (k < |b| && a[k] as int < b[k] as int))
  }

  lemma {:induction false} BelowIsLexicographic(a: string, b: string)
    ensures Below(a, b) <==> exists k :: DiffersBelow(a, b, k)
  {
    if a == [] {
      assert DiffersBelow(a, b, 0);
    } else if b != [] {
      BelowIsLexicographic(a[1..], b[1..]);
      if a[0] < b[0] { assert DiffersBelow(a, b, 0); }
      if k :| a[0] == b[0] && DiffersBelow(a[1..], b[1..], k) {
        assert a[..k + 1] == [a[0]] + a[1..][..k] && b[..k + 1] == [b[0]] + b[1..][..k];
        assert DiffersBelow(a, b, k + 1);
      }
      if k :| DiffersBelow(a, b, k) {
        if k > 0 {
          assert a[..k][0] == b[..k][0];
          assert a[1..][..k - 1] == a[..k][1..] && b[1..][..k - 1] == b[..k][1..];
          assert DiffersBelow(a[1..], b[1..], k - 1);
        }
      }
    }
  }

  lemma {:induction false} BelowTotal(a: string, b: string)
    ensures Below(a, b) || Below(b, a)
  {
    if a == [] || b == [] {
    } else {
      BelowTotal(a[1..], b[1..]);
    }
  }

  lemma {:induction false} BelowAntisymmetric(a: string, b: string)
    requires Below(a, b) && Below(b, a)
    ensures a == b
  {
    if a == [] || b == [] {
    } else {
      BelowAntisymmetric(a[1..], b[1..]);
      assert a == [a[0]] + a[1..] && b == [b[0]] + b[1..];
    }
  }

  lemma {:induction false} BelowTransitive(a: string, b: string, c: string)
    requires Below(a, b) && Below(b, c)
    ensures Below(a, c)
  {
    if a == [] {
    } else if a[0] == b[0] == c[0] {
      BelowTransitive(a[1..], b[1..], c[1..]);
    }
  }

  /** Letters that differ only in case have the same lower-case form, and no other two
      characters have. */
  lemma SameLowerChar(a: char, b: char)
    ensures LowerChar(a) == LowerChar(b) <==>
              || a == b
              || ('A' <= a <= 'Z' && b as int == a as int + 32)
              || ('A' <= b <= 'Z' && a as int == b as int + 32)
    ensures !('A' <= LowerChar(a) <= 'Z') && LowerChar(LowerChar(a)) == LowerChar(a)
  {
  }

  predicate IsHexDigit(c: char) {
    '0' <= c <= '9' || 'a' <= c <= 'f' || 'A' <= c <= 'F'
  }

  lemma HexDigits(c: char)
    ensures IsHexDigit(c) <==> c in "0123456789abcdefABCDEF"
  {
    var digits := "0123456789abcdefABCDEF";
    if '0' <= c <= '9' {
      assert digits[c as int - '0' as int] == c;
    } else if 'a' <= c <= 'f' {
      assert digits[10 + c as int - 'a' as int] == c;
    } else if 'A' <= c <= 'F' {
      assert digits[16 + c as int - 'A' as int] == c;
    }
  }

  /** The parts between the slashes. */
  function Segments(path: string): (parts: seq<string>)
    ensures parts != []
  {
    if path == [] then [""]
    else
      var rest := Segments(path[1..]);
      if path[0] == '/' then [""] + rest else [[path[0]] + rest[0]] + rest[1..]
  }

  function Slashed(parts: seq<string>): string {
    if parts == [] then "" else if |parts| == 1 then parts[0] else parts[0] + "/" + Slashed(parts[1..])
  }

  lemma SlashedFirst(c: char, parts: seq<string>)
    requires parts != []
    ensures Slashed([[c] + parts[0]] + parts[1..]) == [c] + Slashed(parts)
  {
    assert ([[c] + parts[0]] + parts[1..])[1..] == parts[1..];
  }

  /** The parts are those between the slashes: without slashes, and the path when joined. */
  lemma {:induction false} SegmentsAre(path: string)
    ensures Slashed(Segments(path)) == path
    ensures forall i :: 0 <= i < |Segments(path)| ==> '/' !in Segments(path)[i]
  {
    if path == [] {
    } else {
      var rest := Segments(path[1..]);
      SegmentsAre(path[1..]);
      if path[0] == '/' {
        assert ([""] + rest)[1..] == rest;
        assert "/" + path[1..] == path;
      } else {
        SlashedFirst(path[0], rest);
      }
    }
  }

  /** The parts of a path that count. */
  function KeptParts(parts: seq<string>): seq<string> {
    if parts == [] then []
    else
      var before := KeptParts(parts[..|parts| - 1]);
      if parts[|parts| - 1] == "" || parts[|parts| - 1] == "." then before else before + [parts[|parts| - 1]]
  }

  /** All parts count but empty ones and single dots, each for itself. */
  lemma {:induction false} KeptPartsAre(a: seq<string>, b: seq<string>, p: string)
    ensures KeptParts(a + b) == KeptParts(a) + KeptParts(b)
    ensures KeptParts([p]) == if p in ["", "."] then [] else [p]
  {
    assert [p][..0] == [];
    if b == [] {
      assert a + b == a;
    } else {
      KeptPartsAre(a, b[..|b| - 1], p);
      assert (a + b)[..|a + b| - 1] == a + b[..|b| - 1];
    }
  }

  predicate PartsBelow(a: seq<string>, b: seq<string>) {
    a == [] || (b != [] && if a[0] == b[0] then PartsBelow(a[1..], b[1..]) else Below(a[0], b[0]))
  }

  /** `a` is a beginning of `b`, or has the smaller part where the two first differ. */
  ghost predicate PartDiffers(a: seq<string>, b: seq<string>, k: int) {
    && 0 <= k <= |a| && k <= |b| && a[..k] == b[..k]
    && (k == |a| || (k < |b| && a[k] != b[k] && Below(a[k], b[k])))
  }

  lemma {:induction false} PartsAreLexicographic(a: seq<string>, b: seq<string>)
    ensures PartsBelow(a, b) <==> exists k :: PartDiffers(a, b, k)
  {
    if a == [] {
      assert PartDiffers(a, b, 0);
    } else if b != [] {
      PartsAreLexicographic(a[1..], b[1..]);
      if a[0] != b[0] && Below(a[0], b[0]) { assert PartDiffers(a, b, 0); }
      if k :| a[0] == b[0] && PartDiffers(a[1..], b[1..], k) {
        assert a[..k + 1] == [a[0]] + a[1..][..k] && b[..k + 1] == [b[0]] + b[1..][..k];
        assert PartDiffers(a, b, k + 1);
      }
      if k :| PartDiffers(a, b, k) {
        if k > 0 {
          assert a[..k][0] == b[..k][0];
          assert a[1..][..k - 1] == a[..k][1..] && b[1..][..k - 1] == b[..k][1..];
          assert PartDiffers(a[1..], b[1..], k - 1);
        }
      }
    }
  }

  /** The order of paths: part by part, not character by character. */
  predicate PathBelow(a: string, b: string) {
    PartsBelow(KeptParts(Segments(a)), KeptParts(Segments(b)))
  }

  lemma {:induction false} PartsTotal(a: seq<string>, b: seq<string>)
    ensures PartsBelow(a, b) || PartsBelow(b, a)
  {
    if a == [] || b == [] {
    } else {
      BelowTotal(a[0], b[0]);
      PartsTotal(a[1..], b[1..]);
    }
  }

  lemma {:induction false} PartsTransitive(a: seq<string>, b: seq<string>, c: seq<string>)
    requires PartsBelow(a, b) && PartsBelow(b, c)
    ensures PartsBelow(a, c)
  {
    if a == [] {
    } else if a[0] == b[0] == c[0] {
      PartsTransitive(a[1..], b[1..], c[1..]);
    } else {
      if a[0] == c[0] {
        BelowAntisymmetric(a[0], b[0]);
      } else if a[0] != b[0] && b[0] != c[0] {
        BelowTransitive(a[0], b[0], c[0]);
      }
    }
  }
}
