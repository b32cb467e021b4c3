// The order of engine versions.
module Versions {
  import opened Decimal
  import opened Options
  import opened Strings

  datatype Segment = Numeric(n: nat) | Text(s: string)

  type VersionKey = seq<Segment>

  datatype Ordering = Less | Equal | Greater

  const U64_LIMIT: nat := 0x1_0000_0000_0000_0000

  /** `str::parse::<u64>`: a leading plus sign is allowed, an overflow is not. */
  function ParseU64(part: string): Option<nat> {
    var digits := if part != [] && part[0] == '+' then part[1..] else part;
    if digits == [] || !AllDigits(digits) || Value(digits) >= U64_LIMIT then None else Some(Value(digits))
  }

  function ParseSegment(part: string): Segment {
    match ParseU64(part)
    case Some(n) => Numeric(n)
    case None => Text(part)
  }

  function Parse(value: string): VersionKey {
    ParseFrom(value, "")
  }

  /** Splits at dots; `part` is what has been read of the current segment. */
  function ParseFrom(value: string, part: string): VersionKey {
    if value == [] then [ParseSegment(part)]
    else if value[0] == '.' then [ParseSegment(part)] + ParseFrom(value[1..], "")
    else ParseFrom(value[1..], part + [value[0]])
  }

  /** Parsing splits at dots and nowhere else. */
  lemma {:induction false} ParseSplits(a: string, b: string, part: string)
    ensures '.' !in a ==> ParseFrom(a, part) == [ParseSegment(part + a)]
    ensures ParseFrom(a + "." + b, part) == ParseFrom(a, part) + Parse(b)
  {
    var whole := a + "." + b;
    if a == [] {
      assert whole[1..] == b && part + a == part;
    } else {
      assert whole[1..] == a[1..] + "." + b;
      if a[0] == '.' {
        ParseSplits(a[1..], b, "");
      } else {
        assert part + [a[0]] + a[1..] == part + a;
        ParseSplits(a[1..], b, part + [a[0]]);
      }
    }
  }

  /** A number of 64 bits: digits with that value, which a plus sign may precede. */
  ghost predicate IsU64(part: string, n: nat) {
    n < 18446744073709551616
    && exists digits :: (part == digits || part == "+" + digits) && IsNumberOf(digits, n)
  }

  predicate IsNumberOf(digits: string, n: nat) {
    digits != [] && (forall c :: c in digits ==> c in "0123456789") && AllDigits(digits) && Value(digits) == n
  }

  lemma OnlyDigits(part: string, digits: string, n: nat)
    requires (part == digits || part == "+" + digits) && IsNumberOf(digits, n)
    ensures ParseU64(part) == if n < 18446744073709551616 then Some(n) else None
  {
    assert digits[0] != '+';
    if part != digits {
      assert part[0] == '+' && part[1..] == digits;
    }
  }

  /** Exactly when a segment is a number; any other is text, as it stands. */
  lemma SegmentIsNumber(part: string, n: nat)
    ensures ParseSegment(part) == Numeric(n) <==> IsU64(part, n)
    ensures (forall k: nat :: !IsU64(part, k)) ==> ParseSegment(part) == Text(part)
    ensures ParseSegment(part).Text? ==> ParseSegment(part).s == part
  {
    if ParseSegment(part).Numeric? {
      var digits := if part[0] == '+' then part[1..] else part;
      assert part == digits || part == "+" + digits;
      AllDigitsAre(digits);
      assert IsNumberOf(digits, ParseSegment(part).n) && IsU64(part, ParseSegment(part).n);
    }
    if IsU64(part, n) {
      var digits :| (part == digits || part == "+" + digits) && IsNumberOf(digits, n);
      OnlyDigits(part, digits, n);
    }
  }

  lemma NoDotInDigits(n: nat)
    ensures '.' !in Digits(n)
  {
    assert forall i :: 0 <= i < |Digits(n)| ==> IsDigit(Digits(n)[i]);
  }

  /** A printed number below 2 to the 64th is read back. */
  lemma ParsesPrinted(n: nat)
    requires n < 18446744073709551616
    ensures Parse(Digits(n)) == [Numeric(n)]
  {
    NoDotInDigits(n);
    ValueOfDigits(n);
    ParseSplits(Digits(n), "", "");
    assert "" + Digits(n) == Digits(n);
    AllDigitsAre(Digits(n));
    OnlyDigits(Digits(n), Digits(n), n);
  }

  /** Text sorts below numbers. */
  predicate SegmentLess(a: Segment, b: Segment) {
    match (a, b)
    case (Numeric(m), Numeric(n)) => m < n
    case (Text(s), Text(t)) => s != t && Below(s, t)
    case (Text(_), Numeric(_)) => true
    case (Numeric(_), Text(_)) => false
  }

  predicate VersionLess(a: VersionKey, b: VersionKey) {
    if b == [] then false
    else if a == [] then true
    else if a[0] == b[0] then VersionLess(a[1..], b[1..])
    else SegmentLess(a[0], b[0])
  }

  /** `VersionKey::compare`: it drops equal segments from the front until two
      differ or one version is used up. */
  method Compare(a: VersionKey, b: VersionKey) returns (o: Ordering)
    ensures o.Less? <==> VersionLess(a, b)
    ensures o.Greater? <==> VersionLess(b, a)
    ensures o.Equal? <==> a == b
  {
    var own, theirs := a, b;
    ghost var k := 0;
    while own != [] && theirs != []
      invariant 0 <= k <= |a| && k <= |b| && own == a[k..] && theirs == b[k..] && a[..k] == b[..k]
      invariant VersionLess(a, b) == VersionLess(own, theirs)
      invariant VersionLess(b, a) == VersionLess(theirs, own)
      decreases |own|
    {
      var left, right := own[0], theirs[0];
      SegmentsTotal(left, right);
      if left.Numeric? && right.Numeric? {
        if left.n < right.n { return Less; }
        if left.n > right.n { return Greater; }
      } else if left.Text? && right.Text? {
        if left.s != right.s {
          return if Below(left.s, right.s) then Less else Greater;
        }
      } else if left.Numeric? {
        return Greater;
      } else {
        return Less;
      }
      own, theirs, k := own[1..], theirs[1..], k + 1;
    }
    o := if |own| < |theirs| then Less else if |own| > |theirs| then Greater else Equal;
    assert a == a[..k] + own && b == b[..k] + theirs;
  }

  lemma SegmentsTotal(a: Segment, b: Segment)
    ensures a == b <==> !SegmentLess(a, b) && !SegmentLess(b, a)
    ensures !(SegmentLess(a, b) && SegmentLess(b, a))
  {
    if a.Text? && b.Text? {
      BelowTotal(a.s, b.s);
      if Below(a.s, b.s) && Below(b.s, a.s) { BelowAntisymmetric(a.s, b.s); }
    }
  }

  lemma SegmentsTransitive(a: Segment, b: Segment, c: Segment)
    requires SegmentLess(a, b) && SegmentLess(b, c)
    ensures SegmentLess(a, c)
  {
    if a.Text? && b.Text? && c.Text? {
      BelowTransitive(a.s, b.s, c.s);
      if a.s == c.s { BelowAntisymmetric(a.s, b.s); }
    }
  }

  /** The order is total and agrees with equality: exactly one of the three holds. */
  lemma {:induction false} VersionsTotal(a: VersionKey, b: VersionKey)
    ensures VersionLess(a, b) || a == b || VersionLess(b, a)
    ensures !(VersionLess(a, b) && VersionLess(b, a))
    ensures !VersionLess(a, a)
  {
    if a == [] {
    } else {
      VersionsTotal(a[1..], a[1..]);
    }
    if a != [] && b != [] {
      SegmentsTotal(a[0], b[0]);
      VersionsTotal(a[1..], b[1..]);
      assert a == [a[0]] + a[1..] && b == [b[0]] + b[1..];
    }
  }

  lemma {:induction false} VersionsTransitive(a: VersionKey, b: VersionKey, c: VersionKey)
    requires VersionLess(a, b) && VersionLess(b, c)
    ensures VersionLess(a, c)
  {
    if a == [] {
    } else {
      if a[0] == b[0] == c[0] {
        VersionsTransitive(a[1..], b[1..], c[1..]);
      } else if a[0] != b[0] && b[0] != c[0] {
        SegmentsTransitive(a[0], b[0], c[0]);
        SegmentsTotal(a[0], b[0]);
      }
    }
  }

  /** Lexicographic: decided by the first place where the two differ, or else by
      length. */
  ghost predicate FirstDifference(a: VersionKey, b: VersionKey, k: int) {
    && 0 <= k <= |a| && k < |b| && (forall i :: 0 <= i < k ==> a[i] == b[i])
    && (k < |a| ==> SegmentLess(a[k], b[k]))
  }

  lemma {:induction false} VersionOrderIsLexicographic(a: VersionKey, b: VersionKey)
    ensures VersionLess(a, b) <==> exists k :: FirstDifference(a, b, k)
  {
    if b == [] {
    } else {
      if a == [] {
        assert FirstDifference(a, b, 0);
      } else {
        SegmentsTotal(a[0], b[0]);
        VersionOrderIsLexicographic(a[1..], b[1..]);
        if SegmentLess(a[0], b[0]) { assert FirstDifference(a, b, 0); }
        if k :| a[0] == b[0] && FirstDifference(a[1..], b[1..], k) {
          forall i | 0 <= i < k + 1 ensures a[i] == b[i] {
            assert i > 0 ==> a[1..][i - 1] == b[1..][i - 1];
          }
          assert FirstDifference(a, b, k + 1);
        }
        if k :| FirstDifference(a, b, k) {
          assert k > 0 ==> a[0] == b[0] && FirstDifference(a[1..], b[1..], k - 1);
        }
      }
    }
  }

  lemma {:induction false} SamePrefixLess(p: VersionKey, a: VersionKey, b: VersionKey)
    ensures VersionLess(p + a, p + b) <==> VersionLess(a, b)
  {
    if p == [] {
      assert p + a == a && p + b == b;
    } else {
      SamePrefixLess(p[1..], a, b);
      assert (p + a)[1..] == p[1..] + a && (p + b)[1..] == p[1..] + b;
    }
  }

  /** Versions that differ in a last number are in the order of the numbers: 1.10 is above
      1.9. */
  lemma NumbersDecide(p: string, m: nat, n: nat)
    requires m < n < 18446744073709551616
    ensures VersionLess(Parse(p + "." + Digits(m)), Parse(p + "." + Digits(n)))
  {
    ParsesPrinted(m);
    ParsesPrinted(n);
    ParseSplits(p, Digits(m), "");
    ParseSplits(p, Digits(n), "");
    SamePrefixLess(Parse(p), [Numeric(m)], [Numeric(n)]);
  }

  /** A number in the place of a text, and a further segment, make a version higher. */
  lemma NumberAboveText(p: string, n: nat, text: string)
    requires n < 18446744073709551616 && '.' !in text && ParseSegment(text).Text?
    ensures VersionLess(Parse(p + "." + text), Parse(p + "." + Digits(n)))
    ensures VersionLess(Parse(p), Parse(p + "." + text))
  {
    ParsesPrinted(n);
    ParseSplits(p, text, "");
    ParseSplits(text, "", "");
    assert "" + text == text;
    ParseSplits(p, Digits(n), "");
    SamePrefixLess(Parse(p), [Text(text)], [Numeric(n)]);
    SamePrefixLess(Parse(p), [], [Text(text)]);
    assert Parse(p) + [] == Parse(p);
  }

  /** Texts are in the order of their characters. */
  lemma TextsDecide(p: string, s: string, t: string)
    requires '.' !in s && '.' !in t && ParseSegment(s).Text? && ParseSegment(t).Text?
    ensures VersionLess(Parse(p + "." + s), Parse(p + "." + t)) <==> s != t && exists k :: DiffersBelow(s, t, k)
  {
    ParseSplits(p, s, "");
    ParseSplits(p, t, "");
    ParseSplits(s, "", "");
    ParseSplits(t, "", "");
    assert "" + s == s && "" + t == t;
    SamePrefixLess(Parse(p), [Text(s)], [Text(t)]);
    BelowIsLexicographic(s, t);
  }
}
