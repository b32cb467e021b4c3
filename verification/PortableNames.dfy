// File names that are safe to put back on any platform.
module PortableNames {
  import opened Strings

  predicate IsPortableChar(c: char) {
    'a' <= c <= 'z' || 'A' <= c <= 'Z' || '0' <= c <= '9' || c == '.' || c == '_' || c == '-'
  }

  function BeforeDot(s: string): string {
    if s == [] || s[0] == '.' then [] else [s[0]] + BeforeDot(s[1..])
  }

  /** Device names of Windows, with or without an extension. */
  predicate IsWindowsReservedStem(stem: string) {
    var base := ToLower(BeforeDot(stem));
    || base in ["con", "prn", "aux", "nul"]
    || (|base| == 4 && base[..3] in ["com", "lpt"] && '1' <= base[3] <= '9')
  }

  predicate IsSafeStem(stem: string) {
    && stem != "" && |stem| <= 128
    && (forall i :: 0 <= i < |stem| ==> IsPortableChar(stem[i]))
    && !IsWindowsReservedStem(stem)
  }

  /** Device names of Windows, in whatever case. */
  ghost predicate IsDevice(name: string) {
    || EqualButCase(name, "CON") || EqualButCase(name, "PRN") || EqualButCase(name, "AUX") || EqualButCase(name, "NUL")
    || (|name| == 4 && '1' <= name[3] <= '9' && (EqualButCase(name[..3], "COM") || EqualButCase(name[..3], "LPT")))
  }

  lemma IsLower(name: string, upper: string, lower: string)
    requires ToLower(upper) == lower
    ensures ToLower(name) == lower <==> EqualButCase(name, upper)
  {
    SameLower(name, upper);
  }

  lemma ReservedIsDevice(stem: string)
    ensures IsWindowsReservedStem(stem) <==> IsDevice(BeforeDot(stem))
  {
    var name := BeforeDot(stem);
    IsLower(name, "CON", "con");
    IsLower(name, "PRN", "prn");
    IsLower(name, "AUX", "aux");
    IsLower(name, "NUL", "nul");
    if |name| == 4 {
      IsLower(name[..3], "COM", "com");
      IsLower(name[..3], "LPT", "lpt");
      assert ToLower(name)[..3] == ToLower(name[..3]);
      SameLowerChar(name[3], name[3]);
    }
  }

  /** What precedes the first dot. */
  lemma {:induction false} BeforeDotIs(s: string)
    ensures '.' !in BeforeDot(s) && (s == BeforeDot(s) || exists rest :: s == BeforeDot(s) + "." + rest)
  {
    if s == [] {
    } else if s[0] == '.' {
      assert s == BeforeDot(s) + "." + s[1..];
    } else {
      BeforeDotIs(s[1..]);
      if s[1..] == BeforeDot(s[1..]) {
        assert s == BeforeDot(s);
      } else {
        var rest :| s[1..] == BeforeDot(s[1..]) + "." + rest;
        assert s == BeforeDot(s) + "." + rest;
      }
    }
  }

  /** Which stems are safe: from 1 to 128 letters, digits, dots, underscores and hyphens,
      unless they stand for a device. */
  lemma SafeStemIs(stem: string)
    ensures IsSafeStem(stem) <==>
              && 1 <= |stem| <= 128 && !IsDevice(BeforeDot(stem))
              && forall c :: c in stem ==>
                   'a' <= c <= 'z' || 'A' <= c <= 'Z' || '0' <= c <= '9' || c in "._-"
  {
    ReservedIsDevice(stem);
    assert forall c :: IsPortableChar(c) <==> 'a' <= c <= 'z' || 'A' <= c <= 'Z' || '0' <= c <= '9' || c in "._-";
    assert (forall c :: c in stem ==> IsPortableChar(c)) <==> forall i :: 0 <= i < |stem| ==> IsPortableChar(stem[i]);
  }
}
