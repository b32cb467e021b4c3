// The text that is hashed to identify the contents of an archive.
module Archive {
  import opened Decimal
  import opened Sequences
  import opened Strings

  datatype Entry = Entry(name: string, size: nat)

  predicate Contains(s: string, part: string) {
    exists i :: 0 <= i <= |s| && part <= s[i..]
  }

  /** `ArchiveEntry::safe_name` accepts the name. */
  predicate SafeName(name: string) {
    && (name != [] ==> name[0] != '/' && name[0] != '\\')
    && !Contains(name, "..")
    && ':' !in name
  }

  lemma ContainsPart(s: string, part: string)
    ensures Contains(s, part) <==> exists before, after :: s == before + part + after
  {
    if Contains(s, part) {
      var i :| 0 <= i <= |s| && part <= s[i..];
      assert s == s[..i] + part + s[i + |part|..];
    }
    if before, after :| s == before + part + after {
      assert s[|before|..] == part + after && part <= s[|before|..];
    }
  }

  /** Names that begin with a slash, lead upwards or hold a colon are not safe; all others
      are. */
  lemma UnsafeNames(name: string)
    ensures !SafeName(name) <==>
              || (exists rest :: name == "/" + rest || name == "\\" + rest)
              || (exists before, after :: name == before + ".." + after)
              || (exists before, after :: name == before + ":" + after)
  {
    ContainsPart(name, "..");
    ContainsPart(name, ":");
    if name != [] { assert name == [name[0]] + name[1..]; }
    if ':' in name {
      var i :| 0 <= i < |name| && name[i] == ':';
      assert ":" <= name[i..];
    }
    if Contains(name, ":") {
      var i :| 0 <= i <= |name| && ":" <= name[i..];
      assert name[i] == ':';
    }
  }

  predicate SafeEntries(entries: seq<Entry>) {
    forall e :: e in entries ==> SafeName(e.name)
  }

  function Line(e: Entry): string {
    e.name + ":" + Digits(e.size)
  }

  function Lines(entries: seq<Entry>): seq<string> {
    Image(Line, entries)
  }

  predicate Sorted(lines: seq<string>) {
    forall i, j :: 0 <= i < j < |lines| ==> Below(lines[i], lines[j])
  }

  function Insert(line: string, lines: seq<string>): seq<string> {
    if lines == [] || Below(line, lines[0]) then [line] + lines
    else [lines[0]] + Insert(line, lines[1..])
  }

  function Sort(lines: seq<string>): seq<string> {
    if lines == [] then [] else Insert(lines[0], Sort(lines[1..]))
  }

  function Join(lines: seq<string>): string {
    if lines == [] then ""
    else if |lines| == 1 then lines[0]
    else lines[0] + "\n" + Join(lines[1..])
  }

  /** What `entry_manifest_digest` feeds to the hash. */
  function ManifestText(entries: seq<Entry>): string {
    Join(Sort(Lines(entries)))
  }

  lemma {:induction false} InsertKeeps(line: string, lines: seq<string>)
    ensures multiset(Insert(line, lines)) == multiset(lines) + multiset{line}
  {
    if lines == [] {
    } else if !Below(line, lines[0]) {
      InsertKeeps(line, lines[1..]);
      assert lines == [lines[0]] + lines[1..];
    }
  }

  lemma {:induction false} InsertSorts(line: string, lines: seq<string>)
    requires Sorted(lines)
    ensures Sorted(Insert(line, lines))
  {
    if lines != [] && Below(line, lines[0]) {
      forall j | 0 <= j < |lines| ensures Below(line, lines[j]) {
        if j > 0 { BelowTransitive(line, lines[0], lines[j]); }
      }
    } else if lines != [] {
      BelowTotal(line, lines[0]);
      InsertSorts(line, lines[1..]);
      InsertKeeps(line, lines[1..]);
      var rest := Insert(line, lines[1..]);
      forall j | 0 <= j < |rest| ensures Below(lines[0], rest[j]) {
        assert rest[j] in multiset(lines[1..]) + multiset{line};
      }
    }
  }

  lemma {:induction false} SortSorts(lines: seq<string>)
    ensures Sorted(Sort(lines)) && multiset(Sort(lines)) == multiset(lines)
  {
    if lines == [] {
    } else {
      var rest := Sort(lines[1..]);
      SortSorts(lines[1..]);
      InsertSorts(lines[0], rest);
      InsertKeeps(lines[0], rest);
      SplitMultiset(lines, 0);
      assert Without(lines, 0) == lines[1..];
    }
  }

  lemma SameHead(a: seq<string>, b: seq<string>)
    requires Sorted(a) && Sorted(b) && multiset(a) == multiset(b) && a != []
    ensures b != [] && a[0] == b[0]
  {
    assert a[0] in multiset(b) && b[0] in multiset(a);
    var i :| 0 <= i < |b| && b[i] == a[0];
    var j :| 0 <= j < |a| && a[j] == b[0];
    BelowTotal(a[0], a[0]);
    BelowTotal(b[0], b[0]);
    BelowAntisymmetric(a[0], b[0]);
  }

  /** A sorted arrangement is unique, so the choice of sorting algorithm is immaterial. */
  lemma {:induction false} SortedUnique(a: seq<string>, b: seq<string>)
    requires Sorted(a) && Sorted(b) && multiset(a) == multiset(b)
    ensures a == b
    decreases |a|
  {
    if a == [] {
      assert |multiset(b)| == 0;
    } else {
      SameHead(a, b);
      SameRest(a, b, 0);
      SortedUnique(Without(a, 0), Without(b, 0));
      assert a == [a[0]] + Without(a, 0) && b == [b[0]] + Without(b, 0);
    }
  }

  /** The way back from a line: split it at its first colon. */
  function Parse(line: string): (e: Entry) {
    if line == [] || line[0] == ':' then
      Entry("", if line != [] && AllDigits(line[1..]) then Value(line[1..]) else 0)
    else
      var e := Parse(line[1..]);
      e.(name := [line[0]] + e.name)
  }

  lemma {:induction false} ParseLine(e: Entry)
    requires ':' !in e.name
    ensures Parse(Line(e)) == e
    decreases |e.name|
  {
    if e.name == "" {
      assert Line(e)[1..] == Digits(e.size);
      ValueOfDigits(e.size);
    } else {
      var rest := e.(name := e.name[1..]);
      assert Line(e) == [e.name[0]] + Line(rest);
      ParseLine(rest);
    }
  }

  predicate IsLine(line: string) {
    ':' !in Parse(line).name && Line(Parse(line)) == line
  }

  predicate AreLines(lines: seq<string>) {
    forall i :: 0 <= i < |lines| ==> IsLine(lines[i])
  }

  lemma LineUnique(d: Entry, e: Entry, r: string, s: string)
    requires ':' !in d.name && ':' !in e.name
    requires Line(d) + r == Line(e) + s
    requires (r == [] || r[0] == '\n') && (s == [] || s[0] == '\n')
    ensures d == e && r == s
  {
    var m, n := Digits(d.size), Digits(e.size);
    assert Line(d) + r == d.name + (":" + m + r);
    assert Line(e) + s == e.name + (":" + n + s);
    SplitUnique(c => c != ':', d.name, e.name, ":" + m + r, ":" + n + s);
    assert m + r == (":" + m + r)[1..] == (":" + n + s)[1..] == n + s;
    SplitUnique(IsDigit, m, n, r, s);
    DigitsInjective(d.size, e.size);
  }

  function Tail(lines: seq<string>): string {
    if lines == [] then "" else "\n" + Join(lines)
  }

  lemma JoinHead(lines: seq<string>)
    requires lines != []
    ensures Join(lines) == lines[0] + Tail(lines[1..])
  {
  }

  lemma TailUnique(a: seq<string>, b: seq<string>)
    requires Tail(a) == Tail(b)
    ensures Join(a) == Join(b)
  {
    assert a != [] ==> Tail(a)[1..] == Join(a);
    assert b != [] ==> Tail(b)[1..] == Join(b);
  }

  /** The joined text determines the lines. */
  lemma {:induction false} JoinUnique(a: seq<string>, b: seq<string>)
    requires AreLines(a) && AreLines(b) && Join(a) == Join(b)
    ensures a == b
  {
    if a == [] || b == [] {
      assert a != [] ==> IsLine(a[0]);
      assert b != [] ==> IsLine(b[0]);
    } else {
      JoinHead(a);
      JoinHead(b);
      assert IsLine(a[0]) && IsLine(b[0]);
      var r, s := Tail(a[1..]), Tail(b[1..]);
      LineUnique(Parse(a[0]), Parse(b[0]), r, s);
      TailUnique(a[1..], b[1..]);
      JoinUnique(a[1..], b[1..]);
      assert a == [a[0]] + a[1..] && b == [b[0]] + b[1..];
    }
  }

  lemma SortedLines(entries: seq<Entry>)
    requires SafeEntries(entries)
    ensures Sorted(Sort(Lines(entries))) && multiset(Sort(Lines(entries))) == multiset(Lines(entries))
    ensures AreLines(Sort(Lines(entries))) && Image(Parse, Lines(entries)) == entries
  {
    var sorted := Sort(Lines(entries));
    SortSorts(Lines(entries));
    forall i | 0 <= i < |sorted| ensures IsLine(sorted[i]) {
      assert sorted[i] in multiset(Lines(entries));
      var k :| 0 <= k < |entries| && Lines(entries)[k] == sorted[i];
      ParseLine(entries[k]);
    }
    forall i | 0 <= i < |entries| ensures Parse(Line(entries[i])) == entries[i] {
      ParseLine(entries[i]);
    }
  }

  lemma {:induction false} SmallestComesFirst(lines: seq<string>, first: string, sorted: seq<string>)
    requires multiset(sorted) == multiset(lines) + multiset{first} && Sorted(sorted)
    requires forall i :: 0 <= i < |lines| ==> Below(first, lines[i])
    ensures sorted == [first] + Sort(lines)
  {
    SortSorts(lines);
    var rest, whole := Sort(lines), [first] + Sort(lines);
    forall j | 0 <= j < |rest| ensures Below(first, rest[j]) {
      assert rest[j] in multiset(lines);
    }
    assert Sorted(whole);
    SortedUnique(sorted, whole);
  }

  lemma LinesWithOneMore(entries: seq<Entry>, e: Entry, k: nat)
    requires k <= |entries|
    ensures multiset(Lines(entries[..k] + [e] + entries[k..])) == multiset(Lines(entries)) + multiset{Line(e)}
  {
    var lines := Lines(entries);
    assert Lines(entries[..k] + [e] + entries[k..]) == lines[..k] + [Line(e)] + lines[k..];
    assert lines == lines[..k] + lines[k..];
  }

  lemma SortKeepsLength(lines: seq<string>)
    ensures |Sort(lines)| == |lines|
  {
    SortSorts(lines);
    assert |multiset(Sort(lines))| == |multiset(lines)|;
  }

  /** The text begins with the smallest line, and goes on with the text of the other entries
      on lines of their own. */
  lemma TextStartsWithSmallest(entries: seq<Entry>, e: Entry, k: nat)
    requires k <= |entries|
    requires forall i :: 0 <= i < |entries| ==> Below(e.name + ":" + Digits(e.size), entries[i].name + ":" + Digits(entries[i].size))
    ensures ManifestText(entries[..k] + [e] + entries[k..]) ==
              e.name + ":" + Digits(e.size) + if entries == [] then "" else "\n" + ManifestText(entries)
    ensures entries == [] ==> ManifestText(entries) == ""
  {
    var all := Lines(entries[..k] + [e] + entries[k..]);
    LinesWithOneMore(entries, e, k);
    SortSorts(all);
    SmallestComesFirst(Lines(entries), Line(e), Sort(all));
    SortKeepsLength(Lines(entries));
    JoinedWithFirst(Line(e), Sort(Lines(entries)));
  }

  lemma JoinedWithFirst(first: string, lines: seq<string>)
    ensures Join([first] + lines) == first + if lines == [] then "" else "\n" + Join(lines)
  {
    assert ([first] + lines)[1..] == lines;
  }

  /** Two archives get the same text exactly when they list the same entries, in
      whatever order. */
  lemma CanonicalManifest(a: seq<Entry>, b: seq<Entry>)
    requires SafeEntries(a) && SafeEntries(b)
    ensures ManifestText(a) == ManifestText(b) <==> multiset(a) == multiset(b)
  {
    SortedLines(a);
    SortedLines(b);
    if multiset(a) == multiset(b) {
      SameImages(Line, a, b);
      SortedUnique(Sort(Lines(a)), Sort(Lines(b)));
    }
    if ManifestText(a) == ManifestText(b) {
      JoinUnique(Sort(Lines(a)), Sort(Lines(b)));
      SameImages(Parse, Lines(a), Lines(b));
    }
  }

  /** Without the ban on ':' one entry can pass for two. */
  lemma ColonBreaksTheManifest()
    ensures ManifestText([Entry("a:1\nb", 2)]) == ManifestText([Entry("a", 1), Entry("b", 2)])
    ensures multiset([Entry("a:1\nb", 2)]) != multiset([Entry("a", 1), Entry("b", 2)])
  {
    var one, two := [Entry("a:1\nb", 2)], [Entry("a", 1), Entry("b", 2)];
    assert Digits(1) == "1" && Digits(2) == "2";
    assert Line(one[0]) == "a:1\nb:2" && Line(two[0]) == "a:1" && Line(two[1]) == "b:2";
    assert Lines(one) == ["a:1\nb:2"] && Lines(two) == ["a:1", "b:2"];
    assert Sort(Lines(one)[1..]) == [] && Sort(Lines(two)[1..][1..]) == [];
    assert Sort(["b:2"]) == ["b:2"];
    assert Lines(two)[1..] == ["b:2"];
    assert Below("a:1", "b:2");
    assert Sort(Lines(two)) == Insert("a:1", ["b:2"]) == ["a:1", "b:2"];
    assert Sort(Lines(one)) == Insert("a:1\nb:2", []) == ["a:1\nb:2"];
    assert Join(["a:1", "b:2"]) == "a:1" + "\n" + Join(["a:1", "b:2"][1..]) == "a:1\nb:2";
    assert |one| != |two|;
    assert |multiset(one)| == 1 && |multiset(two)| == 2;
  }
}
