// The manifest of an application-state bundle, and what unpacking one checks.
module Bundle {
  import opened PortableNames
  import opened Sequences
  import opened Strings

  datatype Component = Database | Presets | Settings | EngineRegistry | Reports

  datatype Entry = Entry(path: string, component: Component, sizeBytes: nat, sha256: string)

  /** Which components the bundle claims to hold. */
  datatype Claims = Claims(database: bool, presets: bool, settings: bool, engineRegistry: bool, reports: bool)

  datatype Manifest = Manifest(schemaVersion: nat, applicationVersion: string, components: Claims, entries: seq<Entry>)

  const SCHEMA_VERSION := 1
  const MANIFEST_ENTRY := "manifest.json"
  const DATABASE_ENTRY := "database/jobs.sqlite3"
  const PRESETS_ENTRY := "presets/presets.json"
  const SETTINGS_ENTRY := "settings/settings.json"
  const ENGINE_REGISTRY_PREFIX := "engine-registry/"
  const REPORTS_PREFIX := "reports/"
  const MAX_MANIFEST_BYTES: nat := 4 * 1024 * 1024
  const MAX_ARCHIVE_BYTES: nat := 16 * 1024 * 1024 * 1024
  const MAX_TOTAL_UNCOMPRESSED_BYTES: nat := 16 * 1024 * 1024 * 1024
  const MAX_REGISTRY_ENTRIES: nat := 4096
  const MAX_REPORT_ENTRIES: nat := 100_000

  function ComponentLimit(c: Component): nat {
    match c
    case Database => 8 * 1024 * 1024 * 1024
    case Presets => 1024 * 1024
    case Settings => 64 * 1024
    case EngineRegistry => 1024 * 1024
    case Reports => 16 * 1024 * 1024
  }

  function FirstSegment(path: string): string {
    if path == [] || path[0] == '/' then [] else [path[0]] + FirstSegment(path[1..])
  }

  predicate HasParentSegment(path: string) {
    || FirstSegment(path) == ".."
    || (exists i :: 0 <= i < |path| && path[i] == '/' && FirstSegment(path[i + 1..]) == "..")
  }

  /** `ensure_safe_archive_path`: relative, forward slashes only, never upwards. */
  predicate IsSafeArchivePath(path: string) {
    && path != "" && '\\' !in path && path[0] != '/' && path[|path| - 1] != '/'
    && FirstSegment(path) != "." && !HasParentSegment(path)
  }

  /** A path leads upwards exactly if one of its parts does. */
  lemma {:induction false} ParentIsASegment(path: string)
    ensures FirstSegment(path) == Segments(path)[0]
    ensures HasParentSegment(path) <==> ".." in Segments(path)
    ensures ".." in Segments(path)[1..] <==> exists i :: 0 <= i < |path| && path[i] == '/' && FirstSegment(path[i + 1..]) == ".."
  {
    var parts := Segments(path);
    assert parts == [parts[0]] + parts[1..];
    if path == [] {
    } else {
      var rest := path[1..];
      ParentIsASegment(rest);
      assert Segments(rest) == [Segments(rest)[0]] + Segments(rest)[1..];
      forall i | 0 < i < |path| ensures path[i] == rest[i - 1] && path[i + 1..] == rest[i..] {}
      assert path[0] == '/' ==> path[0 + 1..] == rest;
      if i :| 0 <= i < |rest| && rest[i] == '/' && FirstSegment(rest[i + 1..]) == ".." {
        assert path[i + 1] == '/' && path[i + 2..] == rest[i + 1..];
      }
    }
  }

  lemma {:induction false} LastPart(path: string)
    requires path != ""
    ensures Segments(path)[|Segments(path)| - 1] == "" <==> path[|path| - 1] == '/'
    ensures Segments(path)[0] == "" <==> path[0] == '/'
  {
    if |path| > 1 {
      LastPart(path[1..]);
    } else {
      assert path[1..] == "";
    }
  }

  /** A path is safe if it has no backslash, none of its parts leads upwards, the first one
      is a name, and the last one is not empty. */
  lemma SafePathIs(path: string)
    ensures IsSafeArchivePath(path) <==>
              var parts := Segments(path);
              && '\\' !in path && ".." !in parts && parts[0] !in ["", "."] && parts[|parts| - 1] != ""
  {
    ParentIsASegment(path);
    if path != "" { LastPart(path); }
  }

  /** `ensure_prefixed_json_path`. */
  predicate IsPrefixedJsonPath(path: string, prefix: string) {
    && prefix <= path
    && var suffix := path[|prefix|..];
    && |suffix| > 5 && suffix[|suffix| - 5..] == ".json" && suffix[0] != '.'
    && var stem := suffix[..|suffix| - 5];
    && IsSafeStem(stem) && stem[|stem| - 1] != '.'
  }

  /** The name of a file that can be put back on any platform. */
  ghost predicate IsFileStem(stem: string) {
    && 1 <= |stem| <= 128 && stem[0] != '.' && stem[|stem| - 1] != '.' && !IsDevice(BeforeDot(stem))
    && forall c :: c in stem ==> 'a' <= c <= 'z' || 'A' <= c <= 'Z' || '0' <= c <= '9' || c in "._-"
  }

  ghost predicate IsNamedFile(path: string, prefix: string) {
    exists stem :: IsFileStem(stem) && path == prefix + stem + ".json"
  }

  lemma PrefixedJsonPathIs(path: string, prefix: string)
    ensures IsPrefixedJsonPath(path, prefix) <==> IsNamedFile(path, prefix)
  {
    if IsPrefixedJsonPath(path, prefix) {
      var suffix := path[|prefix|..];
      var stem := suffix[..|suffix| - 5];
      SafeStemIs(stem);
      assert path == prefix + suffix && suffix == stem + ".json";
      assert IsFileStem(stem) && path == prefix + stem + ".json";
    }
    if IsNamedFile(path, prefix) {
      var stem :| IsFileStem(stem) && path == prefix + stem + ".json";
      SafeStemIs(stem);
      assert path[|prefix|..] == stem + ".json";
      assert (stem + ".json")[|stem|..] == ".json" && (stem + ".json")[..|stem|] == stem;
    }
  }

  lemma {:induction false} NoSlash(s: string)
    requires '/' !in s
    ensures FirstSegment(s) == s
  {
    if s == [] {
    } else {
      NoSlash(s[1..]);
    }
  }

  lemma {:induction false} UpToSlash(folder: string, rest: string)
    requires '/' !in folder
    ensures FirstSegment(folder + "/" + rest) == folder
  {
    var path := folder + "/" + rest;
    if folder == [] {
    } else {
      UpToSlash(folder[1..], rest);
      assert path[1..] == folder[1..] + "/" + rest;
    }
  }

  lemma OneSlash(folder: string, name: string, i: nat)
    requires '/' !in folder && '/' !in name && i < |folder + "/" + name| && (folder + "/" + name)[i] == '/'
    ensures (folder + "/" + name)[i + 1..] == name
  {
    var path := folder + "/" + name;
    assert forall k :: 0 <= k < |folder| ==> path[k] == folder[k] && path[k] != '/';
    assert forall k :: |folder| < k < |path| ==> path[k] == name[k - |folder| - 1] && path[k] != '/';
  }

  /** A file directly in a folder has a safe path. */
  lemma FileInFolderIsSafe(folder: string, name: string)
    requires '/' !in folder && '/' !in name && '\\' !in folder && '\\' !in name
    requires |folder| > 2 && |name| > 2
    ensures IsSafeArchivePath(folder + "/" + name)
  {
    var path := folder + "/" + name;
    UpToSlash(folder, name);
    NoSlash(name);
    forall i | 0 <= i < |path| && path[i] == '/' ensures FirstSegment(path[i + 1..]) != ".." {
      OneSlash(folder, name, i);
    }
    assert path[0] == folder[0] && folder[0] in folder && path[|path| - 1] == name[|name| - 1] && name[|name| - 1] in name;
  }

  predicate IsFolder(prefix: string) {
    |prefix| > 3 && prefix[|prefix| - 1] == '/'
    && forall i :: 0 <= i < |prefix| - 1 ==> prefix[i] != '/' && prefix[i] != '\\'
  }

  lemma NamedFileIsSafe(path: string, prefix: string)
    requires IsNamedFile(path, prefix) && IsFolder(prefix)
    ensures IsSafeArchivePath(path)
  {
    var stem :| IsFileStem(stem) && path == prefix + stem + ".json";
    var folder := prefix[..|prefix| - 1];
    assert '/' !in stem + ".json" && '\\' !in stem + ".json";
    FileInFolderIsSafe(folder, stem + ".json");
    assert path == folder + "/" + (stem + ".json");
  }

  /** An entry stands where its component belongs. */
  predicate IsInPlace(e: Entry) {
    match e.component
    case Database => e.path == DATABASE_ENTRY
    case Presets => e.path == PRESETS_ENTRY
    case Settings => e.path == SETTINGS_ENTRY
    case EngineRegistry => IsPrefixedJsonPath(e.path, ENGINE_REGISTRY_PREFIX)
    case Reports => IsPrefixedJsonPath(e.path, REPORTS_PREFIX)
  }

  predicate IsGoodEntry(e: Entry) {
    && IsSafeArchivePath(e.path) && e.path != MANIFEST_ENTRY && IsInPlace(e)
    && e.sizeBytes <= ComponentLimit(e.component)
    && |e.sha256| == 64 && (forall i :: 0 <= i < 64 ==> IsHexDigit(e.sha256[i]))
  }

  lemma HexDigest(digest: string)
    requires |digest| == 64
    ensures (forall i :: 0 <= i < 64 ==> IsHexDigit(digest[i])) <==> forall c :: c in digest ==> c in "0123456789abcdefABCDEF"
  {
    forall c: char ensures IsHexDigit(c) <==> c in "0123456789abcdefABCDEF" { HexDigits(c); }
    assert (forall i :: 0 <= i < 64 ==> IsHexDigit(digest[i])) <==> forall c :: c in digest ==> IsHexDigit(c);
  }

  lemma SlashAt(path: string, n: nat)
    requires 2 < n && n + 3 < |path| && path[n] == '/' && '\\' !in path
    requires forall i :: 0 <= i < |path| && i != n ==> path[i] != '/'
    ensures IsSafeArchivePath(path)
  {
    FileInFolderIsSafe(path[..n], path[n + 1..]);
    assert path == path[..n] + "/" + path[n + 1..];
  }

  lemma DatabaseIsSafe(path: string)
    requires path == DATABASE_ENTRY
    ensures IsSafeArchivePath(path)
  {
    SlashAt(path, 8);
  }

  lemma PresetsAreSafe(path: string)
    requires path == PRESETS_ENTRY
    ensures IsSafeArchivePath(path)
  {
    SlashAt(path, 7);
  }

  lemma SettingsAreSafe(path: string)
    requires path == SETTINGS_ENTRY
    ensures IsSafeArchivePath(path)
  {
    SlashAt(path, 8);
  }

  lemma PrefixedIsSafe(path: string, prefix: string)
    requires IsPrefixedJsonPath(path, prefix) && (prefix == ENGINE_REGISTRY_PREFIX || prefix == REPORTS_PREFIX)
    ensures IsSafeArchivePath(path)
  {
    assert IsFolder(prefix);
    PrefixedJsonPathIs(path, prefix);
    NamedFileIsSafe(path, prefix);
  }

  /** Whatever stands where its component belongs has a safe path. */
  lemma InPlaceIsSafe(e: Entry)
    requires IsInPlace(e)
    ensures IsSafeArchivePath(e.path)
  {
    match e.component
    case Database => DatabaseIsSafe(e.path);
    case Presets => PresetsAreSafe(e.path);
    case Settings => SettingsAreSafe(e.path);
    case EngineRegistry => PrefixedIsSafe(e.path, ENGINE_REGISTRY_PREFIX);
    case Reports => PrefixedIsSafe(e.path, REPORTS_PREFIX);
  }

  /** What an entry has to be, in full. */
  ghost predicate IsBundleEntry(e: Entry) {
    && (match e.component
        case Database => e.path == "database/jobs.sqlite3" && e.sizeBytes <= 8589934592
        case Presets => e.path == "presets/presets.json" && e.sizeBytes <= 1048576
        case Settings => e.path == "settings/settings.json" && e.sizeBytes <= 65536
        case EngineRegistry => IsNamedFile(e.path, "engine-registry/") && e.sizeBytes <= 1048576
        case Reports => IsNamedFile(e.path, "reports/") && e.sizeBytes <= 16777216)
    && |e.sha256| == 64 && forall c :: c in e.sha256 ==> c in "0123456789abcdefABCDEF"
  }

  lemma GoodEntryIs(e: Entry)
    ensures IsGoodEntry(e) <==> IsBundleEntry(e)
  {
    if |e.sha256| == 64 { HexDigest(e.sha256); }
    PrefixedJsonPathIs(e.path, "engine-registry/");
    PrefixedJsonPathIs(e.path, "reports/");
    if IsInPlace(e) { InPlaceIsSafe(e); }
  }

  predicate DistinctPaths(entries: seq<Entry>) {
    forall i, k :: 0 <= i < k < |entries| ==> entries[i].path != entries[k].path
  }

  predicate Holds(entries: seq<Entry>, c: Component) {
    exists i :: 0 <= i < |entries| && entries[i].component == c
  }

  ghost function Indices(entries: seq<Entry>, c: Component): set<int> {
    set i | 0 <= i < |entries| && entries[i].component == c
  }

  function Count(entries: seq<Entry>, c: Component): nat {
    if entries == [] then 0
    else Count(entries[..|entries| - 1], c) + if entries[|entries| - 1].component == c then 1 else 0
  }

  lemma IndicesGrow(entries: seq<Entry>, n: nat, c: Component)
    requires |entries| == n + 1
    ensures Indices(entries, c) == if entries[n].component == c then Indices(entries[..n], c) + {n} else Indices(entries[..n], c)
  {
    var before, after := Indices(entries[..n], c), Indices(entries, c);
    forall i ensures i in after <==> i in before || (i == n && entries[n].component == c) {
      if 0 <= i < n { assert entries[..n][i] == entries[i]; }
    }
  }

  lemma {:induction false} CountIsCardinality(entries: seq<Entry>, c: Component)
    ensures Count(entries, c) == |Indices(entries, c)|
  {
    if entries == [] {
      assert Indices(entries, c) == {};
    } else {
      var n := |entries| - 1;
      CountIsCardinality(entries[..n], c);
      IndicesGrow(entries, n, c);
      assert n !in Indices(entries[..n], c);
    }
  }

  lemma HoldsGrow(entries: seq<Entry>, n: nat, c: Component)
    requires |entries| == n + 1
    ensures Holds(entries, c) <==> Holds(entries[..n], c) || entries[n].component == c
  {
    if i :| 0 <= i < |entries| && entries[i].component == c { assert i < n ==> entries[..n][i].component == c; }
    if i :| 0 <= i < n && entries[..n][i].component == c { assert entries[i].component == c; }
  }

  ghost predicate OnlyAt(entries: seq<Entry>, c: Component, path: string) {
    forall i :: 0 <= i < |entries| && entries[i].component == c ==> entries[i].path == path
  }

  /** A component with one possible path occurs at most once. */
  lemma {:induction false} CountIsFlag(entries: seq<Entry>, c: Component, path: string)
    requires DistinctPaths(entries) && OnlyAt(entries, c, path)
    ensures Count(entries, c) == BoolToNat(Holds(entries, c))
  {
    if entries == [] {
    } else {
      var n := |entries| - 1;
      CountIsFlag(entries[..n], c, path);
      HoldsGrow(entries, n, c);
      forall i | 0 <= i < n ensures !(entries[..n][i].component == entries[n].component == c) {
        assert entries[i].path != entries[n].path;
      }
    }
  }

  lemma {:induction false} CountZero(entries: seq<Entry>, c: Component)
    ensures Count(entries, c) == 0 <==> !Holds(entries, c)
  {
    if entries == [] {
    } else {
      CountZero(entries[..|entries| - 1], c);
      HoldsGrow(entries, |entries| - 1, c);
    }
  }

  lemma {:induction false} EachIsCounted(entries: seq<Entry>)
    ensures |entries| == Count(entries, Database) + Count(entries, Presets) + Count(entries, Settings)
                         + Count(entries, EngineRegistry) + Count(entries, Reports)
  {
    if entries == [] {
    } else {
      EachIsCounted(entries[..|entries| - 1]);
    }
  }

  /** So there are at most three entries besides those of the registry and the reports. */
  lemma CountsAddUp(entries: seq<Entry>)
    requires AllOf(IsGoodEntry, entries) && DistinctPaths(entries)
    ensures |entries| <= |Indices(entries, EngineRegistry)| + |Indices(entries, Reports)| + 3
  {
    EachIsCounted(entries);
    CountIsFlag(entries, Database, DATABASE_ENTRY);
    CountIsFlag(entries, Presets, PRESETS_ENTRY);
    CountIsFlag(entries, Settings, SETTINGS_ENTRY);
    CountIsCardinality(entries, EngineRegistry);
    CountIsCardinality(entries, Reports);
  }

  function BoolToNat(b: bool): nat {
    if b then 1 else 0
  }

  datatype Tally = Tally(database: nat, presets: nat, settings: nat, registry: nat, reports: nat)

  ghost function Tallied(entries: seq<Entry>): Tally {
    Tally(Count(entries, Database), Count(entries, Presets), Count(entries, Settings),
          Count(entries, EngineRegistry), Count(entries, Reports))
  }

  /** The last test of the code, on its five counters. */
  predicate FlagsMatch(m: Manifest, t: Tally) {
    && t.database == 1
    && t.presets == BoolToNat(m.components.presets)
    && t.settings == BoolToNat(m.components.settings)
    && t.registry <= MAX_REGISTRY_ENTRIES
    && t.reports <= MAX_REPORT_ENTRIES
    && (m.components.engineRegistry || t.registry == 0)
    && (m.components.reports || t.reports == 0)
  }

  predicate HeaderFits(m: Manifest) {
    && m.schemaVersion == SCHEMA_VERSION && 0 < |m.applicationVersion| <= 64 && m.components.database
    && |m.entries| <= MAX_REPORT_ENTRIES + MAX_REGISTRY_ENTRIES + 3
  }

  /** What an acceptable manifest is, in terms of the entries it holds. */
  ghost predicate IsAcceptable(m: Manifest) {
    && HeaderFits(m) && AllOf(IsGoodEntry, m.entries) && DistinctPaths(m.entries)
    && Holds(m.entries, Database)
    && (m.components.presets <==> Holds(m.entries, Presets))
    && (m.components.settings <==> Holds(m.entries, Settings))
    && (Holds(m.entries, EngineRegistry) ==> m.components.engineRegistry)
    && (Holds(m.entries, Reports) ==> m.components.reports)
    && |Indices(m.entries, EngineRegistry)| <= MAX_REGISTRY_ENTRIES
    && |Indices(m.entries, Reports)| <= MAX_REPORT_ENTRIES
  }

  ghost predicate AllBundleEntries(entries: seq<Entry>) {
    forall i :: 0 <= i < |entries| ==> IsBundleEntry(entries[i])
  }

  /** How many entries of each component there are to be. */
  ghost predicate ClaimsFit(m: Manifest) {
    && m.schemaVersion == 1 && 1 <= |m.applicationVersion| <= 64 && m.components.database
    && |Indices(m.entries, Database)| == 1
    && |Indices(m.entries, Presets)| == (if m.components.presets then 1 else 0)
    && |Indices(m.entries, Settings)| == (if m.components.settings then 1 else 0)
    && |Indices(m.entries, EngineRegistry)| <= (if m.components.engineRegistry then 4096 else 0)
    && |Indices(m.entries, Reports)| <= (if m.components.reports then 100000 else 0)
  }

  /** An acceptable manifest in full. The limit on all entries follows from those on registry
      entries and reports. */
  ghost predicate IsBundleManifest(m: Manifest) {
    ClaimsFit(m) && AllBundleEntries(m.entries) && DistinctPaths(m.entries)
  }

  lemma GoodEntriesAre(entries: seq<Entry>)
    ensures AllOf(IsGoodEntry, entries) <==> AllBundleEntries(entries)
  {
    forall i | 0 <= i < |entries| ensures IsGoodEntry(entries[i]) <==> IsBundleEntry(entries[i]) {
      GoodEntryIs(entries[i]);
    }
  }

  lemma IndicesWhenHeld(entries: seq<Entry>, c: Component)
    ensures |Indices(entries, c)| == 0 <==> !Holds(entries, c)
  {
    CountZero(entries, c);
    CountIsCardinality(entries, c);
  }

  lemma IndicesOfOne(entries: seq<Entry>, c: Component, path: string)
    requires DistinctPaths(entries) && OnlyAt(entries, c, path)
    ensures |Indices(entries, c)| == if Holds(entries, c) then 1 else 0
  {
    CountIsFlag(entries, c, path);
    CountIsCardinality(entries, c);
  }

  lemma GoodStandAlone(entries: seq<Entry>)
    requires AllOf(IsGoodEntry, entries) && DistinctPaths(entries)
    ensures |Indices(entries, Database)| == if Holds(entries, Database) then 1 else 0
    ensures |Indices(entries, Presets)| == if Holds(entries, Presets) then 1 else 0
    ensures |Indices(entries, Settings)| == if Holds(entries, Settings) then 1 else 0
  {
    IndicesOfOne(entries, Database, DATABASE_ENTRY);
    IndicesOfOne(entries, Presets, PRESETS_ENTRY);
    IndicesOfOne(entries, Settings, SETTINGS_ENTRY);
  }

  lemma AcceptableWhenClaimsFit(m: Manifest)
    requires AllOf(IsGoodEntry, m.entries) && DistinctPaths(m.entries)
    ensures IsAcceptable(m) <==> ClaimsFit(m)
  {
    CountsAddUp(m.entries);
    GoodStandAlone(m.entries);
    IndicesWhenHeld(m.entries, EngineRegistry);
    IndicesWhenHeld(m.entries, Reports);
  }

  lemma AcceptableIs(m: Manifest)
    ensures IsAcceptable(m) <==> IsBundleManifest(m)
  {
    GoodEntriesAre(m.entries);
    if AllOf(IsGoodEntry, m.entries) && DistinctPaths(m.entries) {
      AcceptableWhenClaimsFit(m);
    }
  }

  /** The counters say what the acceptance rule says in terms of entries. */
  lemma CountsMeanAcceptable(m: Manifest)
    requires HeaderFits(m) && AllOf(IsGoodEntry, m.entries) && DistinctPaths(m.entries)
    ensures IsAcceptable(m) <==> FlagsMatch(m, Tallied(m.entries))
  {
    CountIsFlag(m.entries, Database, DATABASE_ENTRY);
    CountIsFlag(m.entries, Presets, PRESETS_ENTRY);
    CountIsFlag(m.entries, Settings, SETTINGS_ENTRY);
    CountZero(m.entries, EngineRegistry);
    CountZero(m.entries, Reports);
    CountIsCardinality(m.entries, EngineRegistry);
    CountIsCardinality(m.entries, Reports);
  }

  /** The tests of one round of the loop. */
  method CheckEntry(entry: Entry, paths: set<string>) returns (ok: bool)
    ensures ok <==> IsGoodEntry(entry) && entry.path !in paths
  {
    if !IsSafeArchivePath(entry.path) { return false; }
    if entry.path == MANIFEST_ENTRY || entry.path in paths { return false; }
    if entry.sizeBytes > ComponentLimit(entry.component) || |entry.sha256| != 64 { return false; }
    if exists k :: 0 <= k < |entry.sha256| && !IsHexDigit(entry.sha256[k]) { return false; }
    match entry.component {
      case Database => return entry.path == DATABASE_ENTRY;
      case Presets => return entry.path == PRESETS_ENTRY;
      case Settings => return entry.path == SETTINGS_ENTRY;
      case EngineRegistry => return IsPrefixedJsonPath(entry.path, ENGINE_REGISTRY_PREFIX);
      case Reports => return IsPrefixedJsonPath(entry.path, REPORTS_PREFIX);
    }
  }

  ghost predicate PathsOf(entries: seq<Entry>, paths: set<string>) {
    && (forall k :: 0 <= k < |entries| ==> entries[k].path in paths)
    && (forall p :: p in paths ==> exists k :: 0 <= k < |entries| && entries[k].path == p)
  }

  lemma PathsGrow(entries: seq<Entry>, n: nat, paths: set<string>)
    requires |entries| == n + 1 && PathsOf(entries[..n], paths)
    ensures PathsOf(entries, paths + {entries[n].path})
  {
    var more := paths + {entries[n].path};
    forall k | 0 <= k < |entries| ensures entries[k].path in more {
      if k < n { assert entries[..n][k].path in paths; }
    }
    forall p | p in more ensures exists k :: 0 <= k < |entries| && entries[k].path == p {
      if p in paths {
        var k :| 0 <= k < n && entries[..n][k].path == p;
        assert entries[k].path == p;
      } else {
        assert entries[n].path == p;
      }
    }
  }

  lemma DistinctGrow(entries: seq<Entry>, n: nat, paths: set<string>)
    requires |entries| == n + 1 && PathsOf(entries[..n], paths)
    ensures DistinctPaths(entries) <==> DistinctPaths(entries[..n]) && entries[n].path !in paths
  {
    var before := entries[..n];
    if entries[n].path in paths {
      var k :| 0 <= k < n && before[k].path == entries[n].path;
      assert entries[k] == before[k];
    }
    if !DistinctPaths(entries) {
      var i, k :| 0 <= i < k < |entries| && entries[i].path == entries[k].path;
      assert before[i] == entries[i];
      assert k < n ==> before[k] == entries[k];
    } else {
      assert forall i :: 0 <= i < n ==> before[i] == entries[i];
    }
  }

  lemma TallyGrow(entries: seq<Entry>, n: nat)
    requires |entries| == n + 1
    ensures Tallied(entries) == Counted(Tallied(entries[..n]), entries[n].component)
  {
  }

  /** What the loop knows after the entries seen so far. */
  ghost predicate Passed(entries: seq<Entry>, paths: set<string>, tally: Tally) {
    AllOf(IsGoodEntry, entries) && DistinctPaths(entries) && PathsOf(entries, paths) && tally == Tallied(entries)
  }

  /** One entry more keeps that, exactly when it passes the tests. */
  lemma EntryStep(entries: seq<Entry>, n: nat, paths: set<string>, tally: Tally)
    requires |entries| == n + 1 && Passed(entries[..n], paths, tally)
    ensures IsGoodEntry(entries[n]) && entries[n].path !in paths
            ==> Passed(entries, paths + {entries[n].path}, Counted(tally, entries[n].component))
    ensures !(IsGoodEntry(entries[n]) && entries[n].path !in paths) ==> !(AllOf(IsGoodEntry, entries) && DistinctPaths(entries))
  {
    AllGrow(IsGoodEntry, entries, n);
    PathsGrow(entries, n, paths);
    DistinctGrow(entries, n, paths);
    TallyGrow(entries, n);
  }

  /** `validate_manifest`: one pass over the entries with a set of paths and five
      counters. */
  method ValidateManifest(m: Manifest) returns (ok: bool)
    ensures ok <==> IsAcceptable(m)
  {
    if !HeaderFits(m) { return false; }
    var paths: set<string> := {};
    var tally := Tally(0, 0, 0, 0, 0);
    for i := 0 to |m.entries|
      invariant Passed(m.entries[..i], paths, tally)
    {
      var entry := m.entries[i];
      ghost var upTo := m.entries[..i + 1];
      assert upTo[..i] == m.entries[..i] && upTo[i] == entry;
      EntryStep(upTo, i, paths, tally);
      var passes := CheckEntry(entry, paths);
      if !passes {
        PrefixBad(m, i + 1);
        return false;
      }
      paths := paths + {entry.path};
      tally := Counted(tally, entry.component);
    }
    assert m.entries[..|m.entries|] == m.entries;
    CountsMeanAcceptable(m);
    return FlagsMatch(m, tally);
  }

  function Counted(t: Tally, c: Component): Tally {
    match c
    case Database => t.(database := t.database + 1)
    case Presets => t.(presets := t.presets + 1)
    case Settings => t.(settings := t.settings + 1)
    case EngineRegistry => t.(registry := t.registry + 1)
    case Reports => t.(reports := t.reports + 1)
  }

  lemma PrefixBad(m: Manifest, n: nat)
    requires n <= |m.entries| && !(AllOf(IsGoodEntry, m.entries[..n]) && DistinctPaths(m.entries[..n]))
    ensures !IsAcceptable(m)
  {
    assert forall i :: 0 <= i < n ==> m.entries[..n][i] == m.entries[i];
  }
}
