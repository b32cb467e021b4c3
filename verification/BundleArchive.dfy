// Writing an application-state bundle and unpacking one. The zip container is a list
// of members; its codec, the digest, the manifest's JSON form and the checks of the
// staged components are parameters.
module BundleArchive {
  import opened Options
  import opened Sequences
  import opened Strings
  import opened Bundle

  newtype Byte = b: int | 0 <= b < 256
  type Bytes = seq<Byte>

  /** `declared` is the size in the member's header, which need not be its real one. */
  datatype Member = Member(name: string, regular: bool, declared: nat, bytes: Bytes)

  datatype Archive = Archive(sizeBytes: nat, members: seq<Member>)

  datatype World = World(parse: Bytes -> Option<Manifest>, sha256: Bytes -> string,
                         accepts: (Manifest, map<string, Bytes>) -> bool)

  /** The place of the first member of that name, or the number of members. */
  function IndexOf(members: seq<Member>, name: string): (i: nat)
    ensures i <= |members| && (i < |members| ==> members[i].name == name)
    ensures forall k :: 0 <= k < i ==> members[k].name != name
  {
    if members == [] || members[0].name == name then 0 else 1 + IndexOf(members[1..], name)
  }

  predicate HasMember(members: seq<Member>, name: string) {
    IndexOf(members, name) < |members|
  }

  function BytesOf(members: seq<Member>, name: string): Bytes {
    if HasMember(members, name) then members[IndexOf(members, name)].bytes else []
  }

  function Name(m: Member): string {
    m.name
  }

  function Path(e: Entry): string {
    e.path
  }

  ghost predicate SafeNames(members: seq<Member>) {
    AllOf(IsSafeArchivePath, Image(Name, members)) && Distinct(Image(Name, members))
  }

  /** Every member is the manifest or listed in it, and every listed entry is there. */
  ghost predicate NamesMatch(members: seq<Member>, entries: seq<Entry>) {
    forall n :: n in Image(Name, members) <==> n == MANIFEST_ENTRY || n in Image(Path, entries)
  }

  function TotalSize(entries: seq<Entry>): nat {
    if entries == [] then 0 else TotalSize(entries[..|entries| - 1]) + entries[|entries| - 1].sizeBytes
  }

  ghost predicate EntryFits(e: Entry, members: seq<Member>, w: World) {
    && HasMember(members, e.path)
    && var member := members[IndexOf(members, e.path)];
    && member.regular && member.declared == e.sizeBytes
    && |member.bytes| == e.sizeBytes && w.sha256(member.bytes) == e.sha256
  }

  ghost predicate AllFit(entries: seq<Entry>, members: seq<Member>, w: World) {
    forall i :: 0 <= i < |entries| ==> EntryFits(entries[i], members, w)
  }

  /** The staged files: each listed path with the bytes of the member of that name. */
  function Unpacked(entries: seq<Entry>, members: seq<Member>): map<string, Bytes> {
    if entries == [] then map[]
    else
      var last := entries[|entries| - 1].path;
      Unpacked(entries[..|entries| - 1], members)[last := BytesOf(members, last)]
  }

  lemma {:induction false} UnpackedExactly(entries: seq<Entry>, members: seq<Member>, p: string)
    ensures p in Unpacked(entries, members) <==> p in Image(Path, entries)
    ensures p in Unpacked(entries, members) ==> Unpacked(entries, members)[p] == BytesOf(members, p)
  {
    if entries == [] {
    } else {
      var n := |entries| - 1;
      UnpackedExactly(entries[..n], members, p);
      assert Image(Path, entries) == Image(Path, entries[..n]) + [entries[n].path];
    }
  }

  function ManifestIn(members: seq<Member>, w: World): Option<Manifest> {
    w.parse(BytesOf(members, MANIFEST_ENTRY))
  }

  /** The container is in order and holds a readable manifest. */
  ghost predicate ContainerSound(a: Archive, w: World) {
    && a.sizeBytes <= MAX_ARCHIVE_BYTES && |a.members| <= MAX_REPORT_ENTRIES + MAX_REGISTRY_ENTRIES + 4
    && SafeNames(a.members) && HasMember(a.members, MANIFEST_ENTRY)
    && |BytesOf(a.members, MANIFEST_ENTRY)| <= MAX_MANIFEST_BYTES
    && ManifestIn(a.members, w).Some?
  }

  /** The manifest is acceptable and describes the members. */
  ghost predicate ContentsSound(members: seq<Member>, m: Manifest, w: World) {
    && IsAcceptable(m) && NamesMatch(members, m.entries) && AllFit(m.entries, members, w)
    && TotalSize(m.entries) <= MAX_TOTAL_UNCOMPRESSED_BYTES
    && w.accepts(m, Unpacked(m.entries, members))
  }

  /** What a sound bundle is. */
  ghost predicate IsSound(a: Archive, w: World) {
    ContainerSound(a, w) && ContentsSound(a.members, ManifestIn(a.members, w).value, w)
  }

  lemma {:induction false} TotalGrows(entries: seq<Entry>, n: nat)
    requires n <= |entries|
    ensures TotalSize(entries[..n]) <= TotalSize(entries)
  {
    if n < |entries| {
      TotalGrows(entries[..|entries| - 1], n);
      assert entries[..|entries| - 1][..n] == entries[..n];
    } else {
      assert entries[..n] == entries;
    }
  }

  /** The first loop of `prepare_bundle`: every name safe, none twice. */
  method CheckNames(members: seq<Member>) returns (names: Option<set<string>>)
    ensures names.Some? <==> SafeNames(members)
    ensures names.Some? ==> forall n :: n in names.value <==> n in Image(Name, members)
  {
    ghost var all := Image(Name, members);
    var seen: set<string> := {};
    for i := 0 to |members|
      invariant AllOf(IsSafeArchivePath, all[..i]) && Distinct(all[..i])
      invariant forall n :: n in seen <==> n in all[..i]
    {
      var name := members[i].name;
      PrefixStep(all, i);
      LastOfDistinct(all[..i], name);
      LastOfAll(IsSafeArchivePath, all[..i], name);
      if !IsSafeArchivePath(name) || name in seen {
        PrefixOfAll(IsSafeArchivePath, all, i + 1);
        PrefixOfDistinct(all, i + 1);
        return None;
      }
      seen := seen + {name};
    }
    PrefixWhole(all);
    return Some(seen);
  }

  /** The entry fits, and its member can be read and staged without an I/O error. */
  ghost predicate EntryCopied(e: Entry, members: seq<Member>, w: World, readable: string -> bool) {
    EntryFits(e, members, w) && readable(e.path)
  }

  ghost predicate AllCopied(entries: seq<Entry>, members: seq<Member>, w: World, readable: string -> bool) {
    forall i :: 0 <= i < |entries| ==> EntryCopied(entries[i], members, w, readable)
  }

  ghost predicate AllRead(entries: seq<Entry>, readable: string -> bool) {
    forall i :: 0 <= i < |entries| ==> readable(entries[i].path)
  }

  lemma CopiedIsFitAndRead(entries: seq<Entry>, members: seq<Member>, w: World, readable: string -> bool)
    ensures AllCopied(entries, members, w, readable) <==> AllFit(entries, members, w) && AllRead(entries, readable)
  {
    forall i | 0 <= i < |entries|
      ensures EntryCopied(entries[i], members, w, readable) <==> EntryFits(entries[i], members, w) && readable(entries[i].path) {}
  }

  /** Everything a sound bundle is unpacked from can be read and staged. */
  ghost predicate Readable(a: Archive, w: World, readable: string -> bool) {
    && readable(MANIFEST_ENTRY)
    && (ManifestIn(a.members, w).Some? ==> AllRead(ManifestIn(a.members, w).value.entries, readable))
  }

  /** Copying one entry out of the archive. */
  method UnpackEntry(e: Entry, members: seq<Member>, w: World, readable: string -> bool) returns (bytes: Option<Bytes>)
    requires IsGoodEntry(e)
    ensures bytes.Some? <==> EntryCopied(e, members, w, readable)
    ensures bytes.Some? ==> bytes.value == BytesOf(members, e.path)
  {
    if !HasMember(members, e.path) { return None; }
    var member := members[IndexOf(members, e.path)];
    if !member.regular { return None; }
    if member.declared != e.sizeBytes || member.declared > ComponentLimit(e.component) { return None; }
    if |member.bytes| > ComponentLimit(e.component) { return None; }
    if |member.bytes| != e.sizeBytes || w.sha256(member.bytes) != e.sha256 { return None; }
    if !readable(e.path) { return None; }
    return Some(member.bytes);
  }

  lemma AllCopiedGrow(entries: seq<Entry>, n: nat, members: seq<Member>, w: World, readable: string -> bool)
    requires |entries| == n + 1
    ensures AllCopied(entries, members, w, readable) <==> AllCopied(entries[..n], members, w, readable) && EntryCopied(entries[n], members, w, readable)
  {
    assert forall i :: 0 <= i < n ==> entries[..n][i] == entries[i];
  }

  ghost predicate UnpackedSoFar(entries: seq<Entry>, members: seq<Member>, w: World, readable: string -> bool, total: nat, files: map<string, Bytes>) {
    && AllCopied(entries, members, w, readable) && files == Unpacked(entries, members)
    && total == TotalSize(entries) <= MAX_TOTAL_UNCOMPRESSED_BYTES
  }

  /** One round of the second loop of `prepare_bundle`. */
  method UnpackNext(ghost before: seq<Entry>, e: Entry, members: seq<Member>, w: World, readable: string -> bool,
                    total: nat, files: map<string, Bytes>)
    returns (ok: bool, total': nat, files': map<string, Bytes>)
    requires IsGoodEntry(e) && UnpackedSoFar(before, members, w, readable, total, files)
    ensures ok ==> UnpackedSoFar(before + [e], members, w, readable, total', files')
    ensures ok <==> AllCopied(before + [e], members, w, readable) && TotalSize(before + [e]) <= MAX_TOTAL_UNCOMPRESSED_BYTES
  {
    ghost var after := before + [e];
    assert after[..|before|] == before;
    AllCopiedGrow(after, |before|, members, w, readable);
    ok, total', files' := false, total, files;
    var bytes := UnpackEntry(e, members, w, readable);
    if bytes.None? { return; }
    total' := total + e.sizeBytes;
    if total' > MAX_TOTAL_UNCOMPRESSED_BYTES { return; }
    files' := files[e.path := bytes.value];
    ok := true;
  }

  lemma PrefixUnfit(entries: seq<Entry>, n: nat, members: seq<Member>, w: World, readable: string -> bool)
    requires n <= |entries|
    requires !AllCopied(entries[..n], members, w, readable) || TotalSize(entries[..n]) > MAX_TOTAL_UNCOMPRESSED_BYTES
    ensures !AllCopied(entries, members, w, readable) || TotalSize(entries) > MAX_TOTAL_UNCOMPRESSED_BYTES
  {
    TotalGrows(entries, n);
    assert forall i :: 0 <= i < n ==> entries[..n][i] == entries[i];
  }

  /** The second loop: the entries one by one, with a running total. */
  method UnpackEntries(entries: seq<Entry>, members: seq<Member>, w: World, readable: string -> bool) returns (staged: Option<map<string, Bytes>>)
    requires AllOf(IsGoodEntry, entries)
    ensures staged.Some? <==> AllCopied(entries, members, w, readable) && TotalSize(entries) <= MAX_TOTAL_UNCOMPRESSED_BYTES
    ensures staged.Some? ==> staged.value == Unpacked(entries, members)
  {
    var total: nat, files: map<string, Bytes> := 0, map[];
    for i := 0 to |entries|
      invariant UnpackedSoFar(entries[..i], members, w, readable, total, files)
    {
      PrefixStep(entries, i);
      var ok;
      ok, total, files := UnpackNext(entries[..i], entries[i], members, w, readable, total, files);
      if !ok {
        PrefixUnfit(entries, i + 1, members, w, readable);
        return None;
      }
    }
    PrefixWhole(entries);
    return Some(files);
  }

  datatype Prepared = Prepared(manifest: Manifest, staged: map<string, Bytes>)

  method ReadContainer(a: Archive, w: World, readable: string -> bool) returns (manifest: Option<Manifest>, names: set<string>)
    ensures manifest.Some? <==> ContainerSound(a, w) && readable(MANIFEST_ENTRY)
    ensures manifest.Some? ==> manifest == ManifestIn(a.members, w)
    ensures manifest.Some? ==> forall n :: n in names <==> n in Image(Name, a.members)
  {
    names := {};
    if a.sizeBytes > MAX_ARCHIVE_BYTES { return None, names; }
    if |a.members| > MAX_REPORT_ENTRIES + MAX_REGISTRY_ENTRIES + 4 { return None, names; }
    var found := CheckNames(a.members);
    if found.None? || !HasMember(a.members, MANIFEST_ENTRY) || !readable(MANIFEST_ENTRY) { return None, names; }
    if |BytesOf(a.members, MANIFEST_ENTRY)| > MAX_MANIFEST_BYTES { return None, names; }
    return ManifestIn(a.members, w), found.value;
  }

  method UnpackContents(members: seq<Member>, m: Manifest, names: set<string>, w: World, readable: string -> bool)
    returns (staged: Option<map<string, Bytes>>)
    requires forall n :: n in names <==> n in Image(Name, members)
    ensures staged.Some? <==> ContentsSound(members, m, w) && AllRead(m.entries, readable)
    ensures staged.Some? ==> staged.value == Unpacked(m.entries, members)
  {
    var valid := ValidateManifest(m);
    if !valid { return None; }
    var expected := (set e | e in Image(Path, m.entries)) + {MANIFEST_ENTRY};
    SameNames(names, expected, members, m.entries);
    if names != expected { return None; }
    CopiedIsFitAndRead(m.entries, members, w, readable);
    staged := UnpackEntries(m.entries, members, w, readable);
    if staged.Some? && !w.accepts(m, staged.value) { return None; }
  }

  /** `prepare_bundle`: a bundle is unpacked exactly when it is sound and no I/O error
      gets in the way, and what is staged is what the manifest lists. */
  method PrepareBundle(a: Archive, w: World, readable: string -> bool) returns (prepared: Option<Prepared>)
    ensures prepared.Some? <==> IsSound(a, w) && Readable(a, w, readable)
    ensures prepared.Some? ==>
              && ManifestIn(a.members, w) == Some(prepared.value.manifest)
              && prepared.value.staged == Unpacked(prepared.value.manifest.entries, a.members)
  {
    var manifest, names := ReadContainer(a, w, readable);
    if manifest.None? { return None; }
    var staged := UnpackContents(a.members, manifest.value, names, w, readable);
    if staged.None? { return None; }
    return Some(Prepared(manifest.value, staged.value));
  }

  lemma SameNames(names: set<string>, expected: set<string>, members: seq<Member>, entries: seq<Entry>)
    requires forall n :: n in names <==> n in Image(Name, members)
    requires expected == (set e | e in Image(Path, entries)) + {MANIFEST_ENTRY}
    ensures names == expected <==> NamesMatch(members, entries)
  {
    assert forall n :: n in expected <==> n == MANIFEST_ENTRY || n in Image(Path, entries);
    if NamesMatch(members, entries) {
      assert forall n :: n in names <==> n in expected;
    }
    if names == expected {
      assert forall n :: n in Image(Name, members) <==> n in names;
    }
  }

  /** A collected file: what it held when it was measured and hashed, and what it held
      when it was later copied into the archive. */
  datatype Local = Local(path: string, component: Component, hashed: Bytes, written: Bytes)

  /** The manifest's text form, and the size of the container. */
  datatype Writer = Writer(render: Manifest -> Bytes, packedSize: seq<Member> -> nat)

  function EntryFor(local: Local, w: World): Entry {
    Entry(local.path, local.component, |local.hashed|, w.sha256(local.hashed))
  }

  function EntriesFor(locals: seq<Local>, w: World): seq<Entry> {
    Image((l: Local) => EntryFor(l, w), locals)
  }

  function MemberFor(local: Local): Member {
    Member(local.path, true, |local.written|, local.written)
  }

  function ManifestFor(locals: seq<Local>, version: string, includeReports: bool, w: World): Manifest {
    Manifest(SCHEMA_VERSION, version,
             Claims(true, (exists i :: 0 <= i < |locals| && locals[i].component == Presets),
                    (exists i :: 0 <= i < |locals| && locals[i].component == Settings), true, includeReports),
             EntriesFor(locals, w))
  }

  function MembersFor(manifest: Manifest, locals: seq<Local>, writer: Writer): seq<Member> {
    var text := writer.render(manifest);
    [Member(MANIFEST_ENTRY, true, |text|, text)] + Image(MemberFor, locals)
  }

  function BundleOf(manifest: Manifest, locals: seq<Local>, writer: Writer): Archive {
    var members := MembersFor(manifest, locals, writer);
    Archive(writer.packedSize(members), members)
  }

  /** A collected file can go into a bundle: it stands where its component belongs, is no
      bigger than its component may be, and has a digest in hexadecimal. */
  ghost predicate IsCollectible(l: Local, w: World) {
    && (match l.component
        case Database => l.path == "database/jobs.sqlite3" && |l.hashed| <= 8589934592
        case Presets => l.path == "presets/presets.json" && |l.hashed| <= 1048576
        case Settings => l.path == "settings/settings.json" && |l.hashed| <= 65536
        case EngineRegistry => IsNamedFile(l.path, "engine-registry/") && |l.hashed| <= 1048576
        case Reports => IsNamedFile(l.path, "reports/") && |l.hashed| <= 16777216)
    && |w.sha256(l.hashed)| == 64 && forall c :: c in w.sha256(l.hashed) ==> c in "0123456789abcdefABCDEF"
  }

  ghost predicate HasComponent(locals: seq<Local>, c: Component) {
    exists i :: 0 <= i < |locals| && locals[i].component == c
  }

  ghost function Places(locals: seq<Local>, c: Component): set<int> {
    set i | 0 <= i < |locals| && locals[i].component == c
  }

  /** What can be backed up, in terms of the collected files alone. Nothing is asked of
      presets, settings and the engine registry: they may be there or not. */
  ghost predicate CanBeBackedUp(locals: seq<Local>, version: string, includeReports: bool, w: World) {
    && 1 <= |version| <= 64
    && (forall i :: 0 <= i < |locals| ==> IsCollectible(locals[i], w))
    && (forall i, k :: 0 <= i < k < |locals| ==> locals[i].path != locals[k].path)
    && HasComponent(locals, Database)
    && |Places(locals, EngineRegistry)| <= 4096
    && |Places(locals, Reports)| <= if includeReports then 100000 else 0
  }

  lemma CollectibleIsGood(l: Local, w: World)
    ensures IsGoodEntry(EntryFor(l, w)) <==> IsCollectible(l, w)
  {
    GoodEntryIs(EntryFor(l, w));
  }

  lemma SameComponents(locals: seq<Local>, w: World, c: Component)
    ensures Holds(EntriesFor(locals, w), c) <==> HasComponent(locals, c)
    ensures Indices(EntriesFor(locals, w), c) == Places(locals, c)
    ensures |Places(locals, c)| == 0 <==> !HasComponent(locals, c)
  {
    var entries := EntriesFor(locals, w);
    assert forall i :: 0 <= i < |locals| ==> entries[i].component == locals[i].component;
    if HasComponent(locals, c) {
      var i :| 0 <= i < |locals| && locals[i].component == c;
      assert i in Places(locals, c) && entries[i].component == c;
    }
  }

  lemma CollectedEntries(locals: seq<Local>, w: World)
    ensures AllOf(IsGoodEntry, EntriesFor(locals, w)) <==> forall i :: 0 <= i < |locals| ==> IsCollectible(locals[i], w)
    ensures DistinctPaths(EntriesFor(locals, w)) <==> forall i, k :: 0 <= i < k < |locals| ==> locals[i].path != locals[k].path
  {
    var entries := EntriesFor(locals, w);
    forall i | 0 <= i < |locals| ensures IsGoodEntry(entries[i]) <==> IsCollectible(locals[i], w) {
      CollectibleIsGood(locals[i], w);
    }
    assert forall i :: 0 <= i < |locals| ==> entries[i].path == locals[i].path;
  }

  /** What the manifest says of its components agrees with the files collected. */
  lemma ClaimsAgree(locals: seq<Local>, version: string, includeReports: bool, w: World)
    ensures var m := ManifestFor(locals, version, includeReports, w);
      && m.schemaVersion == 1 && m.applicationVersion == version
      && (m.components.presets <==> Holds(m.entries, Presets))
      && (m.components.settings <==> Holds(m.entries, Settings))
      && (Holds(m.entries, Database) <==> HasComponent(locals, Database))
      && |Indices(m.entries, EngineRegistry)| == |Places(locals, EngineRegistry)|
      && |Indices(m.entries, Reports)| == |Places(locals, Reports)|
      && (Holds(m.entries, Reports) <==> |Places(locals, Reports)| > 0)
  {
    SameComponents(locals, w, Database);
    SameComponents(locals, w, Presets);
    SameComponents(locals, w, Settings);
    SameComponents(locals, w, EngineRegistry);
    SameComponents(locals, w, Reports);
  }

  /** Which states have an acceptable manifest. */
  lemma AcceptableWhenCollectible(locals: seq<Local>, version: string, includeReports: bool, w: World)
    ensures IsAcceptable(ManifestFor(locals, version, includeReports, w)) <==> CanBeBackedUp(locals, version, includeReports, w)
  {
    var entries := EntriesFor(locals, w);
    CollectedEntries(locals, w);
    ClaimsAgree(locals, version, includeReports, w);
    if AllOf(IsGoodEntry, entries) && DistinctPaths(entries) { CountsAddUp(entries); }
  }

  /** Which of the steps that touch the disk succeed: collecting the files, hashing and
      copying each of them, creating the partial bundle, writing its manifest, reading it
      back, publishing it, and measuring what was published. */
  datatype Io = Io(
    collects: bool,
    hashes: string -> bool,
    creates: bool,
    writes: bool,
    copies: string -> bool,
    readable: string -> bool,
    publishes: bool,
    reports: bool)

  ghost predicate Hashed(locals: seq<Local>, io: Io) {
    forall i :: 0 <= i < |locals| ==>
      io.hashes(locals[i].path) && |locals[i].hashed| <= ComponentLimit(locals[i].component)
  }

  ghost predicate Written(locals: seq<Local>, io: Io) {
    forall i :: 0 <= i < |locals| ==>
      io.copies(locals[i].path) && |locals[i].written| <= ComponentLimit(locals[i].component)
  }

  method MeasureAll(locals: seq<Local>, io: Io) returns (ok: bool)
    ensures ok <==> Hashed(locals, io)
  {
    for i := 0 to |locals|
      invariant forall k :: 0 <= k < i ==>
        io.hashes(locals[k].path) && |locals[k].hashed| <= ComponentLimit(locals[k].component)
    {
      if |locals[i].hashed| > ComponentLimit(locals[i].component) || !io.hashes(locals[i].path) { return false; }
    }
    return true;
  }

  method CopyAll(locals: seq<Local>, io: Io) returns (ok: bool)
    ensures ok <==> Written(locals, io)
  {
    for i := 0 to |locals|
      invariant forall k :: 0 <= k < i ==>
        io.copies(locals[k].path) && |locals[k].written| <= ComponentLimit(locals[k].component)
    {
      if !io.copies(locals[i].path) || |locals[i].written| > ComponentLimit(locals[i].component) { return false; }
    }
    return true;
  }

  /** `backup_inner` on the sorted list of files that collecting yields: what is published,
      if anything, is a sound bundle, and one is published whenever there is one, unless
      the disk fails. Only measuring what was published can fail after that. */
  method Backup(destinationExists: bool, locals: seq<Local>, version: string, includeReports: bool,
                w: World, writer: Writer, io: Io)
    returns (published: Option<Archive>, reported: bool)
    ensures var m := ManifestFor(locals, version, includeReports, w);
            var bundle := BundleOf(m, locals, writer);
            && (published == None || published == Some(bundle))
            && (published.Some? <==>
                  && !destinationExists && io.collects && Hashed(locals, io) && CanBeBackedUp(locals, version, includeReports, w)
                  && io.creates && io.writes && |writer.render(m)| <= 4194304 && Written(locals, io)
                  && IsSound(bundle, w) && Readable(bundle, w, io.readable) && io.publishes)
            && (reported <==> published.Some? && io.reports)
  {
    if destinationExists || !io.collects { return None, false; }
    var fits := MeasureAll(locals, io);
    if !fits { return None, false; }
    var manifest := ManifestFor(locals, version, includeReports, w);
    var valid := ValidateManifest(manifest);
    AcceptableWhenCollectible(locals, version, includeReports, w);
    if !valid || !io.creates || |writer.render(manifest)| > MAX_MANIFEST_BYTES || !io.writes { return None, false; }
    var copied := CopyAll(locals, io);
    if !copied { return None, false; }
    var bundle := BundleOf(manifest, locals, writer);
    var prepared := PrepareBundle(bundle, w, io.readable);
    if prepared.None? || !io.publishes { return None, false; }
    return Some(bundle), io.reports;
  }

  lemma IndexIs(members: seq<Member>, i: nat)
    requires i < |members| && Distinct(Image(Name, members))
    ensures IndexOf(members, members[i].name) == i
  {
    var at, names := IndexOf(members, members[i].name), Image(Name, members);
    assert names[at] == names[i];
  }

  /** What is written: the manifest, and then every collected file under its path. */
  lemma WrittenMembers(locals: seq<Local>, m: Manifest, writer: Writer, i: nat)
    requires i < |locals|
    ensures |BundleOf(m, locals, writer).members| == |locals| + 1
    ensures BundleOf(m, locals, writer).members[0] == Member("manifest.json", true, |writer.render(m)|, writer.render(m))
    ensures BundleOf(m, locals, writer).members[i + 1] == Member(locals[i].path, true, |locals[i].written|, locals[i].written)
  {
    var files := Image(MemberFor, locals);
    assert MembersFor(m, locals, writer)[i + 1] == files[i] == MemberFor(locals[i]);
  }

  lemma LocalIsMember(locals: seq<Local>, m: Manifest, writer: Writer, i: nat)
    requires i < |locals| && Distinct(Image(Name, MembersFor(m, locals, writer)))
    ensures var members := MembersFor(m, locals, writer);
            && HasMember(members, locals[i].path) && members[IndexOf(members, locals[i].path)] == MemberFor(locals[i])
            && BytesOf(members, locals[i].path) == locals[i].written
  {
    IndexIs(MembersFor(m, locals, writer), i + 1);
  }

  ghost predicate GivesBack(staged: map<string, Bytes>, locals: seq<Local>) {
    && (forall p :: p in staged ==> exists i :: 0 <= i < |locals| && locals[i].path == p)
    && (forall i :: 0 <= i < |locals| ==> locals[i].path in staged && staged[locals[i].path] == locals[i].written)
  }

  lemma UnpackedGivesBack(locals: seq<Local>, m: Manifest, w: World, writer: Writer)
    requires m.entries == EntriesFor(locals, w)
    requires Distinct(Image(Name, MembersFor(m, locals, writer)))
    ensures GivesBack(Unpacked(m.entries, MembersFor(m, locals, writer)), locals)
  {
    var members, paths := MembersFor(m, locals, writer), Image(Path, m.entries);
    forall i | 0 <= i < |locals|
      ensures locals[i].path in Unpacked(m.entries, members) && BytesOf(members, locals[i].path) == locals[i].written
      ensures Unpacked(m.entries, members)[locals[i].path] == locals[i].written
    {
      LocalIsMember(locals, m, writer, i);
      assert paths[i] == locals[i].path;
      UnpackedExactly(m.entries, members, locals[i].path);
    }
    forall p | p in Unpacked(m.entries, members) ensures exists i :: 0 <= i < |locals| && locals[i].path == p {
      UnpackedExactly(m.entries, members, p);
      var i :| 0 <= i < |paths| && paths[i] == p;
      assert locals[i].path == p;
    }
  }

  ghost predicate SameDigests(locals: seq<Local>, w: World) {
    forall i :: 0 <= i < |locals| ==>
      |locals[i].written| == |locals[i].hashed| && w.sha256(locals[i].written) == w.sha256(locals[i].hashed)
  }

  /** Every member fits its entry exactly when no file changed its length or digest
      between hashing and copying. */
  lemma FitsWhenUnchanged(locals: seq<Local>, m: Manifest, w: World, writer: Writer)
    requires m.entries == EntriesFor(locals, w)
    requires Distinct(Image(Name, MembersFor(m, locals, writer)))
    ensures AllFit(m.entries, MembersFor(m, locals, writer), w) <==> SameDigests(locals, w)
  {
    forall i | 0 <= i < |locals|
      ensures EntryFits(m.entries[i], MembersFor(m, locals, writer), w)
              <==> |locals[i].written| == |locals[i].hashed| && w.sha256(locals[i].written) == w.sha256(locals[i].hashed)
    {
      LocalIsMember(locals, m, writer, i);
    }
  }

  /** A bundle that is sound gives back the bytes that went into it, one file for each
      collected one; and those are as long as the bytes that were hashed, with the same
      digest, even if a file changed between hashing and copying. */
  lemma BackupRoundTrip(locals: seq<Local>, m: Manifest, w: World, writer: Writer)
    requires m.entries == EntriesFor(locals, w) && w.parse(writer.render(m)) == Some(m)
    requires IsSound(BundleOf(m, locals, writer), w)
    ensures ManifestIn(MembersFor(m, locals, writer), w) == Some(m)
    ensures GivesBack(Unpacked(m.entries, MembersFor(m, locals, writer)), locals)
    ensures SameDigests(locals, w)
  {
    IndexIs(MembersFor(m, locals, writer), 0);
    UnpackedGivesBack(locals, m, w, writer);
    FitsWhenUnchanged(locals, m, w, writer);
  }

  lemma PlainNameIsSafe(name: string)
    requires name != "" && name[0] != '.' && '/' !in name && '\\' !in name
    ensures IsSafeArchivePath(name)
  {
    assert FirstSegment(name)[0] == name[0];
  }

  lemma GoodPaths(entries: seq<Entry>)
    requires AllOf(IsGoodEntry, entries) && DistinctPaths(entries)
    ensures AllOf(IsSafeArchivePath, Image(Path, entries)) && Distinct(Image(Path, entries))
    ensures MANIFEST_ENTRY !in Image(Path, entries)
  {
    var paths := Image(Path, entries);
    forall i | 0 <= i < |paths| ensures IsSafeArchivePath(paths[i]) && paths[i] != MANIFEST_ENTRY {
      assert IsGoodEntry(entries[i]);
    }
  }

  /** The names of a bundle written from an acceptable manifest are in order. */
  lemma WrittenNamesAreSafe(locals: seq<Local>, m: Manifest, w: World, writer: Writer)
    requires m.entries == EntriesFor(locals, w) && AllOf(IsGoodEntry, m.entries) && DistinctPaths(m.entries)
    ensures SafeNames(MembersFor(m, locals, writer)) && NamesMatch(MembersFor(m, locals, writer), m.entries)
  {
    var names, paths := Image(Name, MembersFor(m, locals, writer)), Image(Path, m.entries);
    assert names == [MANIFEST_ENTRY] + paths;
    GoodPaths(m.entries);
    PlainNameIsSafe(MANIFEST_ENTRY);
    FirstOfAll(IsSafeArchivePath, MANIFEST_ENTRY, paths);
    FirstOfDistinct(MANIFEST_ENTRY, paths);
  }

  lemma ContainerSoundWhen(locals: seq<Local>, m: Manifest, w: World, writer: Writer)
    requires w.parse(writer.render(m)) == Some(m) && |locals| <= MAX_REPORT_ENTRIES + MAX_REGISTRY_ENTRIES + 3
    requires SafeNames(MembersFor(m, locals, writer))
    ensures ManifestIn(MembersFor(m, locals, writer), w) == Some(m)
    ensures ContainerSound(BundleOf(m, locals, writer), w) <==>
              && writer.packedSize(MembersFor(m, locals, writer)) <= MAX_ARCHIVE_BYTES
              && |writer.render(m)| <= MAX_MANIFEST_BYTES
  {
    IndexIs(MembersFor(m, locals, writer), 0);
  }

  lemma ContentsSoundWhen(locals: seq<Local>, m: Manifest, w: World, writer: Writer)
    requires m.entries == EntriesFor(locals, w) && IsAcceptable(m)
    requires SafeNames(MembersFor(m, locals, writer)) && NamesMatch(MembersFor(m, locals, writer), m.entries)
    ensures ContentsSound(MembersFor(m, locals, writer), m, w) <==>
              && TotalSize(m.entries) <= MAX_TOTAL_UNCOMPRESSED_BYTES && SameDigests(locals, w)
              && w.accepts(m, Unpacked(m.entries, MembersFor(m, locals, writer)))
  {
    FitsWhenUnchanged(locals, m, w, writer);
  }

  /** A backup of acceptable files fails for no other reason than these: too big in one
      of three ways, refused by the component checks, or changed while being copied. */
  lemma SoundExactlyWhen(locals: seq<Local>, m: Manifest, w: World, writer: Writer)
    requires m.entries == EntriesFor(locals, w) && w.parse(writer.render(m)) == Some(m) && IsAcceptable(m)
    ensures IsSound(BundleOf(m, locals, writer), w) <==>
              && writer.packedSize(MembersFor(m, locals, writer)) <= 17179869184
              && |writer.render(m)| <= 4194304
              && TotalSize(m.entries) <= 17179869184
              && SameDigests(locals, w)
              && w.accepts(m, Unpacked(m.entries, MembersFor(m, locals, writer)))
  {
    WrittenNamesAreSafe(locals, m, w, writer);
    ContainerSoundWhen(locals, m, w, writer);
    ContentsSoundWhen(locals, m, w, writer);
  }

  /** A text form that spells out the 64 digits of every digest fits into the manifest
      limit for at most 65536 entries: no state with more files can be backed up, and
      the limit of 100000 reports is never reached. */
  lemma TooManyToBackUp(locals: seq<Local>, m: Manifest, w: World, writer: Writer)
    requires m.entries == EntriesFor(locals, w) && 64 * |m.entries| <= |writer.render(m)|
    requires |locals| > 65536
    ensures !IsSound(BundleOf(m, locals, writer), w)
  {
    if IsSound(BundleOf(m, locals, writer), w) {
      IndexIs(MembersFor(m, locals, writer), 0);
    }
  }
}
