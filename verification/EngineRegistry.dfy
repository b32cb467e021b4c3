// The active version of every engine: switching it atomically, falling back when
// it no longer verifies, and rolling it back under the downgrade policy.
module EngineRegistry {
  import opened Options
  import opened Storage
  import opened Doctor
  import opened EngineStore
  import opened PortableNames
  import opened Strings
  import opened Versions
  import Decimal

  /** The files of the registry directory: `ID.json` and `.ID.backup`. */
  datatype PointerName = Pointer(id: string) | Backup(id: string)

  /** A pointer file; one that cannot be read or parsed is `damaged`. */
  datatype Identity = Identity(engineId: Option<string>, manifestPath: Path, damaged: bool := false)

  type Pointers = map<PointerName, Identity>

  function ActiveOf(files: Pointers, id: string): Option<Identity> {
    Lookup(files, Pointer(id))
  }

  /** The pointer as recovery of the directory will find it. */
  function StoredPointer(files: Pointers, id: string): Option<Identity> {
    Stored(files, Pointer(id), Backup(id))
  }

  /** The engine store and the file system, unchanged while the registry works. */
  datatype World = World(
    verify: Path -> Option<Pack>,
    isExecutable: Path -> bool,
    listing: string -> Option<seq<VersionEntry>>,
    readVersion: Path -> string)
  {
    function Candidates(engineId: string): seq<Installed> {
      if listing(engineId).None? then [] else InstalledList(engineId, listing(engineId).value)
    }

    predicate Activates(paths: Paths, path: Path) {
      verify(path).Some? && Registrable(paths, isExecutable, verify(path).value)
    }
  }

  datatype Fallback = Fallback(failedVersion: string, fallbackVersion: string)

  datatype Recovery =
    | Activated(engineId: string, version: string, hash: string)
    | FellBack(engineId: string, fallback: Fallback)
    | Unrecovered(engineId: string, failedVersion: string)

  const MAX_REPORTED_ENGINES := 64

  /** Candidate `k` is the newest installed version, other than the broken one,
      that can still be activated. */
  ghost predicate IsNewestFallback(w: World, paths: Paths, engineId: string, activePath: Path, k: int) {
    var candidates := w.Candidates(engineId);
    && 0 <= k < |candidates| && candidates[k].manifestPath != activePath && w.Activates(paths, candidates[k].manifestPath)
    && forall j :: 0 <= j < k ==> candidates[j].manifestPath == activePath || !w.Activates(paths, candidates[j].manifestPath)
  }

  lemma {:induction false} FirstOfThem(w: World, paths: Paths, engineId: string, activePath: Path, n: nat) returns (k: nat)
    requires n < |w.Candidates(engineId)|
    requires w.Candidates(engineId)[n].manifestPath != activePath && w.Activates(paths, w.Candidates(engineId)[n].manifestPath)
    ensures k <= n && IsNewestFallback(w, paths, engineId, activePath, k)
  {
    var candidates := w.Candidates(engineId);
    if j :| 0 <= j < n && candidates[j].manifestPath != activePath && w.Activates(paths, candidates[j].manifestPath) {
      k := FirstOfThem(w, paths, engineId, activePath, j);
    } else {
      k := n;
    }
  }

  lemma ListedIsFallback(w: World, paths: Paths, engineId: string, activePath: Path, x: Installed) returns (k: nat)
    requires x in w.Candidates(engineId) && x.manifestPath != activePath && w.Activates(paths, x.manifestPath)
    ensures IsNewestFallback(w, paths, engineId, activePath, k)
    ensures w.Candidates(engineId)[k] == x || IsOlder(x, w.Candidates(engineId)[k])
  {
    var list := w.Candidates(engineId);
    var n :| 0 <= n < |list| && list[n] == x;
    k := FirstOfThem(w, paths, engineId, activePath, n);
    NewestFirst(engineId, w.listing(engineId).value, k, n, x);
  }

  /** If a directory of the store holds a pack that can be activated, is not the broken one,
      and is the only one of its version and hash, then there is a fallback, and it is that
      pack or a newer one. */
  lemma InstalledPackIsFallback(w: World, paths: Paths, engineId: string, activePath: Path, v: int, d: int) returns (k: nat)
    requires w.listing(engineId).Some? && IsInstalledAt(w.listing(engineId).value, v, d)
    requires IsOnlyOne(engineId, w.listing(engineId).value, v, d)
    requires InstalledAt(engineId, w.listing(engineId).value, v, d).manifestPath != activePath
    requires w.Activates(paths, InstalledAt(engineId, w.listing(engineId).value, v, d).manifestPath)
    ensures IsNewestFallback(w, paths, engineId, activePath, k)
    ensures var x, found := InstalledAt(engineId, w.listing(engineId).value, v, d), w.Candidates(engineId)[k];
      found == x || IsOlder(x, found)
  {
    OnlyOneIsListed(engineId, w.listing(engineId).value, v, d);
    k := ListedIsFallback(w, paths, engineId, activePath, InstalledAt(engineId, w.listing(engineId).value, v, d));
  }

  /** `recovery` is the right report for an engine whose active manifest is at
      `activePath`, given the executable names already registered. */
  ghost predicate Reports(w: World, paths: Paths, engineId: string, activePath: Path, recovery: Recovery) {
    && recovery.engineId == engineId
    && (recovery.Activated? <==> w.Activates(paths, activePath))
    && (recovery.Activated? ==>
          recovery.version == w.verify(activePath).value.version && recovery.hash == w.verify(activePath).value.hash)
    && (recovery.FellBack? ==>
          && recovery.fallback.failedVersion == w.readVersion(activePath)
          && exists k :: IsNewestFallback(w, paths, engineId, activePath, k)
                      && recovery.fallback.fallbackVersion == w.Candidates(engineId)[k].version)
    && (recovery.Unrecovered? ==> recovery.failedVersion == w.readVersion(activePath))
    && (recovery.Unrecovered? <==>
          !w.Activates(paths, activePath) && forall k :: !IsNewestFallback(w, paths, engineId, activePath, k))
  }

  /** A pointer file and its contents. */
  datatype Entry = Entry(id: string, identity: Identity)

  /** The report on one pointer, which may leave the engine id to the manifest. */
  ghost predicate ReportsEntry(w: World, paths: Paths, identity: Identity, recovery: Recovery) {
    match identity.engineId
    case Some(id) => Reports(w, paths, id, identity.manifestPath, recovery)
    case None =>
      match w.verify(identity.manifestPath)
      case Some(pack) => Reports(w, paths, pack.engineId, identity.manifestPath, recovery)
      case None => recovery == Unrecovered(identity.manifestPath, "unknown")
  }

  /** Exactly the pointers in `files`, in the order of their manifest paths. */
  ghost predicate Enumerates(entries: seq<Entry>, files: Pointers) {
    && (forall i :: 0 <= i < |entries| ==> ActiveOf(files, entries[i].id) == Some(entries[i].identity))
    && (forall id :: ActiveOf(files, id).Some? ==> exists i :: 0 <= i < |entries| && entries[i].id == id)
    && (forall i, k :: 0 <= i < k < |entries| ==> entries[i].id != entries[k].id)
    && (forall i, k :: 0 <= i < k < |entries| ==> PathBelow(entries[i].identity.manifestPath, entries[k].identity.manifestPath))
  }

  /** No visible pointer file is damaged. */
  ghost predicate AllReadable(files: Pointers) {
    forall id :: ActiveOf(files, id).Some? ==> !ActiveOf(files, id).value.damaged
  }

  /** The engines that have a pointer file. */
  function PointerIds(files: Pointers): set<string> {
    set n | n in files && n.Pointer? :: n.id
  }

  function EntryIds(entries: seq<Entry>): (ids: seq<string>)
    ensures |ids| == |entries| && forall i :: 0 <= i < |entries| ==> ids[i] == entries[i].id
  {
    seq(|entries|, i requires 0 <= i < |entries| => entries[i].id)
  }

  lemma {:induction false} DistinctCount(ids: seq<string>, all: set<string>)
    requires (forall i, k :: 0 <= i < k < |ids| ==> ids[i] != ids[k]) && forall i :: 0 <= i < |ids| ==> ids[i] in all
    ensures |ids| <= |all|
  {
    if ids == [] {
    } else {
      var n := |ids| - 1;
      DistinctCount(ids[..n], all - {ids[n]});
    }
  }

  lemma SamePointerIds(a: Pointers, b: Pointers)
    requires forall id :: ActiveOf(a, id).Some? <==> ActiveOf(b, id).Some?
    ensures PointerIds(a) == PointerIds(b)
  {
    forall id ensures id in PointerIds(a) <==> id in PointerIds(b) {
      assert ActiveOf(a, id).Some? <==> Pointer(id) in a;
      assert ActiveOf(b, id).Some? <==> Pointer(id) in b;
    }
  }

  /** No more entries than there are pointer files. */
  lemma AllEnumerated(entries: seq<Entry>, files: Pointers)
    requires Enumerates(entries, files)
    ensures |entries| <= |PointerIds(files)|
  {
    forall i | 0 <= i < |entries| ensures EntryIds(entries)[i] in PointerIds(files) {
      assert ActiveOf(files, entries[i].id).Some?;
      assert Pointer(entries[i].id) in files;
    }
    DistinctCount(EntryIds(entries), PointerIds(files));
  }

  predicate Offers(w: World, p: Path, name: string) {
    w.verify(p).Some? && Provides(w.verify(p).value, name)
  }

  /** No two engines provide the same executable name, and verified executables
      can be run. */
  ghost predicate NoClash(w: World) {
    && (forall p, i :: w.verify(p).Some? && 0 <= i < |w.verify(p).value.executables| ==>
          w.isExecutable(w.verify(p).value.executables[i].path))
    && (forall p, q, n :: Offers(w, p, n) && Offers(w, q, n) ==>
          w.verify(p).value.engineId == w.verify(q).value.engineId)
  }

  /** Every registered name is one that a verified pack of its owner provides. */
  ghost predicate Claimed(w: World, paths: Paths) {
    forall n :: n in paths ==>
      exists p :: Offers(w, p, n) && w.verify(p).value.engineId == paths[n].packId
  }

  /** Without clashes, activation is verification. */
  lemma VerifiedActivates(w: World, paths: Paths, p: Path)
    requires NoClash(w) && Claimed(w, paths)
    ensures w.Activates(paths, p) <==> w.verify(p).Some?
  {
    if w.verify(p).Some? {
      var pack := w.verify(p).value;
      forall i | 0 <= i < |pack.executables|
        ensures Claimable(paths, w.isExecutable, pack.engineId, pack.executables[i])
      {
        var n := ToLower(pack.executables[i].name);
        assert Offers(w, p, n);
      }
    }
  }

  lemma RegisteringKeepsClaims(w: World, paths: Paths, p: Path)
    requires Claimed(w, paths) && w.Activates(paths, p)
    ensures Claimed(w, AfterRegistering(paths, w.verify(p).value))
  {
    var pack := w.verify(p).value;
    var after := AfterRegistering(paths, pack);
    forall n | n in after
      ensures exists q :: Offers(w, q, n) && w.verify(q).value.engineId == after[n].packId
    {
      RegisteringIsExact(paths, w.isExecutable, pack, n);
      if after[n].packId == pack.engineId {
        assert Offers(w, p, n) && w.verify(p).value.engineId == after[n].packId;
      }
    }
  }

  /** The store is what installation makes of it: a manifest found under an engine
      id and version is a pack of that engine and version, and canonical paths
      lead to the same pack. */
  ghost predicate HonestStore(w: World) {
    && (forall p :: w.verify(p).Some? ==> w.verify(w.verify(p).value.path) == w.verify(p))
    && (forall id, i :: 0 <= i < |w.Candidates(id)| && w.verify(w.Candidates(id)[i].manifestPath).Some? ==>
          && w.verify(w.Candidates(id)[i].manifestPath).value.engineId == id
          && w.verify(w.Candidates(id)[i].manifestPath).value.version == w.Candidates(id)[i].version)
  }

  /** Every pointer file names its own engine, as `set_active` writes it. */
  ghost predicate OwnPointers(files: Pointers) {
    forall id :: ActiveOf(files, id).Some? ==>
      ActiveOf(files, id).value.engineId == Some(id) && !ActiveOf(files, id).value.damaged
  }

  /** The pointers after the first `|outcomes|` reports: an engine that fell back
      points at a verified pack of the reported version, all others are as before. */
  ghost predicate Recovered(w: World, before: Pointers, now: Pointers, entries: seq<Entry>, outcomes: seq<Recovery>) {
    && |outcomes| <= |entries|
    && (forall i :: 0 <= i < |outcomes| && outcomes[i].FellBack? ==>
          && ActiveOf(now, entries[i].id).Some?
          && var identity := ActiveOf(now, entries[i].id).value;
          && identity.engineId == Some(entries[i].id) && w.verify(identity.manifestPath).Some?
          && w.verify(identity.manifestPath).value.version == outcomes[i].fallback.fallbackVersion)
    && (forall i :: 0 <= i < |entries| && (i < |outcomes| ==> !outcomes[i].FellBack?) ==>
          ActiveOf(now, entries[i].id) == ActiveOf(before, entries[i].id))
    && (forall id :: ActiveOf(now, id).Some? <==> ActiveOf(before, id).Some?)
    && (AllReadable(before) ==> AllReadable(now))
  }

  /** The first `|outcomes|` entries are reported on as they should be, each with
      the names registered at that time. */
  ghost predicate Reported(w: World, entries: seq<Entry>, outcomes: seq<Recovery>, states: seq<Paths>) {
    && |outcomes| <= |entries| && |states| == |outcomes| + 1
    && forall i :: 0 <= i < |outcomes| ==> ReportsEntry(w, states[i], entries[i].identity, outcomes[i])
  }

  ghost predicate AllClaimed(w: World, states: seq<Paths>) {
    forall i :: 0 <= i < |states| ==> Claimed(w, states[i])
  }

  lemma ReportedMore(w: World, entries: seq<Entry>, outcomes: seq<Recovery>, states: seq<Paths>,
                     recovery: Recovery, paths: Paths)
    requires |outcomes| < |entries| && Reported(w, entries, outcomes, states)
    requires ReportsEntry(w, states[|outcomes|], entries[|outcomes|].identity, recovery)
    ensures Reported(w, entries, outcomes + [recovery], states + [paths])
    ensures AllClaimed(w, states) && Claimed(w, paths) ==> AllClaimed(w, states + [paths])
  {
  }

  /** The chosen pack could be activated. */
  ghost predicate Activatable(w: World, paths: Paths, chosen: Option<Pack>) {
    chosen.Some? ==> exists p :: w.verify(p) == chosen && w.Activates(paths, p)
  }

  /** What a report does to the pointers: a fallback moves the pointer of the pack
      it chose, and nothing else moves any. */
  ghost predicate PointersAfter(w: World, before: Pointers, now: Pointers, recovery: Recovery, chosen: Option<Pack>) {
    if !recovery.FellBack? then now == before
    else
      && chosen.Some?
      && SameOutside(before, now, {Pointer(chosen.value.engineId), Backup(chosen.value.engineId)})
      && ActiveOf(now, chosen.value.engineId) == Some(Identity(Some(chosen.value.engineId), chosen.value.path))
      && exists k :: IsVersion(w, recovery.engineId, k, chosen.value, recovery.fallback.fallbackVersion)
  }

  ghost predicate IsVersion(w: World, engineId: string, k: int, pack: Pack, version: string) {
    && 0 <= k < |w.Candidates(engineId)|
    && w.verify(w.Candidates(engineId)[k].manifestPath) == Some(pack) && version == w.Candidates(engineId)[k].version
  }

  lemma RecoveredSame(w: World, before: Pointers, now: Pointers, entries: seq<Entry>,
                      outcomes: seq<Recovery>, recovery: Recovery)
    requires |outcomes| < |entries| && Recovered(w, before, now, entries, outcomes) && !recovery.FellBack?
    ensures Recovered(w, before, now, entries, outcomes + [recovery])
  {
  }

  lemma RecoveredFallback(w: World, before: Pointers, mid: Pointers, now: Pointers, entries: seq<Entry>,
                          outcomes: seq<Recovery>, recovery: Recovery, pack: Pack)
    requires Enumerates(entries, before) && |outcomes| < |entries| && Recovered(w, before, mid, entries, outcomes)
    requires recovery.FellBack? && pack.engineId == entries[|outcomes|].id
    requires w.verify(pack.path) == Some(pack) && pack.version == recovery.fallback.fallbackVersion
    requires ActiveOf(now, pack.engineId) == Some(Identity(Some(pack.engineId), pack.path))
    requires forall x :: x != pack.engineId ==> ActiveOf(now, x) == ActiveOf(mid, x)
    ensures Recovered(w, before, now, entries, outcomes + [recovery])
  {
    var n := |outcomes|;
    assert ActiveOf(before, entries[n].id).Some?;
    forall i | 0 <= i < |entries| && i != n ensures ActiveOf(now, entries[i].id) == ActiveOf(mid, entries[i].id) {
      assert entries[i].id != entries[n].id;
    }
  }

  lemma RecoveredMore(w: World, before: Pointers, mid: Pointers, now: Pointers, entries: seq<Entry>,
                      outcomes: seq<Recovery>, paths: Paths, recovery: Recovery, chosen: Option<Pack>)
    requires Enumerates(entries, before) && HonestStore(w) && OwnPointers(before)
    requires |outcomes| < |entries| && Recovered(w, before, mid, entries, outcomes)
    requires ReportsEntry(w, paths, entries[|outcomes|].identity, recovery)
    requires PointersAfter(w, mid, now, recovery, chosen)
    ensures Recovered(w, before, now, entries, outcomes + [recovery])
  {
    var id := entries[|outcomes|].id;
    assert entries[|outcomes|].identity.engineId == Some(id);
    if recovery.FellBack? {
      assert recovery.engineId == id && chosen.value.engineId == id;
      assert w.verify(chosen.value.path) == chosen;
      forall x | x != id ensures ActiveOf(now, x) == ActiveOf(mid, x) {
        OthersKeepPointers(mid, now, id, x);
      }
      RecoveredFallback(w, before, mid, now, entries, outcomes, recovery, chosen.value);
    } else {
      RecoveredSame(w, before, now, entries, outcomes, recovery);
    }
  }

  /** Report `k` of a later start says that the fallback is now the active version. */
  predicate ActiveAgain(second: seq<Recovery>, fellBack: Recovery, k: int)
    requires fellBack.FellBack?
  {
    && 0 <= k < |second| && second[k].Activated? && second[k].engineId == fellBack.engineId
    && second[k].version == fellBack.fallback.fallbackVersion
  }

  lemma SecondStart(w: World, before: Pointers, between: Pointers,
                    entries: seq<Entry>, first: seq<Recovery>, states: seq<Paths>,
                    again: seq<Entry>, second: seq<Recovery>, later: seq<Paths>, i: nat)
    requires NoClash(w) && OwnPointers(before)
    requires Enumerates(entries, before) && Reported(w, entries, first, states)
    requires Recovered(w, before, between, entries, first)
    requires Enumerates(again, between) && Reported(w, again, second, later) && |second| == |again| && AllClaimed(w, later)
    requires i < |first| && first[i].FellBack?
    ensures exists k :: ActiveAgain(second, first[i], k)
  {
    var id := entries[i].id;
    assert ReportsEntry(w, states[i], entries[i].identity, first[i]);
    assert entries[i].identity.engineId == Some(id) && first[i].engineId == id;
    var k :| 0 <= k < |again| && again[k].id == id;
    assert ReportsEntry(w, later[k], again[k].identity, second[k]);
    VerifiedActivates(w, later[k], again[k].identity.manifestPath);
    assert ActiveAgain(second, first[i], k);
  }

  datatype RollbackResult =
    | RolledBack(pack: Pack)
    | WrongEngine
    | Unreadable
    | PolicyBlocked
    | Unverified
    | Interrupted(outcome: Outcome)

  /** The pointers are what `set_active` makes of them: each names its own engine,
      and so does the pack it points at while that pack verifies. */
  ghost predicate OwnPacks(w: World, files: Pointers) {
    && OwnPointers(files)
    && forall id :: ActiveOf(files, id).Some? && w.verify(ActiveOf(files, id).value.manifestPath).Some? ==>
         w.verify(ActiveOf(files, id).value.manifestPath).value.engineId == id
  }

  /** The version of the active pack, while it verifies. */
  function ActiveVersion(w: World, files: Pointers, id: string): Option<string> {
    match ActiveOf(files, id)
    case None => None
    case Some(identity) =>
      match w.verify(identity.manifestPath)
      case None => None
      case Some(pack) => Some(pack.version)
  }

  /** Going to `target` without permission would be a downgrade. */
  predicate IsDowngrade(w: World, files: Pointers, target: Installed) {
    match ActiveVersion(w, files, target.engineId)
    case None => false
    case Some(version) => version != "" && VersionLess(Parse(target.version), Parse(version))
  }

  /** What the store says about a target is what its manifest says. */
  predicate HonestTarget(w: World, target: Installed) {
    match w.verify(target.manifestPath)
    case None => true
    case Some(pack) =>
      pack.engineId == target.engineId && pack.version == target.version
      && w.verify(pack.path) == Some(pack)
  }

  /** The version behind the stored pointer, whether or not the pointer is visible and
      the pack verifies. */
  function VersionBehind(w: World, files: Pointers, id: string): Option<string> {
    match StoredPointer(files, id)
    case None => None
    case Some(identity) => Some(w.readVersion(identity.manifestPath))
  }

  /** Reading the version of a pack that verifies gives its version. */
  ghost predicate HonestRead(w: World) {
    forall p :: w.verify(p).Some? ==> w.readVersion(p) == w.verify(p).value.version
  }

  /** The target is a pack of the engine it is listed under, wherever it is read from; its
      directory may still name another version. */
  predicate OwnTarget(w: World, target: Installed) {
    match w.verify(target.manifestPath)
    case None => true
    case Some(pack) => pack.engineId == target.engineId && w.verify(pack.path) == Some(pack)
  }

  predicate IsLower(a: string, b: Option<string>) {
    b.Some? && VersionLess(Parse(a), Parse(b.value))
  }

  /** The target activates, its manifest has a lower version than the one behind the
      pointer, and the policy has no objection. */
  predicate SlipsThrough(w: World, paths: Paths, files: Pointers, target: Installed) {
    && w.Activates(paths, target.manifestPath)
    && IsLower(w.verify(target.manifestPath).value.version, VersionBehind(w, files, target.engineId))
    && !IsDowngrade(w, files, target)
  }

  lemma ParsedIsSomething(value: string, part: string)
    ensures ParseFrom(value, part) != []
  {
  }

  lemma NothingBelowEmpty(v: string)
    ensures !VersionLess(Parse(v), Parse(""))
  {
    ParsedIsSomething(v, "");
    assert Parse("") == [Text("")];
  }

  /** When the policy misses a downgrade: a crash has hidden the pointer, the active pack
      does not verify, or the target's directory names no lower version although its
      manifest has one. */
  lemma SlipsThroughWhen(w: World, paths: Paths, files: Pointers, target: Installed)
    requires HonestRead(w)
    ensures SlipsThrough(w, paths, files, target) <==>
              && w.Activates(paths, target.manifestPath)
              && IsLower(w.verify(target.manifestPath).value.version, VersionBehind(w, files, target.engineId))
              && (|| ActiveOf(files, target.engineId).None?
                  || w.verify(ActiveOf(files, target.engineId).value.manifestPath).None?
                  || !IsLower(target.version, VersionBehind(w, files, target.engineId)))
  {
    if ActiveOf(files, target.engineId).Some? && w.verify(ActiveOf(files, target.engineId).value.manifestPath).Some? {
      var version := w.verify(ActiveOf(files, target.engineId).value.manifestPath).value.version;
      assert VersionBehind(w, files, target.engineId) == Some(version);
      NothingBelowEmpty(target.version);
    }
  }

  /** The pointer of the pack's engine is the old one or leads to the pack; no other
      pointer has changed. */
  ghost predicate PointerAttempted(before: Pointers, now: Pointers, pack: Pack) {
    && SameOutside(before, now, {Pointer(pack.engineId), Backup(pack.engineId)})
    && (|| StoredPointer(now, pack.engineId) == StoredPointer(before, pack.engineId)
        || StoredPointer(now, pack.engineId) == Some(Identity(Some(pack.engineId), pack.path)))
  }

  lemma OthersKeepPointers(before: Pointers, now: Pointers, id: string, x: string)
    requires SameOutside(before, now, {Pointer(id), Backup(id)}) && x != id
    ensures ActiveOf(now, x) == ActiveOf(before, x) && StoredPointer(now, x) == StoredPointer(before, x)
  {
    assert Lookup(now, Pointer(x)) == Lookup(before, Pointer(x));
    assert Lookup(now, Backup(x)) == Lookup(before, Backup(x));
  }

  /** Every stored pointer names its own engine, and so does its pack while it verifies. */
  ghost predicate OwnStored(w: World, files: Pointers) {
    forall id :: StoredPointer(files, id).Some? ==>
      && StoredPointer(files, id).value.engineId == Some(id) && !StoredPointer(files, id).value.damaged
      && (w.verify(StoredPointer(files, id).value.manifestPath).Some? ==>
            w.verify(StoredPointer(files, id).value.manifestPath).value.engineId == id)
  }

  /** The pack behind the engine's stored pointer verifies and is at least `first`. */
  ghost predicate AtLeast(w: World, files: Pointers, id: string, first: string) {
    && StoredPointer(files, id).Some? && w.verify(StoredPointer(files, id).value.manifestPath).Some?
    && !IsLower(w.verify(StoredPointer(files, id).value.manifestPath).value.version, Some(first))
  }

  lemma NotBelowTwice(t: string, a: string, f: string)
    requires !IsLower(a, Some(f)) && (a == "" || !IsLower(t, Some(a)))
    ensures !IsLower(t, Some(f))
  {
    var pt, pa, pf := Parse(t), Parse(a), Parse(f);
    if a == "" { NothingBelowEmpty(t); }
    if VersionLess(pt, pf) {
      VersionsTotal(pa, pf);
      VersionsTotal(pt, pa);
      if VersionLess(pf, pa) { VersionsTransitive(pt, pf, pa); }
    }
  }

  /** A rollback that the policy lets pass, finished or interrupted, on a registry whose
      pointers are all visible. */
  lemma NotLower(w: World, before: Pointers, now: Pointers, target: Installed, pack: Pack, first: string)
    requires OwnStored(w, before) && AtLeast(w, before, target.engineId, first)
    requires ActiveOf(before, target.engineId) == StoredPointer(before, target.engineId)
    requires !IsDowngrade(w, before, target)
    requires HonestTarget(w, target) && w.verify(target.manifestPath) == Some(pack)
    requires PointerAttempted(before, now, pack)
    ensures OwnStored(w, now) && AtLeast(w, now, target.engineId, first)
  {
    var id := target.engineId;
    forall x | x != id ensures StoredPointer(now, x) == StoredPointer(before, x) {
      OthersKeepPointers(before, now, id, x);
    }
    NotBelowTwice(target.version, w.verify(StoredPointer(before, id).value.manifestPath).value.version, first);
  }

  function InsertByPath(entries: seq<Entry>, e: Entry): seq<Entry> {
    if entries == [] || PathBelow(e.identity.manifestPath, entries[0].identity.manifestPath) then [e] + entries
    else [entries[0]] + InsertByPath(entries[1..], e)
  }

  predicate SortedByPath(entries: seq<Entry>) {
    forall i, k :: 0 <= i < k < |entries| ==> PathBelow(entries[i].identity.manifestPath, entries[k].identity.manifestPath)
  }

  lemma {:induction false} InsertByPathMembers(entries: seq<Entry>, e: Entry, x: Entry)
    ensures x in InsertByPath(entries, e) <==> x == e || x in entries
  {
    if entries == [] {
    } else {
      assert entries == [entries[0]] + entries[1..];
      InsertByPathMembers(entries[1..], e, x);
    }
  }

  predicate DistinctIds(entries: seq<Entry>) {
    forall i, k :: 0 <= i < k < |entries| ==> entries[i].id != entries[k].id
  }

  lemma PathsTotal(a: Path, b: Path)
    ensures PathBelow(a, b) || PathBelow(b, a)
  {
    PartsTotal(KeptParts(Segments(a)), KeptParts(Segments(b)));
  }

  lemma PathsTransitive(a: Path, b: Path, c: Path)
    requires PathBelow(a, b) && PathBelow(b, c)
    ensures PathBelow(a, c)
  {
    PartsTransitive(KeptParts(Segments(a)), KeptParts(Segments(b)), KeptParts(Segments(c)));
  }

  lemma {:induction false} InsertByPathSorts(entries: seq<Entry>, e: Entry)
    requires SortedByPath(entries) && DistinctIds(entries)
    requires forall x :: x in entries ==> x.id != e.id
    ensures SortedByPath(InsertByPath(entries, e)) && DistinctIds(InsertByPath(entries, e))
  {
    if entries == [] {
    } else {
      var first, rest := entries[0], entries[1..];
      var path := e.identity.manifestPath;
      if PathBelow(path, first.identity.manifestPath) {
        forall k | 0 <= k < |entries| ensures PathBelow(path, entries[k].identity.manifestPath) {
          if k > 0 { PathsTransitive(path, first.identity.manifestPath, entries[k].identity.manifestPath); }
        }
      } else {
        PathsTotal(path, first.identity.manifestPath);
        InsertByPathSorts(rest, e);
        var more := InsertByPath(rest, e);
        forall k | 0 <= k < |more|
          ensures PathBelow(first.identity.manifestPath, more[k].identity.manifestPath) && first.id != more[k].id
        {
          InsertByPathMembers(rest, e, more[k]);
          if more[k] != e { var j :| 0 <= j < |rest| && rest[j] == more[k]; }
        }
      }
    }
  }

  lemma EnumeratesMore(entries: seq<Entry>, files: Pointers, e: Entry)
    requires Enumerates(entries, files) && ActiveOf(files, e.id).None?
    ensures Enumerates(InsertByPath(entries, e), files[Pointer(e.id) := e.identity])
  {
    var more, after := InsertByPath(entries, e), files[Pointer(e.id) := e.identity];
    InsertByPathSorts(entries, e);
    forall i | 0 <= i < |more| ensures ActiveOf(after, more[i].id) == Some(more[i].identity) {
      InsertByPathMembers(entries, e, more[i]);
    }
    forall id | ActiveOf(after, id).Some? ensures exists i :: 0 <= i < |more| && more[i].id == id {
      if id == e.id {
        InsertByPathMembers(entries, e, e);
        var i :| 0 <= i < |more| && more[i] == e;
      } else {
        assert ActiveOf(files, id).Some?;
        var k :| 0 <= k < |entries| && entries[k].id == id;
        InsertByPathMembers(entries, e, entries[k]);
        var i :| 0 <= i < |more| && more[i] == entries[k];
      }
    }
  }

  lemma EnumeratesSame(entries: seq<Entry>, files: Pointers, same: Pointers)
    requires Enumerates(entries, files) && forall id :: ActiveOf(files, id) == ActiveOf(same, id)
    ensures Enumerates(entries, same)
  {
    assert forall id :: ActiveOf(same, id).Some? ==> ActiveOf(files, id).Some?;
  }

  /** What a rollback does, clause by clause. */
  ghost predicate RollbackDone(w: World, paths: Paths, before: Pointers, now: Pointers, engineId: string,
                               target: Installed, allowDowngrade: bool, result: RollbackResult)
  {
    && (OwnPacks(w, before) ==>
          (result.PolicyBlocked? <==> target.engineId == engineId && !allowDowngrade && IsDowngrade(w, before, target)))
    && (result.WrongEngine? <==> target.engineId != engineId)
    && (result.Unreadable? <==> target.engineId == engineId && !AllReadable(before))
    && (result.RolledBack? || result.Interrupted? ==> w.Activates(paths, target.manifestPath))
    && (result.RolledBack? ==>
          && w.verify(target.manifestPath) == Some(result.pack)
          && SameOutside(before, now, {Pointer(result.pack.engineId), Backup(result.pack.engineId)})
          && ActiveOf(now, result.pack.engineId) == Some(Identity(Some(result.pack.engineId), result.pack.path)))
    && (result.Interrupted? ==> PointerAttempted(before, now, w.verify(target.manifestPath).value))
    && (result.Unverified? ==> !w.Activates(paths, target.manifestPath))
    && (!result.RolledBack? && !result.Interrupted? ==> now == before)
  }

  /** The version behind the engine's pointer has got lower. */
  predicate Lowered(w: World, before: Pointers, now: Pointers, id: string) {
    VersionBehind(w, now, id).Some? && IsLower(VersionBehind(w, now, id).value, VersionBehind(w, before, id))
  }

  lemma LoweredWhen(w: World, paths: Paths, before: Pointers, now: Pointers, target: Installed, result: RollbackResult)
    requires HonestRead(w) && OwnPacks(w, before) && OwnTarget(w, target)
    requires RollbackDone(w, paths, before, now, target.engineId, target, false, result)
    ensures Lowered(w, before, now, target.engineId) ==> SlipsThrough(w, paths, before, target)
    ensures SlipsThrough(w, paths, before, target) ==> Lowered(w, before, now, target.engineId) || result.Interrupted?
  {
    var id := target.engineId;
    if VersionBehind(w, before, id).Some? {
      VersionsTotal(Parse(VersionBehind(w, before, id).value), Parse(VersionBehind(w, before, id).value));
    }
    if result.RolledBack? || result.Interrupted? {
      var pack := w.verify(target.manifestPath).value;
      assert w.readVersion(pack.path) == pack.version;
    }
  }

  /** Once all backups are recovered, what holds of stored pointers holds of visible ones. */
  lemma VisibleIsOwn(w: World, files: Pointers)
    requires OwnStored(w, files) && forall id :: ActiveOf(files, id) == StoredPointer(files, id)
    ensures OwnPacks(w, files)
  {
    forall id | ActiveOf(files, id).Some? ensures ActiveOf(files, id).value.engineId == Some(id) {
      assert StoredPointer(files, id).Some?;
    }
  }

  /** Only the backups in `names` are still to be dealt with, and no stored pointer has
      changed. */
  ghost predicate BackupsLeft(before: Pointers, now: Pointers, names: set<string>) {
    forall id ::
      && StoredPointer(now, id) == StoredPointer(before, id)
      && (if id in names then Has(before, Backup(id)) && Has(now, Backup(id)) else !Has(now, Backup(id)))
  }

  lemma BackupGone(before: Pointers, mid: Pointers, now: Pointers, names: set<string>, id: string, done: bool)
    requires BackupsLeft(before, mid, names)
    requires SameOutside(mid, now, {Pointer(id), Backup(id)}) && StoredPointer(now, id) == StoredPointer(mid, id)
    requires done ==> !Has(now, Backup(id))
    ensures forall x :: StoredPointer(now, x) == StoredPointer(before, x)
    ensures done ==> BackupsLeft(before, now, names - {id})
  {
    forall x | x != id ensures StoredPointer(now, x) == StoredPointer(mid, x) && Has(now, Backup(x)) == Has(mid, Backup(x)) {
      assert Lookup(now, Pointer(x)) == Lookup(mid, Pointer(x));
      assert Lookup(now, Backup(x)) == Lookup(mid, Backup(x));
    }
  }

  /** When publishing leaves no pointer, if there was none: it is cut, or it fails and no
      backup is put back. */
  predicate StaysHidden(fates: seq<Fate>, backed: bool) {
    Coming(fates).Dies? || (Coming(fates).Errs? && !(backed && FateAt(fates, 1).Works?))
  }

  /** When switching hides a visible pointer: it is moved aside, and publishing leaves none. */
  predicate Hides(fates: seq<Fate>) {
    && Coming(fates).Works? && FateAt(fates, 1).Works? && !FateAt(fates, 2).Dies? && FateAt(fates, 3).Works?
    && StaysHidden(Skip(fates, 4), true)
  }

  class Registry {
    const world: World
    const disk: Disk<PointerName, Identity>
    const doctor: PathRegistry

    constructor (world: World, disk: Disk<PointerName, Identity>, doctor: PathRegistry)
      ensures this.world == world && this.disk == disk && this.doctor == doctor
    {
      this.world, this.disk, this.doctor := world, disk, doctor;
    }

    /** Makes way for a new pointer. An old backup that cannot be removed is
        overwritten, so that error does not matter. */
    method MoveAside(id: string) returns (r: Outcome)
      modifies disk
      ensures SameOutside(old(disk.files), disk.files, {Pointer(id), Backup(id)})
      ensures StoredPointer(disk.files, id) == StoredPointer(old(disk.files), id)
      ensures r.Done? ==> ActiveOf(disk.files, id).None?
      ensures Faultless(old(disk.fates)) ==> r.Done? && Faultless(disk.fates)
      ensures if ActiveOf(old(disk.files), id).Some?
              then MovedAside(r, id, old(disk.fates))
              else r.Done? && disk.files == old(disk.files) && disk.fates == old(disk.fates)
    {
      r := Done;
      SkipTwo(disk.fates);
      if Has(disk.files, Pointer(id)) {
        var ignored := disk.RemoveFile(Backup(id));
        if ignored.Crashed? { return Crashed; }
        r := disk.RenameOver(Pointer(id), Backup(id));
      }
    }

    /** A visible pointer is out of the way exactly if the removal of an old backup is not
        cut and the renaming works; else it is still visible. */
    ghost predicate MovedAside(r: Outcome, id: string, start: seq<Fate>)
      reads disk
    {
      && (r.Done? <==> !Coming(start).Dies? && FateAt(start, 1).Works?)
      && (if r.Done? then Has(disk.files, Backup(id)) && disk.fates == Skip(start, 2) else ActiveOf(disk.files, id).Some?)
    }

    /** Publishes the new pointer, or puts the old one back. */
    method PublishPointer(id: string, entry: Identity) returns (r: Outcome)
      requires ActiveOf(disk.files, id).None?
      modifies disk
      ensures SameOutside(old(disk.files), disk.files, {Pointer(id), Backup(id)})
      ensures r.Done? ==> ActiveOf(disk.files, id) == Some(entry)
      ensures r.Failed? ==> StoredPointer(disk.files, id) == StoredPointer(old(disk.files), id)
      ensures StoredPointer(disk.files, id) == StoredPointer(old(disk.files), id)
           || StoredPointer(disk.files, id) == Some(entry)
      ensures Coming(old(disk.fates)).Dies? ==> r.Crashed? && disk.files == old(disk.files)
      ensures ActiveOf(disk.files, id).None? <==> StaysHidden(old(disk.fates), Has(old(disk.files), Backup(id)))
      ensures Faultless(old(disk.fates)) ==> r.Done? && Faultless(disk.fates)
    {
      SkipTwo(disk.fates);
      r := disk.PublishOver(Pointer(id), entry);
      if r.Done? {
        var ignored := disk.RemoveFile(Backup(id));
        if ignored.Crashed? { r := Crashed; }
      } else if r.Failed? && Has(disk.files, Backup(id)) {
        var ignored := disk.RenameOver(Backup(id), Pointer(id));
        if ignored.Crashed? { r := Crashed; }
      }
    }

    /** Points an engine at a verified pack. Whatever happens, the stored pointer
        is the old one or the new one, and an error means the old one. `Hides` and
        `StaysHidden` say when no pointer is visible afterwards. */
    method SetActive(pack: Pack) returns (r: Outcome)
      modifies disk
      ensures SameOutside(old(disk.files), disk.files, {Pointer(pack.engineId), Backup(pack.engineId)})
      ensures r.Done? ==> ActiveOf(disk.files, pack.engineId) == Some(Identity(Some(pack.engineId), pack.path))
      ensures r.Failed? ==> StoredPointer(disk.files, pack.engineId) == StoredPointer(old(disk.files), pack.engineId)
      ensures StoredPointer(disk.files, pack.engineId) == StoredPointer(old(disk.files), pack.engineId)
           || StoredPointer(disk.files, pack.engineId) == Some(Identity(Some(pack.engineId), pack.path))
      ensures ActiveOf(disk.files, pack.engineId).None? <==>
                if ActiveOf(old(disk.files), pack.engineId).Some? then Hides(old(disk.fates))
                else !AllWork(old(disk.fates), 2) || StaysHidden(Skip(old(disk.fates), 2), Has(old(disk.files), Backup(pack.engineId)))
      ensures Faultless(old(disk.fates)) ==> r.Done? && Faultless(disk.fates)
    {
      SkipTwo(disk.fates);
      SkipSkip(disk.fates, 2, 0);
      SkipSkip(disk.fates, 2, 1);
      SkipSkip(disk.fates, 2, 2);
      r := disk.Prepare();  // the registry directory
      if !r.Done? { return; }
      r := disk.Prepare();  // the partial file
      if !r.Done? { return; }
      r := MoveAside(pack.engineId);
      if !r.Done? { return; }
      r := PublishPointer(pack.engineId, Identity(Some(pack.engineId), pack.path));
    }

    /** One replacement backup: obsolete if the pointer is there, else the pointer. */
    method RecoverBackup(id: string) returns (r: Outcome)
      requires Has(disk.files, Backup(id))
      modifies disk
      ensures SameOutside(old(disk.files), disk.files, {Pointer(id), Backup(id)})
      ensures StoredPointer(disk.files, id) == StoredPointer(old(disk.files), id)
      ensures r.Done? ==> !Has(disk.files, Backup(id))
      ensures Faultless(old(disk.fates)) ==> Faultless(disk.fates) && (r.Done? <==> IsSafeStem(id))
    {
      if !IsSafeStem(id) { return Failed; }
      if Has(disk.files, Pointer(id)) {
        r := disk.RemoveFile(Backup(id));
      } else {
        r := disk.Rename(Backup(id), Pointer(id));
      }
    }

    /** `recover_json_directory_backups` on the registry directory. */
    method RecoverBackups() returns (r: Outcome)
      modifies disk
      ensures forall id :: StoredPointer(disk.files, id) == StoredPointer(old(disk.files), id)
      ensures r.Done? ==> forall id :: ActiveOf(disk.files, id) == StoredPointer(old(disk.files), id)
      ensures Faultless(old(disk.fates)) && (forall id :: Has(old(disk.files), Backup(id)) ==> IsSafeStem(id)) ==>
                r.Done? && Faultless(disk.fates)
    {
      r := Done;
      ghost var before := disk.files;
      var names := set n | n in disk.files && n.Backup? :: n.id;
      assert forall id :: Has(disk.files, Backup(id)) <==> Backup(id) in disk.files;
      while names != {}
        invariant r.Done? && BackupsLeft(before, disk.files, names)
        invariant Faultless(old(disk.fates)) ==> Faultless(disk.fates)
        decreases |names|
      {
        var id :| id in names;
        ghost var mid := disk.files;
        r := RecoverBackup(id);
        BackupGone(before, mid, disk.files, names, id, r.Done?);
        if !r.Done? { return; }
        names := names - {id};
      }
    }

    /** `activate_engine_pack`: verify, then register the executables. */
    method Activate(path: Path) returns (pack: Option<Pack>)
      modifies doctor
      ensures pack == if world.Activates(old(doctor.paths), path) then world.verify(path) else None
      ensures doctor.paths == if pack.Some? then AfterRegistering(old(doctor.paths), pack.value) else old(doctor.paths)
    {
      pack := world.verify(path);
      if pack.Some? {
        var ok := doctor.Register(pack.value, world.isExecutable);
        if !ok { pack := None; }
      }
    }

    /** The newest installed version, other than the broken one, that activates. */
    method ActivateNewest(engineId: string, activePath: Path) returns (pack: Option<Pack>, version: string)
      modifies doctor
      ensures pack.Some? ==>
                && Activatable(world, old(doctor.paths), pack)
                && doctor.paths == AfterRegistering(old(doctor.paths), pack.value)
                && exists k :: IsNewestFallback(world, old(doctor.paths), engineId, activePath, k)
                            && IsVersion(world, engineId, k, pack.value, version)
      ensures pack.None? ==>
                && doctor.paths == old(doctor.paths)
                && forall k :: !IsNewestFallback(world, old(doctor.paths), engineId, activePath, k)
    {
      ghost var paths := doctor.paths;
      var candidates := world.Candidates(engineId);
      for i := 0 to |candidates|
        invariant doctor.paths == paths
        invariant forall j :: 0 <= j < i ==>
          candidates[j].manifestPath == activePath || !world.Activates(paths, candidates[j].manifestPath)
      {
        var candidate := candidates[i];
        if candidate.manifestPath == activePath { continue; }
        pack := Activate(candidate.manifestPath);
        if pack.Some? {
          assert IsNewestFallback(world, paths, engineId, activePath, i);
          assert IsVersion(world, engineId, i, pack.value, candidate.version);
          return pack, candidate.version;
        }
      }
      return None, "";
    }

    /** Activates the active version of one engine, or the newest installed version
        that can be activated instead, which then becomes the active one. */
    method RecoverEngine(engineId: string, activePath: Path)
      returns (r: Outcome, recovery: Recovery, ghost chosen: Option<Pack>)
      modifies disk, doctor
      ensures r.Done? ==> Reports(world, old(doctor.paths), engineId, activePath, recovery)
      ensures r.Done? ==> (chosen.Some? <==> !recovery.Unrecovered?)
      ensures doctor.paths == if chosen.Some? then AfterRegistering(old(doctor.paths), chosen.value) else old(doctor.paths)
      ensures Activatable(world, old(doctor.paths), chosen)
      ensures r.Done? ==> PointersAfter(world, old(disk.files), disk.files, recovery, chosen)
      ensures Faultless(old(disk.fates)) ==> r.Done? && Faultless(disk.fates)
    {
      r := Done;
      var active := Activate(activePath);
      chosen := active;
      if active.Some? {
        return Done, Activated(engineId, active.value.version, active.value.hash), chosen;
      }
      var failedVersion := world.readVersion(activePath);
      var pack, version := ActivateNewest(engineId, activePath);
      chosen := pack;
      if pack.None? {
        return Done, Unrecovered(engineId, failedVersion), None;
      }
      recovery := FellBack(engineId, Fallback(failedVersion, version));
      r := SetActive(pack.value);
    }

    /** Reads every active pointer; a single damaged one is an error. */
    method ActiveEntries() returns (read: Option<seq<Entry>>)
      ensures read.Some? <==> AllReadable(disk.files)
      ensures read.Some? ==> Enumerates(read.value, disk.files)
    {
      var entries: seq<Entry> := [];
      var names := set n | n in disk.files && n.Pointer? :: n.id;
      assert forall id :: ActiveOf(disk.files, id).Some? <==> Pointer(id) in disk.files;
      assert forall id :: id in names <==> ActiveOf(disk.files, id).Some?;
      ghost var left: Pointers := map[];
      while names != {}
        invariant forall id :: id in names ==> ActiveOf(disk.files, id).Some? && ActiveOf(left, id).None?
        invariant forall id :: id !in names ==> ActiveOf(left, id) == ActiveOf(disk.files, id)
        invariant Enumerates(entries, left) && AllReadable(left)
        decreases |names|
      {
        var id :| id in names;
        var entry := Entry(id, disk.files[Pointer(id)]);
        if entry.identity.damaged {
          assert ActiveOf(disk.files, id) == Some(entry.identity);
          return None;
        }
        EnumeratesMore(entries, left, entry);
        left := left[Pointer(id) := entry.identity];
        entries := InsertByPath(entries, entry);
        names := names - {id};
      }
      EnumeratesSame(entries, left, disk.files);
      return Some(entries);
    }

    /** The report on one pointer. */
    method RecoverEntry(identity: Identity) returns (r: Outcome, recovery: Recovery, ghost chosen: Option<Pack>)
      modifies disk, doctor
      ensures r.Done? ==> ReportsEntry(world, old(doctor.paths), identity, recovery)
      ensures Claimed(world, old(doctor.paths)) ==> Claimed(world, doctor.paths)
      ensures r.Done? ==> PointersAfter(world, old(disk.files), disk.files, recovery, chosen)
      ensures Faultless(old(disk.fates)) ==> r.Done? && Faultless(disk.fates)
    {
      var engineId;
      match identity.engineId {
        case Some(id) => engineId := id;
        case None =>
          match world.verify(identity.manifestPath) {
            case Some(pack) => engineId := pack.engineId;
            case None => return Done, Unrecovered(identity.manifestPath, "unknown"), None;
          }
      }
      ghost var paths := doctor.paths;
      r, recovery, chosen := RecoverEngine(engineId, identity.manifestPath);
      if chosen.Some? && Claimed(world, paths) {
        var p :| world.verify(p) == chosen && world.Activates(paths, p);
        RegisteringKeepsClaims(world, paths, p);
      }
    }

    /** One more report. */
    method RecoverNext(ghost before: Pointers, entries: seq<Entry>, outcomes: seq<Recovery>, ghost states: seq<Paths>)
      returns (r: Outcome, more: seq<Recovery>, ghost longer: seq<Paths>)
      requires Enumerates(entries, before) && |outcomes| < |entries|
      requires Reported(world, entries, outcomes, states) && states[|outcomes|] == doctor.paths
      modifies disk, doctor
      ensures r.Done? ==>
                && |more| == |outcomes| + 1 && Reported(world, entries, more, longer)
                && longer[0] == states[0] && longer[|more|] == doctor.paths
      ensures !r.Done? ==> longer == states
      ensures AllClaimed(world, states) ==> AllClaimed(world, longer)
      ensures r.Done? && HonestStore(world) && OwnPointers(before)
              && Recovered(world, before, old(disk.files), entries, outcomes) ==>
                Recovered(world, before, disk.files, entries, more)
      ensures Faultless(old(disk.fates)) ==> r.Done? && Faultless(disk.fates)
    {
      more, longer := outcomes, states;
      ghost var mid := disk.files;
      var recovery;
      ghost var chosen;
      r, recovery, chosen := RecoverEntry(entries[|outcomes|].identity);
      if !r.Done? { return; }
      if HonestStore(world) && OwnPointers(before) && Recovered(world, before, mid, entries, outcomes) {
        RecoveredMore(world, before, mid, disk.files, entries, outcomes, states[|outcomes|], recovery, chosen);
      }
      ReportedMore(world, entries, outcomes, states, recovery, doctor.paths);
      more, longer := outcomes + [recovery], states + [doctor.paths];
    }

    /** `recover`: reports on the first pointers, in the order of their manifest
        paths, unless one of them is damaged. `states` are the registered names before
        each report. */
    method Recover()
      returns (r: Outcome, outcomes: seq<Recovery>, ghost entries: seq<Entry>, ghost states: seq<Paths>)
      modifies disk, doctor
      ensures AllReadable(old(disk.files)) ==> Enumerates(entries, old(disk.files))
      ensures !AllReadable(old(disk.files)) ==>
                r.Failed? && outcomes == [] && disk.files == old(disk.files) && doctor.paths == old(doctor.paths)
      ensures r.Done? ==>
                && |outcomes| == (if |entries| < 64 then |entries| else 64)
                && Reported(world, entries, outcomes, states)
                && states[0] == old(doctor.paths) && states[|outcomes|] == doctor.paths
      ensures Claimed(world, old(doctor.paths)) ==> AllClaimed(world, states)
      ensures r.Done? && HonestStore(world) && OwnPointers(old(disk.files)) ==>
                Recovered(world, old(disk.files), disk.files, entries, outcomes)
      ensures Faultless(old(disk.fates)) ==> Faultless(disk.fates) && (r.Done? <==> AllReadable(old(disk.files)))
    {
      r := Done;
      outcomes, entries := [], [];
      ghost var before := disk.files;
      states := [doctor.paths];
      var read := ActiveEntries();
      if read.None? { return Failed, outcomes, entries, states; }
      var pointers := read.value;
      entries := pointers;
      for i := 0 to |pointers|
        invariant entries == pointers && Enumerates(entries, before)
        invariant r.Done? && |outcomes| == i && i <= MAX_REPORTED_ENGINES
        invariant Reported(world, entries, outcomes, states)
        invariant states[0] == old(doctor.paths) && states[i] == doctor.paths
        invariant Claimed(world, old(doctor.paths)) ==> AllClaimed(world, states)
        invariant HonestStore(world) && OwnPointers(before) ==> Recovered(world, before, disk.files, entries, outcomes)
        invariant Faultless(old(disk.fates)) ==> Faultless(disk.fates)
      {
        if |outcomes| >= MAX_REPORTED_ENGINES { break; }
        r, outcomes, states := RecoverNext(before, pointers, outcomes, states);
        if !r.Done? { return; }
      }
    }

    /** Starting twice: with an honest store and no clashes, an engine that fell back
        is active in the fallback version the next time. */
    method RecoverTwice() returns (r: Outcome, first: seq<Recovery>, second: seq<Recovery>)
      requires HonestStore(world) && NoClash(world)
      requires OwnPointers(disk.files) && Claimed(world, doctor.paths)
      modifies disk, doctor
      ensures r.Done? && |PointerIds(old(disk.files))| <= 64 ==>
                forall i :: 0 <= i < |first| && first[i].FellBack? ==>
                  exists k :: ActiveAgain(second, first[i], k)
      ensures Faultless(old(disk.fates)) ==> r.Done?
    {
      ghost var before := disk.files;
      ghost var entries, states, again, later;
      r, first, entries, states := Recover();
      second := [];
      if !r.Done? { return; }
      ghost var disk2 := disk.files;
      r, second, again, later := Recover();
      if !r.Done? { return; }
      if |PointerIds(before)| <= 64 {
        AllEnumerated(again, disk2);
        SamePointerIds(before, disk2);
        forall i | 0 <= i < |first| && first[i].FellBack?
          ensures exists k :: ActiveAgain(second, first[i], k)
        {
          SecondStart(world, before, disk2, entries, first, states, again, second, later, i);
        }
      }
    }

    /** The first pointer, in manifest path order, that concerns the engine. */
    method FindActive(engineId: string) returns (readable: bool, active: Option<Identity>)
      ensures readable <==> AllReadable(disk.files)
      ensures OwnPacks(world, disk.files) ==> active == ActiveOf(disk.files, engineId)
    {
      var read := ActiveEntries();
      if read.None? { return false, None; }
      var entries := read.value;
      for i := 0 to |entries|
        invariant OwnPacks(world, disk.files) ==> forall k :: 0 <= k < i ==> entries[k].id != engineId
      {
        var identity := entries[i].identity;
        var pack := world.verify(identity.manifestPath);
        assert ActiveOf(disk.files, entries[i].id) == Some(identity);
        if identity.engineId == Some(engineId) || (pack.Some? && pack.value.engineId == engineId) {
          return true, Some(identity);
        }
      }
      return true, None;
    }

    /** Goes back to an installed version, or forward to one. Without permission it lowers
        the version behind the pointer exactly if the target slips through the policy. */
    method Rollback(engineId: string, target: Installed, allowDowngrade: bool) returns (result: RollbackResult)
      modifies disk, doctor
      ensures OwnPacks(world, old(disk.files)) ==>
                (result.PolicyBlocked? <==>
                   target.engineId == engineId && !allowDowngrade && IsDowngrade(world, old(disk.files), target))
      ensures result.WrongEngine? <==> target.engineId != engineId
      ensures result.Unreadable? <==> target.engineId == engineId && !AllReadable(old(disk.files))
      ensures result.RolledBack? || result.Interrupted? ==> world.Activates(old(doctor.paths), target.manifestPath)
      ensures result.RolledBack? ==>
                && world.verify(target.manifestPath) == Some(result.pack)
                && SameOutside(old(disk.files), disk.files, {Pointer(result.pack.engineId), Backup(result.pack.engineId)})
                && ActiveOf(disk.files, result.pack.engineId) == Some(Identity(Some(result.pack.engineId), result.pack.path))
      ensures result.Interrupted? ==>
                PointerAttempted(old(disk.files), disk.files, world.verify(target.manifestPath).value)
      ensures result.Unverified? ==> !world.Activates(old(doctor.paths), target.manifestPath)
      ensures Faultless(old(disk.fates)) ==> !result.Interrupted?
      ensures !result.RolledBack? && !result.Interrupted? ==> disk.files == old(disk.files) && doctor.paths == old(doctor.paths)
      ensures target.engineId == engineId && !allowDowngrade
              && HonestRead(world) && OwnPacks(world, old(disk.files)) && OwnTarget(world, target) ==>
                && (Lowered(world, old(disk.files), disk.files, engineId) ==>
                      SlipsThrough(world, old(doctor.paths), old(disk.files), target))
                && (SlipsThrough(world, old(doctor.paths), old(disk.files), target) ==>
                      Lowered(world, old(disk.files), disk.files, engineId) || result.Interrupted?)
    {
      ghost var before, paths := disk.files, doctor.paths;
      result := TryRollback(engineId, target, allowDowngrade);
      if target.engineId == engineId && !allowDowngrade
         && HonestRead(world) && OwnPacks(world, before) && OwnTarget(world, target) {
        LoweredWhen(world, paths, before, disk.files, target, result);
      }
    }

    method TryRollback(engineId: string, target: Installed, allowDowngrade: bool) returns (result: RollbackResult)
      modifies disk, doctor
      ensures RollbackDone(world, old(doctor.paths), old(disk.files), disk.files, engineId, target, allowDowngrade, result)
      ensures Faultless(old(disk.fates)) ==> !result.Interrupted?
      ensures !result.RolledBack? && !result.Interrupted? ==> doctor.paths == old(doctor.paths)
    {
      if target.engineId != engineId { return WrongEngine; }
      var readable, active := FindActive(engineId);
      if !readable { return Unreadable; }
      if active.Some? {
        var pack := world.verify(active.value.manifestPath);
        var activeVersion := if pack.Some? then pack.value.version else "";
        var order := Compare(Parse(target.version), Parse(activeVersion));
        if activeVersion != "" && order == Less && !allowDowngrade {
          return PolicyBlocked;
        }
      }
      var verified := Activate(target.manifestPath);
      if verified.None? { return Unverified; }
      var r := SetActive(verified.value);
      return if r.Done? then RolledBack(verified.value) else Interrupted(r);
    }

    /** Any number of rollbacks without permission, each under its own schedule of faults
        and each after the directory's backups have been recovered: the version behind
        the pointer never gets lower, however the rollbacks end. */
    method RollbackRepeatedly(engineId: string, targets: seq<Installed>, faults: seq<seq<Fate>>)
      requires |faults| == |targets| && forall i :: 0 <= i < |targets| ==> HonestTarget(world, targets[i])
      requires OwnStored(world, disk.files)
      requires StoredPointer(disk.files, engineId).Some?
      requires world.verify(StoredPointer(disk.files, engineId).value.manifestPath).Some?
      modifies disk, doctor
      ensures OwnStored(world, disk.files)
      ensures AtLeast(world, disk.files, engineId,
                      world.verify(StoredPointer(old(disk.files), engineId).value.manifestPath).value.version)
    {
      ghost var first := world.verify(StoredPointer(disk.files, engineId).value.manifestPath).value.version;
      VersionsTotal(Parse(first), Parse(first));
      for i := 0 to |targets|
        invariant OwnStored(world, disk.files) && AtLeast(world, disk.files, engineId, first)
      {
        disk.fates := faults[i];
        var recovered := RecoverBackups();
        if !recovered.Done? { continue; }
        ghost var before := disk.files;
        VisibleIsOwn(world, before);
        var result := Rollback(engineId, targets[i], false);
        if result.RolledBack? || result.Interrupted? {
          NotLower(world, before, disk.files, targets[i], world.verify(targets[i].manifestPath).value, first);
        }
      }
    }

    /** A crash anywhere in a switch of the active version, followed by boots that
        recover the directory, leaves the old or the new pointer visible. */
    method SwitchAndReboot(pack: Pack, boots: seq<seq<Fate>>) returns (r: Outcome)
      modifies disk
      ensures r.Done? ==>
                || ActiveOf(disk.files, pack.engineId) == StoredPointer(old(disk.files), pack.engineId)
                || ActiveOf(disk.files, pack.engineId) == Some(Identity(Some(pack.engineId), pack.path))
      ensures Faultless(old(disk.fates)) ==> r.Done?
    {
      r := SetActive(pack);
      ghost var switched, succeeded := StoredPointer(disk.files, pack.engineId), r.Done?;
      var i := 0;
      while i < |boots| && !r.Done?
        invariant 0 <= i <= |boots| && (succeeded ==> i == 0 && r.Done?)
        invariant StoredPointer(disk.files, pack.engineId) == switched
        invariant r.Done? ==> ActiveOf(disk.files, pack.engineId) == switched
      {
        disk.fates := boots[i];
        r := RecoverBackups();
        i := i + 1;
      }
    }
  }

  /** A crash between the two renames hides the active version from every reader
      that does not recover the directory first. */
  method CrashHidesPointer(world: World) returns (registry: Registry)
    ensures ActiveOf(registry.disk.files, "media").None?
    ensures StoredPointer(registry.disk.files, "media").Some?
  {
    var disk := new Disk(map[Pointer("media") := Identity(Some("media"), "old")], []);
    var doctor := new PathRegistry();
    registry := new Registry(world, disk, doctor);
    var aside := registry.MoveAside("media");
    disk.fates := [Dies(false)];
    var crashed := registry.PublishPointer("media", Identity(Some("media"), "new"));
  }

  /** Contrary to the comment above the reader, one damaged pointer file keeps every engine
      from being recovered, whatever the other pointers are. */
  method OneDamagedPointerStopsAll(world: World, files: Pointers, id: string, damaged: Identity) returns (r: Outcome, outcomes: seq<Recovery>)
    requires damaged.damaged
    ensures r.Failed? && outcomes == []
  {
    var disk := new Disk(files[Pointer(id) := damaged], []);
    var doctor := new PathRegistry();
    var registry := new Registry(world, disk, doctor);
    assert ActiveOf(disk.files, id) == Some(damaged);
    ghost var entries, states;
    r, outcomes, entries, states := registry.Recover();
  }

  /** A pack with a single executable. */
  function SmallPack(version: string, hash: string, path: Path): Pack {
    Pack("media", version, hash, path, [Executable("tool", path + ".d/tool")])
  }

  /** The policy compares the target's directory name. If that is not the version
      in the manifest, an unauthorised rollback can lower the active version. */
  method MisnamedTargetDowngrades() returns (registry: Registry, result: RollbackResult)
    ensures result.RolledBack? && ActiveVersion(registry.world, registry.disk.files, "media") == Some("1")
    ensures VersionLess(Parse("1"), Parse("2"))
  {
    var one, two := SmallPack("1", "a", "one"), SmallPack("2", "b", "two");
    var world := World(
      p => if p == "one" then Some(one) else if p == "two" then Some(two) else None,
      p => true, id => None, p => "unknown");
    var disk := new Disk(map[Pointer("media") := Identity(Some("media"), "two")], []);
    var doctor := new PathRegistry();
    registry := new Registry(world, disk, doctor);
    ParseShort("1", 1);
    ParseShort("2", 2);
    ParseShort("9", 9);
    assert OwnPacks(world, disk.files);
    assert world.Activates(doctor.paths, "one");
    result := registry.Rollback("media", Installed("media", "9", "a", "one"), false);
  }

  /** A switch to the next version, cut between its two renames, hides the pointer. Then
      the policy finds nothing to compare with, and a rollback without permission to an
      honestly named older version goes through. */
  method HiddenPointerDowngrades() returns (registry: Registry, result: RollbackResult)
    ensures result.RolledBack? && VersionBehind(registry.world, registry.disk.files, "media") == Some("1")
    ensures VersionLess(Parse("1"), Parse("2"))
  {
    var one, two := SmallPack("1", "a", "one"), SmallPack("2", "b", "two");
    var world := World(
      p => if p == "one" then Some(one) else if p == "two" then Some(two) else None,
      p => true, id => None, p => if p == "one" then "1" else if p == "two" then "2" else "unknown");
    var disk := new Disk(map[Pointer("media") := Identity(Some("media"), "two")], []);
    var doctor := new PathRegistry();
    registry := new Registry(world, disk, doctor);
    var aside := registry.MoveAside("media");
    disk.fates := [Dies(false)];
    var crashed := registry.PublishPointer("media", Identity(Some("media"), "three"));
    assert ActiveOf(disk.files, "media").None? && VersionBehind(world, disk.files, "media") == Some("2");
    disk.fates := [];
    ParseShort("1", 1);
    ParseShort("2", 2);
    var target := Installed("media", "1", "a", "one");
    assert HonestTarget(world, target) && world.Activates(doctor.paths, "one");
    assert OwnPacks(world, disk.files);
    result := registry.Rollback("media", target, false);
  }

  lemma ParseShort(s: string, n: nat)
    requires |s| == 1 && '0' <= s[0] <= '9' && n == (s[0] - '0') as nat
    ensures Parse(s) == [Numeric(n)]
  {
    ParseSplits(s, "", "");
    assert "" + s == s;
    DigitIsNumber(s, n);
  }

  lemma DigitIsNumber(s: string, n: nat)
    requires |s| == 1 && '0' <= s[0] <= '9' && n == (s[0] - '0') as nat
    ensures ParseSegment(s) == Numeric(n)
  {
    assert s[..0] == [] && Decimal.Value([]) == 0;
    assert Decimal.AllDigits(s) && Decimal.Value(s) == n;
  }
}
