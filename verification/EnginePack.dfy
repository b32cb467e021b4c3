// Installing engine packs into the shared store: any number of installers, any
// interleaving of their steps, crashes and errors at any point.
module EnginePack {
  import opened Options
  import opened Strings
  import Doctor
  import EngineStore

  type Path = string
  type Directory = map<Path, string>

  const MANIFEST: Path := "manifest.json"

  /** A file the manifest declares; licences are declared without a hash. */
  datatype Declared = Declared(path: Path, sha256: Option<string>)

  /** `executables` have paths relative to the pack. */
  datatype Manifest = Manifest(engineId: string, version: string, files: seq<Declared>, executables: seq<Doctor.Executable>)

  /** The directory a pack is published under. */
  datatype Place = Place(engineId: string, version: string, manifestSha256: string)

  function PathOf(place: Place): Path {
    EngineStore.ManifestPath(place.engineId, place.version, place.manifestSha256)
  }

  function HomeOf(place: Place): Path {
    "store/" + place.engineId + "/" + place.version + "/" + place.manifestSha256 + "/"
  }

  function ExecutablesAt(place: Place, m: Manifest): seq<Doctor.Executable> {
    seq(|m.executables|, i requires 0 <= i < |m.executables| =>
      Doctor.Executable(m.executables[i].name, HomeOf(place) + m.executables[i].path))
  }

  /** The hash function, the manifest reader, the checks on the declared files that go
      beyond presence and hash, such as those on the inventory, and the one on a file that
      is to be executed. */
  datatype World = World(
    sha256: string -> string,
    parse: string -> Option<Manifest>,
    accepts: (Manifest, Directory) -> bool,
    isExecutable: Path -> bool)
  {
    predicate DeclaredMatches(d: Declared, dir: Directory) {
      d.path in dir && (d.sha256.Some? ==> ToLower(sha256(dir[d.path])) == ToLower(d.sha256.value))
    }

    /** `verify_engine_pack`: it looks at the manifest and the declared files only. */
    predicate Verifies(dir: Directory) {
      && MANIFEST in dir && parse(dir[MANIFEST]).Some?
      && var m := parse(dir[MANIFEST]).value;
      && (forall i :: 0 <= i < |m.files| ==> DeclaredMatches(m.files[i], dir))
      && accepts(m, OnlyDeclared(m, dir))
    }

    function PlaceOf(dir: Directory): Place
      requires MANIFEST in dir && parse(dir[MANIFEST]).Some?
    {
      var m := parse(dir[MANIFEST]).value;
      Place(m.engineId, m.version, sha256(dir[MANIFEST]))
    }

    /** What verification yields for a directory that stands in a place. */
    function PackAt(place: Place, dir: Directory): Doctor.Pack
      requires MANIFEST in dir && parse(dir[MANIFEST]).Some?
    {
      var m := parse(dir[MANIFEST]).value;
      Doctor.Pack(m.engineId, m.version, sha256(dir[MANIFEST]), PathOf(place), ExecutablesAt(place, m))
    }

    /** Whether its executables can be registered with a process. */
    predicate Activates(paths: Doctor.Paths, place: Place, dir: Directory) {
      Verifies(dir) && Doctor.Registrable(paths, isExecutable, PackAt(place, dir))
    }
  }

  predicate IsDeclared(m: Manifest, path: Path) {
    exists i :: 0 <= i < |m.files| && m.files[i].path == path
  }

  function OnlyDeclared(m: Manifest, dir: Directory): Directory {
    map p | p in dir && IsDeclared(m, p) :: dir[p]
  }

  /** The files an installation copies, in order. */
  function ToCopy(m: Manifest): (paths: seq<Path>)
    ensures |paths| == |m.files| + 1 && paths[0] == MANIFEST
    ensures forall i :: 0 <= i < |m.files| ==> paths[i + 1] == m.files[i].path
  {
    [MANIFEST] + seq(|m.files|, i requires 0 <= i < |m.files| => m.files[i].path)
  }

  datatype Phase =
    | Ready
    | Copying(place: Place, manifest: Manifest, copied: nat, staging: Directory)
    | Checked(place: Place, staging: Directory)
    | Activating(place: Place)
    | Installed(place: Place)
    | GaveUp
    | Dead

  /** An installer, the source directory it reads from, and the process it runs in. */
  datatype Installer = Installer(source: Directory, process: nat, phase: Phase)

  /** The store, the installers, and the executable names registered in each process. */
  datatype State = State(
    published: map<Place, Directory>,
    registered: map<nat, Doctor.Paths>,
    installers: seq<Installer>)
  {
    function PathsIn(process: nat): Doctor.Paths {
      if process in registered then registered[process] else map[]
    }
  }

  /** What can happen next: an installer takes a step, meets an I/O error, or crashes;
      somebody changes the source it reads from; or something else in its process changes
      the registered names. */
  datatype Event =
    | Advance(who: nat)
    | Fail(who: nat)
    | Crash(who: nat)
    | Edit(who: nat, source: Directory)
    | Reregister(who: nat, paths: Doctor.Paths)

  predicate Running(p: Phase) {
    p.Ready? || p.Copying? || p.Checked? || p.Activating?
  }

  function NextPhase(w: World, published: map<Place, Directory>, paths: Doctor.Paths, i: Installer): Phase {
    match i.phase
    case Ready =>
      if !w.Verifies(i.source) then GaveUp
      else
        var place := w.PlaceOf(i.source);
        if place in published && MANIFEST in published[place] then Activating(place)
        else Copying(place, w.parse(i.source[MANIFEST]).value, 0, map[])
    case Copying(place, m, copied, staging) =>
      if copied < |ToCopy(m)| then
        var path := ToCopy(m)[copied];
        if path in i.source then Copying(place, m, copied + 1, staging[path := i.source[path]]) else GaveUp
      else if w.Verifies(staging) then Checked(place, staging)
      else GaveUp
    case Checked(place, staging) =>
      // a rename onto an existing pack fails; then the existing one is used
      if place in published && MANIFEST !in published[place] then GaveUp else Activating(place)
    case Activating(place) =>
      if place in published && w.Activates(paths, place, published[place]) then Installed(place) else GaveUp
    case _ => i.phase
  }

  function NextPublished(published: map<Place, Directory>, p: Phase): map<Place, Directory> {
    if p.Checked? && p.place !in published then published[p.place := p.staging] else published
  }

  /** Activation registers the executables of the published pack. */
  function NextPaths(w: World, s: State, i: Installer): map<nat, Doctor.Paths> {
    if i.phase.Activating? && i.phase.place in s.published
       && w.Activates(s.PathsIn(i.process), i.phase.place, s.published[i.phase.place]) then
      var pack := w.PackAt(i.phase.place, s.published[i.phase.place]);
      s.registered[i.process := Doctor.AfterRegistering(s.PathsIn(i.process), pack)]
    else s.registered
  }

  function Next(w: World, s: State, e: Event): State {
    if e.who >= |s.installers| then s
    else
      var i := s.installers[e.who];
      match e
      case Advance(_) =>
        State(NextPublished(s.published, i.phase), NextPaths(w, s, i),
              s.installers[e.who := i.(phase := NextPhase(w, s.published, s.PathsIn(i.process), i))])
      case Fail(_) => s.(installers := s.installers[e.who := i.(phase := if Running(i.phase) then GaveUp else i.phase)])
      case Crash(_) => s.(installers := s.installers[e.who := i.(phase := Dead)])
      case Edit(_, source) => s.(installers := s.installers[e.who := i.(source := source)])
      case Reregister(_, paths) => s.(registered := s.registered[i.process := paths])
  }

  function Run(w: World, s: State, events: seq<Event>): State {
    if events == [] then s else Next(w, Run(w, s, events[..|events| - 1]), events[|events| - 1])
  }

  predicate Starts(s: State) {
    forall k :: 0 <= k < |s.installers| ==> s.installers[k].phase.Ready?
  }

  /** Every published directory is complete and verifies; nothing is published
      that has not been checked. */
  ghost predicate Sound(w: World, s: State) {
    && (forall place :: place in s.published ==> w.Verifies(s.published[place]))
    && (forall k :: 0 <= k < |s.installers| ==> PhaseSound(w, s.published, s.installers[k].phase))
  }

  predicate PhaseSound(w: World, published: map<Place, Directory>, p: Phase) {
    && (p.Checked? ==> w.Verifies(p.staging))
    && (p.Activating? || p.Installed? ==> p.place in published)
  }

  lemma PhaseStaysSound(w: World, published: map<Place, Directory>, paths: Doctor.Paths, i: Installer)
    requires PhaseSound(w, published, i.phase)
    ensures PhaseSound(w, NextPublished(published, i.phase), NextPhase(w, published, paths, i))
  {
  }

  lemma NextSound(w: World, s: State, e: Event)
    requires Sound(w, s)
    ensures Sound(w, Next(w, s, e))
    ensures forall place :: place in s.published ==>
              place in Next(w, s, e).published && Next(w, s, e).published[place] == s.published[place]
  {
    if e.who < |s.installers| {
      var i := s.installers[e.who];
      assert PhaseSound(w, s.published, i.phase);
      if e.Advance? { PhaseStaysSound(w, s.published, s.PathsIn(i.process), i); }
    }
  }

  /** Where a pack stands, and what verification yields for it there. */
  lemma PackStandsInItsPlace(w: World, place: Place, dir: Directory, i: nat)
    requires MANIFEST in dir && w.parse(dir[MANIFEST]).Some? && i < |w.parse(dir[MANIFEST]).value.executables|
    ensures var m, pack := w.parse(dir[MANIFEST]).value, w.PackAt(place, dir);
      var home := "store/" + place.engineId + "/" + place.version + "/" + place.manifestSha256 + "/";
      && pack.engineId == m.engineId && pack.version == m.version && pack.hash == w.sha256(dir["manifest.json"])
      && pack.path == home + "manifest.json"
      && pack.executables[i] == Doctor.Executable(m.executables[i].name, home + m.executables[i].path)
      && w.PlaceOf(dir) == Place(m.engineId, m.version, w.sha256(dir["manifest.json"]))
  {
    assert "/manifest.json" == "/" + "manifest.json";
  }

  predicate IsOver(p: Phase) {
    p.GaveUp? || p.Dead? || p.Installed?
  }

  /** Whatever happens to an installer that is over, it stays so and changes nothing. A
      crash ends every installer, and an I/O error every one that is at work. */
  lemma WhatEndsAnInstaller(w: World, s: State, e: Event)
    requires e.who < |s.installers|
    ensures var p, next := s.installers[e.who].phase, Next(w, s, e);
      var p' := next.installers[e.who].phase;
      && (IsOver(p) && !e.Crash? ==> p' == p && next.published == s.published && (e.Reregister? || next.registered == s.registered))
      && (e.Crash? ==> p' == Dead)
      && (e.Fail? && !IsOver(p) ==> p' == GaveUp)
      && (e.Fail? || e.Crash? || e.Edit? ==> next.published == s.published && next.registered == s.registered)
      && (e.Edit? || e.Reregister? ==> p' == p)
  {
  }

  /** The steps of an installer in a sound store: a published pack is used as it is, without
      copying; else the files are copied one by one, and the copy is checked. */
  lemma StepsOfAnInstaller(w: World, s: State, who: nat)
    requires Sound(w, s) && who < |s.installers|
    ensures var i := s.installers[who]; var next := NextPhase(w, s.published, s.PathsIn(i.process), i);
      match i.phase
      case Ready =>
        next == if !w.Verifies(i.source) then GaveUp
                else if w.PlaceOf(i.source) in s.published then Activating(w.PlaceOf(i.source))
                else Copying(w.PlaceOf(i.source), w.parse(i.source["manifest.json"]).value, 0, map[])
      case Copying(place, m, copied, staging) =>
        next == if copied > |m.files| then if w.Verifies(staging) then Checked(place, staging) else GaveUp
                else
                  var path := if copied == 0 then "manifest.json" else m.files[copied - 1].path;
                  if path in i.source then Copying(place, m, copied + 1, staging[path := i.source[path]]) else GaveUp
      case Checked(place, staging) => next == Activating(place)
      case Activating(place) =>
        next == if w.Activates(s.PathsIn(i.process), place, s.published[place]) then Installed(place) else GaveUp
      case _ => next == i.phase
  {
    var i := s.installers[who];
    assert PhaseSound(w, s.published, i.phase);
  }

  /** At every moment of every history, whatever anyone does to the sources, a
      published directory is absent or complete and verifiable, and once published
      it is never replaced. */
  lemma {:induction false} PublishedAlwaysVerifies(w: World, s: State, events: seq<Event>)
    requires Starts(s) && forall place :: place in s.published ==> w.Verifies(s.published[place])
    ensures Sound(w, Run(w, s, events))
    ensures forall place :: place in s.published ==>
              place in Run(w, s, events).published && Run(w, s, events).published[place] == s.published[place]
  {
    if events == [] {
    } else {
      PublishedAlwaysVerifies(w, s, events[..|events| - 1]);
      NextSound(w, Run(w, s, events[..|events| - 1]), events[|events| - 1]);
    }
  }

  /** Verification depends on the manifest and the declared files only. */
  lemma VerifiesByDeclaredFiles(w: World, a: Directory, b: Directory)
    requires w.Verifies(a)
    requires MANIFEST in b && b[MANIFEST] == a[MANIFEST]
    requires forall i :: 0 <= i < |w.parse(a[MANIFEST]).value.files| ==>
               var p := w.parse(a[MANIFEST]).value.files[i].path; p in b && b[p] == a[p]
    ensures w.Verifies(b) && w.PlaceOf(b) == w.PlaceOf(a)
  {
    var m := w.parse(a[MANIFEST]).value;
    forall i | 0 <= i < |m.files| ensures w.DeclaredMatches(m.files[i], b) {
      assert w.DeclaredMatches(m.files[i], a);
    }
    assert OnlyDeclared(m, a) == OnlyDeclared(m, b) by {
      forall p | IsDeclared(m, p) ensures p in a && p in b && a[p] == b[p] {
        var i :| 0 <= i < |m.files| && m.files[i].path == p;
        assert w.DeclaredMatches(m.files[i], a);
      }
    }
  }

  /** A file that is declared with a digest is missing, or its bytes have another one. */
  ghost predicate IsDamaged(w: World, dir: Directory)
    requires MANIFEST in dir && w.parse(dir[MANIFEST]).Some?
  {
    exists d :: d in w.parse(dir[MANIFEST]).value.files && !IsIntact(w, dir, d)
  }

  predicate IsIntact(w: World, dir: Directory, d: Declared) {
    d.path in dir && (d.sha256.Some? ==> EqualButCase(w.sha256(dir[d.path]), d.sha256.value))
  }

  /** Verification detects every file that is missing or does not have its digest; what
      verifies has the declared digests, and is what the further checks accept. */
  lemma VerifiesExactlyWhen(w: World, dir: Directory)
    ensures w.Verifies(dir) <==>
              && MANIFEST in dir && w.parse(dir[MANIFEST]).Some? && !IsDamaged(w, dir)
              && w.accepts(w.parse(dir[MANIFEST]).value, OnlyDeclared(w.parse(dir[MANIFEST]).value, dir))
  {
    if MANIFEST in dir && w.parse(dir[MANIFEST]).Some? {
      var m := w.parse(dir[MANIFEST]).value;
      forall i | 0 <= i < |m.files| ensures w.DeclaredMatches(m.files[i], dir) <==> IsIntact(w, dir, m.files[i]) {
        var d := m.files[i];
        if d.path in dir && d.sha256.Some? { SameLower(w.sha256(dir[d.path]), d.sha256.value); }
      }
    }
  }

  lemma EqualButCaseTwice(a: string, b: string, c: string)
    requires EqualButCase(a, c) && EqualButCase(b, c)
    ensures EqualButCase(a, b)
  {
    SameLower(a, c);
    SameLower(b, c);
    SameLower(a, b);
  }

  /** Two directories that verify by the same manifest agree in the digest of every file
      that is declared with one. */
  lemma SameManifestSameDigests(w: World, a: Directory, b: Directory, d: Declared)
    requires w.Verifies(a) && w.Verifies(b) && a[MANIFEST] == b[MANIFEST]
    requires d in w.parse(a[MANIFEST]).value.files && d.sha256.Some?
    ensures d.path in a && d.path in b && EqualButCase(w.sha256(a[d.path]), w.sha256(b[d.path]))
  {
    VerifiesExactlyWhen(w, a);
    VerifiesExactlyWhen(w, b);
    assert IsIntact(w, a, d) && IsIntact(w, b, d);
    EqualButCaseTwice(w.sha256(a[d.path]), w.sha256(b[d.path]), d.sha256.value);
  }

  /** After any history, whatever was done to the sources, every published file that is
      declared with a digest has it. */
  lemma PublishedIsIntact(w: World, s: State, events: seq<Event>, place: Place, d: Declared)
    requires Starts(s) && forall p :: p in s.published ==> w.Verifies(s.published[p])
    requires place in Run(w, s, events).published
    ensures var dir := Run(w, s, events).published[place];
      && MANIFEST in dir && w.parse(dir[MANIFEST]).Some?
      && (d in w.parse(dir[MANIFEST]).value.files ==> IsIntact(w, dir, d))
  {
    PublishedAlwaysVerifies(w, s, events);
    VerifiesExactlyWhen(w, Run(w, s, events).published[place]);
  }

  /** The staging directory holds the first `copied` files of the source. */
  ghost predicate CopiedSoFar(source: Directory, m: Manifest, copied: nat, staging: Directory) {
    && copied <= |ToCopy(m)|
    && forall k :: 0 <= k < copied ==>
         var p := ToCopy(m)[k]; p in staging && p in source && staging[p] == source[p]
  }

  /** As long as nobody edits the sources, every installer's progress matches its
      source, and published directories carry the right name. */
  ghost predicate Faithful(w: World, s: State) {
    && (forall place :: place in s.published ==> w.Verifies(s.published[place]) && w.PlaceOf(s.published[place]) == place)
    && (forall k :: 0 <= k < |s.installers| ==> PhaseFaithful(w, s.installers[k]))
  }

  ghost predicate PhaseFaithful(w: World, i: Installer) {
    match i.phase
    case Copying(place, m, copied, staging) =>
      && w.Verifies(i.source) && w.PlaceOf(i.source) == place && w.parse(i.source[MANIFEST]).value == m
      && CopiedSoFar(i.source, m, copied, staging)
    case Checked(place, staging) => w.Verifies(staging) && w.PlaceOf(staging) == place
    case _ => true
  }

  lemma FinishedCopyVerifies(w: World, i: Installer)
    requires PhaseFaithful(w, i) && i.phase.Copying? && i.phase.copied == |ToCopy(i.phase.manifest)|
    ensures w.Verifies(i.phase.staging) && w.PlaceOf(i.phase.staging) == i.phase.place
  {
    var m, staging := i.phase.manifest, i.phase.staging;
    assert ToCopy(m)[0] in staging;
    forall k | 0 <= k < |m.files|
      ensures m.files[k].path in staging && staging[m.files[k].path] == i.source[m.files[k].path]
    {
      assert ToCopy(m)[k + 1] in staging;
    }
    VerifiesByDeclaredFiles(w, i.source, staging);
  }

  lemma NextFileIsThere(w: World, i: Installer)
    requires PhaseFaithful(w, i) && i.phase.Copying? && i.phase.copied < |ToCopy(i.phase.manifest)|
    ensures ToCopy(i.phase.manifest)[i.phase.copied] in i.source
  {
    var m, copied := i.phase.manifest, i.phase.copied;
    assert copied > 0 ==> w.DeclaredMatches(m.files[copied - 1], i.source);
  }

  lemma CopiedOneMore(source: Directory, m: Manifest, copied: nat, staging: Directory)
    requires CopiedSoFar(source, m, copied, staging) && copied < |ToCopy(m)| && ToCopy(m)[copied] in source
    ensures CopiedSoFar(source, m, copied + 1, staging[ToCopy(m)[copied] := source[ToCopy(m)[copied]]])
  {
  }

  /** A verified source always stages to a verifying copy: copying does not fail. */
  lemma CopyingSucceeds(w: World, published: map<Place, Directory>, paths: Doctor.Paths, i: Installer)
    requires PhaseFaithful(w, i) && i.phase.Copying?
    ensures !NextPhase(w, published, paths, i).GaveUp?
    ensures PhaseFaithful(w, i.(phase := NextPhase(w, published, paths, i)))
  {
    if i.phase.copied < |ToCopy(i.phase.manifest)| {
      NextFileIsThere(w, i);
      CopiedOneMore(i.source, i.phase.manifest, i.phase.copied, i.phase.staging);
    } else {
      FinishedCopyVerifies(w, i);
    }
  }

  lemma PhaseStaysFaithful(w: World, published: map<Place, Directory>, paths: Doctor.Paths, i: Installer)
    requires PhaseFaithful(w, i)
    ensures PhaseFaithful(w, i.(phase := NextPhase(w, published, paths, i)))
  {
    if i.phase.Copying? { CopyingSucceeds(w, published, paths, i); }
  }

  lemma NextFaithful(w: World, s: State, e: Event)
    requires Faithful(w, s) && !e.Edit?
    ensures Faithful(w, Next(w, s, e))
  {
    if e.who < |s.installers| {
      var i := s.installers[e.who];
      assert PhaseFaithful(w, i);
      if e.Advance? { PhaseStaysFaithful(w, s.published, s.PathsIn(i.process), i); }
    }
  }

  predicate NoEdits(events: seq<Event>) {
    forall k :: 0 <= k < |events| ==> !events[k].Edit?
  }

  /** With unchanged sources every published directory has the engine id, version
      and manifest hash that its path says. */
  lemma {:induction false} PublishedUnderItsOwnName(w: World, s: State, events: seq<Event>)
    requires Starts(s) && Faithful(w, s) && NoEdits(events)
    ensures Faithful(w, Run(w, s, events))
  {
    if events == [] {
    } else {
      PublishedUnderItsOwnName(w, s, events[..|events| - 1]);
      NextFaithful(w, Run(w, s, events[..|events| - 1]), events[|events| - 1]);
    }
  }

  /** An installer's next step fails by itself: its source does not verify, or the
      executables of its pack cannot be registered in its process. */
  predicate Refuses(w: World, now: State, i: Installer) {
    || (i.phase.Ready? && !w.Verifies(i.source))
    || (i.phase.Activating? && i.phase.place in now.published
        && !w.Activates(now.PathsIn(i.process), i.phase.place, now.published[i.phase.place]))
  }

  /** With unchanged sources no other step of an installer gives up. What it activates
      has been published by then, and verifies, so that only registering can fail. */
  lemma NoNeedlessFailure(w: World, s: State, events: seq<Event>, who: nat)
    requires Starts(s) && Faithful(w, s) && NoEdits(events)
    requires who < |Run(w, s, events).installers|
    ensures var now := Run(w, s, events); var i := now.installers[who];
      && (Running(i.phase) && NextPhase(w, now.published, now.PathsIn(i.process), i).GaveUp? <==> Refuses(w, now, i))
      && (i.phase.Activating? ==> i.phase.place in now.published && w.Verifies(now.published[i.phase.place]))
  {
    PublishedUnderItsOwnName(w, s, events);
    PublishedAlwaysVerifies(w, s, events);
    var now := Run(w, s, events);
    var i := now.installers[who];
    assert PhaseFaithful(w, i) && PhaseSound(w, now.published, i.phase);
    if i.phase.Copying? { CopyingSucceeds(w, now.published, now.PathsIn(i.process), i); }
  }

  predicate Untroubled(events: seq<Event>, who: nat) {
    forall k :: 0 <= k < |events| ==> events[k] != Fail(who) && events[k] != Crash(who)
  }

  /** Step `n` of a history is one that the installer cannot take. */
  predicate RefusedAt(w: World, s: State, events: seq<Event>, who: nat, n: int) {
    && 0 <= n < |events| && events[n] == Advance(who)
    && var now := Run(w, s, events[..n]);
       who < |now.installers| && Refuses(w, now, now.installers[who])
  }

  lemma RefusedBefore(w: World, s: State, before: seq<Event>, events: seq<Event>, who: nat)
    requires events != [] && before == events[..|events| - 1]
    ensures (exists n :: RefusedAt(w, s, events, who, n)) <==>
              (exists n :: RefusedAt(w, s, before, who, n)) || RefusedAt(w, s, events, who, |events| - 1)
  {
    assert forall n :: 0 <= n < |before| ==> before[..n] == events[..n];
    if n :| RefusedAt(w, s, events, who, n) {
      assert n < |before| ==> RefusedAt(w, s, before, who, n);
    }
    if n :| RefusedAt(w, s, before, who, n) { assert RefusedAt(w, s, events, who, n); }
  }

  /** Over a whole history with unchanged sources, an installer that meets no I/O error
      and is not killed gives up if and only if its source does not verify, or when its
      turn to activate comes the names of its executables are not to be had. */
  lemma {:induction false} GivesUpExactlyWhen(w: World, s: State, events: seq<Event>, who: nat)
    requires Starts(s) && Faithful(w, s) && NoEdits(events) && Untroubled(events, who) && who < |s.installers|
    ensures who < |Run(w, s, events).installers|
    ensures Run(w, s, events).installers[who].phase.GaveUp? <==> exists n :: RefusedAt(w, s, events, who, n)
  {
    SameNumber(w, s, events);
    if events == [] {
    } else {
      var last := |events| - 1;
      GivesUpExactlyWhen(w, s, events[..last], who);
      NoNeedlessFailure(w, s, events[..last], who);
      RefusedBefore(w, s, events[..last], events, who);
    }
  }

  lemma RunMore(w: World, s: State, events: seq<Event>, e: Event)
    ensures Run(w, s, events + [e]) == Next(w, Run(w, s, events), e)
  {
    assert (events + [e])[..|events|] == events;
  }

  /** The place a manifest text belongs to. */
  function PlaceIn(w: World, text: string): Place
    requires w.parse(text).Some?
  {
    Place(w.parse(text).value.engineId, w.parse(text).value.version, w.sha256(text))
  }

  /** The source as an installer found it when it verified it. */
  function SourceVerified(w: World, s: State, events: seq<Event>, who: nat): Option<Directory> {
    if events == [] then None
    else
      var before := Run(w, s, events[..|events| - 1]);
      if events[|events| - 1] == Advance(who) && who < |before.installers| && before.installers[who].phase.Ready?
      then Some(before.installers[who].source)
      else SourceVerified(w, s, events[..|events| - 1], who)
  }

  predicate CopiesManifest(i: Installer) {
    && i.phase.Copying? && i.phase.copied < |ToCopy(i.phase.manifest)|
    && ToCopy(i.phase.manifest)[i.phase.copied] == MANIFEST && MANIFEST in i.source
  }

  /** The manifest as an installer found it when it copied it last. */
  function ManifestCopied(w: World, s: State, events: seq<Event>, who: nat): Option<string> {
    if events == [] then None
    else
      var before := Run(w, s, events[..|events| - 1]);
      if events[|events| - 1] == Advance(who) && who < |before.installers| && CopiesManifest(before.installers[who])
      then Some(before.installers[who].source[MANIFEST])
      else ManifestCopied(w, s, events[..|events| - 1], who)
  }

  /** The name an installer publishes under is from the one, what it publishes from the
      other. */
  ghost predicate Traced(w: World, p: Phase, verified: Option<Directory>, copied: Option<string>) {
    && (p.Copying? || p.Checked? ==> verified.Some? && w.Verifies(verified.value) && w.PlaceOf(verified.value) == p.place)
    && ((p.Copying? && p.copied > 0) || p.Checked? ==> MANIFEST in p.staging && copied == Some(p.staging[MANIFEST]))
    && (p.Checked? ==> w.Verifies(p.staging))
  }

  lemma NextTraced(w: World, s: State, e: Event, who: nat, verified: Option<Directory>, copied: Option<string>)
    requires who < |s.installers| && Traced(w, s.installers[who].phase, verified, copied)
    ensures |Next(w, s, e).installers| == |s.installers|
    ensures var i := s.installers[who];
      Traced(w, Next(w, s, e).installers[who].phase,
             if e == Advance(who) && i.phase.Ready? then Some(i.source) else verified,
             if e == Advance(who) && CopiesManifest(i) then Some(i.source[MANIFEST]) else copied)
  {
  }

  lemma {:induction false} AlwaysTraced(w: World, s: State, events: seq<Event>, who: nat)
    requires Starts(s) && who < |s.installers|
    ensures |Run(w, s, events).installers| == |s.installers|
    ensures Traced(w, Run(w, s, events).installers[who].phase,
                   SourceVerified(w, s, events, who), ManifestCopied(w, s, events, who))
  {
    if events == [] {
    } else {
      var n := |events| - 1;
      AlwaysTraced(w, s, events[..n], who);
      NextTraced(w, Run(w, s, events[..n]), events[n], who,
                 SourceVerified(w, s, events[..n], who), ManifestCopied(w, s, events[..n], who));
    }
  }

  /** Exactly when a published directory carries a wrong name: its installer, `who`, had
      verified a source of that name, and the manifest it copied, until it published after
      `n` events, was one of another place. */
  lemma {:induction false} MisnamedExactlyWhen(w: World, s: State, events: seq<Event>, place: Place)
    returns (n: nat, who: nat, verified: Directory, manifest: string)
    requires Starts(s) && place in Run(w, s, events).published && place !in s.published
    ensures n < |events| && SourceVerified(w, s, events[..n], who) == Some(verified)
    ensures w.Verifies(verified) && w.PlaceOf(verified) == place
    ensures ManifestCopied(w, s, events[..n], who) == Some(manifest) && w.parse(manifest).Some?
    ensures MANIFEST in Run(w, s, events).published[place] && Run(w, s, events).published[place][MANIFEST] == manifest
    ensures w.PlaceOf(Run(w, s, events).published[place]) != place <==> PlaceIn(w, manifest) != w.PlaceOf(verified)
  {
    if events == [] {
      assert false;
    } else {
      var before, e := Run(w, s, events[..|events| - 1]), events[|events| - 1];
      if place in before.published {
        n, who, verified, manifest := MisnamedExactlyWhen(w, s, events[..|events| - 1], place);
        assert events[..|events| - 1][..n] == events[..n];
      } else {
        n, who := |events| - 1, e.who;
        assert who < |before.installers| && before.installers[who].phase.Checked? && before.installers[who].phase.place == place;
        SameNumber(w, s, events[..n]);
        AlwaysTraced(w, s, events[..n], who);
        verified, manifest := SourceVerified(w, s, events[..n], who).value, ManifestCopied(w, s, events[..n], who).value;
      }
    }
  }

  lemma {:induction false} SameNumber(w: World, s: State, events: seq<Event>)
    ensures |Run(w, s, events).installers| == |s.installers|
  {
    if events == [] {
    } else {
      SameNumber(w, s, events[..|events| - 1]);
    }
  }

  /** What an installer has copied after `n` files when the source stays as it is. */
  function Staged(source: Directory, m: Manifest, n: nat): Directory
    requires n <= |ToCopy(m)| && forall i :: 0 <= i < n ==> ToCopy(m)[i] in source
  {
    if n == 0 then map[] else Staged(source, m, n - 1)[ToCopy(m)[n - 1] := source[ToCopy(m)[n - 1]]]
  }

  lemma {:induction false} StagedFiles(source: Directory, m: Manifest, n: nat)
    requires n <= |ToCopy(m)| && forall i :: 0 <= i < n ==> ToCopy(m)[i] in source
    ensures forall i :: 0 <= i < n ==> ToCopy(m)[i] in Staged(source, m, n)
    ensures forall p :: p in Staged(source, m, n) ==> p in source && Staged(source, m, n)[p] == source[p]
  {
    if n == 0 {
    } else {
      StagedFiles(source, m, n - 1);
    }
  }

  function Advances(n: nat): seq<Event> {
    seq(n, i => Advance(0))
  }

  /** Everything the first pack declares is in the second, and the second declares no more. */
  predicate Covers(w: World, first: Directory, second: Directory)
    requires w.Verifies(first) && w.Verifies(second)
  {
    var m, m' := w.parse(first[MANIFEST]).value, w.parse(second[MANIFEST]).value;
    && (forall i :: 0 <= i < |ToCopy(m)| ==> ToCopy(m)[i] in second)
    && (forall i :: 0 <= i < |m'.files| ==> m'.files[i].path in ToCopy(m))
  }

  /** One installer and an empty store. */
  function Alone(source: Directory, phase: Phase): State {
    State(map[], map[], [Installer(source, 0, phase)])
  }

  lemma CopiesOneMore(w: World, source: Directory, place: Place, m: Manifest, n: nat)
    requires n < |ToCopy(m)| && forall i :: 0 <= i < |ToCopy(m)| ==> ToCopy(m)[i] in source
    ensures Next(w, Alone(source, Copying(place, m, n, Staged(source, m, n))), Advance(0)) ==
              Alone(source, Copying(place, m, n + 1, Staged(source, m, n + 1)))
  {
  }

  /** A single installer whose source has been edited copies from the edited one. */
  lemma {:induction false} CopiesEdited(w: World, s: State, events: seq<Event>, source: Directory, place: Place, m: Manifest, n: nat)
    requires Run(w, s, events) == Alone(source, Copying(place, m, 0, map[]))
    requires n <= |ToCopy(m)| && forall i :: 0 <= i < |ToCopy(m)| ==> ToCopy(m)[i] in source
    ensures Run(w, s, events + Advances(n)) == Alone(source, Copying(place, m, n, Staged(source, m, n)))
  {
    if n == 0 {
      assert events + Advances(0) == events;
    } else {
      CopiesEdited(w, s, events, source, place, m, n - 1);
      assert events + Advances(n) == (events + Advances(n - 1)) + [Advance(0)];
      RunMore(w, s, events + Advances(n - 1), Advance(0));
      CopiesOneMore(w, source, place, m, n - 1);
    }
  }

  /** If a source is edited between its verification and its copying, so that every file
      to be copied is still there and no other is needed, then the edited pack is published
      under the name of the verified one. */
  lemma EditedSourceIsMisnamed(w: World, first: Directory, second: Directory) returns (events: seq<Event>)
    requires w.Verifies(first) && w.Verifies(second) && w.PlaceOf(first) != w.PlaceOf(second)
    requires Covers(w, first, second)
    ensures var now := Run(w, Alone(first, Ready), events);
      && w.PlaceOf(first) in now.published && w.Verifies(now.published[w.PlaceOf(first)])
      && w.PlaceOf(now.published[w.PlaceOf(first)]) == w.PlaceOf(second)
  {
    var place, m := w.PlaceOf(first), w.parse(first[MANIFEST]).value;
    var s, n := Alone(first, Ready), |ToCopy(m)|;
    RunMore(w, s, [], Advance(0));
    var e1 := [] + [Advance(0)];
    assert Run(w, s, e1) == Alone(first, Copying(place, m, 0, map[]));
    RunMore(w, s, e1, Edit(0, second));
    var e2 := e1 + [Edit(0, second)];
    assert Run(w, s, e2) == Alone(second, Copying(place, m, 0, map[]));
    CopiesEdited(w, s, e2, second, place, m, n);
    EditedCopyVerifies(w, first, second);
    var e3 := e2 + Advances(n);
    RunMore(w, s, e3, Advance(0));
    var e4 := e3 + [Advance(0)];
    assert Run(w, s, e4) == Alone(second, Checked(place, Staged(second, m, n)));
    RunMore(w, s, e4, Advance(0));
    events := e4 + [Advance(0)];
  }

  lemma EditedCopyVerifies(w: World, first: Directory, second: Directory)
    requires w.Verifies(first) && w.Verifies(second) && Covers(w, first, second)
    ensures var m := w.parse(first[MANIFEST]).value; var copy := Staged(second, m, |ToCopy(m)|);
      w.Verifies(copy) && w.PlaceOf(copy) == w.PlaceOf(second)
  {
    var m, m' := w.parse(first[MANIFEST]).value, w.parse(second[MANIFEST]).value;
    StagedFiles(second, m, |ToCopy(m)|);
    var copy := Staged(second, m, |ToCopy(m)|);
    assert ToCopy(m)[0] in copy;
    forall i | 0 <= i < |m'.files| ensures m'.files[i].path in copy && copy[m'.files[i].path] == second[m'.files[i].path] {
      var k :| 0 <= k < |ToCopy(m)| && ToCopy(m)[k] == m'.files[i].path;
      assert ToCopy(m)[k] in copy;
    }
    VerifiesByDeclaredFiles(w, second, copy);
  }

  /** `stage_verified_pack`: copies the declared files of a verified source, and
      nothing else; the copy verifies and has the same place. */
  method StageVerifiedPack(w: World, source: Directory) returns (staging: Directory)
    requires w.Verifies(source)
    ensures w.Verifies(staging) && w.PlaceOf(staging) == w.PlaceOf(source)
    ensures forall p :: p in staging <==> p == MANIFEST || IsDeclared(w.parse(source[MANIFEST]).value, p)
    ensures forall p :: p in staging ==> p in source && staging[p] == source[p]
  {
    var m := w.parse(source[MANIFEST]).value;
    staging := map[MANIFEST := source[MANIFEST]];
    for i := 0 to |m.files|
      invariant forall p :: p in staging <==> p == MANIFEST || exists k :: 0 <= k < i && m.files[k].path == p
      invariant forall p :: p in staging ==> p in source && staging[p] == source[p]
    {
      assert w.DeclaredMatches(m.files[i], source);
      staging := staging[m.files[i].path := source[m.files[i].path]];
    }
    VerifiesByDeclaredFiles(w, source, staging);
  }

  /** The directory is a copy of the files that the source declares. */
  ghost predicate IsCopyOf(w: World, copy: Directory, source: Directory)
    requires w.Verifies(source)
  {
    && (forall p :: p in copy <==> p == MANIFEST || IsDeclared(w.parse(source[MANIFEST]).value, p))
    && (forall p :: p in copy ==> p in source && copy[p] == source[p])
  }

  lemma CopyIsSamePack(w: World, place: Place, copy: Directory, source: Directory)
    requires w.Verifies(source) && w.Verifies(copy) && IsCopyOf(w, copy, source)
    ensures w.PackAt(place, copy) == w.PackAt(place, source)
    ensures forall paths :: w.Activates(paths, place, copy) == w.Activates(paths, place, source)
  {
    assert MANIFEST in copy;
  }

  /** The store as one installer sees it when nobody else is at work, and the executable
      names of its process. */
  class PackStore {
    var published: map<Place, Directory>
    const doctor: Doctor.PathRegistry

    ghost predicate Valid(w: World)
      reads this
    {
      forall place :: place in published ==> w.Verifies(published[place]) && w.PlaceOf(published[place]) == place
    }

    constructor (doctor: Doctor.PathRegistry)
      ensures published == map[] && this.doctor == doctor
    {
      published, this.doctor := map[], doctor;
    }

    /** Publishes a copy unless an identical pack is already there. */
    method Publish(w: World, source: Directory) returns (place: Place)
      requires Valid(w) && w.Verifies(source)
      modifies this`published
      ensures Valid(w) && place == w.PlaceOf(source) && place in published
      ensures place in old(published) ==> published == old(published)
      ensures place !in old(published) ==>
                && published - {place} == old(published)
                && IsCopyOf(w, published[place], source)
    {
      place := w.PlaceOf(source);
      if place in published && MANIFEST in published[place] { return; }
      var staging := StageVerifiedPack(w, source);
      published := published[place := staging];
    }

    /** `install_engine_pack`: publishes every source that verifies, reusing an identical
        pack, and succeeds if and only if what then stands there can also be activated in
        this process. If it cannot, the pack stays published. */
    method Install(w: World, source: Directory) returns (installed: Option<Place>)
      requires Valid(w)
      modifies this`published, doctor
      ensures Valid(w)
      ensures !w.Verifies(source) ==> installed.None? && published == old(published) && doctor.paths == old(doctor.paths)
      ensures MANIFEST in source && w.parse(source[MANIFEST]).Some? && IsDamaged(w, source) ==>
                installed.None? && published == old(published) && doctor.paths == old(doctor.paths)
      ensures w.Verifies(source) ==>
                var place := w.PlaceOf(source);
                && place in published
                && (if place in old(published) then published == old(published)
                    else published - {place} == old(published) && IsCopyOf(w, published[place], source))
                && installed == (if w.Activates(old(doctor.paths), place, published[place]) then Some(place) else None)
                && doctor.paths == (if installed.Some?
                                    then Doctor.AfterRegistering(old(doctor.paths), w.PackAt(place, published[place]))
                                    else old(doctor.paths))
    {
      VerifiesExactlyWhen(w, source);
      if !w.Verifies(source) { return None; }
      var place := Publish(w, source);
      var ok := doctor.Register(w.PackAt(place, published[place]), w.isExecutable);
      return if ok then Some(place) else None;
    }
  }

  /** Two packs of different engines with an executable of the same name: the first one
      takes the name, which the second one then cannot have. */
  lemma NameIsTaken(w: World, a: Place, first: Directory, b: Place, second: Directory, i: nat, k: nat)
    requires w.Verifies(first) && w.Verifies(second) && (forall path :: w.isExecutable(path))
    requires w.PackAt(a, first).engineId != w.PackAt(b, second).engineId
    requires i < |ExecutablesAt(a, w.parse(first[MANIFEST]).value)| && k < |ExecutablesAt(b, w.parse(second[MANIFEST]).value)|
    requires ToLower(w.PackAt(a, first).executables[i].name) == ToLower(w.PackAt(b, second).executables[k].name)
    ensures w.Activates(map[], a, first)
    ensures !w.Activates(Doctor.AfterRegistering(map[], w.PackAt(a, first)), b, second)
  {
    var pack, other := w.PackAt(a, first), w.PackAt(b, second);
    var name := ToLower(pack.executables[i].name);
    assert Doctor.Provides(pack, name);
    Doctor.RegisteringIsExact(map[], w.isExecutable, pack, name);
    assert !Doctor.Claimable(Doctor.AfterRegistering(map[], pack), w.isExecutable, other.engineId, other.executables[k]);
  }

  /** Two packs of different engines that provide an executable of the same name cannot
      both be installed in one process, although both verify: the second one is
      published, and its installation reports an error. */
  method SecondProviderIsRefused(w: World, first: Directory, second: Directory, i: nat, k: nat)
    returns (store: PackStore, one: Option<Place>, two: Option<Place>)
    requires w.Verifies(first) && w.Verifies(second) && w.PlaceOf(first).engineId != w.PlaceOf(second).engineId
    requires forall path :: w.isExecutable(path)
    requires var m, m' := w.parse(first[MANIFEST]).value, w.parse(second[MANIFEST]).value;
      i < |m.executables| && k < |m'.executables| && ToLower(m.executables[i].name) == ToLower(m'.executables[k].name)
    ensures one == Some(w.PlaceOf(first)) && two == None
    ensures w.PlaceOf(second) in store.published && w.Verifies(store.published[w.PlaceOf(second)])
  {
    NameIsTaken(w, w.PlaceOf(first), first, w.PlaceOf(second), second, i, k);
    var doctor := new Doctor.PathRegistry();
    store := new PackStore(doctor);
    one := store.Install(w, first);
    CopyIsSamePack(w, w.PlaceOf(first), store.published[w.PlaceOf(first)], first);
    assert w.PlaceOf(second) !in store.published - {w.PlaceOf(first)};
    two := store.Install(w, second);
    CopyIsSamePack(w, w.PlaceOf(second), store.published[w.PlaceOf(second)], second);
  }
}
