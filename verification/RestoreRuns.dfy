// Any number of restores and starts of the application, one after the other, each
// under its own schedule of I/O errors and crashes.
module RestoreRuns {
  import opened Options
  import opened Storage
  import opened RestoreState
  import opened Restore

  /** A prepared bundle: what was staged, and which components the manifest claims. */
  datatype Bundle = Bundle(contents: map<Component, Content>, included: set<Component>)

  /** What is to be live, component by component. */
  type State = map<Component, Content>

  function DestinedState(files: Files): (s: State)
    ensures forall c :: Lookup(s, c) == Destiny(files, c)
  {
    map c: Component | Destiny(files, c).Some? :: Destiny(files, c).value
  }

  function LiveState(files: Files): (s: State)
    ensures forall c :: Lookup(s, c) == LiveOf(files, c)
  {
    map c: Component | LiveOf(files, c).Some? :: LiveOf(files, c).value
  }

  function BundleState(b: Bundle): (s: State)
    ensures forall c :: Lookup(s, c) == if c == Database || c in b.included then Lookup(b.contents, c) else None
  {
    map c | c in b.contents && (c == Database || c in b.included) :: b.contents[c]
  }

  lemma SameState(a: State, b: State)
    requires forall c :: Lookup(a, c) == Lookup(b, c)
    ensures a == b
  {
    forall c ensures c in a <==> c in b { assert Lookup(a, c) == Lookup(b, c); }
    forall c | c in a ensures a[c] == b[c] { assert Lookup(a, c) == Lookup(b, c); }
  }

  /** The disk once the bundle has been unpacked into a new staging directory. */
  function Staging(files: Files, b: Bundle): (staged: Files)
    ensures forall p :: Lookup(staged, p) == if p.Staged? then Lookup(b.contents, p.c) else Lookup(files, p)
  {
    var others := map p | p in files && !p.Staged? :: files[p];
    var added := map p | p in (set c | c in b.contents :: Staged(c)) :: b.contents[p.c];
    assert forall c :: c in b.contents ==> Staged(c) in added;
    others + added
  }

  lemma StagingIsUnseen(files: Files, b: Bundle)
    ensures StoredJournal(Staging(files, b)) == StoredJournal(files)
    ensures forall c :: LiveOf(Staging(files, b), c) == LiveOf(files, c)
  {
    assert Lookup(Staging(files, b), JournalFile) == Lookup(files, JournalFile);
  }

  predicate IsFresh(files: Files, id: nat) {
    !Has(files, Safety(id)) && forall c :: !Has(files, Old(c, id))
  }

  function IdOf(p: Path): nat {
    match p
    case Old(_, id) => id
    case Safety(id) => id
    case _ => 0
  }

  lemma {:induction false} UnusedNumber(used: set<nat>) returns (bound: nat)
    ensures forall n :: n in used ==> n < bound
  {
    bound := 0;
    if used == {} {
    } else {
      var n :| n in used;
      var rest := UnusedNumber(used - {n});
      bound := if rest > n then rest else n + 1;
      forall m | m in used ensures m < bound {
        assert m == n || m in used - {n};
      }
    }
  }

  lemma FreshIdExists(files: Files)
    ensures exists id: nat :: IsFresh(files, id)
  {
    var used := set p | p in files :: IdOf(p);
    var id := UnusedNumber(used);
    assert forall p :: p in files ==> IdOf(p) in used;
    assert IdOf(Safety(id)) == id && forall c :: IdOf(Old(c, id)) == id;
    assert IsFresh(files, id);
  }

  /** What one attempt may do to the destined state: replace it by the bundle's, leave
      it alone, or lose the database. */
  ghost predicate Attempted(before: State, after: State, b: Bundle, committed: bool, lost: bool) {
    && !(committed && lost)
    && (committed ==> after == BundleState(b))
    && (lost ==> Database in before && after == before[Database := Torn])
    && (!committed && !lost ==> after == before)
  }

  lemma InstalledIsAttempted(recovered: Files, now: Files, b: Bundle, committed: bool, lost: bool)
    requires StoredJournal(recovered).None?
    requires InstalledOrNot(Staging(recovered, b), now, b.included, committed, lost)
    ensures WellFormed(now)
    ensures Attempted(DestinedState(recovered), DestinedState(now), b, committed, lost)
  {
    var staged := Staging(recovered, b);
    StagingIsUnseen(recovered, b);
    if committed {
      forall c ensures Lookup(DestinedState(now), c) == Lookup(BundleState(b), c) {
        assert Lookup(staged, Staged(c)) == Lookup(b.contents, c);
      }
      SameState(DestinedState(now), BundleState(b));
    } else if lost {
      var torn := DestinedState(recovered)[Database := Torn];
      forall c ensures Lookup(DestinedState(now), c) == Lookup(torn, c) {
        assert LiveOf(staged, c) == Destiny(recovered, c);
      }
      SameState(DestinedState(now), torn);
    } else {
      forall c ensures Lookup(DestinedState(now), c) == Lookup(DestinedState(recovered), c) {
        assert LiveOf(staged, c) == Destiny(recovered, c);
      }
      SameState(DestinedState(now), DestinedState(recovered));
    }
  }

  /** What the preparation of a bundle has made sure of. */
  predicate IsPrepared(sound: Content -> bool, b: Bundle) {
    Database in b.contents && sound(b.contents[Database])
  }

  /** A database that the service can take a copy of, if there is one. */
  predicate OpenableState(sound: Content -> bool, s: State) {
    Database in s ==> sound(s[Database])
  }

  lemma OpenableIsLive(sound: Content -> bool, files: Files)
    ensures Openable(sound, files) <==> OpenableState(sound, LiveState(files))
  {
    assert Lookup(LiveState(files), Database) == LiveOf(files, Database);
  }

  /** An attempt on a disk without a pending journal loses the database: the staging
      directory can be made, and the schedule from there on is one that does. */
  predicate AttemptLoses(sound: Content -> bool, files: Files, b: Bundle, fates: seq<Fate>) {
    Coming(fates).Works? && LosesDatabase(sound, Staging(files, b), b.included, Later(fates))
  }

  /** Unpacking into a new staging directory, and installing under a new id. */
  method InstallStaged(service: Service, b: Bundle) returns (r: Outcome, ghost committed: bool, ghost lost: bool)
    requires StoredJournal(service.disk.files).None? && IsPrepared(service.sound, b)
    modifies service.disk, service`room
    ensures WellFormed(service.disk.files) && StuckShowsDestiny(service.disk.files)
    ensures RoomLeft(service.disk.files, service.room, SNAPSHOT_ROOM - 2)
    ensures Attempted(DestinedState(old(service.disk.files)), DestinedState(service.disk.files), b, committed, lost)
    ensures r.Done? ==> committed && StoredJournal(service.disk.files).None?
    ensures lost <==> LosesDatabase(service.sound, Staging(old(service.disk.files), b), b.included, old(service.disk.fates))
    ensures lost ==> Risky(old(service.disk.fates))
    ensures Faultless(old(service.disk.fates)) ==> (r.Done? <==> Openable(service.sound, old(service.disk.files)))
  {
    ghost var recovered, fates := service.disk.files, service.disk.fates;
    service.disk.files := Staging(service.disk.files, b);
    StagingIsUnseen(recovered, b);
    assert LiveOf(service.disk.files, Database) == LiveOf(recovered, Database);
    FreshIdExists(service.disk.files);
    var id: nat :| IsFresh(service.disk.files, id);
    assert Lookup(service.disk.files, Staged(Database)) == Lookup(b.contents, Database);
    ghost var stop;
    r, committed, lost, stop := service.InstallPreparedBundle(id, b.included);
    InstalledIsAttempted(recovered, service.disk.files, b, committed, lost);
    if lost { LossIsRisky(service.sound, Staging(recovered, b), b.included, fates); }
  }

  /** The part of a restore that follows the leftover recovery. */
  method StageAndInstall(service: Service, b: Bundle) returns (r: Outcome, ghost committed: bool, ghost lost: bool)
    requires StoredJournal(service.disk.files).None? && IsPrepared(service.sound, b)
    modifies service.disk, service`room
    ensures WellFormed(service.disk.files) && StuckShowsDestiny(service.disk.files)
    ensures RoomLeft(service.disk.files, service.room, SNAPSHOT_ROOM - 2)
    ensures Attempted(DestinedState(old(service.disk.files)), DestinedState(service.disk.files), b, committed, lost)
    ensures r.Done? ==> committed && StoredJournal(service.disk.files).None?
    ensures lost <==> AttemptLoses(service.sound, old(service.disk.files), b, old(service.disk.fates))
    ensures lost ==> Risky(old(service.disk.fates))
    ensures Faultless(old(service.disk.fates)) ==> (r.Done? <==> Openable(service.sound, old(service.disk.files)))
  {
    committed, lost := false, false;
    ghost var start := service.disk.fates;
    r := service.disk.Prepare();  // the staging directory
    if !r.Done? { return; }
    r, committed, lost := InstallStaged(service, b);
    if lost { RestIsNoRiskier(Later(start), start); }
  }

  /** The earlier restore is dealt with: no journal, and the state it was to lead to is live. */
  ghost predicate Resumed(before: Files, begun: Begun, fates: seq<Fate>) {
    && StoredJournal(begun.disk).None? && LiveState(begun.disk) == DestinedState(begun.disk) == DestinedState(before)
    && IsRest(begun.fates, fates)
  }

  /** Where an attempt stands when it has finished what an earlier restore left. */
  datatype Begun = Begun(disk: Files, fates: seq<Fate>)

  /** The states agree but for the database. */
  ghost predicate SameButDatabase(a: State, b: State) {
    forall c :: c != Database ==> Lookup(a, c) == Lookup(b, c)
  }

  /** What the backup directory of the database keeps room for gets less by one snapshot at
      most, unless a new safety database is taken. */
  ghost predicate RoomKept(before: Files, room0: nat, after: Files, room1: nat) {
    || RoomLeft(after, room1, SNAPSHOT_ROOM - 2)
    || forall n :: RoomLeft(before, room0, n + 1) ==> RoomLeft(after, room1, n)
  }

  /** `restore`: finish what an earlier restore left, unpack, install. The database is lost
      exactly if the first of these succeeds and the rest meets one of the schedules of
      `LosesDatabase`. */
  method RestoreBundle(service: Service, b: Bundle)
    returns (r: Outcome, ghost committed: bool, ghost lost: bool, ghost dropped: bool, ghost begun: Option<Begun>)
    requires WellFormed(service.disk.files) && IsPrepared(service.sound, b)
    modifies service.disk, service`room
    ensures WellFormed(service.disk.files)
    ensures if dropped
            then && !r.Done? && !committed && !lost && begun.None? && Stuck(service.disk.files)
                 && WillDrop(old(service.disk.files), old(service.room))
                 && SameButDatabase(DestinedState(old(service.disk.files)), DestinedState(service.disk.files))
            else Attempted(DestinedState(old(service.disk.files)), DestinedState(service.disk.files), b, committed, lost)
    ensures r.Done? ==> committed && StoredJournal(service.disk.files).None?
    ensures Stuck(old(service.disk.files)) ==> !r.Done? && !committed && !lost
    ensures StuckShowsDestiny(old(service.disk.files)) && !dropped ==> StuckShowsDestiny(service.disk.files)
    ensures RoomKept(old(service.disk.files), old(service.room), service.disk.files, service.room)
    ensures lost <==> begun.Some? && AttemptLoses(service.sound, begun.value.disk, b, begun.value.fates)
    ensures begun.Some? ==> Resumed(old(service.disk.files), begun.value, old(service.disk.fates))
    ensures StoredJournal(old(service.disk.files)).None? ==>
              begun == Some(Begun(old(service.disk.files), old(service.disk.fates)))
    ensures begun.None? ==>
              && !r.Done?
              && (Faultless(old(service.disk.fates)) ==>
                    Stuck(old(service.disk.files)) || Halted(service.sound, old(service.disk.files)))
    ensures lost ==> Risky(old(service.disk.fates))
    ensures Faultless(old(service.disk.fates)) ==>
              !dropped && (r.Done? <==> AttemptSucceeds(service.sound, old(service.disk.files)))
  {
    ghost var before, start := service.disk.files, service.disk.fates;
    committed, lost, begun := false, false, None;
    var found;
    r, found, dropped := service.RecoverInterruptedRestore();
    if !dropped { SameState(DestinedState(service.disk.files), DestinedState(before)); }
    if !r.Done? { return; }
    SameState(LiveState(service.disk.files), DestinedState(before));
    OpenableIsLive(service.sound, service.disk.files);
    ghost var left := service.disk.fates;
    begun := Some(Begun(service.disk.files, left));
    r, committed, lost := StageAndInstall(service, b);
    if lost { RestIsNoRiskier(left, start); }
  }

  /** Without faults, a start finishes what an earlier restore left unless it is stuck or the
      database service refuses; a restore also needs a database it can take a copy of. */
  predicate StartSucceeds(sound: Content -> bool, files: Files) {
    !Stuck(files) && !Halted(sound, files)
  }

  predicate AttemptSucceeds(sound: Content -> bool, files: Files) {
    StartSucceeds(sound, files) && OpenableState(sound, DestinedState(files))
  }

  /** The component is where a pending journal would leave it alone. */
  predicate IsSettled(files: Files, c: Component) {
    match StoredJournal(files)
    case Some(Record(j)) =>
      || j.committed
      || (if c == Database then j.databaseHadLive && !(j.databaseSwitchStarted && j.safety.Some? && Has(files, Safety(j.safety.value)))
          else !Has(files, Old(c, j.id)) && Swap(c, false) !in j.swaps)
    case _ => true
  }

  lemma WriteIsNoJournal(files: Files, c: Component, content: Content)
    ensures StoredJournal(files[Live(c) := content]) == StoredJournal(files)
    ensures WellFormed(files) ==> WellFormed(files[Live(c) := content])
  {
    var written := files[Live(c) := content];
    assert forall p: Path :: !p.Live? ==> Lookup(written, p) == Lookup(files, p);
  }

  lemma WriteSeen(files: Files, c: Component, content: Content, x: Component)
    requires WellFormed(files)
    ensures Destiny(files[Live(c) := content], x) == if x == c && IsSettled(files, c) then Some(content) else Destiny(files, x)
  {
    WriteIsNoJournal(files, c, content);
    var written := files[Live(c) := content];
    assert forall p :: p != Live(c) ==> Lookup(written, p) == Lookup(files, p);
  }

  /** A write to a live component lasts exactly when no pending journal is going to
      undo that component; the other components are not concerned. */
  lemma WriteLastsWhenSettled(files: Files, c: Component, content: Content)
    requires WellFormed(files)
    ensures DestinedState(files[Live(c) := content]) ==
              if IsSettled(files, c) then DestinedState(files)[c := content] else DestinedState(files)
  {
    var after := if IsSettled(files, c) then DestinedState(files)[c := content] else DestinedState(files);
    forall x ensures Lookup(DestinedState(files[Live(c) := content]), x) == Lookup(after, x) {
      WriteSeen(files, c, content, x);
    }
    SameState(DestinedState(files[Live(c) := content]), after);
  }

  /** Which writes the journal that a failed installation left behind takes back: those to
      a component that did not exist when the journal was written. */
  lemma LeftoverJournalRemoves(files: Files, d: Journal, c: Component, content: Content)
    requires StoredJournal(files) == Some(Record(d)) && !d.committed && Coherent(files, d) && NoLeftovers(files, d)
    ensures Destiny(files[Live(c) := content], c) ==
              if (if c == Database then !d.databaseHadLive else Swap(c, false) in d.swaps) then None else Some(content)
  {
    WriteSeen(files, c, content, c);
  }

  /** An installation that fails, and leaves the journal of its first swap behind. */
  method LeaveJournal(service: Service) returns (d: Journal)
    requires StoredJournal(service.disk.files).None?
    requires !Has(service.disk.files, Live(Database)) && !Has(service.disk.files, Live(Presets)) && IsFresh(service.disk.files, 0)
    modifies service.disk, service`room
    ensures StoredJournal(service.disk.files) == Some(Record(d)) && Coherent(service.disk.files, d)
    ensures NoLeftovers(service.disk.files, d) && !d.committed
    ensures !d.databaseHadLive && Swap(Presets, false) in d.swaps
  {
    var disk := service.disk;
    disk.fates := [];
    var started, i := service.OpenJournal(0);
    assert started.Done? by { assert AllWork([], OpeningSteps(old(disk.files))); }
    assert LiveOf(disk.files, Presets) == LiveOf(old(disk.files), Presets);
    disk.fates := [];
    ghost var ready := disk.files;
    var swapped;
    swapped, d := service.SwapComponent(Presets, {}, i);
    assert swapped.Done? by { assert AllWork([], SwapSteps(ready, {}, Presets)); }
    disk.fates := [Works, Works, Works, Works, Errs(false)];
    assert LeavesBackup(disk.fates, 0);
    var stopped, j := service.RecordSwap(Settings, d);
    disk.fates := [];
    var rolledBack, lost := service.RollbackAfterError(j);
  }

  /** The user goes on and creates presets and jobs; the next start, without any fault,
      removes both. */
  method LeftoverJournalRemovesNewFiles() returns (service: Service, found: bool)
    ensures found && !Has(service.disk.files, Live(Presets)) && !Has(service.disk.files, Live(Database))
  {
    var disk := new Disk(map[Staged(Database) := Intact("new")], []);
    service := new Service(disk, IsIntact, 0);
    var d := LeaveJournal(service);
    ghost var left := disk.files;
    LeftoverJournalRemoves(left, d, Presets, Intact("mine"));
    WriteIsNoJournal(left, Presets, Intact("mine"));
    disk.files := disk.files[Live(Presets) := Intact("mine")];
    WriteIsNoJournal(disk.files, Database, Intact("jobs"));
    LeftoverJournalRemoves(disk.files, d, Database, Intact("jobs"));
    WriteSeen(disk.files, Database, Intact("jobs"), Presets);
    disk.files := disk.files[Live(Database) := Intact("jobs")];
    disk.fates := [];
    var r;
    ghost var dropped;
    r, found, dropped := service.RecoverInterruptedRestore();
  }

  /** What the user does: start the application, restore a bundle, or change something. */
  datatype Act = Start | Attempt(bundle: Bundle) | Write(component: Component, content: Content)

  /** What becomes of an act besides what it shows: whether it took effect for good, whether
      it lost the database, whether a snapshot cost the safety database, and where an attempt
      began. */
  datatype Effect = Effect(committed: bool, lost: bool, dropped: bool, begun: Option<Begun>)

  /** The disk, and for how many snapshots the backup directory still has room. */
  datatype Moment = Moment(disk: Files, room: nat)

  ghost predicate Step(act: Act, before: State, after: State, e: Effect) {
    match act
    case Start => !e.committed && !e.lost && if e.dropped then SameButDatabase(before, after) else after == before
    case Attempt(b) =>
      if e.dropped then !e.committed && !e.lost && SameButDatabase(before, after)
      else Attempted(before, after, b, e.committed, e.lost)
    case Write(c, content) => !e.lost && !e.dropped && after == if e.committed then before[c := content] else before
  }

  /** An attempt loses the database exactly if it gets to begin and `AttemptLoses` holds
      from there on. */
  ghost predicate LostExactly(sound: Content -> bool, act: Act, fates: seq<Fate>, before: Files, e: Effect) {
    && (e.lost <==> act.Attempt? && e.begun.Some? && AttemptLoses(sound, e.begun.value.disk, act.bundle, e.begun.value.fates))
    && (e.begun.Some? ==> Resumed(before, e.begun.value, fates))
    && (act.Attempt? && StoredJournal(before).None? ==> e.begun == Some(Begun(before, fates)))
    && (e.lost ==> Risky(fates))
  }

  /** What an act shows, and when. */
  ghost predicate Shows(sound: Content -> bool, act: Act, fates: seq<Fate>, before: Files, after: Files, shown: Option<State>) {
    && (shown.Some? ==> StoredJournal(after).None? && shown.value == DestinedState(after) == LiveState(after))
    && (Faultless(fates) && act.Start? ==> (shown.Some? <==> StartSucceeds(sound, before)))
    && (Faultless(fates) && act.Attempt? ==> (shown.Some? <==> AttemptSucceeds(sound, before)))
  }

  /** All there is to say of one act: what becomes of the state that counts, when a write
      lasts, when the database is lost, what is shown, and when an act succeeds without
      faults. */
  ghost predicate Performed(sound: Content -> bool, act: Act, fates: seq<Fate>, before: Moment, after: Moment,
                            e: Effect, shown: Option<State>)
  {
    && WellFormed(after.disk)
    && Step(act, DestinedState(before.disk), DestinedState(after.disk), e)
    && Shows(sound, act, fates, before.disk, after.disk, shown)
    && (act.Write? ==> (e.committed <==> IsSettled(before.disk, act.component)))
    && (act.Attempt? && shown.Some? ==> e.committed)
    && LostExactly(sound, act, fates, before.disk, e)
    && (e.dropped ==> WillDrop(before.disk, before.room) && Stuck(after.disk) && shown.None?)
    && (act.Write? ==> after.room == before.room)
    && (!act.Write? ==> RoomKept(before.disk, before.room, after.disk, after.room))
    && ((act.Write? ==> StoredJournal(before.disk).None?) && StuckShowsDestiny(before.disk) && !e.dropped ==>
          StuckShowsDestiny(after.disk))
  }

  /** One act. */
  method Perform(service: Service, act: Act) returns (ghost e: Effect, shown: Option<State>)
    requires WellFormed(service.disk.files) && (act.Attempt? ==> IsPrepared(service.sound, act.bundle))
    modifies service.disk, service`room
    ensures Performed(service.sound, act, old(service.disk.fates), Moment(old(service.disk.files), old(service.room)),
                      Moment(service.disk.files, service.room), e, shown)
  {
    ghost var before := service.disk.files;
    ghost var committed, lost, dropped, begun := false, false, false, None;
    var r;
    match act {
      case Start =>
        var found;
        r, found, dropped := service.RecoverInterruptedRestore();
        if !dropped { SameState(DestinedState(service.disk.files), DestinedState(before)); }
      case Attempt(b) =>
        r, committed, lost, dropped, begun := RestoreBundle(service, b);
      case Write(c, content) =>
        WriteIsNoJournal(before, c, content);
        WriteLastsWhenSettled(before, c, content);
        committed := IsSettled(before, c);
        service.disk.files := service.disk.files[Live(c) := content];
        r := if StoredJournal(service.disk.files).None? then Done else Failed;
    }
    e := Effect(committed, lost, dropped, begun);
    if !r.Done? { return e, None; }
    SameState(DestinedState(service.disk.files), LiveState(service.disk.files));
    return e, Some(LiveState(service.disk.files));
  }

  /** A whole life. `moments` are the states of the disk before and after every act. The state
      that counts changes only when an attempt commits, and then to the whole bundle, when an
      attempt loses the database, when a recovery is cut once too often, or by the user's own
      writes. Whenever an act succeeds, the state that counts is the live one. */
  method Run(service: Service, acts: seq<Act>, faults: seq<seq<Fate>>)
    returns (ghost moments: seq<Moment>, ghost effects: seq<Effect>, shown: seq<Option<State>>)
    requires WellFormed(service.disk.files) && |faults| == |acts|
    requires forall i :: 0 <= i < |acts| && acts[i].Attempt? ==> IsPrepared(service.sound, acts[i].bundle)
    modifies service.disk, service`room
    ensures |moments| == |acts| + 1 && |effects| == |shown| == |acts|
    ensures moments[0] == Moment(old(service.disk.files), old(service.room))
    ensures moments[|acts|] == Moment(service.disk.files, service.room)
    ensures forall i :: 0 <= i < |acts| ==>
              Performed(service.sound, acts[i], faults[i], moments[i], moments[i + 1], effects[i], shown[i])
  {
    moments, effects, shown := [Moment(service.disk.files, service.room)], [], [];
    for n := 0 to |acts|
      invariant WellFormed(service.disk.files)
      invariant |moments| == n + 1 && |effects| == |shown| == n
      invariant moments[0] == Moment(old(service.disk.files), old(service.room))
      invariant moments[n] == Moment(service.disk.files, service.room)
      invariant forall i :: 0 <= i < n ==>
        Performed(service.sound, acts[i], faults[i], moments[i], moments[i + 1], effects[i], shown[i])
    {
      service.disk.fates := faults[n];
      ghost var e;
      var view;
      e, view := Perform(service, acts[n]);
      moments, effects, shown := moments + [Moment(service.disk.files, service.room)], effects + [e], shown + [view];
    }
  }
}
