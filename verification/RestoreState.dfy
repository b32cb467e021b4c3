// The durable state of an application-state restore, and the state recovery
// will turn it into.
module RestoreState {
  import opened Options
  import opened Storage

  datatype Component = Presets | Settings | EngineRegistry | Reports | Database

  /** A component that is moved aside by a rename; the database is copied instead. */
  datatype Swap = Swap(component: Component, hadLive: bool)

  datatype Journal = Journal(
    id: nat,
    safety: Option<nat>,
    databaseHadLive: bool,
    databaseSwitchStarted: bool,
    committed: bool,
    swaps: seq<Swap>)
  {
    /** The part of `RestoreJournal::validate` that can fail on a readable journal. */
    predicate Valid() {
      && (databaseHadLive ==> safety.Some?)
      && (forall i :: 0 <= i < |swaps| ==> swaps[i].component != Database)
      && (forall i, k :: 0 <= i < k < |swaps| ==> swaps[i].component != swaps[k].component)
    }
  }

  /** The names recovery can see. `Old` and `Safety` carry the restore id. */
  datatype Path =
    | Live(c: Component)
    | Old(c: Component, id: nat)
    | Staged(c: Component)
    | Safety(id: nat)
    | JournalFile
    | JournalBackup

  datatype Content = Intact(bytes: string) | Torn | Record(journal: Journal)

  type Files = map<Path, Content>

  function LiveOf(files: Files, c: Component): Option<Content> {
    Lookup(files, Live(c))
  }

  function StoredJournal(files: Files): Option<Content> {
    Stored(files, JournalFile, JournalBackup)
  }

  /** The value that undoing `j` will leave in component `c`. */
  function Undo(files: Files, j: Journal, c: Component): Option<Content> {
    if c == Database then
      if !j.databaseHadLive then None
      else if j.databaseSwitchStarted && j.safety.Some? && Has(files, Safety(j.safety.value)) then
        Lookup(files, Safety(j.safety.value))
      else LiveOf(files, c)
    else if Has(files, Old(c, j.id)) then Lookup(files, Old(c, j.id))
    else if Swap(c, false) in j.swaps then None
    else LiveOf(files, c)
  }

  /** The value component `c` has once recovery has dealt with whatever journal
      is on disk. This is the abstract state that a crash must not change. */
  function Destiny(files: Files, c: Component): Option<Content> {
    match StoredJournal(files)
    case Some(Record(j)) => if j.committed then LiveOf(files, c) else Undo(files, j, c)
    case _ => LiveOf(files, c)
  }

  /** Write-ahead rule: whatever was moved aside for `j` is recorded in `j`. */
  ghost predicate Coherent(files: Files, j: Journal) {
    && j.Valid()
    && forall c :: Has(files, Old(c, j.id)) ==> Swap(c, true) in j.swaps
  }

  ghost predicate WellFormed(files: Files) {
    StoredJournal(files).None?
    || (StoredJournal(files).value.Record? && Coherent(files, StoredJournal(files).value.journal))
  }

  /** Rollback needs the safety database and it is gone. */
  predicate NeedsLostSafety(files: Files, j: Journal) {
    j.databaseSwitchStarted && j.databaseHadLive && j.safety.Some? && !Has(files, Safety(j.safety.value))
  }

  /** Recovery can only report an error: the journal asks for a lost safety database. */
  predicate Stuck(files: Files) {
    match StoredJournal(files)
    case Some(Record(j)) => !j.committed && NeedsLostSafety(files, j)
    case _ => false
  }

  /** A disk on which recovery can only report an error shows the state that recovery
      was meant to restore, all components of it. */
  ghost predicate StuckShowsDestiny(files: Files) {
    Stuck(files) ==> forall c :: LiveOf(files, c) == Destiny(files, c)
  }

  ghost predicate SameDestiny(before: Files, after: Files) {
    forall c :: Destiny(after, c) == Destiny(before, c)
  }

  /** Only live and set-aside copies of the renamed components differ. */
  ghost predicate OnlySwapsMoved(before: Files, after: Files) {
    forall p: Path {:trigger p in after} {:trigger Lookup(after, p)} :: (p.Live? ==> p.c == Database) && !p.Old? ==>
      Lookup(after, p) == Lookup(before, p)
  }

  /** Everything that is not part of the swapped state is as it was. */
  ghost predicate SameJournalAndStage(before: Files, after: Files) {
    forall p: Path {:trigger p in after} {:trigger Lookup(after, p)} :: p.JournalFile? || p.JournalBackup? || p.Staged? ==>
      Lookup(after, p) == Lookup(before, p)
  }

  /** Only set-aside copies and safety databases differ, and none is new. */
  ghost predicate OnlyLeftoversRemoved(before: Files, after: Files) {
    && (forall p: Path {:trigger p in after} {:trigger Lookup(after, p)} :: !p.Old? && !p.Safety? ==>
          Lookup(after, p) == Lookup(before, p))
    && (forall p :: Has(after, p) ==> Has(before, p))
  }

  ghost predicate NoLeftovers(files: Files, j: Journal) {
    && (forall c :: !Has(files, Old(c, j.id)))
    && (j.safety.Some? ==> !Has(files, Safety(j.safety.value)))
  }

  /** How far a rollback by `j` may have taken component `c`: not at all, up to
      the removal of the new live copy, or all the way. */
  ghost predicate Rewound(before: Files, after: Files, j: Journal, c: Component) {
    if Has(before, Old(c, j.id)) then
      if Has(after, Old(c, j.id)) then Lookup(after, Old(c, j.id)) == Lookup(before, Old(c, j.id))
      else LiveOf(after, c) == Lookup(before, Old(c, j.id))
    else
      && !Has(after, Old(c, j.id))
      && (|| LiveOf(after, c) == LiveOf(before, c)
          || (Swap(c, false) in j.swaps && Has(before, Live(c)) && (LiveOf(after, c) == None || LiveOf(after, c) == Some(Torn))))
  }

  ghost predicate RewoundDatabase(before: Files, after: Files, j: Journal) {
    match j.safety
    case None => j.databaseHadLive ==> LiveOf(after, Database) == LiveOf(before, Database)
    case Some(s) =>
      && (Has(after, Safety(s)) ==> Lookup(after, Safety(s)) == Lookup(before, Safety(s)))
      && (j.databaseHadLive ==>
            if j.databaseSwitchStarted && Has(before, Safety(s)) then
              && (|| LiveOf(after, Database) == LiveOf(before, Database)
                  || LiveOf(after, Database) == Some(Torn)
                  || LiveOf(after, Database) == Lookup(before, Safety(s)))
              && (!Has(after, Safety(s)) ==> LiveOf(after, Database) == Lookup(before, Safety(s)))
            else
              LiveOf(after, Database) == LiveOf(before, Database))
  }

  /** A rollback by `j` that started from `before` has got as far as `now`: of the renamed
      components, and of everything. */
  ghost predicate RewindingSwaps(before: Files, now: Files, j: Journal) {
    && SameJournalAndStage(before, now) && Coherent(now, j)
    && (forall c :: c != Database ==> Rewound(before, now, j, c))
  }

  ghost predicate Rewinding(before: Files, now: Files, j: Journal) {
    RewindingSwaps(before, now, j) && RewoundDatabase(before, now, j)
  }

  /** A rollback by `j` that started from `before` has finished. */
  ghost predicate Undone(before: Files, now: Files, j: Journal) {
    NoLeftovers(now, j) && forall c :: LiveOf(now, c) == Undo(before, j, c)
  }

  /** What undoing will produce does not depend on how far undoing has got. The
      durable journal `d` may lag behind the journal `j` that drives the
      rollback, as long as they agree on what they would undo. */
  lemma RewindKeepsUndo(before: Files, after: Files, j: Journal, d: Journal, c: Component)
    requires Coherent(before, j) && d.id == j.id
    requires c != Database && Rewound(before, after, j, c)
    requires forall s :: s in d.swaps ==> s in j.swaps
    requires Swap(c, false) in j.swaps && Swap(c, false) !in d.swaps ==> !Has(before, Live(c))
    ensures Undo(after, d, c) == Undo(before, j, c)
  {
    if Has(before, Old(c, j.id)) {
      assert Swap(c, true) in j.swaps;
      assert Swap(c, false) !in d.swaps;
    }
  }

  lemma RewindKeepsUndoneDatabase(before: Files, after: Files, j: Journal)
    requires RewoundDatabase(before, after, j)
    ensures Undo(after, j, Database) == Undo(before, j, Database)
  {
  }

  lemma RewindKeepsDestiny(before: Files, after: Files, j: Journal)
    requires StoredJournal(before) == Some(Record(j)) && !j.committed && Coherent(before, j)
    requires Rewinding(before, after, j)
    ensures WellFormed(after) && SameDestiny(before, after)
  {
    assert StoredJournal(after) == StoredJournal(before);
    forall c ensures Destiny(after, c) == Destiny(before, c) {
      if c == Database { RewindKeepsUndoneDatabase(before, after, j); } else { RewindKeepsUndo(before, after, j, j, c); }
    }
  }

  /** Recording that `c` is about to be moved aside changes nothing by itself. */
  lemma PushKeepsUndo(files: Files, j: Journal, s: Swap, c: Component)
    requires s.component != Database && !Has(files, Old(s.component, j.id))
    requires s.hadLive == (Has(files, Live(s.component)))
    ensures Undo(files, j.(swaps := j.swaps + [s]), c) == Undo(files, j, c)
  {
  }

  /** The durable journal accounts for a component that is to go back to `original`, and
      that value is in the one place where undoing the journal looks for it. */
  ghost predicate Covered(files: Files, c: Component, original: Option<Content>) {
    && StoredJournal(files).Some? && StoredJournal(files).value.Record?
    && var j := StoredJournal(files).value.journal;
    && !j.committed
    && match (c, original)
       case (Database, Some(_)) => j.databaseSwitchStarted && j.safety.Some? && Lookup(files, Safety(j.safety.value)) == original
       case (Database, None) => !j.databaseHadLive
       case (_, Some(_)) => Swap(c, true) in j.swaps && Lookup(files, Old(c, j.id)) == original
       case (_, None) => Swap(c, false) in j.swaps
  }

  /** Every difference between the live state and the state that recovery will restore is
      covered by the durable journal, whatever became of the live copy. */
  lemma WriteAheadCoverage(files: Files, c: Component)
    requires WellFormed(files) && LiveOf(files, c) != Destiny(files, c)
    ensures Covered(files, c, Destiny(files, c))
  {
  }

  /** A stuck disk needs no recovery: the database holds what recovery was to restore, and
      on a disk that shows it all, the journal can be removed by hand without loss. */
  lemma StuckJournalCanBeDropped(files: Files)
    requires Stuck(files)
    ensures Destiny(files, Database) == LiveOf(files, Database)
    ensures var dropped := files - {JournalFile, JournalBackup};
      !Stuck(dropped) && (StuckShowsDestiny(files) ==> SameDestiny(files, dropped))
  {
    var dropped := files - {JournalFile, JournalBackup};
    assert StoredJournal(dropped).None?;
    assert forall c :: LiveOf(dropped, c) == LiveOf(files, c);
  }

  /** `d` was written on the way to `j`, before or at the same time. */
  ghost predicate Precedes(d: Journal, j: Journal) {
    && d.Valid() && !d.committed
    && d.id == j.id && d.safety == j.safety && d.databaseHadLive == j.databaseHadLive
    && (d.databaseSwitchStarted ==> j.databaseSwitchStarted)
    && forall s :: s in d.swaps ==> s in j.swaps
  }

  /** The durable journal knows of the database switch if `j` does. */
  predicate SwitchRecorded(files: Files, j: Journal) {
    match StoredJournal(files)
    case Some(Record(d)) => d.databaseSwitchStarted == j.databaseSwitchStarted
    case _ => false
  }

  /** The journal in memory, `j`, may be one save ahead of the durable one, but
      nothing has been done that only `j` knows of. */
  ghost predicate Tracked(files: Files, j: Journal) {
    && StoredJournal(files).Some? && StoredJournal(files).value.Record?
    && var d := StoredJournal(files).value.journal;
    && Precedes(d, j) && Coherent(files, d)
    && (forall c :: Swap(c, false) in j.swaps && Swap(c, false) !in d.swaps ==> !Has(files, Live(c)))
    && (Has(files, JournalBackup) ==> Lookup(files, JournalBackup).value.Record? && Precedes(Lookup(files, JournalBackup).value.journal, j))
    && (d.databaseSwitchStarted != j.databaseSwitchStarted && j.databaseHadLive ==>
          && Has(files, Safety(j.safety.value))
          && LiveOf(files, Database) == Lookup(files, Safety(j.safety.value)))
  }

  /** A rollback driven by the journal in memory keeps what recovery will find,
      with one exception: a database restore that is cut short while the durable
      journal does not know of the switch. */
  lemma RewindWhileTracked(before: Files, after: Files, j: Journal)
    requires Tracked(before, j) && Coherent(before, j) && !j.committed
    requires Rewinding(before, after, j)
    ensures WellFormed(after)
    ensures forall c :: c != Database ==> Destiny(after, c) == Undo(before, j, c)
    ensures Destiny(after, Database) == Undo(before, j, Database)
         || (!SwitchRecorded(before, j) && j.databaseHadLive && LiveOf(after, Database) == Destiny(after, Database) == Some(Torn))
  {
    var d := StoredJournal(before).value.journal;
    assert StoredJournal(after) == StoredJournal(before);
    forall c | c != Database ensures Destiny(after, c) == Undo(before, j, c) {
      RewindKeepsUndo(before, after, j, d, c);
    }
    RewindKeepsUndoneDatabase(before, after, j);
    assert Coherent(after, d) by {
      forall c | Has(after, Old(c, d.id)) ensures Swap(c, true) in d.swaps {
        assert Swap(c, true) in j.swaps;
        assert c != Database;
        assert Rewound(before, after, j, c);
      }
    }
  }

  /** After a complete rollback, an earlier journal that is still on disk has
      nothing left to undo, until a component changes. */
  lemma EarlierJournalHasNothingToUndo(files: Files, d: Journal, j: Journal, original: Files)
    requires Precedes(d, j) && Coherent(original, j) && Undone(original, files, j)
    ensures Coherent(files, d)
    ensures forall c :: Undo(files, d, c) == LiveOf(files, c)
  {
    forall c ensures Undo(files, d, c) == LiveOf(files, c) {
      assert LiveOf(files, c) == Undo(original, j, c);
      if c != Database && Swap(c, false) in d.swaps {
        assert Swap(c, false) in j.swaps;
        assert !Has(original, Old(c, j.id));
      }
    }
  }

  /** What a save of the journal `j'`, one record after `j`, leaves behind. */
  ghost predicate SaveAttempted(before: Files, after: Files, j: Journal, j': Journal) {
    && SameOutside(before, after, {JournalFile, JournalBackup})
    && (StoredJournal(after) == Some(Record(j)) || StoredJournal(after) == Some(Record(j')))
    && (Has(after, JournalBackup) ==> Lookup(after, JournalBackup) == Some(Record(j)))
  }

  /** A swap that is on record, or about to be, has not happened yet. */
  lemma RecordingKeepsUndo(before: Files, after: Files, j: Journal, s: Swap)
    requires s.component != Database && !j.committed && Coherent(before, j)
    requires !Has(before, Old(s.component, j.id)) && forall t :: t in j.swaps ==> t.component != s.component
    requires s.hadLive == (Has(before, Live(s.component)))
    requires SaveAttempted(before, after, j, j.(swaps := j.swaps + [s]))
    ensures Coherent(after, j.(swaps := j.swaps + [s])) && Tracked(after, j.(swaps := j.swaps + [s]))
    ensures forall x :: Undo(after, j.(swaps := j.swaps + [s]), x) == Undo(before, j, x)
  {
    forall x ensures Undo(after, j.(swaps := j.swaps + [s]), x) == Undo(before, j, x) {
      PushKeepsUndo(before, j, s, x);
    }
    var j' := j.(swaps := j.swaps + [s]);
    assert j'.Valid();
    assert Coherent(after, j) && Coherent(after, j');
    assert Precedes(j, j') && Precedes(j', j');
  }

  /** Moving recorded copies around keeps everything as long as the value to go
      back to stays reachable. */
  lemma MovingKeepsUndo(before: Files, after: Files, j: Journal, c: Component)
    requires c != Database && !j.committed && Coherent(before, j)
    requires StoredJournal(before) == Some(Record(j)) && !Has(before, JournalBackup)
    requires SameOutside(before, after, {Live(c), Old(c, j.id), Staged(c)})
    requires Undo(after, j, c) == Undo(before, j, c)
    requires Has(after, Old(c, j.id)) ==> Swap(c, true) in j.swaps
    ensures Coherent(after, j) && Tracked(after, j)
    ensures forall x :: Undo(after, j, x) == Undo(before, j, x)
    ensures StoredJournal(after) == Some(Record(j)) && !Has(after, JournalBackup)
  {
  }

  /** Recording the database switch changes nothing either: until then the live
      database and its safety copy are equal. */
  lemma SwitchingKeepsUndo(before: Files, after: Files, j: Journal)
    requires !j.committed && !j.databaseSwitchStarted && Coherent(before, j)
    requires SaveAttempted(before, after, j, j.(databaseSwitchStarted := true))
    requires j.databaseHadLive ==>
               Has(before, Safety(j.safety.value)) && LiveOf(before, Database) == Lookup(before, Safety(j.safety.value))
    ensures Coherent(after, j.(databaseSwitchStarted := true)) && Tracked(after, j.(databaseSwitchStarted := true))
    ensures forall x :: Undo(after, j.(databaseSwitchStarted := true), x) == Undo(before, j, x)
  {
    var j' := j.(databaseSwitchStarted := true);
    assert Coherent(after, j) && Coherent(after, j');
    assert Precedes(j, j') && Precedes(j', j');
  }

  /** Once the switch is on record, the live database may take any value. */
  lemma CopyingKeepsUndo(before: Files, after: Files, j: Journal)
    requires !j.committed && j.databaseSwitchStarted && Coherent(before, j)
    requires StoredJournal(before) == Some(Record(j)) && !Has(before, JournalBackup)
    requires j.databaseHadLive ==> Has(before, Safety(j.safety.value))
    requires SameOutside(before, after, {Live(Database)})
    ensures Coherent(after, j) && Tracked(after, j)
    ensures forall x :: Undo(after, j, x) == Undo(before, j, x)
    ensures StoredJournal(after) == Some(Record(j)) && !Has(after, JournalBackup)
  {
  }

  /** Recovery undoes the same state whether or not the last save got through. */
  lemma TrackedDestiny(files: Files, j: Journal)
    requires Tracked(files, j) && Coherent(files, j) && !j.committed
    ensures WellFormed(files) && forall c :: Destiny(files, c) == Undo(files, j, c)
  {
    assert Rewinding(files, files, j);
    RewindWhileTracked(files, files, j);
  }
}
