// Installing a prepared bundle over the live application state, rolling an
// interrupted installation back, and finishing a committed one. Every routine
// is proved for every schedule of I/O errors and crashes.
module Restore {
  import opened Options
  import opened Storage
  import opened RestoreState
  import Snapshots

  /** What the bundle puts in place of component `c`; the database is always included. */
  function Bundled(files: Files, included: set<Component>, c: Component): Option<Content> {
    if c == Database || c in included then Lookup(files, Staged(c)) else None
  }

  /** Components whose removal takes several steps: the two directories, and the
      database with its side files. */
  predicate IsTree(c: Component) {
    c.EngineRegistry? || c.Reports? || c.Database?
  }

  ghost predicate Untouched(before: Files, after: Files, id: nat, c: Component) {
    LiveOf(after, c) == LiveOf(before, c) && Lookup(after, Old(c, id)) == Lookup(before, Old(c, id))
  }

  /** The order in which the installation switches the components. */
  function Turn(c: Component): nat {
    match c
    case Presets => 0
    case Settings => 1
    case EngineRegistry => 2
    case Reports => 3
    case Database => 4
  }

  /** The components whose turn has passed hold the bundle's value, recorded in `j`; the
      others, the database and its safety copy are as they were. */
  ghost predicate Swapped(
    before: Files, now: Files, included: set<Component>, start: Journal, j: Journal, finished: nat)
  {
    && j == start.(swaps := j.swaps) && Coherent(now, j)
    && (forall s :: s in j.swaps ==> Turn(s.component) < finished)
    && (forall x :: Undo(now, j, x) == Undo(before, start, x))
    && (forall c :: Turn(c) < finished ==> LiveOf(now, c) == Bundled(before, included, c))
    && (forall c :: Turn(c) >= finished ==> Untouched(before, now, j.id, c) && Lookup(now, Staged(c)) == Lookup(before, Staged(c)))
    && (forall id :: Lookup(now, Safety(id)) == Lookup(before, Safety(id)))
  }

  /** Rolling `j` back has dealt with all swaps from number `i` on. */
  ghost predicate UndoneFrom(before: Files, now: Files, j: Journal, i: nat)
    requires i <= |j.swaps|
  {
    && OnlySwapsMoved(before, now) && Coherent(now, j)
    && (forall c :: c != Database ==> Rewound(before, now, j, c))
    && (forall k :: 0 <= k < i ==> Untouched(before, now, j.id, j.swaps[k].component))
    && (forall k :: i <= k < |j.swaps| ==>
          && !Has(now, Old(j.swaps[k].component, j.id))
          && LiveOf(now, j.swaps[k].component) == Undo(before, j, j.swaps[k].component))
  }

  lemma RewoundFurther(before: Files, mid: Files, after: Files, j: Journal, c: Component)
    requires || (Untouched(before, mid, j.id, c) && Rewound(mid, after, j, c))
             || (Rewound(before, mid, j, c) && Untouched(mid, after, j.id, c))
    ensures Rewound(before, after, j, c)
  {
  }

  /** One more swap is undone, at least in part. */
  lemma UndoneStep(before: Files, mid: Files, after: Files, j: Journal, i: nat, done: bool)
    requires i < |j.swaps| && UndoneFrom(before, mid, j, i + 1)
    requires SameOutside(mid, after, {Live(j.swaps[i].component), Old(j.swaps[i].component, j.id)})
    requires Rewound(mid, after, j, j.swaps[i].component)
    requires done ==>
               && !Has(after, Old(j.swaps[i].component, j.id))
               && LiveOf(after, j.swaps[i].component) == Undo(mid, j, j.swaps[i].component)
    ensures OnlySwapsMoved(before, after) && Coherent(after, j)
    ensures forall c :: c != Database ==> Rewound(before, after, j, c)
    ensures done ==> UndoneFrom(before, after, j, i)
  {
    var s := j.swaps[i].component;
    assert Untouched(before, mid, j.id, s);
    forall c | c != s ensures Untouched(mid, after, j.id, c) {}
    forall c | c != Database ensures Rewound(before, after, j, c) {
      RewoundFurther(before, mid, after, j, c);
    }
    assert OnlySwapsMoved(before, after);
    assert Coherent(after, j) by {
      forall c | Has(after, Old(c, j.id)) ensures Swap(c, true) in j.swaps {
        if c == s { assert Has(mid, Old(c, j.id)); }
      }
    }
    if done {
      forall k | 0 <= k < i ensures Untouched(before, after, j.id, j.swaps[k].component) {
        assert Untouched(before, mid, j.id, j.swaps[k].component);
      }
      forall k | i < k < |j.swaps|
        ensures !Has(after, Old(j.swaps[k].component, j.id))
             && LiveOf(after, j.swaps[k].component) == Undo(before, j, j.swaps[k].component)
      {
        assert Untouched(mid, after, j.id, j.swaps[k].component);
      }
      assert Undo(mid, j, s) == Undo(before, j, s);
    }
  }

  lemma UndoneAll(before: Files, now: Files, j: Journal)
    requires Coherent(before, j) && UndoneFrom(before, now, j, 0)
    ensures forall c :: c != Database ==> !Has(now, Old(c, j.id)) && LiveOf(now, c) == Undo(before, j, c)
  {
    forall c | c != Database
      ensures !Has(now, Old(c, j.id)) && LiveOf(now, c) == Undo(before, j, c)
    {
      if h :| Swap(c, h) in j.swaps {
        var k :| 0 <= k < |j.swaps| && j.swaps[k] == Swap(c, h);
      } else {
        assert Swap(c, true) !in j.swaps && Swap(c, false) !in j.swaps;
        assert Rewound(before, now, j, c);
      }
    }
  }

  lemma SwappedAtStart(files: Files, included: set<Component>, start: Journal)
    requires start.Valid() && start.swaps == [] && forall c :: !Has(files, Old(c, start.id))
    ensures Swapped(files, files, included, start, start, Turn(Presets))
  {
  }

  /** What a completed swap of `c` leaves behind. */
  ghost predicate SwapMade(mid: Files, after: Files, c: Component, included: bool, j: Journal, j': Journal) {
    && j' == j.(swaps := j.swaps + [Swap(c, Has(mid, Live(c)))]) && Coherent(after, j')
    && SameOutside(mid, after, {Live(c), Old(c, j.id), Staged(c), JournalFile, JournalBackup})
    && (forall x :: Undo(after, j', x) == Undo(mid, j, x))
    && LiveOf(after, c) == if included then Lookup(mid, Staged(c)) else None
  }

  lemma SwappedKeepsDatabase(before: Files, mid: Files, included: set<Component>, start: Journal, j: Journal, c: Component)
    requires Swapped(before, mid, included, start, j, Turn(c))
    ensures LiveOf(mid, Database) == LiveOf(before, Database)
  {
    assert Untouched(before, mid, j.id, Database);
  }

  lemma SwapExtends(before: Files, mid: Files, after: Files, included: set<Component>,
                    start: Journal, j: Journal, j': Journal, c: Component)
    requires Swapped(before, mid, included, start, j, Turn(c))
    requires c != Database && SwapMade(mid, after, c, c in included, j, j')
    ensures Swapped(before, after, included, start, j', Turn(c) + 1)
  {
    forall x | Turn(x) > Turn(c)
      ensures Untouched(before, after, j.id, x) && Lookup(after, Staged(x)) == Lookup(before, Staged(x))
    {
      assert Untouched(before, mid, j.id, x);
    }
    forall x | Turn(x) <= Turn(c) ensures LiveOf(after, x) == Bundled(before, included, x) {
      if x == c { assert Untouched(before, mid, j.id, c); }
    }
  }

  /** The switch of components has stopped with `j` in memory, and everything
      can still be undone to what it was. */
  ghost predicate Stopped(before: Files, now: Files, start: Journal, j: Journal) {
    && j == start.(swaps := j.swaps, databaseSwitchStarted := j.databaseSwitchStarted)
    && Coherent(now, j) && Tracked(now, j)
    && (forall x :: Undo(now, j, x) == Undo(before, start, x))
    && (forall n :: Lookup(now, Safety(n)) == Lookup(before, Safety(n)))
  }

  ghost predicate Recorded(files: Files, j: Journal) {
    StoredJournal(files) == Some(Record(j)) && !Has(files, JournalBackup)
  }

  ghost predicate AllBundled(before: Files, now: Files, included: set<Component>) {
    forall c :: LiveOf(now, c) == Bundled(before, included, c)
  }

  /** What recovery will find is the state from before, or, once committed, that of
      the bundle. `lost` holds exactly when the database is the exception, and then
      its live copy is torn and nothing on disk asks for another. */
  ghost predicate InstalledOrNot(before: Files, now: Files, included: set<Component>, committed: bool, lost: bool) {
    && WellFormed(now)
    && (committed ==> !lost && forall c :: Destiny(now, c) == Bundled(before, included, c))
    && (!committed ==> forall c :: c != Database ==> Destiny(now, c) == LiveOf(before, c))
    && (!committed ==> (lost <==> Destiny(now, Database) != LiveOf(before, Database)))
    && (lost ==> LiveOf(before, Database).Some? && Destiny(now, Database) == LiveOf(now, Database) == Some(Torn))
  }

  /** Write-ahead: as long as nothing is committed, every component that differs from what
      it was is covered. */
  ghost predicate AllCovered(before: Files, now: Files, lost: bool) {
    forall c :: (c == Database ==> !lost) && LiveOf(now, c) != LiveOf(before, c) ==> Covered(now, c, LiveOf(before, c))
  }

  lemma InstallationIsCovered(before: Files, now: Files, included: set<Component>, lost: bool)
    requires InstalledOrNot(before, now, included, false, lost)
    ensures AllCovered(before, now, lost)
  {
    forall c | (c == Database ==> !lost) && LiveOf(now, c) != LiveOf(before, c)
      ensures Covered(now, c, LiveOf(before, c))
    {
      WriteAheadCoverage(now, c);
    }
  }

  /** The journal that recovery will find is one written before the database switch, and
      names the safety copy. */
  ghost predicate LostOnRecord(files: Files, start: Journal) {
    && StoredJournal(files).Some? && StoredJournal(files).value.Record?
    && var d := StoredJournal(files).value.journal;
    && !d.committed && !d.databaseSwitchStarted && d.id == start.id && d.safety == start.safety && d.databaseHadLive
  }

  /** The safety copy, if the journal has one, equals the live database. */
  predicate SafetyTaken(files: Files, j: Journal) {
    j.databaseHadLive ==>
      j.safety.Some? && Has(files, Safety(j.safety.value)) && LiveOf(files, Database) == Lookup(files, Safety(j.safety.value))
  }

  /** Every renamed component is back, and the database is if it had to be. */
  ghost predicate AllPutBack(before: Files, now: Files, j: Journal) {
    && (forall c :: !Has(now, Old(c, j.id)))
    && (forall c :: (c == Database ==> j.databaseHadLive) ==> LiveOf(now, c) == Undo(before, j, c))
  }

  /** Trying to make the committed journal durable. */
  lemma CommitAttempted(before: Files, now: Files, i: Journal)
    requires Coherent(before, i) && !i.committed && StoredJournal(before) == Some(Record(i))
    requires SameOutside(before, now, {JournalFile, JournalBackup})
    requires StoredJournal(now) == Some(Record(i)) || StoredJournal(now) == Some(Record(i.(committed := true)))
    ensures WellFormed(now) && Coherent(now, i) && Coherent(now, i.(committed := true))
    ensures forall c :: LiveOf(now, c) == LiveOf(before, c)
    ensures forall c :: Destiny(now, c) ==
              if StoredJournal(now) == Some(Record(i.(committed := true))) then LiveOf(before, c) else Undo(before, i, c)
    ensures Stuck(now) ==> NeedsLostSafety(before, i)
  {
    assert forall c :: Undo(now, i, c) == Undo(before, i, c);
  }

  /** A rollback cut short leaves a stuck disk only after everything has been put back. */
  lemma RewindKeepsShowing(before: Files, now: Files, j: Journal)
    requires StoredJournal(before) == Some(Record(j)) && !j.committed && Coherent(before, j)
    requires Rewinding(before, now, j)
    requires NeedsLostSafety(before, j) ==> now == before
    requires j.safety.Some? && Has(before, Safety(j.safety.value)) && !Has(now, Safety(j.safety.value)) ==> AllPutBack(before, now, j)
    ensures StuckShowsDestiny(before) ==> StuckShowsDestiny(now)
  {
    RewindKeepsDestiny(before, now, j);
    assert StoredJournal(now) == StoredJournal(before);
  }

  /** At most the journal has moved, between its own name and its backup. */
  ghost predicate SameStateAndJournal(before: Files, now: Files) {
    SameOutside(before, now, {JournalFile, JournalBackup}) && StoredJournal(now) == StoredJournal(before)
  }

  lemma MovedJournal(before: Files, now: Files)
    requires SameStateAndJournal(before, now)
    ensures SameDestiny(before, now) && (WellFormed(before) ==> WellFormed(now))
    ensures Stuck(now) == Stuck(before) && (StuckShowsDestiny(before) ==> StuckShowsDestiny(now))
    ensures forall c :: LiveOf(now, c) == LiveOf(before, c)
  {
  }

  /** The pending rollback cannot begin, because of what the database service refuses. */
  predicate Halted(sound: Content -> bool, files: Files) {
    match StoredJournal(files)
    case Some(Record(j)) => !j.committed && Blocked(sound, files, j)
    case _ => false
  }

  /** Recovery by a journal cannot begin because of the database service exactly if the safety
      database would be copied and it, or a live database, does not pass the check; and its
      snapshot costs the safety database exactly if there is a live database and no room. */
  lemma HaltedWhen(sound: Content -> bool, files: Files, j: Journal, room: nat)
    requires StoredJournal(files) == Some(Record(j))
    ensures Halted(sound, files) <==>
              && !j.committed && j.databaseSwitchStarted && j.databaseHadLive && j.safety.Some? && Has(files, Safety(j.safety.value))
              && (!sound(files[Safety(j.safety.value)]) || (Has(files, Live(Database)) && !sound(files[Live(Database)])))
    ensures WillDrop(files, room) <==>
              && !j.committed && j.databaseSwitchStarted && j.databaseHadLive && j.safety.Some? && Has(files, Safety(j.safety.value))
              && Has(files, Live(Database)) && room == 0
  {
  }

  /** The pending rollback will make the backup directory drop the safety database. */
  predicate WillDrop(files: Files, room: nat) {
    match StoredJournal(files)
    case Some(Record(j)) => !j.committed && Doomed(files, j, room)
    case _ => false
  }

  predicate RollbackPending(files: Files) {
    match StoredJournal(files)
    case Some(Record(j)) => !j.committed
    case _ => false
  }

  /** As long as a rollback has a safety database to copy, it survives `n` more snapshots. */
  predicate RoomLeft(files: Files, room: nat, n: int) {
    match StoredJournal(files)
    case Some(Record(j)) => !j.committed && CopiesSafety(files, j) ==> room >= n
    case _ => true
  }

  lemma MovedJournalElse(sound: Content -> bool, before: Files, now: Files, room: nat, n: int)
    requires SameStateAndJournal(before, now)
    ensures Halted(sound, now) == Halted(sound, before) && WillDrop(now, room) == WillDrop(before, room)
    ensures RoomLeft(now, room, n) == RoomLeft(before, room, n)
  {
    assert Lookup(now, Live(Database)) == Lookup(before, Live(Database));
    if StoredJournal(before).Some? && StoredJournal(before).value.Record? {
      var j := StoredJournal(before).value.journal;
      if j.safety.Some? { assert Lookup(now, Safety(j.safety.value)) == Lookup(before, Safety(j.safety.value)); }
    }
  }

  /** A rollback that has lost its safety database too early is stuck, but has only touched
      the database's outcome. */
  lemma DroppedKeepsOthers(before: Files, now: Files, j: Journal)
    requires StoredJournal(before) == Some(Record(j)) && !j.committed && Coherent(before, j)
    requires RewindingSwaps(before, now, j) && SafetyGone(before, now, j)
    ensures WellFormed(now) && Stuck(now)
    ensures forall c :: c != Database ==> Destiny(now, c) == Destiny(before, c)
  {
    assert StoredJournal(now) == StoredJournal(before);
    forall c | c != Database ensures Destiny(now, c) == Destiny(before, c) {
      RewindKeepsUndo(before, now, j, j, c);
    }
  }

  /** The outcome of the renamed components is the same, and that of the database too unless
      it has lost its safety copy. */
  ghost predicate SameDestinyUnless(before: Files, now: Files, dropped: bool) {
    forall c :: (c == Database ==> !dropped) ==> Destiny(now, c) == Destiny(before, c)
  }

  /** Unlinking the journal of a resolved restore, or not getting to it. */
  lemma DroppedJournal(ready: Files, settled: Files, now: Files, done: bool)
    requires WellFormed(settled) && StoredJournal(ready).Some? && !Has(settled, JournalBackup)
    requires forall c :: LiveOf(settled, c) == Destiny(ready, c)
    requires SameDestiny(ready, settled)
    requires now == if done then settled - {JournalFile} else settled
    ensures WellFormed(now) && SameDestiny(ready, now)
    ensures done ==> StoredJournal(now).None?
    ensures forall c :: LiveOf(now, c) == Destiny(ready, c)
    ensures StuckShowsDestiny(now)
    ensures forall p: Path :: !p.JournalFile? ==> Lookup(now, p) == Lookup(settled, p)
  {
    assert forall p: Path :: !p.JournalFile? ==> Lookup(now, p) == Lookup(settled, p);
  }

  /** The same when the journal in memory drives the rollback. */
  lemma TrackedShowing(before: Files, now: Files, j: Journal, lost: bool)
    requires Tracked(before, j) && Coherent(before, j) && !j.committed && Rewinding(before, now, j)
    requires lost == (Destiny(now, Database) != Undo(before, j, Database))
    requires j.safety.Some? && Has(before, Safety(j.safety.value)) && !Has(now, Safety(j.safety.value)) ==> AllPutBack(before, now, j)
    ensures !NeedsLostSafety(before, j) ==> StuckShowsDestiny(now)
  {
    RewindWhileTracked(before, now, j);
    assert StoredJournal(now) == StoredJournal(before);
  }

  /** The state from before is lost to recovery exactly if the rollback tears the database
      while the durable journal knows nothing of the switch. */
  lemma LossWhen(sound: Content -> bool, before: Files, now: Files, j: Journal, fates: seq<Fate>)
    requires Tracked(before, j) && Coherent(before, j) && !j.committed && Rewinding(before, now, j)
    requires CopiesSafety(before, j) ==> LiveOf(now, Database) == LiveAfter(sound, before, Safety(j.safety.value), fates)
    ensures Destiny(now, Database) != Undo(before, j, Database) <==> TearsUnrecorded(sound, before, j, fates)
    ensures TearsUnrecorded(sound, before, j, fates) ==>
              Destiny(now, Database) == LiveOf(now, Database) == Some(Torn) && StoredJournal(now) == StoredJournal(before)
  {
    RewindWhileTracked(before, now, j);
    assert StoredJournal(now) == StoredJournal(before);
  }

  predicate TearsUnrecorded(sound: Content -> bool, before: Files, j: Journal, fates: seq<Fate>) {
    && !SwitchRecorded(before, j) && j.databaseHadLive && j.safety.Some? && Has(before, Safety(j.safety.value))
    && sound(before[Safety(j.safety.value)]) && Lookup(before, Safety(j.safety.value)) != Some(Torn)
    && Coming(fates).Works? && IsPartialFault(FateAt(fates, 1))
  }

  /** Whether a journal stays, once the rollback has ended. */
  lemma KeepsJournalWhen(sound: Content -> bool, s: Stop, r: Outcome, after: seq<Fate>)
    requires NeedsLostSafety(s.disk, s.journal) || Blocked(sound, s.disk, s.journal) ==> !r.Done?
    requires !NeedsLostSafety(s.disk, s.journal) && !Blocked(sound, s.disk, s.journal) ==>
               Took(r, s.fates, after, RollbackSteps(s.disk, s.journal, s.room))
    ensures KeepsJournal(sound, s) <==> Has(s.disk, JournalBackup) || !r.Done? || !Coming(after).Works?
  {
    var steps := RollbackSteps(s.disk, s.journal, s.room);
    OneStepMore(s.fates, steps);
  }

  lemma OneStepMore(fates: seq<Fate>, n: nat)
    ensures AllWork(fates, n + 1) <==> AllWork(fates, n) && Coming(Skip(fates, n)).Works?
  {
    ComingNext(fates, n);
  }

  lemma CopyMovesNoSwaps(before: Files, copied: Files, j: Journal, safety: Path)
    requires Coherent(before, j) && safety.Safety? && SameOutside(before, copied, {Live(Database), safety})
    ensures RewindingSwaps(before, copied, j)
    ensures forall c :: c != Database ==> Untouched(before, copied, j.id, c)
  {
  }

  lemma CopyIsRewinding(before: Files, copied: Files, j: Journal)
    requires Coherent(before, j) && j.databaseSwitchStarted && j.databaseHadLive
    requires SameOutside(before, copied, {Live(Database)})
    requires || LiveOf(copied, Database) == LiveOf(before, Database)
             || (Has(before, Safety(j.safety.value)) &&
                 (LiveOf(copied, Database) == Some(Torn) || LiveOf(copied, Database) == Lookup(before, Safety(j.safety.value))))
    ensures Rewinding(before, copied, j)
  {
  }

  /** The copy that succeeds although its source is dropped. */
  lemma DroppedCopyIsRewinding(before: Files, copied: Files, j: Journal)
    requires Coherent(before, j) && CopiesSafety(before, j)
    requires SameOutside(before, copied, {Live(Database), Safety(j.safety.value)}) && !Has(copied, Safety(j.safety.value))
    requires LiveOf(copied, Database) == Lookup(before, Safety(j.safety.value))
    ensures Rewinding(before, copied, j)
  {
  }

  predicate SafetyPresent(files: Files, j: Journal) {
    j.safety.Some? && Has(files, Safety(j.safety.value))
  }

  /** The sum does not get less from an earlier place on. */
  lemma {:induction false} SumGrows(counts: seq<nat>, i: nat)
    requires i <= |counts|
    ensures SumFrom(counts, 0) >= SumFrom(counts, i)
  {
    if i == 0 {
    } else {
      SumGrows(counts, i - 1);
    }
  }

  lemma SameUndoSteps(before: Files, copied: Files, j: Journal)
    requires j.Valid() && forall c :: c != Database ==> Untouched(before, copied, j.id, c)
    ensures UndoCounts(copied, j) == UndoCounts(before, j)
  {
    forall i | 0 <= i < |j.swaps| ensures UndoCounts(copied, j)[i] == UndoCounts(before, j)[i] {
      assert Untouched(before, copied, j.id, j.swaps[i].component);
    }
  }

  /** The two parts of a rollback, one after the other. */
  lemma RollbackAccount(before: Files, j: Journal, room: nat, r1: Outcome, start: seq<Fate>, left: seq<Fate>, r: Outcome, after: seq<Fate>)
    requires Took(r1, start, left, if CopiesSafety(before, j) then COPY_STEPS else 0)
    requires if r1.Done?
             then Took(r, left, after, AllUndoSteps(before, j) + if Doomed(before, j, room) then 0 else FinishSteps(before, j))
             else r == r1 && after == left
    ensures Took(r, start, after, RollbackSteps(before, j, room))
    ensures Faultless(start) ==> r.Done? && Faultless(after)
  {
    var first, rest := if CopiesSafety(before, j) then COPY_STEPS else 0,
                       AllUndoSteps(before, j) + if Doomed(before, j, room) then 0 else FinishSteps(before, j);
    if r1.Done? { TookThen(start, left, after, first, rest, r); } else { TookMore(r, start, left, first, rest); }
  }

  /** The last steps, seen from the start of the rollback. */
  lemma FinishStepsAre(before: Files, swapped: Files, j: Journal, room: nat)
    requires SafetyGone(before, swapped, j) <==> Doomed(before, j, room)
    requires SafetyPresent(before, j) && !SafetyPresent(swapped, j) ==> SafetyGone(before, swapped, j)
    requires SafetyPresent(swapped, j) ==> SafetyPresent(before, j)
    requires !j.databaseHadLive ==> LiveOf(swapped, Database) == LiveOf(before, Database)
    ensures FinishSteps(swapped, j) == if Doomed(before, j, room) then 0 else FinishSteps(before, j)
  {
  }

  lemma SwapsAreRewinding(before: Files, copied: Files, now: Files, j: Journal)
    requires (forall c :: c != Database ==> Untouched(before, copied, j.id, c)) && Rewinding(before, copied, j)
    requires OnlySwapsMoved(copied, now) && Coherent(now, j)
    requires forall c :: c != Database ==> Rewound(copied, now, j, c)
    ensures Rewinding(before, now, j)
    ensures forall c :: c != Database ==> Undo(before, j, c) == Undo(copied, j, c)
  {
    forall c | c != Database ensures Rewound(before, now, j, c) && Undo(before, j, c) == Undo(copied, j, c) {
      assert Untouched(before, copied, j.id, c);
      RewoundFurther(before, copied, now, j, c);
    }
  }

  lemma DroppingIsRewinding(before: Files, swapped: Files, now: Files, j: Journal)
    requires Rewinding(before, swapped, j) && AllPutBack(before, swapped, j)
    requires j.safety.None? ==> now == swapped
    requires j.safety.Some? ==> SameOutside(swapped, now, {Safety(j.safety.value)})
    requires j.safety.Some? && Has(now, Safety(j.safety.value)) ==> now == swapped
    ensures Rewinding(before, now, j) && AllPutBack(before, now, j)
  {
    forall c | c != Database ensures Rewound(before, now, j, c) {
      assert Untouched(swapped, now, j.id, c);
      RewoundFurther(before, swapped, now, j, c);
    }
  }

  lemma RemovingIsRewinding(before: Files, dropped: Files, now: Files, j: Journal)
    requires Rewinding(before, dropped, j) && AllPutBack(before, dropped, j) && !j.databaseHadLive
    requires SameOutside(dropped, now, {Live(Database)})
    ensures Rewinding(before, now, j) && AllPutBack(before, now, j)
  {
    forall c | c != Database ensures Rewound(before, now, j, c) {
      assert Untouched(dropped, now, j.id, c);
      RewoundFurther(before, dropped, now, j, c);
    }
  }

  function OneIf(b: bool): nat {
    if b then 1 else 0
  }

  /** How many disk steps one swap takes, and all four. */
  function SwapSteps(files: Files, included: set<Component>, c: Component): nat {
    ReplaceSteps(true) + OneIf(Has(files, Live(c))) + OneIf(c in included && Has(files, Staged(c)))
  }

  function AllSwapSteps(files: Files, included: set<Component>): nat {
    SwapSteps(files, included, Presets) + SwapSteps(files, included, Settings)
    + SwapSteps(files, included, EngineRegistry) + SwapSteps(files, included, Reports)
  }

  function SafetySteps(hadLive: bool): nat {
    if hadLive then 3 else 1
  }

  /** The steps before the first swap. */
  function OpeningSteps(files: Files): nat {
    SafetySteps(Has(files, Live(Database))) + ReplaceSteps(false)
  }

  /** The steps of an installation up to the save that records the database switch. */
  function StepsToSwitch(files: Files, included: set<Component>): nat {
    OpeningSteps(files) + AllSwapSteps(files, included)
  }

  /** The next save is not published, the step after that works, and the one after it goes
      wrong half way. */
  predicate CopyFails(fates: seq<Fate>) {
    && Unpublished(fates).Some?
    && FateAt(fates, Unpublished(fates).value).Works? && IsPartialFault(FateAt(fates, Unpublished(fates).value + 1))
  }

  /** The same after `n` steps that all work. */
  predicate SaveAndCopyFail(fates: seq<Fate>, n: nat) {
    if n == 0 then CopyFails(fates) else Coming(fates).Works? && SaveAndCopyFail(Later(fates), n - 1)
  }

  lemma {:induction false} FailureAfter(fates: seq<Fate>, n: nat)
    ensures SaveAndCopyFail(fates, n) <==> AllWork(fates, n) && CopyFails(Skip(fates, n))
  {
    if n == 0 {
      assert Skip(fates, n) == fates;
    } else {
      FailureAfter(Later(fates), n - 1);
      RanOne(fates);
      SkipSkip(fates, 1, n - 1);
    }
  }

  /** The schedules under which an installation loses the database. */
  predicate LosesDatabase(sound: Content -> bool, files: Files, included: set<Component>, fates: seq<Fate>) {
    && Has(files, Live(Database)) && sound(files[Live(Database)]) && LiveOf(files, Database) != Some(Torn)
    && SaveAndCopyFail(fates, StepsToSwitch(files, included))
  }

  /** The failure that counts, seen from `m` steps further on. */
  lemma {:induction false} FailureLater(fates: seq<Fate>, m: nat, n: nat)
    ensures SaveAndCopyFail(fates, m + n) <==> AllWork(fates, m) && SaveAndCopyFail(Skip(fates, m), n)
  {
    if m == 0 {
      assert Skip(fates, m) == fates;
    } else {
      FailureLater(Later(fates), m - 1, n);
      RanOne(fates);
      SkipSkip(fates, 1, m - 1);
    }
  }

  lemma ComingNext(fates: seq<Fate>, n: nat)
    ensures Coming(Skip(fates, n)) == FateAt(fates, n)
  {
  }

  /** One of the first two saves of two swaps does. */
  predicate SavesLeave(fates: seq<Fate>, first: nat) {
    LeavesBackup(fates, 0) || LeavesBackup(fates, first)
  }

  /** One of four saves does, the first one after `n` steps, with `p`, `s` and `e` steps
      between them. */
  predicate AnyLeaves(fates: seq<Fate>, n: nat, p: nat, s: nat, e: nat) {
    LeavesBackup(fates, n) || LeavesBackup(fates, n + p) || LeavesBackup(fates, n + (p + s)) || LeavesBackup(fates, n + (p + s + e))
  }

  lemma AnyLeavesLater(fates: seq<Fate>, n: nat, p: nat, s: nat, e: nat)
    ensures AnyLeaves(fates, n, p, s, e) <==> AllWork(fates, n) && AnyLeaves(Skip(fates, n), 0, p, s, e)
  {
    LeavesBackupLater(fates, n, 0);
    LeavesBackupLater(fates, n, p);
    LeavesBackupLater(fates, n, p + s);
    LeavesBackupLater(fates, n, p + s + e);
  }

  lemma AnyLeavesByTwo(fates: seq<Fate>, p: nat, s: nat, e: nat)
    ensures AnyLeaves(fates, 0, p, s, e) <==>
              SavesLeave(fates, p) || (AllWork(fates, p + s) && SavesLeave(Skip(fates, p + s), e))
  {
    LeavesBackupLater(fates, p + s, 0);
    LeavesBackupLater(fates, p + s, e);
  }

  /** One of the four saves that record the swaps does. */
  predicate SwapsLeave(files: Files, included: set<Component>, fates: seq<Fate>, n: nat) {
    AnyLeaves(fates, n, SwapSteps(files, included, Presets), SwapSteps(files, included, Settings),
              SwapSteps(files, included, EngineRegistry))
  }

  /** Two routines of two swaps each, one after the other. */
  lemma SwapsAccount(files: Files, included: set<Component>, r1: Outcome, f0: seq<Fate>, f1: seq<Fate>,
                     r: Outcome, f2: seq<Fate>, left1: bool, left: bool)
    requires Ran(r1, f0, f1, SwapSteps(files, included, Presets) + SwapSteps(files, included, Settings))
    requires left1 <==> SavesLeave(f0, SwapSteps(files, included, Presets))
    requires if r1.Done? then !left1 && Ran(r, f1, f2, SwapSteps(files, included, EngineRegistry) + SwapSteps(files, included, Reports))
                              && (left <==> SavesLeave(f1, SwapSteps(files, included, EngineRegistry)))
             else r == r1 && f2 == f1 && left == left1
    ensures Ran(r, f0, f2, AllSwapSteps(files, included))
    ensures left <==> SwapsLeave(files, included, f0, 0)
  {
    FourAccount(SwapSteps(files, included, Presets), SwapSteps(files, included, Settings),
                SwapSteps(files, included, EngineRegistry), SwapSteps(files, included, Reports), r1, f0, f1, r, f2, left1, left);
  }

  lemma FourAccount(p: nat, s: nat, e: nat, q: nat, r1: Outcome, f0: seq<Fate>, f1: seq<Fate>,
                    r: Outcome, f2: seq<Fate>, left1: bool, left: bool)
    requires Ran(r1, f0, f1, p + s) && (left1 <==> SavesLeave(f0, p))
    requires if r1.Done? then !left1 && Ran(r, f1, f2, e + q) && (left <==> SavesLeave(f1, e))
             else r == r1 && f2 == f1 && left == left1
    ensures Ran(r, f0, f2, p + s + e + q) && (left <==> AnyLeaves(f0, 0, p, s, e))
  {
    AnyLeavesByTwo(f0, p, s, e);
    if r1.Done? { RanThen(Done, f0, f1, f2, p + s, e + q, r); } else { RanMore(r, f0, f1, p + s, e + q); }
  }

  /** The schedules under which an installation fails and leaves an earlier journal behind:
      one of its five saves, the first one after `n` steps, fails and leaves its backup. */
  predicate LeavesJournal(files: Files, included: set<Component>, fates: seq<Fate>, n: nat) {
    SwapsLeave(files, included, fates, n) || LeavesBackup(fates, n + AllSwapSteps(files, included))
  }

  /** The steps up to the save that commits. */
  function StepsToCommit(files: Files, included: set<Component>, n: nat): nat {
    n + (AllSwapSteps(files, included) + (ReplaceSteps(true) + COPY_STEPS))
  }

  /** The copy of the bundle's database stops half way, which leaves something that the
      database service does not accept. */
  predicate TearsDatabase(sound: Content -> bool, files: Files, included: set<Component>, fates: seq<Fate>, n: nat) {
    && Has(files, Live(Database)) && !sound(Torn)
    && IsPartialFault(FateAt(fates, n + (AllSwapSteps(files, included) + ReplaceSteps(true) + 1)))
  }

  /** The rollback cannot begin, because the live database is torn. */
  predicate LiveRefused(sound: Content -> bool, before: Files, included: set<Component>, fates: seq<Fate>) {
    Has(before, Live(Database)) && !sound(Torn)
    && LiveWhenStopped(before, fates, AllSwapSteps(before, included)) == Some(Torn)
  }

  /** Under the schedules of `LeavesJournal` there is a journal on disk at the end. If there is
      only one fault, an error before the save that commits, then there is one otherwise only if
      the rollback cannot begin, because the database is torn. */
  ghost predicate JournalLeft(sound: Content -> bool, r: Outcome, now: Files, before: Files, included: set<Component>,
                              fates: seq<Fate>, n: nat)
  {
    && (LeavesJournal(before, included, fates, n) ==> !r.Done? && StoredJournal(now).Some?)
    && (AtMostOneFault(fates) && r.Failed? && !AllWork(fates, StepsToCommit(before, included, n)) ==>
          (StoredJournal(now).Some? <==>
             LeavesJournal(before, included, fates, n) || TearsDatabase(sound, before, included, fates, n)))
  }

  /** Where a switch has stopped with an error. */
  datatype Stop = Stop(disk: Files, journal: Journal, room: nat, fates: seq<Fate>)

  /** Whether an error leaves a journal, under every schedule: none if it comes before the
      journal is open, one if it comes with the commit or later, and if it stops the switch
      in between it is decided where it does. */
  ghost predicate StoppedAt(sound: Content -> bool, r: Outcome, now: Files, stop: Option<Stop>, before: Files,
                            included: set<Component>, fates: seq<Fate>, n: nat)
  {
    && (stop.Some? ==> !r.Done? && (StoredJournal(now).Some? <==> KeepsJournal(sound, stop.value)))
    && (r.Failed? && stop.None? ==> (StoredJournal(now).Some? <==> AllWork(fates, n)))
    && (stop.Some? ==> AllWork(fates, n) && !AllWork(fates, StepsToCommit(before, included, n)))
    && (r.Failed? && AllWork(fates, n) && !AllWork(fates, StepsToCommit(before, included, n)) ==> stop.Some?)
  }

  /** Rolling back from there leaves a journal: the backup of an earlier one is there, the
      rollback cannot begin, or not all its steps and the removal of the journal work. */
  predicate KeepsJournal(sound: Content -> bool, s: Stop) {
    || Has(s.disk, JournalBackup)
    || NeedsLostSafety(s.disk, s.journal) || Blocked(sound, s.disk, s.journal)
    || !AllWork(s.fates, RollbackSteps(s.disk, s.journal, s.room) + 1)
  }

  /** A switch that has worked leaves the rest to the commit, and a crash leaves the journal. */
  lemma NotStopped(sound: Content -> bool, r: Outcome, now: Files, before: Files, included: set<Component>, fates: seq<Fate>)
    requires if AllWork(fates, StepsToCommit(before, included, 0))
             then r.Failed? ==> StoredJournal(now).Some?
             else r.Crashed? && StoredJournal(now).Some?
    ensures JournalLeft(sound, r, now, before, included, fates, 0)
    ensures StoppedAt(sound, r, now, None, before, included, fates, 0)
  {
  }

  ghost predicate SameLiveAndStaged(before: Files, now: Files) {
    forall c :: LiveOf(now, c) == LiveOf(before, c) && Lookup(now, Staged(c)) == Lookup(before, Staged(c))
  }

  /** Opening the journal makes no difference to what an installation is to do. */
  lemma SameTask(before: Files, ready: Files, included: set<Component>)
    requires SameLiveAndStaged(before, ready)
    ensures AllSwapSteps(ready, included) == AllSwapSteps(before, included)
    ensures forall c :: Bundled(ready, included, c) == Bundled(before, included, c)
  {
    forall c ensures SwapSteps(ready, included, c) == SwapSteps(before, included, c) && Bundled(ready, included, c) == Bundled(before, included, c) {
      assert LiveOf(ready, c) == LiveOf(before, c) && Lookup(ready, Staged(c)) == Lookup(before, Staged(c));
    }
  }

  lemma LeavesJournalLater(files: Files, included: set<Component>, fates: seq<Fate>, n: nat)
    ensures LeavesJournal(files, included, fates, n) <==> AllWork(fates, n) && LeavesJournal(files, included, Skip(fates, n), 0)
  {
    AnyLeavesLater(fates, n, SwapSteps(files, included, Presets), SwapSteps(files, included, Settings),
                   SwapSteps(files, included, EngineRegistry));
    LeavesBackupLater(fates, n, AllSwapSteps(files, included));
  }

  lemma SameSchedules(before: Files, ready: Files, included: set<Component>, fates: seq<Fate>)
    requires SameLiveAndStaged(before, ready)
    ensures LeavesJournal(ready, included, fates, 0) <==> LeavesJournal(before, included, fates, 0)
    ensures StepsToCommit(ready, included, 0) == StepsToCommit(before, included, 0)
  {
    forall c ensures SwapSteps(ready, included, c) == SwapSteps(before, included, c) {
      assert LiveOf(ready, c) == LiveOf(before, c) && Lookup(ready, Staged(c)) == Lookup(before, Staged(c));
    }
  }

  lemma SameTear(sound: Content -> bool, before: Files, ready: Files, included: set<Component>, fates: seq<Fate>, n: nat)
    requires SameLiveAndStaged(before, ready)
    ensures TearsDatabase(sound, ready, included, Skip(fates, n), 0) <==> TearsDatabase(sound, before, included, fates, n)
  {
    SameTask(before, ready, included);
    assert LiveOf(ready, Database) == LiveOf(before, Database);
    SkipSkip(fates, n, AllSwapSteps(before, included) + ReplaceSteps(true) + 1);
  }

  /** The same, seen from before the journal was opened, which took `n` steps. */
  lemma JournalLeftLater(sound: Content -> bool, r: Outcome, now: Files, before: Files, ready: Files, included: set<Component>, fates: seq<Fate>, n: nat)
    requires SameLiveAndStaged(before, ready) && AllWork(fates, n)
    requires JournalLeft(sound, r, now, ready, included, Skip(fates, n), 0)
    ensures JournalLeft(sound, r, now, before, included, fates, n)
  {
    SameTear(sound, before, ready, included, fates, n);
    SameSchedules(before, ready, included, Skip(fates, n));
    LeavesJournalLater(before, included, fates, n);
    SkipSkip(fates, n, StepsToCommit(before, included, 0));
    if AtMostOneFault(fates) { OnlyFault(fates, 0, n); }
  }

  lemma StoppedAtLater(sound: Content -> bool, r: Outcome, now: Files, stop: Option<Stop>, before: Files, ready: Files,
                       included: set<Component>, fates: seq<Fate>, n: nat)
    requires SameLiveAndStaged(before, ready) && AllWork(fates, n)
    requires StoppedAt(sound, r, now, stop, ready, included, Skip(fates, n), 0)
    ensures StoppedAt(sound, r, now, stop, before, included, fates, n)
  {
    SameTask(before, ready, included);
    SkipSkip(fates, n, StepsToCommit(before, included, 0));
  }

  /** Once a database has been set aside, two snapshots are taken at most. */
  lemma RoomAfterInstall(before: Files, now: Files, included: set<Component>, committed: bool, lost: bool, room: nat)
    requires InstalledOrNot(before, now, included, committed, lost) && (committed ==> !RollbackPending(now))
    requires Has(before, Live(Database)) ==> room >= SNAPSHOT_ROOM - 2
    ensures RoomLeft(now, room, SNAPSHOT_ROOM - 2)
  {
    if RollbackPending(now) && !Has(before, Live(Database)) {
      assert LiveOf(before, Database).None?;
      assert Destiny(now, Database).None?;
    }
  }

  /** An installation that did not get to open its journal left none. */
  lemma NoJournalLeft(sound: Content -> bool, r: Outcome, now: Files, before: Files, included: set<Component>,
                      fates: seq<Fate>, n: nat)
    requires !AllWork(fates, n) && StoredJournal(now).None? && !r.Done?
    ensures AtMostOneFault(fates) ==> !TearsDatabase(sound, before, included, fates, n)
    ensures JournalLeft(sound, r, now, before, included, fates, n)
  {
    LeavesJournalLater(before, included, fates, n);
    if AtMostOneFault(fates) {
      var i :| 0 <= i < n && !FateAt(fates, i).Works?;
      assert !FateAt(fates, n + (AllSwapSteps(before, included) + ReplaceSteps(true) + 1)).Works? ==>
        i < n + (AllSwapSteps(before, included) + ReplaceSteps(true) + 1);
    }
  }

  lemma SameSteps(before: Files, ready: Files, included: set<Component>)
    requires SameLiveAndStaged(before, ready)
    ensures AllSwapSteps(ready, included) == AllSwapSteps(before, included)
  {
    SameTask(before, ready, included);
  }

  /** The loss of the database, seen from the opened journal on. */
  lemma LossLater(sound: Content -> bool, before: Files, ready: Files, included: set<Component>, fates: seq<Fate>)
    requires SameLiveAndStaged(before, ready)
    ensures LosesDatabase(sound, before, included, fates) <==>
              && Openable(sound, before) && AllWork(fates, OpeningSteps(before))
              && Has(before, Live(Database)) && LiveOf(ready, Database) != Some(Torn)
              && SaveAndCopyFail(Skip(fates, OpeningSteps(before)), AllSwapSteps(ready, included))
  {
    SameSteps(before, ready, included);
    FailureLater(fates, OpeningSteps(before), AllSwapSteps(before, included));
  }

  lemma SameRefusal(sound: Content -> bool, before: Files, now: Files)
    requires LiveOf(now, Database) == LiveOf(before, Database)
    requires Lookup(now, Staged(Database)) == Lookup(before, Staged(Database))
    ensures Refuses(sound, now, Staged(Database)) == Refuses(sound, before, Staged(Database))
    ensures Has(now, Live(Database)) == Has(before, Live(Database))
  {
  }

  /** The live database when the switch has stopped with an error: torn if the copy stops half
      way, the bundle's if it is only what was staged that could not be removed. */
  function LiveWhenStopped(before: Files, fates: seq<Fate>, n: nat): Option<Content> {
    if !AllWork(fates, n + ReplaceSteps(true) + 1) then LiveOf(before, Database)
    else if FateAt(fates, n + ReplaceSteps(true) + 1).Works? then Lookup(before, Staged(Database))
    else if FateAt(fates, n + ReplaceSteps(true) + 1).partial then Some(Torn)
    else LiveOf(before, Database)
  }

  lemma LiveWhenStoppedLater(before: Files, fates: seq<Fate>, n: nat)
    ensures AllWork(fates, n) ==> LiveWhenStopped(before, fates, n) == LiveWhenStopped(before, Skip(fates, n), 0)
    ensures !AllWork(fates, n) ==> LiveWhenStopped(before, fates, n) == LiveOf(before, Database)
  {
    SkipSkip(fates, n, ReplaceSteps(true) + 1);
  }

  lemma CopySteps(fates: seq<Fate>)
    requires AllWork(fates, ReplaceSteps(true))
    ensures Coming(Skip(fates, ReplaceSteps(true))) == FateAt(fates, ReplaceSteps(true))
    ensures FateAt(Skip(fates, ReplaceSteps(true)), 1) == FateAt(fates, ReplaceSteps(true) + 1)
    ensures AllWork(fates, ReplaceSteps(true) + 1) <==> FateAt(fates, ReplaceSteps(true)).Works?
  {
    SkipSkip(fates, ReplaceSteps(true), 1);
    ComingNext(fates, ReplaceSteps(true));
  }

  /** The save that records the switch fails with nothing published. */
  predicate SaveFailsLater(before: Files, included: set<Component>, fates: seq<Fate>) {
    var n := AllSwapSteps(before, included);
    AllWork(fates, n) && Unpublished(Skip(fates, n)).Some?
  }

  lemma FailureSavesNothing(before: Files, included: set<Component>, fates: seq<Fate>)
    requires SaveAndCopyFail(fates, AllSwapSteps(before, included))
    ensures SaveFailsLater(before, included, fates)
  {
    FailureAfter(fates, AllSwapSteps(before, included));
  }

  /** Where the switch has stopped with an error, in terms of the disk and the schedule before
      it. In particular, it says exactly when it stops with a started database switch that the
      durable journal knows nothing of. */
  ghost predicate SwitchStopped(before: Files, now: Files, included: set<Component>, j: Journal, f0: seq<Fate>, left: seq<Fate>) {
    var n := AllSwapSteps(before, included);
    && (Has(now, JournalBackup) <==> LeavesJournal(before, included, f0, 0))
    && (!SwitchRecorded(now, j) <==> SaveFailsLater(before, included, f0))
    && (!SwitchRecorded(now, j) ==> left == Skip(f0, n + Unpublished(Skip(f0, n)).value))
    && LiveOf(now, Database) == LiveWhenStopped(before, f0, n)
  }

  /** The same for the last part of the switch. */
  ghost predicate DatabaseStopped(before: Files, now: Files, j: Journal, f1: seq<Fate>, left: seq<Fate>) {
    && (Has(now, JournalBackup) <==> LeavesBackup(f1, 0))
    && (!SwitchRecorded(now, j) <==> Unpublished(f1).Some?)
    && (!SwitchRecorded(now, j) ==> left == Skip(f1, Unpublished(f1).value))
    && LiveOf(now, Database) == LiveWhenStopped(before, f1, 0)
  }

  lemma StoppedLate(before: Files, now: Files, included: set<Component>, j: Journal, f0: seq<Fate>, f1: seq<Fate>, left: seq<Fate>)
    requires AllWork(f0, AllSwapSteps(before, included)) && f1 == Skip(f0, AllSwapSteps(before, included))
    requires DatabaseStopped(before, now, j, f1, left) && !SwapsLeave(before, included, f0, 0)
    ensures SwitchStopped(before, now, included, j, f0, left)
  {
    var n := AllSwapSteps(before, included);
    LiveWhenStoppedLater(before, f0, n);
    LeavesBackupLater(f0, n, 0);
    if Unpublished(f1).Some? { SkipSkip(f0, n, Unpublished(f1).value); }
  }

  lemma StoppedEarly(before: Files, now: Files, included: set<Component>, j: Journal, f0: seq<Fate>, left: seq<Fate>)
    requires !AllWork(f0, AllSwapSteps(before, included)) && SwitchRecorded(now, j)
    requires Has(now, JournalBackup) <==> SwapsLeave(before, included, f0, 0)
    requires LiveOf(now, Database) == LiveOf(before, Database)
    ensures SwitchStopped(before, now, included, j, f0, left)
  {
    var n := AllSwapSteps(before, included);
    LiveWhenStoppedLater(before, f0, n);
    LeavesBackupLater(f0, n, 0);
  }

  /** The loss of the database, seen from before the switch. */
  lemma LostLater(sound: Content -> bool, before: Files, now: Files, included: set<Component>, start: Journal, j: Journal,
                  f0: seq<Fate>, left: seq<Fate>)
    requires SafetyTaken(before, start) && start.databaseHadLive == Has(before, Live(Database))
    requires Stopped(before, now, start, j) && SwitchStopped(before, now, included, j, f0, left)
    requires Openable(sound, before)
    ensures TearsUnrecorded(sound, now, j, left) <==>
              && start.databaseHadLive && LiveOf(before, Database) != Some(Torn)
              && SaveAndCopyFail(f0, AllSwapSteps(before, included))
  {
    var n := AllSwapSteps(before, included);
    FailureAfter(f0, n);
    if SaveFailsLater(before, included, f0) {
      var saved := Skip(f0, n);
      var k := Unpublished(saved).value;
      SkipSkip(f0, n, k);
      ComingNext(saved, k);
      SkipSkip(saved, k, 1);
    }
  }

  /** When the rollback cannot begin, seen from before the switch. */
  lemma RefusedWhen(sound: Content -> bool, before: Files, now: Files, included: set<Component>, start: Journal, j: Journal,
                    f0: seq<Fate>, left: seq<Fate>)
    requires SafetyTaken(before, start) && start.databaseHadLive == Has(before, Live(Database))
    requires Stopped(before, now, start, j) && SwitchStopped(before, now, included, j, f0, left)
    requires Openable(sound, before) && forall c :: Undo(now, j, c) == LiveOf(before, c)
    requires Has(before, Staged(Database)) && sound(before[Staged(Database)])
    ensures Blocked(sound, now, j) <==> LiveRefused(sound, before, included, f0)
    ensures !NeedsLostSafety(now, j)
  {
  }

  /** The live database, if there is one, passes the service's check. */
  predicate Openable(sound: Content -> bool, files: Files) {
    Has(files, Live(Database)) ==> sound(files[Live(Database)])
  }

  lemma NothingInstalled(before: Files, now: Files, included: set<Component>)
    requires WellFormed(now) && forall c :: Destiny(now, c) == LiveOf(before, c)
    ensures InstalledOrNot(before, now, included, false, false)
  {
  }

  lemma CommittedOrNot(before: Files, switched: Files, now: Files, included: set<Component>, j: Journal, committed: bool)
    requires WellFormed(now) && AllBundled(before, switched, included)
    requires forall c :: Undo(switched, j, c) == LiveOf(before, c)
    requires forall c :: Destiny(now, c) == if committed then LiveOf(switched, c) else Undo(switched, j, c)
    ensures InstalledOrNot(before, now, included, committed, false)
  {
  }

  lemma SameResult(before: Files, ready: Files, now: Files, included: set<Component>, committed: bool, lost: bool)
    requires SameLiveAndStaged(before, ready)
    requires InstalledOrNot(ready, now, included, committed, lost)
    ensures InstalledOrNot(before, now, included, committed, lost)
    ensures AllBundled(ready, now, included) ==> AllBundled(before, now, included)
  {
    SameTask(before, ready, included);
    assert LiveOf(ready, Database) == LiveOf(before, Database);
  }

  /** An error, and two or three steps later something that stops half way. */
  ghost predicate Risky(fates: seq<Fate>) {
    exists i :: 0 <= i < |fates| && fates[i].Errs?
      && (IsPartialFault(FateAt(fates, i + 2)) || IsPartialFault(FateAt(fates, i + 3)))
  }

  /** The step that erred when a save was not published. */
  function ErredAt(k: nat): nat {
    if k == 5 then 3 else if k == 0 then 0 else k - 1
  }

  lemma UnpublishedErrs(fates: seq<Fate>)
    requires Unpublished(fates).Some?
    ensures var k := Unpublished(fates).value;
      FateAt(fates, ErredAt(k)).Errs? && (k == ErredAt(k) + 1 || k == ErredAt(k) + 2)
  {
    SkipSkip(fates, 2, 0);
    SkipSkip(fates, 2, 1);
  }

  /** Losing the database takes an error and then a fault, so no crash alone does it, and
      no schedule in which every step is all or nothing. */
  lemma LossIsRisky(sound: Content -> bool, files: Files, included: set<Component>, fates: seq<Fate>)
    requires LosesDatabase(sound, files, included, fates)
    ensures Risky(fates)
  {
    var n := StepsToSwitch(files, included);
    FailureAfter(fates, n);
    var k := Unpublished(Skip(fates, n)).value;
    UnpublishedErrs(Skip(fates, n));
    SkipSkip(fates, n, ErredAt(k));
    SkipSkip(fates, n, k + 1);
    var i := n + ErredAt(k);
    assert FateAt(fates, i).Errs?;
    assert n + k + 1 == i + 2 || n + k + 1 == i + 3;
  }

  lemma {:induction false} RestIsNoRiskier(after: seq<Fate>, before: seq<Fate>)
    requires IsRest(after, before) && Risky(after)
    ensures Risky(before)
  {
    if after == before {
    } else {
      var later := Later(before);
      RestIsNoRiskier(after, later);
      var i :| 0 <= i < |later| && later[i].Errs?
                 && (IsPartialFault(FateAt(later, i + 2)) || IsPartialFault(FateAt(later, i + 3)));
      assert before[i + 1] == later[i];
      assert FateAt(before, i + 1 + 2) == FateAt(later, i + 2) && FateAt(before, i + 1 + 3) == FateAt(later, i + 3);
    }
  }

  predicate CopiesSafety(files: Files, j: Journal) {
    j.databaseSwitchStarted && j.databaseHadLive && j.safety.Some? && Has(files, Safety(j.safety.value))
  }

  /** How many later snapshots the backup directory takes before it drops a safety database:
      it keeps the newest one and four others. */
  const SNAPSHOT_ROOM: nat := Snapshots.RETAINED - 1

  /** What the database service does not begin with: a source, or a live database that it would
      have to take a snapshot of, that does not pass its check. */
  predicate Refuses(sound: Content -> bool, files: Files, source: Path) {
    Has(files, source)
    && (!sound(files[source]) || (Has(files, Live(Database)) && !sound(files[Live(Database)])))
  }

  /** The first step of replacing the database gets as far as its snapshot. */
  predicate SnapshotTaken(sound: Content -> bool, files: Files, source: Path, fate: Fate) {
    && Has(files, source) && Has(files, Live(Database)) && !Refuses(sound, files, source)
    && (fate.Works? || fate.partial)
  }

  /** The snapshot makes the backup directory drop the source. */
  predicate SourceDropped(sound: Content -> bool, files: Files, source: Path, fate: Fate, room: nat) {
    source.Safety? && room == 0 && SnapshotTaken(sound, files, source, fate)
  }

  /** Replacing the database takes three steps: the preparation, the copy, and the removal of
      what was staged. */
  const COPY_STEPS: nat := 3

  /** The live database once it has been replaced, as far as the fates allow. */
  function LiveAfter(sound: Content -> bool, files: Files, source: Path, fates: seq<Fate>): Option<Content> {
    if !Has(files, source) || Refuses(sound, files, source) || !Coming(fates).Works? then LiveOf(files, Database)
    else if FateAt(fates, 1).Works? then Lookup(files, source)
    else if FateAt(fates, 1).partial then Some(Torn)
    else LiveOf(files, Database)
  }

  /** A rollback by `j` cannot begin. */
  predicate Blocked(sound: Content -> bool, files: Files, j: Journal) {
    CopiesSafety(files, j) && Refuses(sound, files, Safety(j.safety.value))
  }

  /** The snapshot of the next rollback will make the backup directory drop the safety
      database. */
  predicate Doomed(files: Files, j: Journal, room: nat) {
    room == 0 && CopiesSafety(files, j) && Has(files, Live(Database))
  }

  predicate SafetyGone(before: Files, now: Files, j: Journal) {
    CopiesSafety(before, j) && !Has(now, Safety(j.safety.value))
  }

  /** How many steps it takes to undo a swap, all swaps from number `i` on, and everything. */
  function UndoSteps(files: Files, j: Journal, s: Swap): nat {
    if Has(files, Old(s.component, j.id)) then OneIf(Has(files, Live(s.component))) + 1
    else if s.hadLive then 0
    else OneIf(Has(files, Live(s.component)))
  }

  function UndoCounts(files: Files, j: Journal): (counts: seq<nat>)
    ensures |counts| == |j.swaps|
  {
    seq(|j.swaps|, i requires 0 <= i < |j.swaps| => UndoSteps(files, j, j.swaps[i]))
  }

  function SumFrom(counts: seq<nat>, i: nat): nat
    requires i <= |counts|
    decreases |counts| - i
  {
    if i == |counts| then 0 else SumFrom(counts, i + 1) + counts[i]
  }

  function AllUndoSteps(files: Files, j: Journal): nat {
    SumFrom(UndoCounts(files, j), 0)
  }

  function FinishSteps(files: Files, j: Journal): nat {
    OneIf(j.safety.Some? && Has(files, Safety(j.safety.value))) + OneIf(!j.databaseHadLive && Has(files, Live(Database)))
  }

  function RollbackSteps(files: Files, j: Journal, room: nat): nat {
    (if CopiesSafety(files, j) then COPY_STEPS else 0)
    + (AllUndoSteps(files, j) + (if Doomed(files, j, room) then 0 else FinishSteps(files, j)))
  }

  /** A save that fails leaves the earlier journal exactly if `Unpublished` says so. */
  ghost predicate SaveFailed(r: Outcome, j: Journal, before: Option<Content>, now: Option<Content>,
                             start: seq<Fate>, left: seq<Fate>)
  {
    match Unpublished(start)
    case Some(k) => r.Failed? && now == before && left == Skip(start, k)
    case None => r.Failed? ==> now == Some(Record(j))
  }

  class Service {
    const disk: Disk<Path, Content>
    /** Whether a database passes the service's check. */
    const sound: Content -> bool
    /** How many more snapshots the safety database survives. */
    var room: nat

    constructor (disk: Disk<Path, Content>, sound: Content -> bool, room: nat)
      ensures this.disk == disk && this.sound == sound && this.room == room
    {
      this.disk, this.sound, this.room := disk, sound, room;
    }

    /** What `MaintenanceService::restore` does before the switch: it checks the source and
        stages a copy of it, takes a snapshot of the live database, and prunes the backup
        directory. */
    method PrepareRestore(source: Path) returns (r: Outcome, staged: Option<Content>)
      requires source != Live(Database) && (source.Safety? || room > 0 || !Has(disk.files, Live(Database)))
      modifies disk, this`room
      ensures disk.fates == Later(old(disk.fates))
      ensures r == if (!Has(old(disk.files), source) || Refuses(sound, old(disk.files), source)) && Coming(old(disk.fates)).Works?
                   then Failed else Ended(Coming(old(disk.fates)))
      ensures r.Done? ==> staged == Lookup(old(disk.files), source)
      ensures disk.files == if SourceDropped(sound, old(disk.files), source, Coming(old(disk.fates)), old(room))
                            then old(disk.files) - {source} else old(disk.files)
      ensures room == if SnapshotTaken(sound, old(disk.files), source, Coming(old(disk.fates))) && old(room) > 0
                      then old(room) - 1 else old(room)
    {
      var fate := Coming(disk.fates);
      r, staged := Ended(fate), Lookup(disk.files, source);
      disk.fates := Later(disk.fates);
      if !Has(disk.files, source) || Refuses(sound, disk.files, source) {
        if r.Done? { r := Failed; }
        return;
      }
      if Has(disk.files, Live(Database)) && (fate.Works? || fate.partial) {
        if room > 0 {
          room := room - 1;
        } else if source.Safety? {
          disk.files := disk.files - {source};
        }
      }
    }

    /** `MaintenanceService::restore`, by contract: after its preparation it copies the staged
        database over the live one, which a fault can leave torn, and removes what it has
        staged. If only that fails the restore fails, though the database has been replaced. */
    method RestoreDatabase(source: Path) returns (r: Outcome)
      requires source != Live(Database) && (source.Safety? || room > 0 || !Has(disk.files, Live(Database)))
      modifies disk, this`room
      ensures SameOutside(old(disk.files), disk.files, {Live(Database), source})
      ensures Lookup(disk.files, source) ==
                if SourceDropped(sound, old(disk.files), source, Coming(old(disk.fates)), old(room))
                then None else Lookup(old(disk.files), source)
      ensures LiveOf(disk.files, Database) == LiveAfter(sound, old(disk.files), source, old(disk.fates))
      ensures r.Done? ==> LiveOf(disk.files, Database) == Lookup(old(disk.files), source)
      ensures room == if SnapshotTaken(sound, old(disk.files), source, Coming(old(disk.fates))) && old(room) > 0
                      then old(room) - 1 else old(room)
      ensures !Has(old(disk.files), source) || Refuses(sound, old(disk.files), source) ==>
                !r.Done? && disk.files == old(disk.files) && disk.fates == Later(old(disk.fates))
                && (r.Failed? <==> !Coming(old(disk.fates)).Dies?)
      ensures Has(old(disk.files), source) && !Refuses(sound, old(disk.files), source) ==>
                Ran(r, old(disk.fates), disk.fates, COPY_STEPS)
      ensures IsRest(disk.fates, old(disk.fates))
    {
      SkipThree(disk.fates);
      OnlyFaultSoon(disk.fates);
      var staged;
      r, staged := PrepareRestore(source);
      if !r.Done? { return; }
      var fate := Coming(disk.fates);
      r := Ended(fate);
      disk.fates := Later(disk.fates);
      if !r.Done? {
        if fate.partial { disk.files := disk.files[Live(Database) := Torn]; }
        return;
      }
      disk.files := disk.files[Live(Database) := staged.value];
      fate := Coming(disk.fates);
      r := Ended(fate);
      disk.fates := Later(disk.fates);
      assert IsRest(disk.fates, Later(old(disk.fates)));
    }

    method RemoveLive(c: Component) returns (r: Outcome)
      modifies disk
      ensures SameOutside(old(disk.files), disk.files, {Live(c)})
      ensures r.Done? ==> !Has(disk.files, Live(c))
      ensures LiveOf(disk.files, c) == None || LiveOf(disk.files, c) == Some(Torn) || disk.files == old(disk.files)
      ensures !Has(old(disk.files), Live(c)) ==> r.Done? && disk.files == old(disk.files)
      ensures IsRest(disk.fates, old(disk.fates))
      ensures Faultless(old(disk.fates)) ==> r.Done? && Faultless(disk.fates)
      ensures Took(r, old(disk.fates), disk.fates, OneIf(Has(old(disk.files), Live(c))))
    {
      r := Done;
      ghost var start := disk.fates;
      TookNothing(start);
      if Has(disk.files, Live(c)) {
        if IsTree(c) {
          r := disk.RemoveTree(Live(c), Torn);
        } else {
          r := disk.RemoveFile(Live(c));
        }
        TookOne(r, start, disk.fates);
      }
    }

    method RemoveOld(c: Component, id: nat) returns (r: Outcome)
      modifies disk
      ensures SameOutside(old(disk.files), disk.files, {Old(c, id)})
      ensures r.Done? ==> !Has(disk.files, Old(c, id))
      ensures Has(disk.files, Old(c, id)) ==> Has(old(disk.files), Old(c, id))
      ensures IsRest(disk.fates, old(disk.fates))
      ensures Faultless(old(disk.fates)) ==> r.Done? && Faultless(disk.fates)
    {
      r := Done;
      if Has(disk.files, Old(c, id)) {
        if IsTree(c) {
          r := disk.RemoveTree(Old(c, id), Torn);
        } else {
          r := disk.RemoveFile(Old(c, id));
        }
      }
    }

    method RemoveSafety(safety: Option<nat>) returns (r: Outcome)
      modifies disk
      ensures safety.None? ==> disk.files == old(disk.files)
      ensures safety.Some? ==> SameOutside(old(disk.files), disk.files, {Safety(safety.value)})
      ensures safety.Some? && Has(disk.files, Safety(safety.value)) ==> disk.files == old(disk.files)
      ensures r.Done? && safety.Some? ==> !Has(disk.files, Safety(safety.value))
      ensures IsRest(disk.fates, old(disk.fates))
      ensures Faultless(old(disk.fates)) ==> r.Done? && Faultless(disk.fates)
      ensures Took(r, old(disk.fates), disk.fates, OneIf(safety.Some? && Has(old(disk.files), Safety(safety.value))))
    {
      r := Done;
      ghost var start := disk.fates;
      TookNothing(start);
      if safety.Some? && Has(disk.files, Safety(safety.value)) {
        r := disk.RemoveFile(Safety(safety.value));
        TookOne(r, start, disk.fates);
      }
    }

    method SaveJournal(j: Journal) returns (r: Outcome)
      modifies disk
      ensures SameOutside(old(disk.files), disk.files, {JournalFile, JournalBackup})
      ensures r.Done? ==> Lookup(disk.files, JournalFile) == Some(Record(j)) && !Has(disk.files, JournalBackup)
      ensures StoredJournal(disk.files) == StoredJournal(old(disk.files)) || StoredJournal(disk.files) == Some(Record(j))
      ensures !Has(old(disk.files), JournalBackup) && Has(disk.files, JournalBackup) ==>
                Lookup(disk.files, JournalBackup) == StoredJournal(old(disk.files))
      ensures Faultless(old(disk.fates)) ==> r.Done? && Faultless(disk.fates)
      ensures !Has(old(disk.files), JournalBackup) ==>
                Ran(r, old(disk.fates), disk.fates, ReplaceSteps(Has(old(disk.files), JournalFile)))
      ensures !Has(old(disk.files), JournalBackup) && Has(old(disk.files), JournalFile) ==>
                SaveFailed(r, j, StoredJournal(old(disk.files)), StoredJournal(disk.files), old(disk.fates), disk.fates)
      ensures StoredJournal(old(disk.files)).None? && !r.Done? ==> disk.files == old(disk.files)
      ensures !Has(old(disk.files), JournalBackup) && Has(old(disk.files), JournalFile) ==>
                (r.Failed? && Has(disk.files, JournalBackup) <==> LeavesBackup(old(disk.fates), 0))
    {
      r := disk.ReplaceFile(JournalFile, JournalBackup, Record(j));
    }

    /** Undoes one swap: put the old copy back, or remove what did not exist before. */
    method RollbackSwap(j: Journal, s: Swap) returns (r: Outcome)
      requires s.component != Database && Coherent(disk.files, j) && s in j.swaps
      modifies disk
      ensures SameOutside(old(disk.files), disk.files, {Live(s.component), Old(s.component, j.id)})
      ensures Rewound(old(disk.files), disk.files, j, s.component)
      ensures r.Done? ==>
                && !Has(disk.files, Old(s.component, j.id))
                && LiveOf(disk.files, s.component) == Undo(old(disk.files), j, s.component)
      ensures IsRest(disk.fates, old(disk.fates))
      ensures Faultless(old(disk.fates)) ==> r.Done? && Faultless(disk.fates)
      ensures Took(r, old(disk.fates), disk.fates, UndoSteps(old(disk.files), j, s))
    {
      var live, saved := Live(s.component), Old(s.component, j.id);
      r := Done;
      ghost var start, present := disk.fates, OneIf(Has(disk.files, live));
      TookNothing(start);
      if Has(disk.files, saved) {
        r := RemoveLive(s.component);
        ghost var removed := disk.fates;
        if !r.Done? {
          TookMore(r, start, removed, present, 1);
          return;
        }
        r := disk.Rename(saved, live);
        TookOne(r, removed, disk.fates);
        TookThen(start, removed, disk.fates, present, 1, r);
        RestOfRest(disk.fates, removed, start);
      } else if !s.hadLive {
        r := RemoveLive(s.component);
      } else {
        assert Swap(s.component, false) !in j.swaps;
      }
    }

    /** One round of undoing the recorded swaps, which have taken some steps so far. */
    method RollbackNext(ghost before: Files, ghost start: seq<Fate>, j: Journal, i: nat, ghost taken: nat, ghost next: nat)
      returns (r: Outcome)
      requires i < |j.swaps| && UndoneFrom(before, disk.files, j, i + 1) && IsRest(disk.fates, start)
      requires Took(Done, start, disk.fates, taken) && next == UndoSteps(before, j, j.swaps[i])
      modifies disk
      ensures OnlySwapsMoved(before, disk.files) && Coherent(disk.files, j)
      ensures forall c :: c != Database ==> Rewound(before, disk.files, j, c)
      ensures r.Done? ==> UndoneFrom(before, disk.files, j, i)
      ensures IsRest(disk.fates, start) && Took(r, start, disk.fates, taken + next)
    {
      ghost var mid, left := disk.files, disk.fates;
      assert Untouched(before, mid, j.id, j.swaps[i].component);
      r := RollbackSwap(j, j.swaps[i]);
      RestOfRest(disk.fates, left, start);
      UndoneStep(before, mid, disk.files, j, i, r.Done?);
      TookThen(start, left, disk.fates, taken, next, r);
    }

    /** Undoes the recorded swaps, last one first. */
    method RollbackSwaps(j: Journal) returns (r: Outcome)
      requires Coherent(disk.files, j)
      modifies disk
      ensures OnlySwapsMoved(old(disk.files), disk.files)
      ensures Coherent(disk.files, j)
      ensures forall c :: c != Database ==> Rewound(old(disk.files), disk.files, j, c)
      ensures r.Done? ==> forall c :: c != Database ==>
                !Has(disk.files, Old(c, j.id)) && LiveOf(disk.files, c) == Undo(old(disk.files), j, c)
      ensures IsRest(disk.fates, old(disk.fates))
      ensures Took(r, old(disk.fates), disk.fates, AllUndoSteps(old(disk.files), j))
    {
      r := Done;
      ghost var before, start, counts := disk.files, disk.fates, UndoCounts(disk.files, j);
      var i := |j.swaps|;
      TookNothing(start);
      while i > 0
        invariant 0 <= i <= |j.swaps| && r.Done?
        invariant UndoneFrom(before, disk.files, j, i)
        invariant IsRest(disk.fates, start) && Took(Done, start, disk.fates, SumFrom(counts, i))
      {
        i := i - 1;
        r := RollbackNext(before, start, j, i, SumFrom(counts, i + 1), counts[i]);
        if !r.Done? {
          SumGrows(counts, i);
          TookMore(r, start, disk.fates, SumFrom(counts, i), SumFrom(counts, 0) - SumFrom(counts, i));
          return;
        }
      }
      UndoneAll(before, disk.files, j);
    }

    /** The same, seen from before the database was put back. */
    method RollbackSwapsAfter(ghost before: Files, j: Journal) returns (r: Outcome)
      requires Coherent(before, j) && Rewinding(before, disk.files, j)
      requires forall c :: c != Database ==> Untouched(before, disk.files, j.id, c)
      requires j.databaseHadLive ==> LiveOf(disk.files, Database) == Undo(before, j, Database)
      modifies disk
      ensures Rewinding(before, disk.files, j)
      ensures r.Done? ==> AllPutBack(before, disk.files, j)
      ensures LiveOf(disk.files, Database) == LiveOf(old(disk.files), Database)
      ensures SafetyPresent(disk.files, j) <==> SafetyPresent(old(disk.files), j)
      ensures IsRest(disk.fates, old(disk.fates)) && Took(r, old(disk.fates), disk.fates, AllUndoSteps(before, j))
    {
      ghost var copied := disk.files;
      SameUndoSteps(before, copied, j);
      r := RollbackSwaps(j);
      SwapsAreRewinding(before, copied, disk.files, j);
    }

    /** The first steps of a rollback: the database, if its switch had started. */
    method RollbackDatabase(j: Journal) returns (r: Outcome)
      requires Coherent(disk.files, j)
      modifies disk, this`room
      ensures RewindingSwaps(old(disk.files), disk.files, j)
      ensures forall c :: c != Database ==> Untouched(old(disk.files), disk.files, j.id, c)
      ensures r.Done? || !SafetyGone(old(disk.files), disk.files, j) ==> Rewinding(old(disk.files), disk.files, j)
      ensures SafetyGone(old(disk.files), disk.files, j) ==> Doomed(old(disk.files), j, old(room))
      ensures r.Done? && Doomed(old(disk.files), j, old(room)) ==> SafetyGone(old(disk.files), disk.files, j)
      ensures r.Done? && j.databaseHadLive ==> LiveOf(disk.files, Database) == Undo(old(disk.files), j, Database)
      ensures NeedsLostSafety(old(disk.files), j) || Blocked(sound, old(disk.files), j) ==>
                !r.Done? && disk.files == old(disk.files) && room == old(room)
      ensures IsRest(disk.fates, old(disk.fates))
      ensures !NeedsLostSafety(old(disk.files), j) && !Blocked(sound, old(disk.files), j) ==>
                Took(r, old(disk.fates), disk.fates, if CopiesSafety(old(disk.files), j) then COPY_STEPS else 0)
      ensures Faultless(old(disk.fates)) ==> Faultless(disk.fates) && !r.Crashed?
      ensures CopiesSafety(old(disk.files), j) ==>
                LiveOf(disk.files, Database) == LiveAfter(sound, old(disk.files), Safety(j.safety.value), old(disk.fates))
      ensures room <= old(room) <= room + 1
      ensures !(j.databaseSwitchStarted && j.databaseHadLive) ==> disk.files == old(disk.files)
    {
      if !(j.databaseSwitchStarted && j.databaseHadLive) {
        TookNothing(disk.fates);
        return Done;
      }
      ghost var before := disk.files;
      SkipThree(disk.fates);
      r := RestoreDatabase(Safety(j.safety.value));
      CopyMovesNoSwaps(before, disk.files, j, Safety(j.safety.value));
      if SafetyGone(before, disk.files, j) {
        if r.Done? { DroppedCopyIsRewinding(before, disk.files, j); }
      } else {
        CopyIsRewinding(before, disk.files, j);
      }
    }

    /** The last steps of a rollback that has put everything back: drop the safety
        database, and the database itself if there was none before. */
    method FinishRollback(ghost before: Files, j: Journal) returns (r: Outcome)
      requires Rewinding(before, disk.files, j) && AllPutBack(before, disk.files, j)
      modifies disk
      ensures Rewinding(before, disk.files, j) && AllPutBack(before, disk.files, j)
      ensures r.Done? ==> Undone(before, disk.files, j)
      ensures j.databaseHadLive ==> LiveOf(disk.files, Database) == LiveOf(old(disk.files), Database)
      ensures IsRest(disk.fates, old(disk.fates))
      ensures Took(r, old(disk.fates), disk.fates, FinishSteps(old(disk.files), j))
    {
      ghost var swapped, start := disk.files, disk.fates;
      ghost var kept, live := OneIf(j.safety.Some? && Has(swapped, Safety(j.safety.value))),
                              OneIf(!j.databaseHadLive && Has(swapped, Live(Database)));
      r := RemoveSafety(j.safety);
      DroppingIsRewinding(before, swapped, disk.files, j);
      ghost var dropped, left := disk.files, disk.fates;
      if !r.Done? {
        TookMore(r, start, left, kept, live);
        return;
      }
      if j.databaseHadLive { return; }
      r := RemoveLive(Database);
      TookThen(start, left, disk.fates, kept, live, r);
      RestOfRest(disk.fates, left, start);
      RemovingIsRewinding(before, dropped, disk.files, j);
    }

    /** Undoes an uncommitted restore. A rollback that is cut short can be started again:
        what it is going to produce does not change on the way. The exception is `dropped`:
        the snapshot it took has made the backup directory drop the safety database, before
        everything was put back. */
    method RollbackFromJournal(j: Journal) returns (r: Outcome, ghost dropped: bool)
      requires Coherent(disk.files, j)
      modifies disk, this`room
      ensures RewindingSwaps(old(disk.files), disk.files, j)
      ensures !dropped ==> Rewinding(old(disk.files), disk.files, j)
      ensures r.Done? ==> Undone(old(disk.files), disk.files, j) && !dropped
      // otherwise, once the safety database is gone, everything recorded is already undone
      ensures !dropped && SafetyPresent(old(disk.files), j) && !SafetyPresent(disk.files, j) ==>
                AllPutBack(old(disk.files), disk.files, j)
      ensures dropped ==> Doomed(old(disk.files), j, old(room)) && SafetyGone(old(disk.files), disk.files, j)
      ensures NeedsLostSafety(old(disk.files), j) || Blocked(sound, old(disk.files), j) ==>
                !r.Done? && disk.files == old(disk.files) && room == old(room)
      ensures IsRest(disk.fates, old(disk.fates))
      ensures !NeedsLostSafety(old(disk.files), j) && !Blocked(sound, old(disk.files), j) ==>
                Took(r, old(disk.fates), disk.fates, RollbackSteps(old(disk.files), j, old(room)))
      ensures Faultless(old(disk.fates)) ==>
                && Faultless(disk.fates)
                && r == if NeedsLostSafety(old(disk.files), j) || Blocked(sound, old(disk.files), j) then Failed else Done
      // its first steps copy the safety database, as their fates have it
      ensures CopiesSafety(old(disk.files), j) ==>
                LiveOf(disk.files, Database) == LiveAfter(sound, old(disk.files), Safety(j.safety.value), old(disk.fates))
      ensures room <= old(room) <= room + 1
    {
      ghost var before, start, full := disk.files, disk.fates, room;
      r := RollbackDatabase(j);
      ghost var copied, left := disk.files, disk.fates;
      dropped := SafetyGone(before, copied, j);
      if !r.Done? {
        if !NeedsLostSafety(before, j) && !Blocked(sound, before, j) {
          RollbackAccount(before, j, full, r, start, left, r, left);
        }
        return;
      }
      FinishStepsAre(before, copied, j, full);
      r := RollbackRest(before, j);
      dropped := dropped && !r.Done? && !AllPutBack(before, disk.files, j);
      RestOfRest(disk.fates, left, start);
      RollbackAccount(before, j, full, Done, start, left, r, disk.fates);
    }

    /** What follows once the database is back. */
    method RollbackRest(ghost before: Files, j: Journal) returns (r: Outcome)
      requires Coherent(before, j) && Rewinding(before, disk.files, j)
      requires forall c :: c != Database ==> Untouched(before, disk.files, j.id, c)
      requires j.databaseHadLive ==> LiveOf(disk.files, Database) == Undo(before, j, Database)
      modifies disk
      ensures Rewinding(before, disk.files, j)
      ensures r.Done? ==> Undone(before, disk.files, j)
      ensures (SafetyPresent(disk.files, j) <==> SafetyPresent(old(disk.files), j)) || AllPutBack(before, disk.files, j)
      ensures IsRest(disk.fates, old(disk.fates))
      ensures Took(r, old(disk.fates), disk.fates, AllUndoSteps(before, j) + FinishSteps(old(disk.files), j))
      ensures j.databaseHadLive ==> LiveOf(disk.files, Database) == LiveOf(old(disk.files), Database)
    {
      ghost var copied, start := disk.files, disk.fates;
      r := RollbackSwapsAfter(before, j);
      ghost var swapped, left := disk.files, disk.fates;
      assert FinishSteps(swapped, j) == FinishSteps(copied, j);
      if !r.Done? {
        TookMore(r, start, left, AllUndoSteps(before, j), FinishSteps(copied, j));
        return;
      }
      r := FinishRollback(before, j);
      TookThen(start, left, disk.fates, AllUndoSteps(before, j), FinishSteps(copied, j), r);
      RestOfRest(disk.fates, left, start);
    }

    /** Drops the set-aside copies of a committed restore. */
    method RemoveOldCopies(j: Journal) returns (r: Outcome)
      requires Coherent(disk.files, j)
      modifies disk
      ensures OnlyLeftoversRemoved(old(disk.files), disk.files)
      ensures r.Done? ==> forall k :: 0 <= k < |j.swaps| ==> !Has(disk.files, Old(j.swaps[k].component, j.id))
      ensures IsRest(disk.fates, old(disk.fates))
      ensures Faultless(old(disk.fates)) ==> r.Done? && Faultless(disk.fates)
    {
      r := Done;
      ghost var before, start := disk.files, disk.fates;
      var i := 0;
      while i < |j.swaps|
        invariant 0 <= i <= |j.swaps| && r.Done?
        invariant OnlyLeftoversRemoved(before, disk.files)
        invariant forall k :: 0 <= k < i ==> !Has(disk.files, Old(j.swaps[k].component, j.id))
        invariant IsRest(disk.fates, start) && (Faultless(start) ==> Faultless(disk.fates))
      {
        ghost var left := disk.fates;
        r := RemoveOld(j.swaps[i].component, j.id);
        RestOfRest(disk.fates, left, start);
        if !r.Done? { return; }
        i := i + 1;
      }
    }

    lemma NoOldCopies(files: Files, j: Journal)
      requires Coherent(files, j) && forall k :: 0 <= k < |j.swaps| ==> !Has(files, Old(j.swaps[k].component, j.id))
      ensures forall c :: !Has(files, Old(c, j.id))
    {
      forall c | Swap(c, true) in j.swaps ensures !Has(files, Old(c, j.id)) {
        var k :| 0 <= k < |j.swaps| && j.swaps[k] == Swap(c, true);
      }
    }

    /** Drops what a committed restore no longer needs. */
    method CleanupCommittedRestore(j: Journal) returns (r: Outcome)
      requires Coherent(disk.files, j)
      modifies disk
      ensures OnlyLeftoversRemoved(old(disk.files), disk.files)
      ensures Coherent(disk.files, j)
      ensures r.Done? ==> NoLeftovers(disk.files, j)
      ensures IsRest(disk.fates, old(disk.fates))
      ensures Faultless(old(disk.fates)) ==> r.Done? && Faultless(disk.fates)
    {
      ghost var start := disk.fates;
      r := RemoveOldCopies(j);
      if !r.Done? { return; }
      ghost var left := disk.fates;
      NoOldCopies(disk.files, j);
      r := RemoveSafety(j.safety);
      RestOfRest(disk.fates, left, start);
    }

    /** Deals with the journal on disk, all but the journal file itself. */
    method ResolveJournal(j: Journal) returns (r: Outcome, ghost dropped: bool)
      requires StoredJournal(disk.files) == Some(Record(j)) && Coherent(disk.files, j)
      modifies disk, this`room
      ensures WellFormed(disk.files) && SameDestinyUnless(old(disk.files), disk.files, dropped)
      ensures SameJournalAndStage(old(disk.files), disk.files)
      ensures r.Done? ==> !dropped && forall c :: LiveOf(disk.files, c) == Destiny(old(disk.files), c)
      ensures r.Done? ==> NoLeftovers(disk.files, j)
      ensures Stuck(old(disk.files)) || Halted(sound, old(disk.files)) ==>
                !r.Done? && disk.files == old(disk.files) && room == old(room)
      ensures StuckShowsDestiny(old(disk.files)) && !dropped ==> StuckShowsDestiny(disk.files)
      ensures dropped ==> WillDrop(old(disk.files), old(room)) && Stuck(disk.files)
      ensures room <= old(room) <= room + 1 && (CopiesSafety(disk.files, j) ==> CopiesSafety(old(disk.files), j))
      ensures IsRest(disk.fates, old(disk.fates))
      ensures Faultless(old(disk.fates)) ==>
                && Faultless(disk.fates) && !dropped
                && (r.Done? <==> !Stuck(old(disk.files)) && !Halted(sound, old(disk.files)))
    {
      if j.committed {
        r := CleanupCommittedRestore(j);
        dropped := false;
      } else {
        r, dropped := ResolveRollback(j);
      }
    }

    /** The case of a restore that did not commit. */
    method ResolveRollback(j: Journal) returns (r: Outcome, ghost dropped: bool)
      requires StoredJournal(disk.files) == Some(Record(j)) && Coherent(disk.files, j) && !j.committed
      modifies disk, this`room
      ensures WellFormed(disk.files) && SameDestinyUnless(old(disk.files), disk.files, dropped)
      ensures SameJournalAndStage(old(disk.files), disk.files)
      ensures r.Done? ==> !dropped && Undone(old(disk.files), disk.files, j)
      ensures NeedsLostSafety(old(disk.files), j) || Blocked(sound, old(disk.files), j) ==>
                !r.Done? && disk.files == old(disk.files) && room == old(room)
      ensures StuckShowsDestiny(old(disk.files)) && !dropped ==> StuckShowsDestiny(disk.files)
      ensures dropped ==> Doomed(old(disk.files), j, old(room)) && Stuck(disk.files)
      ensures room <= old(room) <= room + 1 && (CopiesSafety(disk.files, j) ==> CopiesSafety(old(disk.files), j))
      ensures IsRest(disk.fates, old(disk.fates))
      ensures Faultless(old(disk.fates)) ==>
                && Faultless(disk.fates) && !dropped
                && (r.Done? <==> !NeedsLostSafety(old(disk.files), j) && !Blocked(sound, old(disk.files), j))
    {
      ghost var before := disk.files;
      r, dropped := RollbackFromJournal(j);
      if dropped {
        DroppedKeepsOthers(before, disk.files, j);
      } else {
        RewindKeepsDestiny(before, disk.files, j);
        RewindKeepsShowing(before, disk.files, j);
      }
    }

    /** Reads the journal, if there is one, after putting it back where it belongs. */
    method ReadJournal() returns (r: Outcome, j: Option<Journal>)
      requires WellFormed(disk.files)
      modifies disk
      ensures SameStateAndJournal(old(disk.files), disk.files)
      ensures r.Done? ==> !Has(disk.files, JournalBackup)
      ensures r.Done? ==> StoredJournal(old(disk.files)) == if j.Some? then Some(Record(j.value)) else None
      ensures StoredJournal(old(disk.files)).None? ==> r.Done? && disk.files == old(disk.files) && disk.fates == old(disk.fates)
      ensures !Has(old(disk.files), JournalBackup) ==> disk.files == old(disk.files)
      ensures IsRest(disk.fates, old(disk.fates))
      ensures Faultless(old(disk.fates)) ==> Faultless(disk.fates) && r.Done?
    {
      j := None;
      r := disk.RecoverFile(JournalFile, JournalBackup);
      if !r.Done? || !Has(disk.files, JournalFile) { return; }
      if !disk.files[JournalFile].Record? { return Failed, None; }
      j := Some(disk.files[JournalFile].journal);
    }

    /** Called before the state is opened. Whatever it meets and however it ends,
        the state that recovery leads to is unchanged; and when it reports
        success, that state is the live one. Without faults it always succeeds,
        unless the journal needs a safety database that is gone, or the database service
        refuses to begin. The exception is `dropped`: a recovery that does not finish, and whose
        snapshot leaves no room for the safety database, leads to another database. */
    method RecoverInterruptedRestore() returns (r: Outcome, found: bool, ghost dropped: bool)
      requires WellFormed(disk.files)
      modifies disk, this`room
      ensures WellFormed(disk.files) && SameDestinyUnless(old(disk.files), disk.files, dropped)
      ensures r.Done? ==> !dropped && StoredJournal(disk.files).None? && found == StoredJournal(old(disk.files)).Some?
      ensures r.Done? ==> forall c :: LiveOf(disk.files, c) == Destiny(old(disk.files), c)
      ensures r.Done? && found ==> NoLeftovers(disk.files, StoredJournal(old(disk.files)).value.journal)
      ensures Stuck(old(disk.files)) ==> !r.Done? && Stuck(disk.files)
      ensures Halted(sound, old(disk.files)) ==> !r.Done? && Halted(sound, disk.files)
      ensures StuckShowsDestiny(old(disk.files)) && !dropped ==> StuckShowsDestiny(disk.files)
      ensures dropped ==> WillDrop(old(disk.files), old(room)) && Stuck(disk.files)
      ensures forall n :: RoomLeft(old(disk.files), old(room), n + 1) ==> RoomLeft(disk.files, room, n)
      ensures IsRest(disk.fates, old(disk.fates))
      ensures StoredJournal(old(disk.files)).None? ==> r.Done? && disk.files == old(disk.files) && disk.fates == old(disk.fates)
      ensures Faultless(old(disk.fates)) ==>
                && Faultless(disk.fates) && !dropped
                && (r.Done? <==> !Stuck(old(disk.files)) && !Halted(sound, old(disk.files)))
    {
      ghost var before, start, full := disk.files, disk.fates, room;
      found, dropped := false, false;
      var journal;
      r, journal := ReadJournal();
      ghost var ready, left := disk.files, disk.fates;
      MovedJournal(before, ready);
      MovedJournalElse(sound, before, ready, full, 0);
      forall n { MovedJournalElse(sound, before, ready, full, n); }
      if !r.Done? || journal.None? { return; }
      found := true;
      r, dropped := ResolveJournal(journal.value);
      RestOfRest(disk.fates, left, start);
      if !r.Done? { return; }
      ghost var settled, resolved := disk.files, disk.fates;
      r := disk.RemoveFile(JournalFile);
      RestOfRest(disk.fates, resolved, start);
      DroppedJournal(ready, settled, disk.files, r.Done?);
    }

    /** Records that a component is about to be swapped. */
    method RecordSwap(c: Component, j: Journal) returns (r: Outcome, j': Journal)
      requires c != Database && !j.committed && Coherent(disk.files, j)
      requires Recorded(disk.files, j)
      requires !Has(disk.files, Old(c, j.id)) && forall s :: s in j.swaps ==> s.component != c
      modifies disk
      ensures j' == j.(swaps := j.swaps + [Swap(c, Has(old(disk.files), Live(c)))])
      ensures SameOutside(old(disk.files), disk.files, {JournalFile, JournalBackup})
      ensures Coherent(disk.files, j') && Tracked(disk.files, j')
      ensures forall x :: Undo(disk.files, j', x) == Undo(old(disk.files), j, x)
      ensures r.Done? ==> Recorded(disk.files, j')
      ensures Ran(r, old(disk.fates), disk.fates, ReplaceSteps(true))
      ensures r.Failed? && Has(disk.files, JournalBackup) <==> LeavesBackup(old(disk.fates), 0)
      ensures Has(disk.files, JournalBackup) ==> Lookup(disk.files, JournalBackup) == Some(Record(j))
    {
      ghost var before := disk.files;
      var s := Swap(c, Has(disk.files, Live(c)));
      j' := j.(swaps := j.swaps + [s]);
      r := SaveJournal(j');
      RecordingKeepsUndo(before, disk.files, j, s);
    }

    /** Moves the live copy aside and the staged one in, now that it is on record. */
    method MoveComponent(c: Component, hadLive: bool, included: bool, j: Journal) returns (r: Outcome)
      requires c != Database && !j.committed && Coherent(disk.files, j)
      requires Recorded(disk.files, j)
      requires hadLive == Has(disk.files, Live(c)) && Swap(c, hadLive) in j.swaps && !Has(disk.files, Old(c, j.id))
      modifies disk
      ensures SameOutside(old(disk.files), disk.files, {Live(c), Old(c, j.id), Staged(c)})
      ensures Coherent(disk.files, j) && Tracked(disk.files, j)
      ensures forall x :: Undo(disk.files, j, x) == Undo(old(disk.files), j, x)
      ensures Recorded(disk.files, j)
      ensures r.Done? ==> LiveOf(disk.files, c) == if included then Lookup(old(disk.files), Staged(c)) else None
      ensures Ran(r, old(disk.fates), disk.fates, OneIf(hadLive) + OneIf(included && Has(old(disk.files), Staged(c))))
    {
      ghost var recorded, start, staged := disk.files, disk.fates, included && Has(disk.files, Staged(c));
      SkipTwo(start);
      RanOne(start);
      r := Done;
      assert hadLive ==> Swap(c, true) in j.swaps;
      if hadLive {
        r := disk.Rename(Live(c), Old(c, j.id));
        MovingKeepsUndo(recorded, disk.files, j, c);
        if !r.Done? {
          RanMore(r, start, disk.fates, 1, OneIf(staged));
          return;
        }
      }
      if included && Has(disk.files, Staged(c)) {
        r := disk.Rename(Staged(c), Live(c));
        MovingKeepsUndo(recorded, disk.files, j, c);
      } else {
        MovingKeepsUndo(recorded, disk.files, j, c);
      }
    }

    /** `swap_component`: record first, then move. */
    method SwapComponent(c: Component, included: set<Component>, j: Journal) returns (r: Outcome, j': Journal)
      requires c != Database && !j.committed && Coherent(disk.files, j)
      requires Recorded(disk.files, j)
      requires !Has(disk.files, Old(c, j.id)) && forall s :: s in j.swaps ==> s.component != c
      modifies disk
      ensures j' == j.(swaps := j.swaps + [Swap(c, Has(old(disk.files), Live(c)))])
      ensures SameOutside(old(disk.files), disk.files, {Live(c), Old(c, j.id), Staged(c), JournalFile, JournalBackup})
      ensures Coherent(disk.files, j') && Tracked(disk.files, j')
      ensures forall x :: Undo(disk.files, j', x) == Undo(old(disk.files), j, x)
      ensures r.Done? ==>
                && Recorded(disk.files, j')
                && LiveOf(disk.files, c) == if c in included then Lookup(old(disk.files), Staged(c)) else None
      ensures Ran(r, old(disk.fates), disk.fates, SwapSteps(old(disk.files), included, c))
      ensures r.Failed? && Has(disk.files, JournalBackup) <==> LeavesBackup(old(disk.fates), 0)
    {
      ghost var before, start := disk.files, disk.fates;
      var hadLive := Has(disk.files, Live(c));
      ghost var moves := OneIf(hadLive) + OneIf(c in included && Has(before, Staged(c)));
      r, j' := RecordSwap(c, j);
      ghost var recorded, left := disk.files, disk.fates;
      if !r.Done? {
        RanMore(r, start, left, ReplaceSteps(true), moves);
        return;
      }
      r := MoveComponent(c, hadLive, c in included, j');
      RanThen(Done, start, left, disk.fates, ReplaceSteps(true), moves, r);
    }

    /** One more swap, seen from the start of the installation. */
    method SwapNext(ghost before: Files, ghost start: Journal, c: Component, included: set<Component>, j: Journal)
      returns (r: Outcome, j': Journal)
      requires c != Database && !j.committed
      requires Swapped(before, disk.files, included, start, j, Turn(c))
      requires !Has(before, Old(c, start.id))
      requires Recorded(disk.files, j)
      modifies disk
      ensures Stopped(before, disk.files, start, j') && j'.databaseSwitchStarted == start.databaseSwitchStarted
      ensures r.Done? ==> Swapped(before, disk.files, included, start, j', Turn(c) + 1) && Recorded(disk.files, j')
      ensures Ran(r, old(disk.fates), disk.fates, SwapSteps(before, included, c))
      ensures r.Failed? && Has(disk.files, JournalBackup) <==> LeavesBackup(old(disk.fates), 0)
      ensures LiveOf(disk.files, Database) == LiveOf(before, Database)
    {
      ghost var mid := disk.files;
      assert Untouched(before, mid, j.id, c);
      SwappedKeepsDatabase(before, mid, included, start, j, c);
      r, j' := SwapComponent(c, included, j);
      assert LiveOf(disk.files, Database) == LiveOf(mid, Database);
      if r.Done? {
        SwapExtends(before, mid, disk.files, included, start, j, j', c);
      }
    }

    /** Two swaps in a row. */
    method SwapTwo(ghost before: Files, ghost start: Journal, c: Component, d: Component, included: set<Component>, j: Journal)
      returns (r: Outcome, j': Journal)
      requires c != Database && d != Database && Turn(d) == Turn(c) + 1 && !j.committed && !start.committed
      requires Swapped(before, disk.files, included, start, j, Turn(c))
      requires !Has(before, Old(c, start.id)) && !Has(before, Old(d, start.id))
      requires Recorded(disk.files, j)
      modifies disk
      ensures Stopped(before, disk.files, start, j') && j'.databaseSwitchStarted == start.databaseSwitchStarted
      ensures r.Done? ==> Swapped(before, disk.files, included, start, j', Turn(d) + 1) && Recorded(disk.files, j')
      ensures Ran(r, old(disk.fates), disk.fates, SwapSteps(before, included, c) + SwapSteps(before, included, d))
      ensures r.Failed? && Has(disk.files, JournalBackup) <==> SavesLeave(old(disk.fates), SwapSteps(before, included, c))
      ensures LiveOf(disk.files, Database) == LiveOf(before, Database)
    {
      ghost var f0 := disk.fates;
      LeavesBackupLater(f0, SwapSteps(before, included, c), 0);
      r, j' := SwapNext(before, start, c, included, j);
      ghost var f1 := disk.fates;
      if !r.Done? {
        RanMore(r, f0, f1, SwapSteps(before, included, c), SwapSteps(before, included, d));
        return;
      }
      r, j' := SwapNext(before, start, d, included, j');
      RanThen(Done, f0, f1, disk.fates, SwapSteps(before, included, c), SwapSteps(before, included, d), r);
    }

    /** The four renamed components, in their order. */
    method SwapAll(included: set<Component>, start: Journal) returns (r: Outcome, j: Journal)
      requires start.Valid() && start.swaps == [] && !start.committed
      requires Recorded(disk.files, start)
      requires forall c :: !Has(disk.files, Old(c, start.id))
      modifies disk
      ensures Stopped(old(disk.files), disk.files, start, j) && j.databaseSwitchStarted == start.databaseSwitchStarted
      ensures r.Done? ==> Swapped(old(disk.files), disk.files, included, start, j, Turn(Database)) && Recorded(disk.files, j)
      ensures Ran(r, old(disk.fates), disk.fates, AllSwapSteps(old(disk.files), included))
      ensures r.Failed? && Has(disk.files, JournalBackup) <==> SwapsLeave(old(disk.files), included, old(disk.fates), 0)
      ensures LiveOf(disk.files, Database) == LiveOf(old(disk.files), Database)
    {
      ghost var before, f0 := disk.files, disk.fates;
      SwappedAtStart(before, included, start);
      r, j := SwapTwo(before, start, Presets, Settings, included, start);
      ghost var r1, f1, left := r, disk.fates, r.Failed? && Has(disk.files, JournalBackup);
      if r.Done? {
        r, j := SwapTwo(before, start, EngineRegistry, Reports, included, j);
      }
      SwapsAccount(before, included, r1, f0, f1, r, disk.fates, left, r.Failed? && Has(disk.files, JournalBackup));
    }

    /** Records that the database is about to be switched. */
    method RecordSwitch(ghost before: Files, ghost start: Journal, ghost included: set<Component>, i: Journal)
      returns (r: Outcome, j: Journal)
      requires start.Valid() && !start.databaseSwitchStarted && !i.committed
      requires Swapped(before, disk.files, included, start, i, Turn(Database))
      requires Recorded(disk.files, i) && SafetyTaken(before, start)
      modifies disk
      ensures Stopped(before, disk.files, start, j) && j.databaseSwitchStarted
      ensures SameOutside(old(disk.files), disk.files, {JournalFile, JournalBackup})
      ensures LiveOf(disk.files, Database) == LiveOf(before, Database)
      ensures Lookup(disk.files, Staged(Database)) == Lookup(before, Staged(Database))
      ensures r.Done? ==> Recorded(disk.files, j)
      ensures Ran(r, old(disk.fates), disk.fates, ReplaceSteps(true))
      ensures r.Failed? && Has(disk.files, JournalBackup) <==> LeavesBackup(old(disk.fates), 0)
      ensures r.Failed? && !SwitchRecorded(disk.files, j) <==> Unpublished(old(disk.fates)).Some?
      ensures r.Failed? && !SwitchRecorded(disk.files, j) ==>
                disk.fates == Skip(old(disk.fates), Unpublished(old(disk.fates)).value)
    {
      ghost var mid := disk.files;
      assert Untouched(before, mid, i.id, Database);
      j := i.(databaseSwitchStarted := true);
      r := SaveJournal(j);
      SwitchingKeepsUndo(mid, disk.files, i);
    }

    /** Records the database switch, then copies the staged database in. */
    method SwitchDatabase(ghost before: Files, ghost start: Journal, ghost included: set<Component>, i: Journal)
      returns (r: Outcome, j: Journal)
      requires start.Valid() && !start.databaseSwitchStarted && !i.committed
      requires Swapped(before, disk.files, included, start, i, Turn(Database))
      requires Recorded(disk.files, i)
      requires SafetyTaken(before, start)
      requires Has(before, Staged(Database)) && !Refuses(sound, before, Staged(Database))
      requires Has(before, Live(Database)) ==> room > 0
      modifies disk, this`room
      ensures Stopped(before, disk.files, start, j)
      ensures r.Done? ==> Recorded(disk.files, j) && AllBundled(before, disk.files, included)
      ensures Ran(r, old(disk.fates), disk.fates, ReplaceSteps(true) + COPY_STEPS)
      ensures r.Failed? ==> DatabaseStopped(before, disk.files, j, old(disk.fates), disk.fates)
      ensures LeavesBackup(old(disk.fates), 0) || Unpublished(old(disk.fates)).Some? ==> r.Failed?
      ensures room <= old(room) <= room + 1
    {
      ghost var mid, f0 := disk.files, disk.fates;
      assert Untouched(before, mid, i.id, Database);
      r, j := RecordSwitch(before, start, included, i);
      ghost var recorded, f1 := disk.files, disk.fates;
      if !r.Done? {
        RanMore(r, f0, f1, ReplaceSteps(true), COPY_STEPS);
        SkipSkip(f0, ReplaceSteps(true), 1);
        return;
      }
      SameRefusal(sound, before, recorded);
      CopySteps(f0);
      r := RestoreDatabase(Staged(Database));
      CopyingKeepsUndo(recorded, disk.files, j);
      RanThen(Done, f0, f1, disk.fates, ReplaceSteps(true), COPY_STEPS, r);
    }

    /** The part of the installation that an error makes it roll back. `j` is the
        journal in memory when it stopped. */
    method SwitchComponents(included: set<Component>, start: Journal) returns (r: Outcome, j: Journal)
      requires start.Valid() && start.swaps == [] && !start.databaseSwitchStarted && !start.committed
      requires Recorded(disk.files, start)
      requires forall c :: !Has(disk.files, Old(c, start.id))
      requires SafetyTaken(disk.files, start)
      requires Has(disk.files, Staged(Database)) && !Refuses(sound, disk.files, Staged(Database))
      requires Has(disk.files, Live(Database)) ==> room > 0
      modifies disk, this`room
      ensures room <= old(room) <= room + 1
      ensures Stopped(old(disk.files), disk.files, start, j)
      ensures r.Done? ==> Recorded(disk.files, j) && AllBundled(old(disk.files), disk.files, included)
      ensures Ran(r, old(disk.fates), disk.fates, AllSwapSteps(old(disk.files), included) + (ReplaceSteps(true) + COPY_STEPS))
      ensures r.Failed? ==> SwitchStopped(old(disk.files), disk.files, included, j, old(disk.fates), disk.fates)
      ensures SaveFailsLater(old(disk.files), included, old(disk.fates)) ==> r.Failed?
    {
      ghost var before, f0, n := disk.files, disk.fates, AllSwapSteps(disk.files, included);
      r, j := SwapAll(included, start);
      ghost var f1 := disk.fates;
      if !r.Done? {
        RanMore(r, f0, f1, n, ReplaceSteps(true) + COPY_STEPS);
        if r.Failed? { StoppedEarly(before, disk.files, included, j, f0, f1); }
        return;
      }
      r, j := SwitchDatabase(before, start, included, j);
      RanThen(Done, f0, f1, disk.fates, n, ReplaceSteps(true) + COPY_STEPS, r);
      if r.Failed? { StoppedLate(before, disk.files, included, j, f0, f1, disk.fates); }
    }

    /** `MaintenanceService::backup`, by contract: it copies the live database, if that passes
        its check. The copy is the newest file in the backup directory. */
    method BackupDatabase(target: Path) returns (r: Outcome)
      requires target != Live(Database) && Has(disk.files, Live(Database))
      modifies disk, this`room
      ensures SameOutside(old(disk.files), disk.files, {target})
      ensures r.Done? ==> Lookup(disk.files, target) == LiveOf(disk.files, Database) && room == SNAPSHOT_ROOM
      ensures r == if Coming(old(disk.fates)).Works? && !sound(old(disk.files)[Live(Database)]) then Failed
                   else Ended(Coming(old(disk.fates)))
      ensures disk.fates == Later(old(disk.fates))
    {
      var fate := Coming(disk.fates);
      r := Ended(fate);
      disk.fates := Later(disk.fates);
      if r.Done? {
        if !sound(disk.files[Live(Database)]) { return Failed; }
        disk.files := disk.files[target := disk.files[Live(Database)]];
        room := SNAPSHOT_ROOM;
      } else if fate.partial {
        disk.files := disk.files[target := Torn];
      }
    }

    /** What an error during the switch is answered with: undo it in process, and
        drop the journal if that worked. `lost` tells whether the pre-restore
        database is now beyond the reach of recovery. */
    method RollbackAfterError(j: Journal) returns (r: Outcome, ghost lost: bool)
      requires Coherent(disk.files, j) && Tracked(disk.files, j) && !j.committed && !Doomed(disk.files, j, room)
      modifies disk, this`room
      ensures !r.Done? && WellFormed(disk.files)
      ensures forall c :: c != Database ==> Destiny(disk.files, c) == Undo(old(disk.files), j, c)
      ensures lost <==> Destiny(disk.files, Database) != Undo(old(disk.files), j, Database)
      ensures lost <==> TearsUnrecorded(sound, old(disk.files), j, old(disk.fates))
      ensures lost ==> Destiny(disk.files, Database) == LiveOf(disk.files, Database) == Some(Torn)
      ensures lost ==> StoredJournal(disk.files) == StoredJournal(old(disk.files))
      ensures !NeedsLostSafety(old(disk.files), j) ==> StuckShowsDestiny(disk.files)
      // when a journal is left, and that without faults it is the backup of an earlier one
      ensures StoredJournal(disk.files).Some? <==> KeepsJournal(sound, Stop(old(disk.files), j, old(room), old(disk.fates)))
      ensures Faultless(old(disk.fates)) && !NeedsLostSafety(old(disk.files), j) && !Blocked(sound, old(disk.files), j) ==>
                StoredJournal(disk.files) == Lookup(old(disk.files), JournalBackup) && NoLeftovers(disk.files, j)
      ensures room <= old(room) <= room + 1
    {
      ghost var before := disk.files;
      r, lost := RollbackTracked(j);
      if !r.Done? { return; }
      r := DropJournal(before, j);
    }

    /** The rollback itself, driven by the journal in memory. */
    method RollbackTracked(j: Journal) returns (r: Outcome, ghost lost: bool)
      requires Coherent(disk.files, j) && Tracked(disk.files, j) && !j.committed && !Doomed(disk.files, j, room)
      modifies disk, this`room
      ensures WellFormed(disk.files) && SameJournalAndStage(old(disk.files), disk.files)
      ensures forall c :: (c == Database ==> !lost) ==> Destiny(disk.files, c) == Undo(old(disk.files), j, c)
      ensures lost <==> TearsUnrecorded(sound, old(disk.files), j, old(disk.fates))
      ensures lost ==> !r.Done? && Destiny(disk.files, Database) == LiveOf(disk.files, Database) == Some(Torn)
      ensures lost ==> Destiny(disk.files, Database) != Undo(old(disk.files), j, Database)
      ensures r.Done? ==> Undone(old(disk.files), disk.files, j)
      ensures NeedsLostSafety(old(disk.files), j) || Blocked(sound, old(disk.files), j) ==> !r.Done?
      ensures !NeedsLostSafety(old(disk.files), j) ==> StuckShowsDestiny(disk.files)
      ensures KeepsJournal(sound, Stop(old(disk.files), j, old(room), old(disk.fates))) <==>
                Has(old(disk.files), JournalBackup) || !r.Done? || !Coming(disk.fates).Works?
      ensures Faultless(old(disk.fates)) ==>
                && Faultless(disk.fates)
                && (r.Done? <==> !NeedsLostSafety(old(disk.files), j) && !Blocked(sound, old(disk.files), j))
      ensures room <= old(room) <= room + 1
    {
      ghost var before, start, s := disk.files, disk.fates, Stop(disk.files, j, room, disk.fates);
      ghost var dropped;
      r, dropped := RollbackFromJournal(j);
      RewindWhileTracked(before, disk.files, j);
      LossWhen(sound, before, disk.files, j, start);
      lost := Destiny(disk.files, Database) != Undo(before, j, Database);
      TrackedShowing(before, disk.files, j, lost);
      KeepsJournalWhen(sound, s, r, disk.fates);
    }

    /** The journal goes once everything has been undone; an error there is ignored. */
    method DropJournal(ghost before: Files, j: Journal) returns (r: Outcome)
      requires Tracked(before, j) && Coherent(before, j) && Undone(before, disk.files, j)
      requires SameJournalAndStage(before, disk.files) && WellFormed(disk.files)
      requires forall c :: Destiny(disk.files, c) == Undo(before, j, c)
      requires StuckShowsDestiny(disk.files)
      modifies disk
      ensures !r.Done? && WellFormed(disk.files) && StuckShowsDestiny(disk.files)
      ensures forall c :: Destiny(disk.files, c) == Undo(before, j, c)
      ensures StoredJournal(disk.files).Some? <==> Has(before, JournalBackup) || !Coming(old(disk.fates)).Works?
      ensures Faultless(old(disk.fates)) ==> StoredJournal(disk.files) == Lookup(before, JournalBackup)
      ensures NoLeftovers(disk.files, j)
    {
      ghost var undone := disk.files;
      var removed := disk.RemoveFile(JournalFile);
      if removed.Done? && Has(disk.files, JournalBackup) {
        EarlierJournalHasNothingToUndo(disk.files, Lookup(disk.files, JournalBackup).value.journal, j, before);
      }
      forall c ensures Destiny(disk.files, c) == Undo(before, j, c) {
        assert LiveOf(disk.files, c) == LiveOf(undone, c) == Undo(before, j, c);
        if !removed.Done? { assert disk.files == undone; }
      }
      r := if removed.Crashed? then Crashed else Failed;
    }

    /** The safety bundle and the safety database, for a state that has a database. */
    method TakeSafety(id: nat, hadLive: bool) returns (r: Outcome, safety: Option<nat>)
      requires hadLive == Has(disk.files, Live(Database))
      modifies disk, this`room
      ensures SameOutside(old(disk.files), disk.files, {Safety(id)})
      ensures r.Done? ==> safety == (if hadLive then Some(id) else None) && Openable(sound, old(disk.files))
      ensures r.Done? && hadLive ==> Lookup(disk.files, Safety(id)) == LiveOf(disk.files, Database) && room == SNAPSHOT_ROOM
      ensures Openable(sound, old(disk.files)) ==> Ran(r, old(disk.fates), disk.fates, SafetySteps(hadLive))
      ensures Faultless(old(disk.fates)) ==> r.Done? || !Openable(sound, old(disk.files))
    {
      ghost var start := disk.fates;
      SkipThree(start);
      OnlyFaultSoon(start);
      safety := None;
      r := disk.Prepare();  // the backup directory
      if !r.Done? || !hadLive { return; }
      r := disk.Prepare();  // the safety bundle, a new file of its own
      if !r.Done? { return; }
      r := BackupDatabase(Safety(id));
      safety := Some(id);
    }

    /** Drops what is left of the old state, then the committed journal and its backup. */
    method FinishCommit(j: Journal) returns (r: Outcome)
      requires Coherent(disk.files, j) && j.committed && Recorded(disk.files, j)
      modifies disk
      ensures WellFormed(disk.files) && !Stuck(disk.files)
      ensures forall c :: Destiny(disk.files, c) == LiveOf(disk.files, c) == LiveOf(old(disk.files), c)
      ensures r.Done? ==> StoredJournal(disk.files).None? && NoLeftovers(disk.files, j)
      ensures !RollbackPending(disk.files) && (r.Failed? ==> StoredJournal(disk.files).Some?)
      ensures Faultless(old(disk.fates)) ==> r.Done?
    {
      ghost var before := disk.files;
      r := CleanupCommittedRestore(j);
      ghost var cleaned := disk.files;
      assert Recorded(cleaned, j) && forall c :: LiveOf(cleaned, c) == LiveOf(before, c);
      if !r.Done? { return; }
      r := disk.RemoveFile(JournalFile);
      assert forall p: Path :: !p.JournalFile? ==> Lookup(disk.files, p) == Lookup(cleaned, p);
      if !r.Done? { return; }
      ghost var dropped := disk.files;
      var ignored := disk.RemoveFile(JournalBackup);
      if ignored.Crashed? { r := Crashed; }
      assert disk.files == dropped;
    }

    /** Commits the switched state, then drops what is left of the old one. */
    method CommitRestore(i: Journal) returns (r: Outcome, ghost committed: bool)
      requires Coherent(disk.files, i) && !i.committed
      requires Recorded(disk.files, i)
      modifies disk
      ensures WellFormed(disk.files)
      ensures forall c :: Destiny(disk.files, c) ==
                if committed then LiveOf(old(disk.files), c) else Undo(old(disk.files), i, c)
      ensures r.Done? ==>
                && committed && StoredJournal(disk.files).None? && NoLeftovers(disk.files, i)
                && forall c :: LiveOf(disk.files, c) == LiveOf(old(disk.files), c)
      ensures Stuck(disk.files) ==> NeedsLostSafety(old(disk.files), i)
      ensures committed ==> !RollbackPending(disk.files)
      ensures r.Failed? ==> StoredJournal(disk.files).Some?
      ensures Faultless(old(disk.fates)) ==> r.Done?
    {
      ghost var before := disk.files;
      var j := i.(committed := true);
      r := SaveJournal(j);
      committed := StoredJournal(disk.files) == Some(Record(j));
      CommitAttempted(before, disk.files, i);
      if !r.Done? { return; }
      r := FinishCommit(j);
    }

    /** The answer to an error during the switch, seen from before it. */
    method RollbackSwitch(ghost before: Files, ghost included: set<Component>, ghost start: Journal, j: Journal, ghost f0: seq<Fate>)
      returns (r: Outcome, ghost lost: bool)
      requires Recorded(before, start) && SafetyTaken(before, start) && start.databaseHadLive == Has(before, Live(Database))
      requires !start.committed && !start.databaseSwitchStarted && !Refuses(sound, before, Staged(Database))
      requires forall c :: Undo(disk.files, j, c) == LiveOf(before, c)
      requires Has(before, Staged(Database)) && Stopped(before, disk.files, start, j)
      requires SwitchStopped(before, disk.files, included, j, f0, disk.fates)
      requires AtMostOneFault(f0) ==> Faultless(disk.fates)
      requires Has(before, Live(Database)) ==> room > 0
      modifies disk, this`room
      ensures !r.Done? && InstalledOrNot(before, disk.files, included, false, lost)
      ensures lost <==>
                && start.databaseHadLive && LiveOf(before, Database) != Some(Torn)
                && SaveAndCopyFail(f0, AllSwapSteps(before, included))
      ensures lost ==> LostOnRecord(disk.files, start)
      ensures StuckShowsDestiny(disk.files)
      ensures StoredJournal(disk.files).Some? <==> KeepsJournal(sound, Stop(old(disk.files), j, old(room), old(disk.fates)))
      ensures LeavesJournal(before, included, f0, 0) ==> StoredJournal(disk.files).Some?
      ensures AtMostOneFault(f0) ==>
                (StoredJournal(disk.files).Some? <==>
                   LeavesJournal(before, included, f0, 0) || LiveRefused(sound, before, included, f0))
      ensures room <= old(room) <= room + 1
    {
      LostLater(sound, before, disk.files, included, start, j, f0, disk.fates);
      RefusedWhen(sound, before, disk.files, included, start, j, f0, disk.fates);
      r, lost := RollbackAfterError(j);
    }

    /** The installation once its first journal is on disk. */
    method SwitchAndCommit(included: set<Component>, start: Journal)
      returns (r: Outcome, ghost committed: bool, ghost lost: bool, ghost stop: Option<Stop>)
      requires start.Valid() && start.swaps == [] && !start.databaseSwitchStarted && !start.committed
      requires Recorded(disk.files, start) && SafetyTaken(disk.files, start)
      requires start.databaseHadLive == Has(disk.files, Live(Database))
      requires Has(disk.files, Staged(Database)) && forall c :: !Has(disk.files, Old(c, start.id))
      requires !Refuses(sound, disk.files, Staged(Database)) && (Has(disk.files, Live(Database)) ==> room == SNAPSHOT_ROOM)
      modifies disk, this`room
      ensures InstalledOrNot(old(disk.files), disk.files, included, committed, lost)
      ensures r.Done? ==>
                && committed && StoredJournal(disk.files).None? && NoLeftovers(disk.files, start)
                && AllBundled(old(disk.files), disk.files, included)
      ensures lost <==>
                && start.databaseHadLive && LiveOf(old(disk.files), Database) != Some(Torn)
                && SaveAndCopyFail(old(disk.fates), AllSwapSteps(old(disk.files), included))
      ensures lost ==> !r.Done? && LostOnRecord(disk.files, start)
      ensures StuckShowsDestiny(disk.files)
      ensures JournalLeft(sound, r, disk.files, old(disk.files), included, old(disk.fates), 0)
      ensures StoppedAt(sound, r, disk.files, stop, old(disk.files), included, old(disk.fates), 0)
      ensures committed ==> !RollbackPending(disk.files)
      ensures Has(old(disk.files), Live(Database)) ==> room >= SNAPSHOT_ROOM - 2
      ensures Faultless(old(disk.fates)) ==> r.Done?
    {
      ghost var before, f0, n := disk.files, disk.fates, AllSwapSteps(disk.files, included);
      var j;
      committed, lost, stop := false, false, None;
      r, j := SwitchComponents(included, start);
      if SaveAndCopyFail(f0, n) { FailureSavesNothing(before, included, f0); }
      forall x ensures Undo(disk.files, j, x) == LiveOf(before, x) {
        assert Undo(before, start, x) == LiveOf(before, x);
      }
      assert start.databaseHadLive ==> Lookup(disk.files, Safety(start.safety.value)) == LiveOf(before, Database);
      assert !NeedsLostSafety(disk.files, j);
      if r.Crashed? {
        TrackedDestiny(disk.files, j);
        assert !Stuck(disk.files);
        NothingInstalled(before, disk.files, included);
        NotStopped(sound, r, disk.files, before, included, f0);
      } else if r.Failed? {
        stop := Some(Stop(disk.files, j, room, disk.fates));
        r, lost := RollbackSwitch(before, included, start, j, f0);
      } else {
        ghost var switched := disk.files;
        r, committed := CommitRestore(j);
        CommittedOrNot(before, switched, disk.files, included, j, committed);
        NotStopped(sound, r, disk.files, before, included, f0);
      }
    }

    /** Everything before the first swap: the safety copies and the first journal. */
    method OpenJournal(id: nat) returns (r: Outcome, j: Journal)
      requires StoredJournal(disk.files).None?
      requires !Has(disk.files, Safety(id)) && forall c :: !Has(disk.files, Old(c, id))
      modifies disk, this`room
      ensures WellFormed(disk.files) && StuckShowsDestiny(disk.files)
      ensures forall c :: Destiny(disk.files, c) == LiveOf(old(disk.files), c)
      ensures SameLiveAndStaged(old(disk.files), disk.files)
      ensures forall c :: !Has(disk.files, Old(c, id))
      ensures r.Done? ==>
                && j == Journal(id, if Has(old(disk.files), Live(Database)) then Some(id) else None,
                                Has(old(disk.files), Live(Database)), false, false, [])
                && Recorded(disk.files, j) && SafetyTaken(disk.files, j)
      ensures !r.Done? ==> StoredJournal(disk.files).None?
      ensures r.Done? ==> Openable(sound, old(disk.files)) && (Has(old(disk.files), Live(Database)) ==> room == SNAPSHOT_ROOM)
      ensures Openable(sound, old(disk.files)) ==> Ran(r, old(disk.fates), disk.fates, OpeningSteps(old(disk.files)))
    {
      ghost var before, start := disk.files, disk.fates;
      var hadLive := Has(disk.files, Live(Database));
      var safety;
      r, safety := TakeSafety(id, hadLive);
      j := Journal(id, safety, hadLive, false, false, []);
      ghost var copied, left := disk.files, disk.fates;
      if !r.Done? {
        if Openable(sound, before) { RanMore(r, start, left, SafetySteps(hadLive), ReplaceSteps(false)); }
        return;
      }
      r := SaveJournal(j);
      RanThen(Done, start, left, disk.fates, SafetySteps(hadLive), ReplaceSteps(false), r);
      assert forall c :: LiveOf(disk.files, c) == LiveOf(before, c);
      assert Coherent(disk.files, j);
    }

    /** Installs a prepared bundle under a fresh restore id. However it ends, what
        recovery will find is the state from before, or, once the committed
        journal is durable, the state of the bundle; nothing in between. The
        one exception is `lost`, which `LosesDatabase` gives exactly, in terms of
        the disk and the schedule before the call. */
    method InstallPreparedBundle(id: nat, included: set<Component>)
      returns (r: Outcome, ghost committed: bool, ghost lost: bool, ghost stop: Option<Stop>)
      requires StoredJournal(disk.files).None? && Has(disk.files, Staged(Database)) && sound(disk.files[Staged(Database)])
      requires !Has(disk.files, Safety(id)) && forall c :: !Has(disk.files, Old(c, id))
      modifies disk, this`room
      ensures InstalledOrNot(old(disk.files), disk.files, included, committed, lost)
      ensures r.Done? ==>
                && committed && StoredJournal(disk.files).None?
                && AllBundled(old(disk.files), disk.files, included)
                && (forall c :: !Has(disk.files, Old(c, id)))
                && (Has(old(disk.files), Live(Database)) ==> !Has(disk.files, Safety(id)))
      ensures lost <==> LosesDatabase(sound, old(disk.files), included, old(disk.fates))
      ensures lost ==> !r.Done? && LostOnRecord(disk.files, Journal(id, Some(id), true, false, false, []))
      ensures !committed ==> AllCovered(old(disk.files), disk.files, lost)
      ensures StuckShowsDestiny(disk.files) && RoomLeft(disk.files, room, SNAPSHOT_ROOM - 2)
      ensures if Openable(sound, old(disk.files))
              then && JournalLeft(sound, r, disk.files, old(disk.files), included, old(disk.fates), OpeningSteps(old(disk.files)))
                   && StoppedAt(sound, r, disk.files, stop, old(disk.files), included, old(disk.fates),
                                OpeningSteps(old(disk.files)))
              else !r.Done? && StoredJournal(disk.files).None? && !committed
      ensures Faultless(old(disk.fates)) ==> (r.Done? <==> Openable(sound, old(disk.files)))
    {
      committed, lost, stop := false, false, None;
      ghost var before, f0, n := disk.files, disk.fates, OpeningSteps(disk.files);
      var j;
      r, j := OpenJournal(id);
      ghost var ready := disk.files;
      LossLater(sound, before, ready, included, f0);
      if !r.Done? {
        NothingInstalled(before, ready, included);
        InstallationIsCovered(before, ready, included, false);
        if Openable(sound, before) { NoJournalLeft(sound, r, ready, before, included, f0, n); }
        return;
      }
      assert LiveOf(ready, Database) == LiveOf(before, Database);
      assert Lookup(ready, Staged(Database)) == Lookup(before, Staged(Database));
      r, committed, lost, stop := SwitchAndCommit(included, j);
      JournalLeftLater(sound, r, disk.files, before, ready, included, f0, n);
      StoppedAtLater(sound, r, disk.files, stop, before, ready, included, f0, n);
      SameResult(before, ready, disk.files, included, committed, lost);
      RoomAfterInstall(before, disk.files, included, committed, lost, room);
      if !committed { InstallationIsCovered(before, disk.files, included, lost); }
    }

    /** A whole history: an installation under one schedule of faults, then, unless
        it succeeded, one recovery per boot, each under its own schedule, until one
        succeeds. All five components then hold what they held before, or all
        hold what the bundle brought; which of the two depends only on whether
        the committed journal became durable. */
    method RestoreAndReboot(id: nat, included: set<Component>, boots: seq<seq<Fate>>)
      returns (r: Outcome, ghost committed: bool, ghost lost: bool, ghost dropped: bool)
      requires StoredJournal(disk.files).None? && Has(disk.files, Staged(Database)) && sound(disk.files[Staged(Database)])
      requires !Has(disk.files, Safety(id)) && forall c :: !Has(disk.files, Old(c, id))
      modifies disk, this`room
      ensures r.Done? && committed ==> forall c :: LiveOf(disk.files, c) == Bundled(old(disk.files), included, c)
      ensures r.Done? && !committed ==>
                forall c :: c != Database || !lost ==> LiveOf(disk.files, c) == LiveOf(old(disk.files), c)
      ensures Faultless(old(disk.fates)) && Openable(sound, old(disk.files)) ==> r.Done? && committed
      ensures r.Done? ==> StoredJournal(disk.files).None? && !dropped
      ensures lost <==> LosesDatabase(sound, old(disk.files), included, old(disk.fates))
      ensures lost ==> Risky(old(disk.fates))
      // without faults a boot succeeds, unless the database service refuses or the safety
      // database is gone; in the second case all components already hold what recovery would
      // have restored, if it went with the rollback and not with one snapshot too many
      ensures !r.Done? && boots != [] && Faultless(boots[|boots| - 1]) ==> Stuck(disk.files) || Halted(sound, disk.files)
      ensures Stuck(disk.files) && !dropped ==>
                && (forall c :: committed ==> LiveOf(disk.files, c) == Bundled(old(disk.files), included, c))
                && (forall c :: !committed && (c == Database ==> !lost) ==> LiveOf(disk.files, c) == LiveOf(old(disk.files), c))
      ensures dropped ==> |boots| >= 3 && Stuck(disk.files)
    {
      ghost var before, fates := disk.files, disk.fates;
      ghost var stop;
      r, committed, lost, stop := InstallPreparedBundle(id, included);
      dropped := false;
      if lost { LossIsRisky(sound, before, included, fates); }
      ghost var installed := disk.files;
      ghost var succeeded := r.Done?;
      var i := 0;
      while i < |boots| && !r.Done?
        invariant 0 <= i <= |boots| && (succeeded ==> i == 0 && r.Done?)
        invariant WellFormed(disk.files)
        invariant !dropped ==> StuckShowsDestiny(disk.files) && RoomLeft(disk.files, room, SNAPSHOT_ROOM - 2 - i)
        invariant !r.Done? && !dropped ==> SameDestiny(installed, disk.files)
        invariant dropped ==> !r.Done? && Stuck(disk.files) && i > SNAPSHOT_ROOM - 2
        invariant r.Done? ==> StoredJournal(disk.files).None?
        invariant r.Done? ==> forall c :: LiveOf(disk.files, c) == Destiny(installed, c)
        invariant !r.Done? && i > 0 && Faultless(boots[i - 1]) ==> Stuck(disk.files) || Halted(sound, disk.files)
      {
        disk.fates := boots[i];
        var found;
        ghost var here, wasStuck, room0 := disk.files, Stuck(disk.files), room;
        ghost var now;
        r, found, now := RecoverInterruptedRestore();
        if now {
          assert !dropped && WillDrop(here, room0) && RoomLeft(here, room0, SNAPSHOT_ROOM - 2 - i);
          dropped := true;
        }
        i := i + 1;
      }
      if !dropped && !r.Done? && Stuck(disk.files) {
        assert forall c :: LiveOf(disk.files, c) == Destiny(installed, c);
      }
    }
  }

  predicate IsIntact(c: Content) {
    c.Intact?
  }

  /** An installation that is cut between the copy of the database and the commit, step by
      step. */
  method CutInstallation(service: Service) returns (k: Journal)
    requires StoredJournal(service.disk.files).None?
    requires Has(service.disk.files, Live(Database)) && Has(service.disk.files, Staged(Database))
    requires Openable(service.sound, service.disk.files) && !Refuses(service.sound, service.disk.files, Staged(Database))
    requires !Has(service.disk.files, Safety(0)) && forall c :: !Has(service.disk.files, Old(c, 0))
    modifies service.disk, service`room
    ensures AwaitsUndo(service.sound, service.disk.files, k) && k.safety == Some(0) && service.room == 3
    ensures forall c :: Undo(service.disk.files, k, c) == LiveOf(old(service.disk.files), c)
    ensures forall c :: LiveOf(service.disk.files, c) == Bundled(old(service.disk.files), {}, c)
  {
    var disk := service.disk;
    disk.fates := [];
    ghost var before := disk.files;
    var started, i := service.OpenJournal(0);
    assert started.Done? by { assert AllWork([], OpeningSteps(before)); }
    ghost var ready := disk.files;
    disk.fates := [];
    var swapped, j := service.SwapAll({}, i);
    assert swapped.Done? by { assert AllWork([], AllSwapSteps(ready, {})); }
    assert LiveOf(ready, Database) == LiveOf(before, Database);
    assert Lookup(ready, Staged(Database)) == Lookup(before, Staged(Database));
    SameRefusal(service.sound, before, ready);
    SameTask(before, ready, {});
    k := CutSwitch(service, ready, i, j);
  }

  /** The database switch, and no commit after it. */
  method CutSwitch(service: Service, ghost ready: Files, ghost start: Journal, j: Journal) returns (k: Journal)
    requires start.Valid() && start.databaseHadLive && start.safety.Some? && !start.committed && SafetyTaken(ready, start)
    requires !start.databaseSwitchStarted && Has(ready, Staged(Database))
    requires !Refuses(service.sound, ready, Staged(Database)) && Openable(service.sound, ready)
    requires Swapped(ready, service.disk.files, {}, start, j, Turn(Database)) && Recorded(service.disk.files, j)
    requires service.room == SNAPSHOT_ROOM
    modifies service.disk, service`room
    ensures AwaitsUndo(service.sound, service.disk.files, k) && k.safety == start.safety && service.room == SNAPSHOT_ROOM - 1
    ensures forall c :: Undo(service.disk.files, k, c) == Undo(ready, start, c)
    ensures forall c :: LiveOf(service.disk.files, c) == Bundled(ready, {}, c)
  {
    var disk := service.disk;
    disk.fates := [];
    k := j.(databaseSwitchStarted := true);
    ghost var mid := disk.files;
    assert Untouched(ready, mid, j.id, Database);
    var saved := service.SaveJournal(k);
    SwitchingKeepsUndo(mid, disk.files, j);
    disk.fates := [];
    ghost var recorded := disk.files;
    SameRefusal(service.sound, ready, recorded);
    var copied := service.RestoreDatabase(Staged(Database));
    assert copied.Done? by { assert AllWork([], COPY_STEPS); }
    CopyingKeepsUndo(recorded, disk.files, k);
  }

  /** A crash has left `j`, with the switch started and the safety database in place. */
  ghost predicate AwaitsUndo(sound: Content -> bool, files: Files, j: Journal) {
    && Recorded(files, j) && Coherent(files, j) && !j.committed && CopiesSafety(files, j)
    && Has(files, Live(Database)) && !Blocked(sound, files, j)
  }

  /** A recovery that is cut just before it removes the journal, and another one. */
  method CutRecovery(service: Service, j: Journal, ghost original: Files)
    requires AwaitsUndo(service.sound, service.disk.files, j)
    requires forall c :: Undo(service.disk.files, j, c) == LiveOf(original, c)
    modifies service.disk, service`room
    ensures Stuck(service.disk.files) && forall c :: LiveOf(service.disk.files, c) == LiveOf(original, c)
  {
    var disk := service.disk;
    disk.fates := [];
    var read, journal := service.ReadJournal();
    ghost var ready := disk.files;
    assert journal == Some(j);
    var resolved;
    ghost var dropped;
    resolved, dropped := service.ResolveJournal(j);
    assert resolved.Done? && forall c :: LiveOf(disk.files, c) == LiveOf(original, c);
    disk.fates := [Dies(false)];
    var crashed := disk.RemoveFile(JournalFile);
    disk.fates := [];
    ghost var stuck := disk.files;
    assert Stuck(stuck) && StuckShowsDestiny(stuck);
    var again, found;
    again, found, dropped := service.RecoverInterruptedRestore();
  }

  /** The safety database is unlinked before the journal. A crash in between leaves a
      journal that no later recovery can finish, although the old state is live: a
      restore cut before it commits, then a recovery cut before it removes the journal. */
  method CrashBetweenSafetyAndJournal() returns (disk: Disk<Path, Content>)
    ensures Stuck(disk.files) && LiveOf(disk.files, Database) == Some(Intact("jobs"))
    ensures forall c :: c != Database ==> LiveOf(disk.files, c) == None
  {
    disk := new Disk(map[Live(Database) := Intact("jobs"), Staged(Database) := Intact("new")], []);
    var service := new Service(disk, IsIntact, 0);
    ghost var before := disk.files;
    var j := CutInstallation(service);
    CutRecovery(service, j, before);
    assert forall c :: LiveOf(disk.files, c) == LiveOf(before, c);
  }

  /** A recovery that is cut between its snapshot and its copy. */
  method CutBeforeCopy(service: Service, j: Journal)
    requires AwaitsUndo(service.sound, service.disk.files, j)
    modifies service.disk, service`room
    ensures forall c :: LiveOf(service.disk.files, c) == LiveOf(old(service.disk.files), c)
    ensures forall c :: Lookup(service.disk.files, Old(c, j.id)) == Lookup(old(service.disk.files), Old(c, j.id))
    ensures Recorded(service.disk.files, j) && Coherent(service.disk.files, j)
    ensures old(service.room) > 0 ==> AwaitsUndo(service.sound, service.disk.files, j) && service.room == old(service.room) - 1
    ensures old(service.room) > 0 ==>
              Lookup(service.disk.files, Safety(j.safety.value)) == Lookup(old(service.disk.files), Safety(j.safety.value))
    ensures old(service.room) == 0 ==> !Has(service.disk.files, Safety(j.safety.value))
  {
    service.disk.fates := [Works, Dies(false)];
    assert FateAt(service.disk.fates, 1) == Dies(false);
    ghost var before := service.disk.files;
    var cut := service.RestoreDatabase(Safety(j.safety.value));
    assert Lookup(service.disk.files, JournalFile) == Lookup(before, JournalFile);
    assert Lookup(service.disk.files, JournalBackup) == Lookup(before, JournalBackup);
  }

  /** Recovery cannot be cut any number of times. Each one takes a snapshot first, and the
      fourth after an ordinary restore makes the backup directory drop the safety database.
      If that one is cut as well, the bundle's state is live, no recovery can finish, and the
      old presets are still there to be restored. `cuts` are the disks after the restore and
      after each of the recoveries. */
  method FourCutRecoveriesDropSafety() returns (disk: Disk<Path, Content>, ghost cuts: seq<Files>)
    ensures |cuts| == 5 && cuts[4] == disk.files
    ensures forall n :: 0 <= n < 4 ==>
              Lookup(cuts[n], Safety(0)) == Some(Intact("jobs")) && Destiny(cuts[n], Database) == Some(Intact("jobs"))
    ensures !Has(disk.files, Safety(0))
    ensures Stuck(disk.files) && LiveOf(disk.files, Database) == Some(Intact("new"))
    ensures LiveOf(disk.files, Presets) == None && Destiny(disk.files, Presets) == Some(Intact("mine"))
  {
    disk := new Disk(
      map[Live(Presets) := Intact("mine"), Live(Database) := Intact("jobs"), Staged(Database) := Intact("new")], []);
    var service := new Service(disk, IsIntact, 0);
    ghost var before := disk.files;
    var j := CutInstallation(service);
    ghost var cut := disk.files;
    assert Undo(cut, j, Presets) == LiveOf(before, Presets) == Some(Intact("mine"));
    assert Undo(cut, j, Database) == LiveOf(before, Database) == Some(Intact("jobs"));
    assert LiveOf(cut, Presets) == Bundled(before, {}, Presets) == None;
    assert LiveOf(cut, Database) == Bundled(before, {}, Database) == Some(Intact("new"));
    assert Lookup(cut, Old(Presets, j.id)) == Some(Intact("mine"));
    cuts := [cut];
    for i := 0 to 3
      invariant AwaitsUndo(service.sound, disk.files, j) && service.room == 3 - i && service.disk == disk
      invariant LiveOf(disk.files, Presets) == None && LiveOf(disk.files, Database) == Some(Intact("new"))
      invariant Lookup(disk.files, Old(Presets, j.id)) == Some(Intact("mine"))
      invariant j.safety == Some(0)
      invariant |cuts| == i + 1 && cuts[i] == disk.files
      invariant forall n :: 0 <= n <= i ==>
                  Lookup(cuts[n], Safety(0)) == Some(Intact("jobs")) && Destiny(cuts[n], Database) == Some(Intact("jobs"))
    {
      CutBeforeCopy(service, j);
      cuts := cuts + [disk.files];
    }
    CutBeforeCopy(service, j);
    cuts := cuts + [disk.files];
  }

  /** When the journal that announces the database switch cannot be saved, the
      in-process rollback still copies the safety database over the live one. If
      that copy is cut short, recovery trusts the durable journal, leaves the
      torn database live and removes the safety copy. */
  method UnrecordedSwitchLosesDatabase() returns (disk: Disk<Path, Content>)
    ensures StoredJournal(disk.files).None? && LiveOf(disk.files, Database) == Some(Torn)
    ensures !Has(disk.files, Safety(0))
  {
    var fates := seq(26, i => Works) + [Errs(false), Works, Dies(true)];
    disk := new Disk(map[Live(Database) := Intact("jobs"), Staged(Database) := Intact("new")], fates);
    var service := new Service(disk, IsIntact, 0);
    assert StepsToSwitch(disk.files, {}) == 26;
    assert SaveAndCopyFail(fates, StepsToSwitch(disk.files, {})) by {
      assert Skip(fates, 26) == [Errs(false), Works, Dies(true)];
      FailureAfter(fates, StepsToSwitch(disk.files, {}));
    }
    var cut;
    ghost var committed, lost, stop;
    cut, committed, lost, stop := service.InstallPreparedBundle(0, {});
    assert lost;
    disk.fates := [];
    ghost var crashed := disk.files;
    var recovered, found;
    ghost var dropped;
    recovered, found, dropped := service.RecoverInterruptedRestore();
    assert LiveOf(disk.files, Database) == Destiny(crashed, Database);
  }
}
