// A disk that can fail or lose power between any two steps, and the file
// replacement protocol of the application state built on it.
module Storage {
  import opened Options

  /** What happens to the next disk step. A step that errs or dies may leave its
      work half done (`partial`); only multi-step work can show that. */
  datatype Fate = Works | Errs(partial: bool) | Dies(partial: bool)

  /** How a routine ended: completed, returned an error, or was cut by a crash. */
  datatype Outcome = Done | Failed | Crashed

  /** The step goes wrong, and leaves its work half done if it can. */
  predicate IsPartialFault(fate: Fate) {
    !fate.Works? && fate.partial
  }

  predicate Faultless(fates: seq<Fate>) {
    forall i :: 0 <= i < |fates| ==> fates[i].Works?
  }

  /** The fate of the next step; a schedule that has run out has no more faults. */
  function Coming(fates: seq<Fate>): Fate {
    if fates == [] then Works else fates[0]
  }

  function Later(fates: seq<Fate>): seq<Fate> {
    if fates == [] then [] else fates[1..]
  }

  function FateAt(fates: seq<Fate>, i: nat): Fate {
    if i < |fates| then fates[i] else Works
  }

  /** What is left of a schedule after `n` steps. */
  function Skip(fates: seq<Fate>, n: nat): seq<Fate> {
    if n <= |fates| then fates[n..] else []
  }

  predicate AllWork(fates: seq<Fate>, n: nat) {
    forall i :: 0 <= i < n ==> FateAt(fates, i).Works?
  }

  predicate AtMostOneFault(fates: seq<Fate>) {
    forall i, k :: 0 <= i < k < |fates| ==> fates[i].Works? || fates[k].Works?
  }

  /** A routine of `n` steps: it completes exactly if all of them work. */
  ghost predicate Took(r: Outcome, before: seq<Fate>, after: seq<Fate>, n: nat) {
    && (r.Done? <==> AllWork(before, n))
    && (r.Done? ==> after == Skip(before, n))
  }

  /** Besides, it does not stop without having met a fault. */
  ghost predicate Ran(r: Outcome, before: seq<Fate>, after: seq<Fate>, n: nat) {
    Took(r, before, after, n) && (!r.Done? && AtMostOneFault(before) ==> Faultless(after))
  }

  /** `after` is the end of `before`. */
  predicate IsRest(after: seq<Fate>, before: seq<Fate>) {
    after == before || (before != [] && IsRest(after, Later(before)))
  }

  function ReplaceSteps(present: bool): nat {
    if present then 5 else 3
  }

  /** When moving the current file aside and publishing another fails with the old value
      still in place, and after how many steps: the move erred, or the publication did;
      then one more step tries to put the file back. */
  function UnpublishedMove(fates: seq<Fate>): Option<nat> {
    if Coming(fates).Errs? then Some(1)
    else if Coming(fates).Works? && FateAt(fates, 1).Errs? && !FateAt(fates, 2).Dies? then Some(3)
    else None
  }

  /** The same for replacing an existing file, which prepares two things first. */
  function Unpublished(fates: seq<Fate>): Option<nat> {
    if Coming(fates).Errs? then Some(1)
    else if !Coming(fates).Works? then None
    else if FateAt(fates, 1).Errs? then Some(2)
    else if !FateAt(fates, 1).Works? then None
    else
      match UnpublishedMove(Skip(fates, 2))
      case Some(k) => Some(2 + k)
      case None => None
  }

  /** When replacing an existing file, after `n` other steps, fails and leaves the backup:
      publishing erred and so did putting the file back, or only the removal of the backup
      erred. */
  predicate LeavesBackup(fates: seq<Fate>, n: nat) {
    AllWork(fates, n + 3) && !FateAt(fates, n + 3).Dies? && FateAt(fates, n + 4).Errs?
  }

  lemma LeavesBackupLater(fates: seq<Fate>, m: nat, n: nat)
    ensures LeavesBackup(fates, m + n) <==> AllWork(fates, m) && LeavesBackup(Skip(fates, m), n)
  {
    SkipSkip(fates, m, n + 3);
    SkipSkip(fates, m, n + 4);
  }

  /** If there is only one fault, there are none after it. */
  lemma OnlyFault(fates: seq<Fate>, i: nat, n: nat)
    requires AtMostOneFault(fates)
    ensures AtMostOneFault(Skip(fates, n))
    ensures !FateAt(fates, i).Works? && i < n ==> Faultless(Skip(fates, n))
  {
  }

  /** What is met within the first three steps. */
  lemma OnlyFaultSoon(fates: seq<Fate>)
    ensures AtMostOneFault(fates) && !Coming(fates).Works? ==>
              Faultless(Skip(fates, 1)) && Faultless(Skip(fates, 2)) && Faultless(Skip(fates, 3))
    ensures AtMostOneFault(fates) && !FateAt(fates, 1).Works? ==> Faultless(Skip(fates, 2)) && Faultless(Skip(fates, 3))
    ensures AtMostOneFault(fates) && !FateAt(fates, 2).Works? ==> Faultless(Skip(fates, 3))
  {
    if AtMostOneFault(fates) {
      assert Coming(fates) == FateAt(fates, 0);
      OnlyFault(fates, 0, 1);
      OnlyFault(fates, 0, 2);
      OnlyFault(fates, 0, 3);
      OnlyFault(fates, 1, 2);
      OnlyFault(fates, 1, 3);
      OnlyFault(fates, 2, 3);
    }
  }

  /** The rest of a rest is a rest. */
  lemma {:induction false} RestOfRest(after: seq<Fate>, mid: seq<Fate>, before: seq<Fate>)
    requires IsRest(after, mid) && IsRest(mid, before)
    ensures IsRest(after, before)
  {
    if mid == before {
    } else {
      RestOfRest(after, mid, Later(before));
    }
  }

  lemma RanOne(fates: seq<Fate>)
    ensures AllWork(fates, 1) <==> Coming(fates).Works?
    ensures Later(fates) == Skip(fates, 1)
  {
    assert AllWork(fates, 1) <==> FateAt(fates, 0).Works?;
  }

  lemma SkipSkip(fates: seq<Fate>, m: nat, n: nat)
    ensures Skip(Skip(fates, m), n) == Skip(fates, m + n)
    ensures AllWork(fates, m + n) <==> AllWork(fates, m) && AllWork(Skip(fates, m), n)
    ensures FateAt(Skip(fates, m), n) == FateAt(fates, m + n)
  {
    assert forall i: nat :: FateAt(Skip(fates, m), i) == FateAt(fates, m + i);
    if AllWork(fates, m) && AllWork(Skip(fates, m), n) {
      forall i | 0 <= i < m + n ensures FateAt(fates, i).Works? {
        if i >= m { assert FateAt(Skip(fates, m), i - m).Works?; }
      }
    }
    if AllWork(fates, m + n) {
      forall i | 0 <= i < n ensures FateAt(Skip(fates, m), i).Works? { assert FateAt(fates, m + i).Works?; }
    }
  }

  lemma SkipTwo(fates: seq<Fate>)
    ensures Later(fates) == Skip(fates, 1) && Later(Later(fates)) == Skip(fates, 2)
    ensures Coming(Later(fates)) == FateAt(fates, 1)
    ensures AllWork(fates, 2) <==> Coming(fates).Works? && FateAt(fates, 1).Works?
  {
    assert FateAt(fates, 0) == Coming(fates);
  }

  lemma SkipThree(fates: seq<Fate>)
    ensures Later(Later(fates)) == Skip(fates, 2) && Later(Later(Later(fates))) == Skip(fates, 3)
    ensures Later(fates) == Skip(fates, 1)
    ensures Coming(Later(fates)) == FateAt(fates, 1) && Coming(Later(Later(fates))) == FateAt(fates, 2)
    ensures AllWork(fates, 1) <==> Coming(fates).Works?
    ensures AllWork(fates, 3) <==> Coming(fates).Works? && FateAt(fates, 1).Works? && FateAt(fates, 2).Works?
  {
    assert FateAt(fates, 0) == Coming(fates);
  }

  /** A routine that stopped would not have completed with more steps either. */
  lemma RanMore(r: Outcome, before: seq<Fate>, after: seq<Fate>, m: nat, n: nat)
    requires !r.Done? && Ran(r, before, after, m)
    ensures Ran(r, before, after, m + n)
  {
    SkipSkip(before, m, n);
  }

  /** Two routines in a row, or the first one alone if it did not complete. */
  lemma RanThen(r: Outcome, before: seq<Fate>, mid: seq<Fate>, after: seq<Fate>, m: nat, n: nat, r': Outcome)
    requires Ran(r, before, mid, m)
    requires if r.Done? then Ran(r', mid, after, n) else r' == r && after == mid
    ensures Ran(r', before, after, m + n)
  {
    SkipSkip(before, m, n);
    if AtMostOneFault(before) { OnlyFault(before, 0, m); }
  }

  lemma TookNothing(fates: seq<Fate>)
    ensures Took(Done, fates, fates, 0)
  {
  }

  lemma TookOne(r: Outcome, before: seq<Fate>, after: seq<Fate>)
    requires after == Later(before) && (r.Done? <==> Coming(before).Works?)
    ensures Took(r, before, after, 1)
  {
    RanOne(before);
  }

  lemma TookMore(r: Outcome, before: seq<Fate>, after: seq<Fate>, m: nat, n: nat)
    requires !r.Done? && Took(r, before, after, m)
    ensures Took(r, before, after, m + n)
  {
    SkipSkip(before, m, n);
  }

  lemma TookThen(before: seq<Fate>, mid: seq<Fate>, after: seq<Fate>, m: nat, n: nat, r: Outcome)
    requires Took(Done, before, mid, m) && Took(r, mid, after, n)
    ensures Took(r, before, after, m + n)
  {
    SkipSkip(before, m, n);
  }

  function Ended(fate: Fate): Outcome {
    match fate
    case Works => Done
    case Errs(_) => Failed
    case Dies(_) => Crashed
  }

  function Lookup<Name(==), Content>(files: map<Name, Content>, name: Name): Option<Content> {
    if name in files then Some(files[name]) else None
  }

  predicate Has<Name(==), Content>(files: map<Name, Content>, name: Name) {
    Lookup(files, name).Some?
  }

  /** The logical value of a file that is replaced through a backup: the file
      itself, or else the backup a crash left behind. */
  function Stored<Name(==), Content>(files: map<Name, Content>, path: Name, backup: Name): Option<Content> {
    if Has(files, path) then Lookup(files, path) else Lookup(files, backup)
  }

  /** Nothing outside `touched` was created, removed or changed. */
  ghost predicate SameOutside<Name(!new), Content>(
    before: map<Name, Content>, after: map<Name, Content>, touched: set<Name>)
  {
    forall n {:trigger n in after} {:trigger Lookup(after, n)} :: n !in touched ==> Lookup(after, n) == Lookup(before, n)
  }

  class Disk<Name(==,!new), Content> {
    var files: map<Name, Content>
    var fates: seq<Fate>

    constructor (files: map<Name, Content>, fates: seq<Fate>)
      ensures this.files == files && this.fates == fates
    {
      this.files, this.fates := files, fates;
    }

    /** One step that touches none of the modelled names: creating a parent
        directory, or writing and syncing a uniquely named partial file. */
    method Prepare() returns (r: Outcome)
      modifies this`fates
      ensures r == Ended(Coming(old(fates))) && fates == Later(old(fates))
      ensures Faultless(old(fates)) ==> r.Done? && Faultless(fates)
    {
      r := Ended(Coming(fates));
      fates := Later(fates);
    }

    /** `fs::rename`. Callers prove the target name free, so it does not matter
        that platforms disagree about renaming onto an existing name. */
    method Rename(source: Name, target: Name) returns (r: Outcome)
      requires !Has(files, target)
      modifies this
      ensures fates == Later(old(fates))
      ensures r == if source !in old(files) && Coming(old(fates)).Works? then Failed else Ended(Coming(old(fates)))
      ensures files == if r.Done? then (old(files) - {source})[target := old(files)[source]] else old(files)
      ensures Faultless(old(fates)) ==> Faultless(fates) && (r.Done? <==> source in old(files))
    {
      r := Ended(Coming(fates));
      fates := Later(fates);
      if r.Done? {
        if source in files {
          files := (files - {source})[target := files[source]];
        } else {
          r := Failed;
        }
      }
    }

    /** `fs::rename` onto a name that may be taken by a file, which it replaces. */
    method RenameOver(source: Name, target: Name) returns (r: Outcome)
      requires source in files && source != target
      modifies this
      ensures fates == Later(old(fates))
      ensures r == Ended(Coming(old(fates)))
      ensures files == if r.Done? then (old(files) - {source})[target := old(files)[source]] else old(files)
      ensures Faultless(old(fates)) ==> r.Done? && Faultless(fates)
    {
      r := Ended(Coming(fates));
      fates := Later(fates);
      if r.Done? {
        files := (files - {source})[target := files[source]];
      }
    }

    /** Renames an already written partial file to a name that may be taken. */
    method PublishOver(path: Name, bytes: Content) returns (r: Outcome)
      modifies this
      ensures fates == Later(old(fates))
      ensures r == Ended(Coming(old(fates)))
      ensures files == if r.Done? then old(files)[path := bytes] else old(files)
      ensures Faultless(old(fates)) ==> r.Done? && Faultless(fates)
    {
      r := Ended(Coming(fates));
      fates := Later(fates);
      if r.Done? {
        files := files[path := bytes];
      }
    }

    /** `fs::remove_file`, which is atomic. */
    method RemoveFile(name: Name) returns (r: Outcome)
      modifies this
      ensures fates == Later(old(fates))
      ensures r == if name !in old(files) && Coming(old(fates)).Works? then Failed else Ended(Coming(old(fates)))
      ensures files == if r.Done? then old(files) - {name} else old(files)
      ensures Faultless(old(fates)) ==> Faultless(fates) && (r.Done? <==> name in old(files)) && !r.Crashed?
    {
      r := Ended(Coming(fates));
      fates := Later(fates);
      if r.Done? {
        if name in files { files := files - {name}; } else { r := Failed; }
      }
    }

    /** Removing many files one after the other, as `fs::remove_dir_all` does:
        an error or a crash can leave some of them, that is, a torn tree. */
    method RemoveTree(name: Name, torn: Content) returns (r: Outcome)
      requires name in files
      modifies this
      ensures fates == Later(old(fates))
      ensures r == Ended(Coming(old(fates)))
      ensures files == if r.Done? then old(files) - {name}
                       else if Coming(old(fates)).partial then old(files)[name := torn]
                       else old(files)
      ensures Faultless(old(fates)) ==> r.Done? && Faultless(fates)
    {
      var fate := Coming(fates);
      r := Ended(fate);
      fates := Later(fates);
      if r.Done? {
        files := files - {name};
      } else if fate.partial {
        files := files[name := torn];
      }
    }

    /** Publishes already written and synced bytes under a name that must be
        free, as `persist_noclobber` does. */
    method Publish(path: Name, bytes: Content) returns (r: Outcome)
      modifies this
      ensures fates == Later(old(fates))
      ensures r == if path in old(files) && Coming(old(fates)).Works? then Failed else Ended(Coming(old(fates)))
      ensures files == if r.Done? then old(files)[path := bytes] else old(files)
      ensures Faultless(old(fates)) ==> Faultless(fates) && (r.Done? <==> path !in old(files))
    {
      r := Ended(Coming(fates));
      fates := Later(fates);
      if r.Done? {
        if path in files { r := Failed; } else { files := files[path := bytes]; }
      }
    }

    /** Puts a backup left by an interrupted replacement back, or drops it when
        the replacement had already been published. */
    method RecoverFile(path: Name, backup: Name) returns (r: Outcome)
      requires path != backup
      modifies this
      ensures Stored(files, path, backup) == Stored(old(files), path, backup)
      ensures SameOutside(old(files), files, {path, backup})
      ensures r.Done? ==> backup !in files && Lookup(files, path) == Stored(old(files), path, backup)
      ensures backup !in old(files) ==> r.Done? && files == old(files) && fates == old(fates)
      ensures Faultless(old(fates)) ==> r.Done? && Faultless(fates)
      ensures IsRest(fates, old(fates))
    {
      r := Done;
      if path !in files && backup in files {
        r := Rename(backup, path);
      } else if path in files && backup in files {
        r := RemoveFile(backup);
      }
    }

    /** The steps before the first visible change: nothing is pending afterwards. */
    method PrepareReplacement(path: Name, backup: Name) returns (r: Outcome)
      requires path != backup
      modifies this
      ensures Stored(files, path, backup) == Stored(old(files), path, backup)
      ensures SameOutside(old(files), files, {path, backup})
      ensures backup !in old(files) ==> files == old(files) && Ran(r, old(fates), fates, 2)
      ensures r.Done? ==> backup !in files && Lookup(files, path) == Stored(old(files), path, backup)
      ensures Faultless(old(fates)) ==> r.Done? && Faultless(fates)
      ensures backup !in old(files) && !r.Done? ==>
                if Unpublished(old(fates)).Some? then r.Failed? && fates == Skip(old(fates), Unpublished(old(fates)).value)
                else r.Crashed?
    {
      ghost var start := fates;
      SkipTwo(start);
      OnlyFaultSoon(start);
      r := Prepare();  // the parent directory
      if !r.Done? { return; }
      r := RecoverFile(path, backup);
      if !r.Done? { return; }
      r := Prepare();  // the synced partial file
    }

    /** Moves the current file to the backup name, publishes, drops the backup. */
    method MoveAndPublish(path: Name, backup: Name, bytes: Content) returns (r: Outcome)
      requires path != backup && backup !in files
      modifies this
      ensures SameOutside(old(files), files, {path, backup})
      ensures r.Done? ==> Lookup(files, path) == Some(bytes) && backup !in files
      ensures Stored(files, path, backup) == Lookup(old(files), path) || Stored(files, path, backup) == Some(bytes)
      ensures backup in files ==> Some(files[backup]) == Lookup(old(files), path)
      ensures Faultless(old(fates)) ==> r.Done? && Faultless(fates)
      ensures Ran(r, old(fates), fates, if path in old(files) then 3 else 1)
      ensures path !in old(files) && !r.Done? ==> files == old(files)
      ensures path in old(files) ==> MoveFailed(r, path, backup, bytes, old(files), old(fates))
      ensures path in old(files) ==>
                (r.Failed? && backup in files <==>
                   Coming(old(fates)).Works? && !FateAt(old(fates), 1).Dies? && FateAt(old(fates), 2).Errs?)
    {
      ghost var start := fates;
      SkipThree(start);
      OnlyFaultSoon(start);
      if path in files {
        r := Rename(path, backup);
        if !r.Done? { return; }
      }
      r := Publish(path, bytes);
      if r.Crashed? { return; }
      if r.Failed? {
        if backup in files && path !in files {
          var undone := Rename(backup, path);
          if undone.Crashed? { r := Crashed; }
        }
        return;
      }
      if backup in files {
        r := RemoveFile(backup);
      }
    }

    /** A failure leaves the old value exactly if `UnpublishedMove` says so. */
    ghost predicate MoveFailed(r: Outcome, path: Name, backup: Name, bytes: Content,
                               before: map<Name, Content>, start: seq<Fate>)
      reads this
    {
      match UnpublishedMove(start)
      case Some(k) => r.Failed? && Stored(files, path, backup) == Lookup(before, path) && fates == Skip(start, k)
      case None => r.Failed? ==> Lookup(files, path) == Some(bytes)
    }

    /** `atomic_replace_file`: stage, move the current file to the backup name,
        publish, drop the backup. Cut anywhere, the logical value is the old one
        or the new one, and a value other than those two never appears. Unless a
        backup is pending, it completes exactly if all its steps work, and `Unpublished`
        says when it fails with nothing published. */
    method ReplaceFile(path: Name, backup: Name, bytes: Content) returns (r: Outcome)
      requires path != backup
      modifies this
      ensures SameOutside(old(files), files, {path, backup})
      ensures r.Done? ==> Lookup(files, path) == Some(bytes) && backup !in files
      ensures Stored(files, path, backup) == Stored(old(files), path, backup)
           || Stored(files, path, backup) == Some(bytes)
      ensures backup !in old(files) && backup in files ==> Some(files[backup]) == Stored(old(files), path, backup)
      ensures Faultless(old(fates)) ==> r.Done? && Faultless(fates)
      ensures backup !in old(files) ==> Ran(r, old(fates), fates, ReplaceSteps(path in old(files)))
      ensures backup !in old(files) && path in old(files) ==>
                match Unpublished(old(fates))
                case Some(k) =>
                  r.Failed? && Stored(files, path, backup) == Stored(old(files), path, backup) && fates == Skip(old(fates), k)
                case None => r.Failed? ==> Lookup(files, path) == Some(bytes)
      ensures backup !in old(files) && path !in old(files) && !r.Done? ==> files == old(files)
      ensures backup !in old(files) && path in old(files) ==> (r.Failed? && backup in files <==> LeavesBackup(old(fates), 0))
    {
      ghost var start, present, clear := fates, path in files, backup !in files;
      r := PrepareReplacement(path, backup);
      if !r.Done? {
        if clear { RanMore(r, start, fates, 2, ReplaceSteps(present) - 2); }
        return;
      }
      ghost var prepared := fates;
      r := MoveAndPublish(path, backup, bytes);
      if clear {
        SkipTwo(start);
        assert FateAt(start, 0).Works? && FateAt(start, 1).Works?;
        assert LeavesBackup(start, 0) <==>
          Coming(prepared).Works? && !FateAt(prepared, 1).Dies? && FateAt(prepared, 2).Errs? by {
          SkipSkip(start, 2, 0);
          SkipSkip(start, 2, 1);
          SkipSkip(start, 2, 2);
          assert AllWork(start, 3) <==> AllWork(start, 2) && FateAt(start, 2).Works?;
        }
        RanThen(Done, start, prepared, fates, 2, ReplaceSteps(present) - 2, r);
        if UnpublishedMove(prepared).Some? { SkipSkip(start, 2, UnpublishedMove(prepared).value); }
      }
    }
  }
}
