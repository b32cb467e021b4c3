// The backup directory of the job database, and how long a file stays there.
module Snapshots {
  /** A database copy in the directory whose name marks it as one. */
  datatype Snapshot = Snapshot(name: string, modified: nat)

  const RETAINED := 5

  predicate DistinctNames(files: seq<Snapshot>) {
    forall i, k :: 0 <= i < k < |files| ==> files[i].name != files[k].name
  }

  /** How many of the first `n` files are not the one to be preserved. */
  function Others(files: seq<Snapshot>, n: nat, preserve: string): nat
    requires n <= |files|
  {
    if n == 0 then 0 else Others(files, n - 1, preserve) + if files[n - 1].name == preserve then 0 else 1
  }

  /** File `i` stays: it is to be preserved, or few enough others are newer. */
  predicate Stays(files: seq<Snapshot>, i: nat, retain: nat, preserve: string)
    requires i < |files|
  {
    files[i].name == preserve || Others(files, i, preserve) + 1 < retain
  }

  function Kept(files: seq<Snapshot>, n: nat, retain: nat, preserve: string): seq<Snapshot>
    requires n <= |files|
  {
    if n == 0 then []
    else Kept(files, n - 1, retain, preserve) + if Stays(files, n - 1, retain, preserve) then [files[n - 1]] else []
  }

  /** `prune_automatic_snapshots` on the files in order, newest first. */
  method PruneAutomaticSnapshots(files: seq<Snapshot>, retain: nat, preserve: string) returns (kept: seq<Snapshot>)
    ensures kept == Kept(files, |files|, retain, preserve)
  {
    kept := [];
    var keptOthers := 0;
    var otherLimit := if retain > 0 then retain - 1 else 0;
    for i := 0 to |files|
      invariant kept == Kept(files, i, retain, preserve)
      invariant keptOthers == if Others(files, i, preserve) < otherLimit then Others(files, i, preserve) else otherLimit
    {
      if files[i].name == preserve {
        kept := kept + [files[i]];
      } else if keptOthers < otherLimit {
        keptOthers := keptOthers + 1;
        kept := kept + [files[i]];
      }
    }
  }

  ghost function OtherIndices(files: seq<Snapshot>, n: nat, preserve: string): set<int>
    requires n <= |files|
  {
    set k | 0 <= k < n && files[k].name != preserve
  }

  lemma {:induction false} OthersCounted(files: seq<Snapshot>, n: nat, preserve: string)
    requires n <= |files|
    ensures Others(files, n, preserve) == |OtherIndices(files, n, preserve)|
  {
    if n == 0 {
      assert OtherIndices(files, n, preserve) == {};
    } else {
      OthersCounted(files, n - 1, preserve);
      var before := OtherIndices(files, n - 1, preserve);
      assert OtherIndices(files, n, preserve) == if files[n - 1].name == preserve then before else before + {n - 1};
    }
  }

  /** A file is kept exactly if it is the one to be preserved or one of the newest
      `retain - 1` others. */
  lemma {:induction false} KeptAre(files: seq<Snapshot>, n: nat, retain: nat, preserve: string, x: Snapshot)
    requires n <= |files|
    ensures x in Kept(files, n, retain, preserve) <==>
              exists i :: 0 <= i < n && files[i] == x && (x.name == preserve || |OtherIndices(files, i, preserve)| + 1 < retain)
  {
    if n == 0 {
    } else {
      KeptAre(files, n - 1, retain, preserve, x);
      OthersCounted(files, n - 1, preserve);
    }
  }

  /** Where the newest file is the one to be preserved, the newest `retain` files stay. */
  lemma {:induction false} NewestStay(files: seq<Snapshot>, n: nat, retain: nat)
    requires 0 < n <= |files| && DistinctNames(files) && retain > 0
    ensures Others(files, n, files[0].name) == n - 1
    ensures Kept(files, n, retain, files[0].name) == files[..if n < retain then n else retain]
  {
    if n == 1 {
      assert Others(files, 0, files[0].name) == 0 && Kept(files, 0, retain, files[0].name) == [];
    } else {
      NewestStay(files, n - 1, retain);
    }
  }

  /** A snapshot is the newest file, and then the directory is pruned. */
  function AfterSnapshot(files: seq<Snapshot>, s: Snapshot): seq<Snapshot> {
    Kept([s] + files, |files| + 1, RETAINED, s.name)
  }

  /** After every snapshot there are at most five files: the new one and, of the others, the
      newest four. */
  lemma FiveStay(files: seq<Snapshot>, s: Snapshot)
    requires DistinctNames([s] + files)
    ensures AfterSnapshot(files, s) == [s] + if |files| <= 4 then files else files[..4]
    ensures |AfterSnapshot(files, s)| <= 5 && DistinctNames(AfterSnapshot(files, s))
  {
    NewestStay([s] + files, |files| + 1, RETAINED);
  }

  /** A file with `i` newer ones has room for `4 - i` snapshots: with each one it moves down
      a place, and the next one drops it. */
  lemma RoomGetsLess(files: seq<Snapshot>, s: Snapshot, i: nat)
    requires i < |files| && DistinctNames([s] + files)
    ensures if i < 4
            then i + 1 < |AfterSnapshot(files, s)| && AfterSnapshot(files, s)[i + 1] == files[i]
            else files[i] !in AfterSnapshot(files, s)
  {
    FiveStay(files, s);
    var all, after := [s] + files, AfterSnapshot(files, s);
    if i >= 4 {
      forall k | 0 <= k < |after| ensures after[k] != files[i] {
        assert after[k] == all[k] && all[k].name != all[i + 1].name;
      }
    }
  }

  function AfterSnapshots(files: seq<Snapshot>, more: seq<Snapshot>): seq<Snapshot> {
    if more == [] then files else AfterSnapshot(AfterSnapshots(files, more[..|more| - 1]), more[|more| - 1])
  }

  /** Every snapshot has a name of its own. */
  predicate FreshNames(files: seq<Snapshot>, more: seq<Snapshot>) {
    DistinctNames(files) && DistinctNames(more)
    && forall i, k :: 0 <= i < |files| && 0 <= k < |more| ==> files[i].name != more[k].name
  }

  lemma {:induction false} NamesStayFresh(files: seq<Snapshot>, more: seq<Snapshot>)
    requires FreshNames(files, more) && files != []
    ensures DistinctNames(AfterSnapshots(files, more)) && AfterSnapshots(files, more) != []
    ensures forall f :: f in AfterSnapshots(files, more) ==> f in files || f in more
  {
    if more == [] {
    } else {
      var n := |more| - 1;
      var before, s := AfterSnapshots(files, more[..n]), more[n];
      NamesStayFresh(files, more[..n]);
      assert DistinctNames([s] + before) by { OneNameMore(files, more, before); }
      RoomGetsLess(before, s, 0);
      NewestStay([s] + before, |before| + 1, RETAINED);
    }
  }

  lemma OneNameMore(files: seq<Snapshot>, more: seq<Snapshot>, before: seq<Snapshot>)
    requires FreshNames(files, more) && more != [] && DistinctNames(before)
    requires forall f :: f in before ==> f in files || f in more[..|more| - 1]
    ensures DistinctNames([more[|more| - 1]] + before)
  {
    forall k | 0 <= k < |before| ensures before[k].name != more[|more| - 1].name {
      assert before[k] in before;
    }
  }

  /** The file with `n` newer ones while it is there, or gone for good. */
  ghost predicate Ages(files: seq<Snapshot>, safety: Snapshot, n: nat) {
    && (safety in files <==> n <= 4)
    && (n <= 4 ==> n < |files| && files[n] == safety)
  }

  lemma AgesOnce(files: seq<Snapshot>, s: Snapshot, safety: Snapshot, n: nat)
    requires files != [] && DistinctNames([s] + files) && s.name != safety.name
    requires Ages(files, safety, n)
    ensures Ages(AfterSnapshot(files, s), safety, n + 1)
  {
    if n <= 4 {
      RoomGetsLess(files, s, n);
    } else {
      FiveStay(files, s);
    }
  }

  /** A safety database that is the newest file when it is taken survives exactly the next
      four snapshots. */
  lemma {:induction false} SafetySurvivesFour(files: seq<Snapshot>, more: seq<Snapshot>)
    requires files != [] && FreshNames(files, more)
    ensures files[0] in AfterSnapshots(files, more) <==> |more| <= 4
    ensures |more| <= 4 ==>
              |more| < |AfterSnapshots(files, more)| && AfterSnapshots(files, more)[|more|] == files[0]
  {
    if more == [] {
    } else {
      var n := |more| - 1;
      var before, s := AfterSnapshots(files, more[..n]), more[n];
      SafetySurvivesFour(files, more[..n]);
      NamesStayFresh(files, more[..n]);
      OneNameMore(files, more, before);
      AgesOnce(before, s, files[0], n);
    }
  }
}
