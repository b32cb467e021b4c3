// A directory of more images than one page of jobs, and what its batch reports.
module ManyImages {
  import opened Options
  import opened Sequences
  import opened Strings
  import opened Jobs
  import opened BatchRun
  import opened BatchInputs
  import opened Batch

  /** The keys of the first choices of the inputs' names. */
  function FirstKey(root: Path, out: Path, input: Path, extension: string, key: Path -> string): string {
    if |root| < |input| then key(FirstChoice(out, input[|root|..], extension)) else ""
  }

  function FirstKeys(root: Path, out: Path, inputs: seq<Path>, extension: string, key: Path -> string): (keys: seq<string>)
    ensures |keys| == |inputs|
    ensures forall i :: 0 <= i < |inputs| ==> keys[i] == FirstKey(root, out, inputs[i], extension, key)
  {
    seq(|inputs|, i requires 0 <= i < |inputs| => FirstKey(root, out, inputs[i], extension, key))
  }

  /** Every input has a Unicode name, no output exists, and its directory can be made. */
  ghost predicate NothingInTheWay(w: World) {
    forall p :: !w.isThere(p) && w.isUnicode(p) && w.makesParent(p)
  }

  function FirstOf(keys: seq<string>, n: nat): set<string>
    requires n <= |keys|
  {
    if n == 0 then {} else FirstOf(keys, n - 1) + {keys[n - 1]}
  }

  lemma {:induction false} NotYetTaken(keys: seq<string>, k: nat, n: nat)
    requires Distinct(keys) && k <= n < |keys|
    ensures keys[n] !in FirstOf(keys, k)
  {
    if k == 0 {
    } else {
      NotYetTaken(keys, k - 1, n);
    }
  }

  lemma TakesFirst(root: Path, out: Path, input: Path, extension: string, key: Path -> string, before: set<string>)
    requires root < input && FirstKey(root, out, input, extension, key) !in before
    ensures var first := FirstChoice(out, input[|root|..], extension);
      key(first) == FirstKey(root, out, input, extension, key)
      && Choice(out, input[|root|..], extension, key, before) == Some(first)
  {
  }

  /** Inputs whose first choices differ are all planned under them. */
  lemma {:induction false} PlanningGoesThrough(
    root: Path, out: Path, inputs: seq<Path>, extension: string, w: World, key: Path -> string, n: nat)
    requires AllBelow(root, inputs) && NothingInTheWay(w) && n <= |inputs|
    requires Distinct(FirstKeys(root, out, inputs, extension, key))
    ensures !EndsWithin(root, out, inputs, extension, w, key, n)
    ensures Taken(root, out, inputs[..n], extension, key) == FirstOf(FirstKeys(root, out, inputs, extension, key), n)
  {
    if n == 0 {
    } else {
      var keys := FirstKeys(root, out, inputs, extension, key);
      PlanningGoesThrough(root, out, inputs, extension, w, key, n - 1);
      NotYetTaken(keys, n - 1, n - 1);
      TakesFirst(root, out, inputs[n - 1], extension, key, FirstOf(keys, n - 1));
      TakenStep(root, out, inputs, extension, key, n - 1);
    }
  }

  lemma {:induction false} AllConvertible(w: World, inputs: seq<Path>)
    requires forall p :: IsConvertible(w, p)
    ensures Convertible(w, inputs) == inputs
  {
    if inputs == [] {
    } else {
      AllConvertible(w, inputs[..|inputs| - 1]);
    }
  }

  /** As many letters as it takes to tell the names apart. */
  function Letters(n: nat): (s: string)
    ensures |s| == n && forall i :: 0 <= i < n ==> s[i] == 'a'
  {
    seq(n, i => 'a')
  }

  function ImageName(i: nat): string {
    Letters(i + 1) + ".png"
  }

  function Album(n: nat): seq<Node> {
    if n == 0 then [] else Album(n - 1) + [File(ImageName(n - 1))]
  }

  function AlbumPaths(dir: Path, n: nat): seq<Path> {
    if n == 0 then [] else AlbumPaths(dir, n - 1) + [dir + [ImageName(n - 1)]]
  }

  lemma ImageNameParts(i: nat)
    ensures Extension(ImageName(i)) == Some("png") && IsImageName(ImageName(i))
    ensures Stem(ImageName(i)) == Letters(i + 1)
  {
    var name := ImageName(i);
    var n := |name|;
    assert name[n - 1] == 'g' && name[n - 2] == 'n' && name[n - 3] == 'p' && name[n - 4] == '.';
    assert name[n - 3..] == "png";
    assert ExtensionFrom(name, n - 3) == Some("png");
    assert ExtensionFrom(name, n - 1) == ExtensionFrom(name, n - 2) == ExtensionFrom(name, n - 3);
    assert ToLower("png") == "png";
    assert name[..n - 4] == Letters(i + 1);
  }

  lemma OneImageMore(dir: Path, nodes: seq<Node>, name: string, out: Path)
    requires IsImageName(name)
    ensures Images(dir, nodes + [File(name)], out) == Images(dir, nodes, out) + multiset{dir + [name]}
    ensures Passed(dir, nodes + [File(name)], out) == Passed(dir, nodes, out)
  {
    var more := nodes + [File(name)];
    assert more[|more| - 1] == File(name) && more[..|more| - 1] == nodes;
  }

  lemma {:induction false} AlbumImages(dir: Path, out: Path, n: nat)
    ensures Images(dir, Album(n), out) == multiset(AlbumPaths(dir, n)) && Passed(dir, Album(n), out) == 0
  {
    if n == 0 {
    } else {
      AlbumImages(dir, out, n - 1);
      ImageNameParts(n - 1);
      OneImageMore(dir, Album(n - 1), ImageName(n - 1), out);
    }
  }

  lemma {:induction false} AlbumPathsAre(dir: Path, n: nat)
    ensures |AlbumPaths(dir, n)| == n && forall i :: 0 <= i < n ==> AlbumPaths(dir, n)[i] == dir + [ImageName(i)]
  {
    if n == 0 {
    } else {
      AlbumPathsAre(dir, n - 1);
    }
  }

  lemma {:induction false} OnceEach(s: seq<Path>, x: Path)
    requires Distinct(s)
    ensures multiset(s)[x] <= 1
  {
    if s == [] {
    } else {
      var n := |s| - 1;
      OnceEach(s[..n], x);
      assert s == s[..n] + [s[n]];
      assert x == s[n] ==> x !in s[..n];
    }
  }

  lemma OnlyPlace(s: seq<Path>, i: nat, k: nat)
    requires i < k < |s| && multiset(s)[s[i]] <= 1
    ensures s[i] != s[k]
  {
    SplitMultiset(s, i);
    assert Without(s, i)[k - 1] == s[k];
  }

  lemma SameMembersDistinct(a: seq<Path>, b: seq<Path>)
    requires multiset(a) == multiset(b) && Distinct(b)
    ensures Distinct(a)
  {
    forall i, k | 0 <= i < k < |a| ensures a[i] != a[k] {
      OnceEach(b, a[i]);
      OnlyPlace(a, i, k);
    }
  }

  lemma AlbumPathsDiffer(dir: Path, n: nat)
    ensures Distinct(AlbumPaths(dir, n))
  {
    AlbumPathsAre(dir, n);
    forall i, k | 0 <= i < k < n ensures AlbumPaths(dir, n)[i] != AlbumPaths(dir, n)[k] {
      assert (dir + [ImageName(i)])[|dir|] == ImageName(i) && (dir + [ImageName(k)])[|dir|] == ImageName(k);
      assert |ImageName(i)| < |ImageName(k)|;
    }
  }

  /** A key that tells names apart. */
  ghost predicate TellsNamesApart(out: Path, key: Path -> string) {
    forall a: string, b: string :: key(out + [a]) == key(out + [b]) ==> a == b
  }

  lemma AlbumKey(dir: Path, out: Path, i: nat, extension: string, key: Path -> string)
    ensures FirstKey(dir, out, dir + [ImageName(i)], extension, key) == key(out + [Letters(i + 1) + "." + extension])
  {
    ImageNameParts(i);
    var relative := (dir + [ImageName(i)])[|dir|..];
    assert relative == [ImageName(i)] && relative[..0] == [] && out + [] == out;
  }

  lemma PlaceInAlbum(dir: Path, inputs: seq<Path>, n: nat, i: nat) returns (j: nat)
    requires multiset(inputs) == multiset(AlbumPaths(dir, n)) && i < |inputs|
    ensures j < n && inputs[i] == dir + [ImageName(j)]
  {
    AlbumPathsAre(dir, n);
    assert inputs[i] in multiset(AlbumPaths(dir, n));
    j :| 0 <= j < n && AlbumPaths(dir, n)[j] == inputs[i];
  }

  lemma AlbumInputsDiffer(dir: Path, inputs: seq<Path>, n: nat)
    requires multiset(inputs) == multiset(AlbumPaths(dir, n))
    ensures |inputs| == n && Distinct(inputs)
  {
    AlbumPathsAre(dir, n);
    AlbumPathsDiffer(dir, n);
    assert |multiset(inputs)| == |multiset(AlbumPaths(dir, n))|;
    SameMembersDistinct(inputs, AlbumPaths(dir, n));
  }

  lemma OutputNamesDiffer(i: nat, k: nat, extension: string)
    requires i != k
    ensures Letters(i + 1) + "." + extension != Letters(k + 1) + "." + extension
  {
    assert |Letters(i + 1) + "." + extension| == i + 2 + |extension|;
    assert |Letters(k + 1) + "." + extension| == k + 2 + |extension|;
  }

  lemma AlbumKeysDiffer(dir: Path, out: Path, a: Path, b: Path, i: nat, k: nat, extension: string, key: Path -> string)
    requires a == dir + [ImageName(i)] && b == dir + [ImageName(k)] && a != b && TellsNamesApart(out, key)
    ensures FirstKey(dir, out, a, extension, key) != FirstKey(dir, out, b, extension, key)
  {
    AlbumKey(dir, out, i, extension, key);
    AlbumKey(dir, out, k, extension, key);
    OutputNamesDiffer(i, k, extension);
  }

  /** The images of the album, in whatever order, have first choices of their own. */
  lemma AlbumInputs(dir: Path, out: Path, inputs: seq<Path>, n: nat, extension: string, key: Path -> string)
    requires multiset(inputs) == multiset(AlbumPaths(dir, n)) && TellsNamesApart(out, key)
    ensures |inputs| == n && Distinct(FirstKeys(dir, out, inputs, extension, key))
  {
    AlbumInputsDiffer(dir, inputs, n);
    var keys := FirstKeys(dir, out, inputs, extension, key);
    forall i, k | 0 <= i < k < n ensures keys[i] != keys[k] {
      var j := PlaceInAlbum(dir, inputs, n, i);
      var l := PlaceInAlbum(dir, inputs, n, k);
      AlbumKeysDiffer(dir, out, inputs[i], inputs[k], j, l, extension, key);
    }
  }

  /** All of an album is planned. */
  lemma AlbumIsPlanned(dir: Path, out: Path, inputs: seq<Path>, n: nat, extension: string, w: World, key: Path -> string)
    requires multiset(inputs) == Images(dir, Album(n), out) && AllBelow(dir, inputs)
    requires TellsNamesApart(out, key) && NothingInTheWay(w) && forall p :: IsConvertible(w, p)
    ensures |inputs| == n && |Convertible(w, inputs)| == n && Passed(dir, Album(n), out) == 0
    ensures !EndsWithin(dir, out, inputs, extension, w, key, n)
  {
    AlbumImages(dir, out, n);
    AlbumInputs(dir, out, inputs, n, extension, key);
    PlanningGoesThrough(dir, out, inputs, extension, w, key, n);
    AllConvertible(w, inputs);
  }

  const EASY := Turn(false, Same, Finished(Pass, true))

  lemma {:induction false} ReachesAll(turns: seq<Turn>, n: nat)
    requires n <= |turns| && forall i :: 0 <= i < |turns| ==> turns[i] == EASY
    ensures Reached(turns, None, n) == |turns|
    decreases |turns| - n
  {
    if n == |turns| {
    } else {
      ReachesAll(turns, n + 1);
    }
  }

  /** What such a report says when nothing goes wrong. */
  lemma FullPage(report: BatchReport, n: nat, states: map<nat, JobState>)
    requires Accounts(report, n) && n > 10000 && report.discovered == n
    requires IsFaithful(report.run, report.jobs, states)
    requires RunAsTurned(report.run, report.jobs, FirstTurns(i => EASY, |report.jobs|), None, states)
    ensures report.skipped == 0 && |report.jobs| == report.run.planned == 10000
    ensures report.run.queued == 0 && !report.run.paused
  {
    ReachesAll(FirstTurns(i => EASY, |report.jobs|), 0);
  }

  /** A directory of more images than fit on a page: all are planned and queued, the report
      knows of 10000, and the others are still queued when it says that nothing is. */
  method AlbumBatch(dir: Path, out: Path, n: nat, extension: string, w: World, key: Path -> string)
    returns (report: BatchReport, store: JobStore, ghost all: seq<nat>)
    requires TellsNamesApart(out, key) && NothingInTheWay(w) && forall p :: IsConvertible(w, p)
    requires 10000 < n <= 100000
    ensures report.discovered == |all| == n && report.skipped == 0
    ensures report.run.planned == 10000 && report.run.queued == 0 && !report.run.paused
    ensures RestIsQueued(all, report.jobs, store.states) && |report.jobs| == 10000 && Distinct(all)
  {
    store := new JobStore([]);
    var result, requests;
    ghost var inputs;
    result, requests, inputs, all := RunImageBatch(dir, Album(n), out, extension, w, key, store, i => EASY, None);
    AlbumIsPlanned(dir, out, inputs, n, extension, w, key);
    report := result.value;
    FullPage(report, n, store.states);
  }

  /** The smallest such directory: one image too many. */
  method OneImageTooMany() returns (report: BatchReport, store: JobStore, ghost all: seq<nat>)
    ensures report.discovered == 10001 && report.skipped == 0 && report.run.planned == 10000
    ensures report.run.queued == 0 && |all| == 10001 && all[10000] !in report.jobs
    ensures all[10000] in store.states && store.states[all[10000]] == Queued
  {
    var w := World(p => false, p => true, p => true, p => true, p => true);
    var key := (p: Path) => if p == [] then "" else p[|p| - 1];
    report, store, all := AlbumBatch(["in"], ["out"], 10001, "webp", w, key);
  }
}
