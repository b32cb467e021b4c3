// Planning and running a batch of image conversions.
module Batch {
  import opened Options
  import opened Sequences
  import opened Strings
  import opened Jobs
  import opened BatchRun
  import opened BatchInputs

  function Stem(name: string): string {
    match Extension(name)
    case None => name
    case Some(extension) => if |extension| < |name| then name[..|name| - |extension| - 1] else []
  }

  function FirstName(name: string, extension: string): string {
    Stem(name) + "." + extension
  }

  function SecondName(name: string, extension: string): string {
    var source := match Extension(name) case None => "source" case Some(e) => ToLower(e);
    Stem(name) + ".from-" + source + "." + extension
  }

  function Beside(out: Path, relative: Path, name: string): Path
    requires relative != []
  {
    out + relative[..|relative| - 1] + [name]
  }

  function FirstChoice(out: Path, relative: Path, extension: string): Path
    requires relative != []
  {
    Beside(out, relative, FirstName(relative[|relative| - 1], extension))
  }

  function SecondChoice(out: Path, relative: Path, extension: string): Path
    requires relative != []
  {
    Beside(out, relative, SecondName(relative[|relative| - 1], extension))
  }

  /** Which of the two names an input gets, given the keys taken before it. */
  function Choice(out: Path, relative: Path, extension: string, key: Path -> string, taken: set<string>): Option<Path>
    requires relative != []
  {
    if key(FirstChoice(out, relative, extension)) !in taken then Some(FirstChoice(out, relative, extension))
    else if key(SecondChoice(out, relative, extension)) !in taken then Some(SecondChoice(out, relative, extension))
    else None
  }

  /** The two names of an input, in full: the first choice if its key is free, else the
      second if its key is, else none. */
  lemma ChoiceIs(out: Path, folders: Path, stem: string, e: string, extension: string, key: Path -> string, taken: set<string>)
    requires stem != "" && '.' !in e
    ensures var first := out + folders + [stem + "." + extension];
      var second := out + folders + [stem + ".from-" + ToLower(e) + "." + extension];
      Choice(out, folders + [stem + "." + e], extension, key, taken) ==
        if key(first) !in taken then Some(first) else if key(second) !in taken then Some(second) else None
  {
    var name := stem + "." + e;
    ExtensionIs(name, stem, e);
    assert Stem(name) == stem;
    assert (folders + [name])[..|folders + [name]| - 1] == folders;
  }

  /** The same for a name without an extension. */
  lemma PlainChoiceIs(out: Path, folders: Path, name: string, extension: string, key: Path -> string, taken: set<string>)
    requires forall i :: 0 < i < |name| ==> name[i] != '.'
    ensures var first := out + folders + [name + "." + extension];
      var second := out + folders + [name + ".from-source." + extension];
      Choice(out, folders + [name], extension, key, taken) ==
        if key(first) !in taken then Some(first) else if key(second) !in taken then Some(second) else None
  {
    ExtensionIs(name, "", "");
    assert name + ".from-" + "source" + "." + extension == name + ".from-source." + extension;
    assert (folders + [name])[..|folders + [name]| - 1] == folders;
  }

  /** The `reserved` set of the planning loop. Paths are told apart by their keys, which
      ignore case on some systems. */
  class ReservedNames {
    const key: Path -> string
    var keys: set<string>

    constructor (key: Path -> string)
      ensures this.key == key && keys == {}
    {
      this.key, keys := key, {};
    }

    /** `unique_batch_output`. */
    method UniqueOutput(out: Path, relative: Path, extension: string) returns (output: Option<Path>)
      requires relative != []
      modifies this
      ensures output == Choice(out, relative, extension, key, old(keys))
      ensures output.Some? ==> key(output.value) !in old(keys) && keys == old(keys) + {key(output.value)}
      ensures output.None? ==> keys == old(keys)
    {
      var first := FirstChoice(out, relative, extension);
      if key(first) in keys {
        var second := SecondChoice(out, relative, extension);
        if key(second) in keys { return None; }
        keys := keys + {key(second)};
        return Some(second);
      }
      keys := keys + {key(first)};
      return Some(first);
    }
  }

  /** What probing an input and planning its conversion come to, what is on disk, whether
      an input's name is Unicode, and whether the directory of an output can be made. */
  datatype World = World(
    isThere: Path -> bool,
    isImage: Path -> bool,
    plannable: Path -> bool,
    isUnicode: Path -> bool,
    makesParent: Path -> bool)

  predicate IsConvertible(w: World, input: Path) {
    w.isImage(input) && w.plannable(input)
  }

  datatype Request = Request(input: Path, output: Path)

  function InputOf(r: Request): Path {
    r.input
  }

  /** The inputs that are planned, in their order. */
  function Convertible(w: World, inputs: seq<Path>): seq<Path> {
    if inputs == [] then []
    else
      var last := inputs[|inputs| - 1];
      Convertible(w, inputs[..|inputs| - 1]) + if IsConvertible(w, last) then [last] else []
  }

  /** Every output has a key of its own, among those taken, is not there yet, and has a
      directory to stand in. */
  ghost predicate OutputsAreFree(requests: seq<Request>, w: World, key: Path -> string, taken: set<string>) {
    && (forall i :: 0 <= i < |requests| ==>
          key(requests[i].output) in taken && !w.isThere(requests[i].output) && w.makesParent(requests[i].output))
    && (forall i, k :: 0 <= i < k < |requests| ==> key(requests[i].output) != key(requests[k].output))
  }

  /** Every output stands in the place of its input under the output root. */
  ghost predicate OutputsMirror(requests: seq<Request>, root: Path, out: Path, extension: string) {
    forall i :: 0 <= i < |requests| ==> MirrorsInput(requests[i], root, out, extension)
  }

  /** The output stands under the output root where the input stands under the input root. */
  ghost predicate MirrorsInput(r: Request, root: Path, out: Path, extension: string) {
    && root < r.input && r.output != []
    && r.output[..|r.output| - 1] == out + r.input[|root|..|r.input| - 1]
    && IsNamedFor(r.input[|r.input| - 1], r.output[|r.output| - 1], extension)
  }

  /** The name of an output has the stem of the input's name, and may tell where it is from. */
  ghost predicate IsNamedFor(input: string, output: string, extension: string) {
    exists stem, source :: IsSplit(input, stem, source)
      && (output == stem + "." + extension || output == stem + ".from-" + source + "." + extension)
  }

  ghost predicate IsSplit(name: string, stem: string, source: string) {
    || (stem != "" && exists e :: '.' !in e && name == stem + "." + e && source == ToLower(e))
    || (stem == name && source == "source" && forall i :: 0 < i < |name| ==> name[i] != '.')
  }

  lemma NamesAreForInput(name: string, extension: string)
    ensures IsNamedFor(name, FirstName(name, extension), extension)
    ensures IsNamedFor(name, SecondName(name, extension), extension)
  {
    var source := match Extension(name) case None => "source" case Some(e) => ToLower(e);
    ExtensionFromIs(name, |name|);
    assert IsSplit(name, Stem(name), source);
  }

  lemma ChoiceMirrors(root: Path, out: Path, input: Path, extension: string, output: Path)
    requires root < input
    requires output == FirstChoice(out, input[|root|..], extension) || output == SecondChoice(out, input[|root|..], extension)
    ensures MirrorsInput(Request(input, output), root, out, extension)
  {
    NamesAreForInput(input[|input| - 1], extension);
  }

  ghost predicate PlannedSoFar(requests: seq<Request>, skipped: nat, w: World, inputs: seq<Path>, key: Path -> string,
                               taken: set<string>, root: Path, out: Path, extension: string) {
    && |requests| + skipped == |inputs| && Image(InputOf, requests) == Convertible(w, inputs)
    && OutputsAreFree(requests, w, key, taken) && OutputsMirror(requests, root, out, extension)
    && forall i :: 0 <= i < |inputs| ==> w.isUnicode(inputs[i])
  }

  lemma OneMoreRequest(requests: seq<Request>, r: Request, skipped: nat, w: World, inputs: seq<Path>, key: Path -> string,
                       taken: set<string>, taken': set<string>, root: Path, out: Path, extension: string)
    requires PlannedSoFar(requests, skipped, w, inputs, key, taken, root, out, extension)
    requires taken <= taken' && key(r.output) in taken' && key(r.output) !in taken && !w.isThere(r.output)
    requires MirrorsInput(r, root, out, extension) && IsConvertible(w, r.input) && w.isUnicode(r.input) && w.makesParent(r.output)
    ensures PlannedSoFar(requests + [r], skipped, w, inputs + [r.input], key, taken', root, out, extension)
  {
    assert (inputs + [r.input])[..|inputs|] == inputs;
    assert Image(InputOf, requests + [r]) == Image(InputOf, requests) + [r.input];
  }

  lemma OneMoreSkipped(requests: seq<Request>, input: Path, skipped: nat, w: World, inputs: seq<Path>, key: Path -> string,
                       taken: set<string>, taken': set<string>, root: Path, out: Path, extension: string)
    requires PlannedSoFar(requests, skipped, w, inputs, key, taken, root, out, extension)
    requires taken <= taken' && !IsConvertible(w, input) && w.isUnicode(input)
    ensures PlannedSoFar(requests, skipped + 1, w, inputs + [input], key, taken', root, out, extension)
  {
    assert (inputs + [input])[..|inputs|] == inputs;
  }

  /** The keys that planning these inputs takes. */
  function Taken(root: Path, out: Path, inputs: seq<Path>, extension: string, key: Path -> string): set<string>
    requires forall i :: 0 <= i < |inputs| ==> root < inputs[i]
  {
    if inputs == [] then {}
    else
      var n := |inputs| - 1;
      var before := Taken(root, out, inputs[..n], extension, key);
      match Choice(out, inputs[n][|root|..], extension, key, before)
      case Some(output) => before + {key(output)}
      case None => before
  }

  /** Input `i` ends the whole batch: its name is not Unicode, inputs before it have taken
      both its names, the output it is to get exists, or the directory for it cannot be made. */
  predicate EndsBatch(root: Path, out: Path, inputs: seq<Path>, extension: string, w: World, key: Path -> string, i: nat)
    requires i < |inputs| && forall k :: 0 <= k < |inputs| ==> root < inputs[k]
  {
    || !w.isUnicode(inputs[i])
    || match Choice(out, inputs[i][|root|..], extension, key, Taken(root, out, inputs[..i], extension, key))
       case Some(output) => w.isThere(output) || (IsConvertible(w, inputs[i]) && !w.makesParent(output))
       case None => true
  }

  lemma TakenStep(root: Path, out: Path, inputs: seq<Path>, extension: string, key: Path -> string, i: nat)
    requires i < |inputs| && forall k :: 0 <= k < |inputs| ==> root < inputs[k]
    ensures var before := Taken(root, out, inputs[..i], extension, key);
      Taken(root, out, inputs[..i + 1], extension, key) ==
        match Choice(out, inputs[i][|root|..], extension, key, before)
        case Some(output) => before + {key(output)}
        case None => before
  {
    assert inputs[..i + 1][..i] == inputs[..i] && inputs[..i + 1][i] == inputs[i];
  }

  /** One of the first `n` inputs ends the batch. */
  predicate EndsWithin(root: Path, out: Path, inputs: seq<Path>, extension: string, w: World, key: Path -> string, n: nat)
    requires n <= |inputs| && forall k :: 0 <= k < |inputs| ==> root < inputs[k]
  {
    n > 0 && (EndsWithin(root, out, inputs, extension, w, key, n - 1) || EndsBatch(root, out, inputs, extension, w, key, n - 1))
  }

  lemma {:induction false} EndsLater(
    root: Path, out: Path, inputs: seq<Path>, extension: string, w: World, key: Path -> string, m: nat, n: nat)
    requires m <= n <= |inputs| && forall k :: 0 <= k < |inputs| ==> root < inputs[k]
    requires EndsWithin(root, out, inputs, extension, w, key, m)
    ensures EndsWithin(root, out, inputs, extension, w, key, n)
  {
    if m == n {
    } else {
      EndsLater(root, out, inputs, extension, w, key, m, n - 1);
    }
  }

  /** One round of the planning loop. */
  method PlanNext(root: Path, out: Path, inputs: seq<Path>, extension: string, w: World, names: ReservedNames,
                  i: nat, planned: seq<Request>, skipped: nat)
    returns (more: Option<seq<Request>>, passed: nat)
    requires i < |inputs| && forall k :: 0 <= k < |inputs| ==> root < inputs[k]
    requires names.keys == Taken(root, out, inputs[..i], extension, names.key)
    requires PlannedSoFar(planned, skipped, w, inputs[..i], names.key, names.keys, root, out, extension)
    modifies names
    ensures more.None? <==> EndsBatch(root, out, inputs, extension, w, names.key, i)
    ensures more.Some? ==>
              && names.keys == Taken(root, out, inputs[..i + 1], extension, names.key)
              && PlannedSoFar(more.value, passed, w, inputs[..i + 1], names.key, names.keys, root, out, extension)
  {
    passed := skipped;
    PrefixStep(inputs, i);
    TakenStep(root, out, inputs, extension, names.key, i);
    ghost var taken := names.keys;
    if !w.isUnicode(inputs[i]) { return None, passed; }
    var output := names.UniqueOutput(out, inputs[i][|root|..], extension);
    if output.None? || w.isThere(output.value) { return None, passed; }
    if !w.isImage(inputs[i]) || !w.plannable(inputs[i]) {
      OneMoreSkipped(planned, inputs[i], skipped, w, inputs[..i], names.key, taken, names.keys, root, out, extension);
      return Some(planned), skipped + 1;
    }
    if !w.makesParent(output.value) { return None, passed; }
    var request := Request(inputs[i], output.value);
    ChoiceMirrors(root, out, inputs[i], extension, output.value);
    OneMoreRequest(planned, request, skipped, w, inputs[..i], names.key, taken, names.keys, root, out, extension);
    return Some(planned + [request]), passed;
  }

  /** The planning loop. An input of the kind of `EndsBatch` ends the whole batch, and
      nothing else does. */
  method PlanBatch(root: Path, out: Path, inputs: seq<Path>, extension: string, w: World, names: ReservedNames)
    returns (requests: Option<seq<Request>>, skipped: nat)
    requires forall i :: 0 <= i < |inputs| ==> root < inputs[i]
    requires names.keys == {}
    modifies names
    ensures requests.Some? ==> PlannedSoFar(requests.value, skipped, w, inputs, names.key, names.keys, root, out, extension)
    ensures requests.None? <==> EndsWithin(root, out, inputs, extension, w, names.key, |inputs|)
  {
    var planned: seq<Request> := [];
    skipped := 0;
    for i := 0 to |inputs|
      invariant PlannedSoFar(planned, skipped, w, inputs[..i], names.key, names.keys, root, out, extension)
      invariant names.keys == Taken(root, out, inputs[..i], extension, names.key)
      invariant !EndsWithin(root, out, inputs, extension, w, names.key, i)
    {
      var more;
      more, skipped := PlanNext(root, out, inputs, extension, w, names, i, planned, skipped);
      if more.None? {
        EndsLater(root, out, inputs, extension, w, names.key, i + 1, |inputs|);
        return None, skipped;
      }
      planned := more.value;
    }
    PrefixWhole(inputs);
    return Some(planned), skipped;
  }

  /** The planned inputs are the convertible images, each once. */
  ghost predicate PlansExactly(requests: seq<Request>, w: World, images: multiset<Path>) {
    forall p :: multiset(Image(InputOf, requests))[p] == if w.isImage(p) && w.plannable(p) then images[p] else 0
  }

  lemma {:induction false} ConvertibleAreExactly(w: World, inputs: seq<Path>, p: Path)
    ensures multiset(Convertible(w, inputs))[p] == if IsConvertible(w, p) then multiset(inputs)[p] else 0
  {
    if inputs == [] {
    } else {
      var n := |inputs| - 1;
      ConvertibleAreExactly(w, inputs[..n], p);
      assert inputs == inputs[..n] + [inputs[n]];
    }
  }

  datatype BatchReport = BatchReport(discovered: nat, skipped: nat, run: Report, jobs: seq<nat>)

  /** How many jobs of a batch the runner gets to see. */
  function Listed(count: nat): nat {
    if count > MAX_PAGE then MAX_PAGE else count
  }

  /** Every entry discovered is planned or skipped, but the report knows the jobs of the first
      page only: its own numbers add up exactly if they all fit there. */
  ghost predicate Accounts(r: BatchReport, requests: nat) {
    && requests + r.skipped == r.discovered
    && r.run.planned == |r.jobs| == (if requests <= 10000 then requests else 10000)
    && (r.run.planned + r.skipped == r.discovered <==> requests <= 10000)
  }

  /** The jobs after the first page are queued, and no report mentions them. */
  ghost predicate RestIsQueued(all: seq<nat>, listed: seq<nat>, states: map<nat, JobState>) {
    && |listed| <= |all| && listed == all[..|listed|]
    && QueuedFrom(all, |listed|, states)
  }

  /** Creates the jobs and lists them. */
  method QueueJobs(store: JobStore, count: nat) returns (jobs: Option<seq<nat>>, ghost all: seq<nat>)
    modifies store`states, store`batches, store`faults
    ensures forall id :: id in old(store.states) ==> id in store.states && store.states[id] == old(store.states)[id]
    ensures jobs.Some? ==>
              && |all| == count && Distinct(all) && AllQueued(all, store.states) && jobs.value == all[..Listed(count)]
              && forall i :: 0 <= i < count ==> all[i] !in old(store.states)
    ensures jobs.Some? ==> count <= MAX_BATCH_JOBS
    ensures Calm(old(store.faults)) ==> Calm(store.faults) && (jobs.Some? <==> count <= MAX_BATCH_JOBS)
  {
    all := [];
    if count == 0 { return Some([]), []; }
    var batch := store.CreateQueuedBatch(count);
    if batch.None? { return None, []; }
    all := store.batches[batch.value];
    jobs := store.ListBatchJobsPage(batch.value, count, 0);
  }

  /** Exactly the jobs that the loop reaches have had their turn, and are where it left them. */
  ghost predicate RunAsTurned(run: Report, jobs: seq<nat>, turns: seq<Turn>, limit: Option<nat>, states: map<nat, JobState>) {
    Sum(run.totals) == Reached(turns, limit, 0) && EndedAsTurned(jobs, turns, Sum(run.totals), states)
  }

  function FirstTurns(turns: nat -> Turn, n: nat): (taken: seq<Turn>)
    ensures |taken| == n
  {
    seq(n, i requires 0 <= i < n => turns(i))
  }

  /** Running the listed jobs leaves the others of the batch as they are. */
  method RunListed(store: JobStore, ghost all: seq<nat>, jobs: seq<nat>, turns: nat -> Turn, limit: Option<nat>, ghost others: set<nat>)
    returns (run: Option<Report>)
    requires Distinct(all) && AllQueued(all, store.states) && |jobs| <= |all| && jobs == all[..|jobs|]
    requires forall i :: 0 <= i < |all| ==> all[i] !in others
    modifies store
    ensures store.refusals == old(store.refusals) && SameFor(others, old(store.states), store.states)
    ensures RestIsQueued(all, jobs, store.states)
    ensures Calm(old(store.faults)) && (forall i :: 0 <= i < |jobs| ==> SavesReport(turns(i))) ==> run.Some?
    ensures run.Some? ==> IsFaithful(run.value, jobs, store.states)
    ensures run.Some? && limit.Some? ==> Sum(run.value.totals) <= limit.value
    ensures run.Some? && Calm(old(store.faults)) ==> RunAsTurned(run.value, jobs, FirstTurns(turns, |jobs|), limit, store.states)
  {
    ghost var rest := set i | |jobs| <= i < |all| :: all[i];
    ghost var initial := store.states;
    forall i | 0 <= i < |jobs| ensures jobs[i] !in others + rest {
      assert jobs[i] == all[i];
    }
    run := RunQueuedJobs(store, jobs, FirstTurns(turns, |jobs|), limit, others + rest);
    assert SameFor(others + rest, initial, store.states);
    forall i | |jobs| <= i < |all| ensures all[i] in store.states && store.states[all[i]] == Queued {
      assert all[i] in rest;
    }
  }

  ghost predicate AllBelow(root: Path, inputs: seq<Path>) {
    forall i :: 0 <= i < |inputs| ==> root < inputs[i]
  }

  /** The first part of `run_image_batch`: finding the images and planning their conversion. */
  method PlanImages(root: Path, nodes: seq<Node>, out: Path, extension: string, w: World, key: Path -> string)
    returns (plan: Option<seq<Request>>, discovered: nat, skipped: nat, ghost inputs: seq<Path>)
    ensures multiset(inputs) == Images(root, nodes, out) && AllBelow(root, inputs)
    ensures plan.None? <==> EndsWithin(root, out, inputs, extension, w, key, |inputs|)
    ensures plan.Some? ==>
              && discovered == |inputs| + Passed(root, nodes, out) == |plan.value| + skipped
              && |plan.value| == |Convertible(w, inputs)|
              && PlansExactly(plan.value, w, Images(root, nodes, out)) && OutputsMirror(plan.value, root, out, extension)
              && forall i, k :: 0 <= i < k < |plan.value| ==> key(plan.value[i].output) != key(plan.value[k].output)
  {
    var found, passed;
    found, discovered, passed := EnumerateImageInputs(root, nodes, out);
    inputs := found;
    assert |multiset(found)| == |found|;
    forall i | 0 <= i < |found| ensures root < found[i] {
      assert found[i] in multiset(found);
      ImagesAreBelow(root, nodes, out, found[i]);
    }
    var names := new ReservedNames(key);
    plan, skipped := PlanBatch(root, out, found, extension, w, names);
    if plan.None? { return; }
    assert |Image(InputOf, plan.value)| == |plan.value|;
    forall p { ConvertibleAreExactly(w, found, p); }
    skipped := passed + skipped;
  }

  /** `run_image_batch` from a canonical input root on. `inputs` are the images found and
      `all` the jobs created. It reports unless the planning ends the batch, there are too
      many requests, or the database or a report file fails; and what it reports agrees
      with the store. */
  method RunImageBatch(root: Path, nodes: seq<Node>, out: Path, extension: string, w: World, key: Path -> string,
                       store: JobStore, turns: nat -> Turn, limit: Option<nat>)
    returns (report: Option<BatchReport>, requests: seq<Request>, ghost inputs: seq<Path>, ghost all: seq<nat>)
    modifies store
    ensures store.refusals == old(store.refusals)
    ensures forall id :: id in old(store.states) ==> id in store.states && store.states[id] == old(store.states)[id]
    ensures multiset(inputs) == Images(root, nodes, out) && AllBelow(root, inputs)
    ensures EndsWithin(root, out, inputs, extension, w, key, |inputs|) ==> report.None? && store.states == old(store.states)
    ensures |Convertible(w, inputs)| > 100000 ==> report.None?
    ensures Calm(old(store.faults)) && (forall i :: SavesReport(turns(i))) ==>
              (report.Some? <==>
                 !EndsWithin(root, out, inputs, extension, w, key, |inputs|) && |Convertible(w, inputs)| <= 100000)
    ensures report.Some? ==>
              && report.value.discovered == |inputs| + Passed(root, nodes, out)
              && Accounts(report.value, |requests|) && IsFaithful(report.value.run, report.value.jobs, store.states)
              && RestIsQueued(all, report.value.jobs, store.states)
              && |all| == |requests| == |Convertible(w, inputs)| && Distinct(all)
    ensures report.Some? ==>
              && PlansExactly(requests, w, Images(root, nodes, out)) && OutputsMirror(requests, root, out, extension)
              && forall i, k :: 0 <= i < k < |requests| ==> key(requests[i].output) != key(requests[k].output)
    ensures report.Some? && limit.Some? ==> Sum(report.value.run.totals) <= limit.value
    ensures report.Some? && Calm(old(store.faults)) ==>
              RunAsTurned(report.value.run, report.value.jobs, FirstTurns(turns, |report.value.jobs|), limit, store.states)
  {
    requests, all := [], [];
    var plan, discovered, skipped;
    plan, discovered, skipped, inputs := PlanImages(root, nodes, out, extension, w, key);
    if plan.None? { return None, [], inputs, []; }
    requests := plan.value;
    ghost var others := store.states.Keys;
    var jobs;
    jobs, all := QueueJobs(store, |requests|);
    if jobs.None? { return None, requests, inputs, all; }
    var run := RunListed(store, all, jobs.value, turns, limit, others);
    if run.None? { return None, requests, inputs, all; }
    report := Some(BatchReport(discovered, skipped, run.value, jobs.value));
  }
}
