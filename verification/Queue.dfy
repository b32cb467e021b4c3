// The desktop's view of the job queue, fed by batches that may be repeated or
// arrive out of order, and published at most once per frame.
module Queue {
  import opened Options

  datatype JobState = Queued | Running | Validating | Completed | Warning | Failed

  datatype JobView = JobView(id: string, state: JobState, progressBasisPoints: int)

  datatype Batch = Batch(schemaVersion: int, batchSequence: int, jobs: seq<JobView>)

  datatype Snapshot = Snapshot(
    totalJobs: nat,
    completed: nat,
    active: nat,
    failed: nat,
    lastBatchSequence: int,
    visibleJobs: seq<JobView>)

  predicate DistinctIds(jobs: seq<JobView>) {
    forall i, k :: 0 <= i < k < |jobs| ==> jobs[i].id != jobs[k].id
  }

  /** `Map.set`: a known key keeps its place, a new one goes to the end. */
  function Put(jobs: seq<JobView>, job: JobView): seq<JobView> {
    if jobs == [] then [job]
    else if jobs[0].id == job.id then [job] + jobs[1..]
    else [jobs[0]] + Put(jobs[1..], job)
  }

  function PutAll(jobs: seq<JobView>, updates: seq<JobView>): seq<JobView> {
    if updates == [] then jobs
    else Put(PutAll(jobs, updates[..|updates| - 1]), updates[|updates| - 1])
  }

  /** The highest number accepted so far; -1 before the first. */
  function LastAccepted(history: seq<Batch>): int {
    if history == [] then -1
    else
      var b := history[|history| - 1];
      var before := LastAccepted(history[..|history| - 1]);
      if b.schemaVersion == 1 && b.batchSequence > before then b.batchSequence else before
  }

  /** All job updates that count, in the order they arrived. */
  function Updates(history: seq<Batch>): seq<JobView> {
    if history == [] then []
    else
      var b := history[|history| - 1];
      var before := history[..|history| - 1];
      if b.schemaVersion == 1 && b.batchSequence > LastAccepted(before) then Updates(before) + b.jobs
      else Updates(before)
  }

  function Projected(history: seq<Batch>): seq<JobView> {
    PutAll([], Updates(history))
  }

  /** The last update of a job, if there is one. */
  function LastWrite(updates: seq<JobView>, id: string): Option<JobView> {
    if updates == [] then None
    else if updates[|updates| - 1].id == id then Some(updates[|updates| - 1])
    else LastWrite(updates[..|updates| - 1], id)
  }

  /** The job ids in the order of their first appearance. */
  function FirstSeen(updates: seq<JobView>): seq<string> {
    if updates == [] then []
    else
      var seen := FirstSeen(updates[..|updates| - 1]);
      if updates[|updates| - 1].id in seen then seen else seen + [updates[|updates| - 1].id]
  }

  function Ids(jobs: seq<JobView>): (ids: seq<string>)
    ensures |ids| == |jobs| && forall i :: 0 <= i < |jobs| ==> ids[i] == jobs[i].id
  {
    if jobs == [] then [] else [jobs[0].id] + Ids(jobs[1..])
  }

  lemma PutAllSnoc(before: seq<JobView>, jobs: seq<JobView>, i: nat)
    requires i < |jobs|
    ensures PutAll([], before + jobs[..i + 1]) == Put(PutAll([], before + jobs[..i]), jobs[i])
  {
    var longer := before + jobs[..i + 1];
    assert longer[..|longer| - 1] == before + jobs[..i];
  }

  lemma {:induction false} PutIds(jobs: seq<JobView>, job: JobView)
    ensures Ids(Put(jobs, job)) == if job.id in Ids(jobs) then Ids(jobs) else Ids(jobs) + [job.id]
  {
    if jobs == [] {
      assert Ids([job]) == [job.id] + Ids([job][1..]);
    } else {
      var x, rest := jobs[0].id, Ids(jobs[1..]);
      assert Put(jobs, job)[1..] == if x == job.id then jobs[1..] else Put(jobs[1..], job);
      if x != job.id {
        PutIds(jobs[1..], job);
        assert job.id in [x] + rest <==> job.id in rest;
        assert [x] + (rest + [job.id]) == [x] + rest + [job.id];
      }
    }
  }

  lemma {:induction false} PutMembers(jobs: seq<JobView>, job: JobView, j: JobView)
    requires DistinctIds(jobs)
    ensures j in Put(jobs, job) <==> j == job || (j in jobs && j.id != job.id)
  {
    if jobs == [] {
    } else {
      assert jobs == [jobs[0]] + jobs[1..];
      if jobs[0].id != job.id {
        PutMembers(jobs[1..], job, j);
      } else {
        assert j in jobs[1..] ==> j.id != job.id;
      }
    }
  }

  /** The projection holds exactly the last update of every job, jobs in the order
      in which they first appeared. */
  lemma {:induction false} LastWriteWins(updates: seq<JobView>)
    ensures Ids(PutAll([], updates)) == FirstSeen(updates)
    ensures DistinctIds(PutAll([], updates))
    ensures forall j :: j in PutAll([], updates) <==> LastWrite(updates, j.id) == Some(j)
  {
    if updates == [] {
    } else {
      var n := |updates| - 1;
      LastWriteWins(updates[..n]);
      var before := PutAll([], updates[..n]);
      PutIds(before, updates[n]);
      DistinctSeen(updates);
      var ids, jobs := FirstSeen(updates), PutAll([], updates);
      assert forall i :: 0 <= i < |jobs| ==> jobs[i].id == ids[i];
      forall j ensures j in jobs <==> LastWrite(updates, j.id) == Some(j) {
        PutMembers(before, updates[n], j);
      }
    }
  }

  lemma {:induction false} DistinctSeen(updates: seq<JobView>)
    ensures forall i, k :: 0 <= i < k < |FirstSeen(updates)| ==> FirstSeen(updates)[i] != FirstSeen(updates)[k]
  {
    if updates == [] {
    } else {
      DistinctSeen(updates[..|updates| - 1]);
    }
  }

  predicate Accepted(history: seq<Batch>, i: nat)
    requires i < |history|
  {
    history[i].schemaVersion == 1 && history[i].batchSequence > LastAccepted(history[..i])
  }

  /** A batch counts exactly when it is of version 1, is not negative, and has a
      higher number than every version 1 batch before it, accepted or not. */
  lemma {:induction false} AcceptedWhenHighest(history: seq<Batch>, i: nat)
    requires i < |history|
    ensures Accepted(history, i) <==>
              && history[i].schemaVersion == 1 && history[i].batchSequence >= 0
              && forall k :: 0 <= k < i && history[k].schemaVersion == 1 ==> history[k].batchSequence < history[i].batchSequence
  {
    LastAcceptedIsHighest(history[..i]);
  }

  lemma {:induction false} LastAcceptedIsHighest(history: seq<Batch>)
    ensures LastAccepted(history) >= -1
    ensures forall k :: 0 <= k < |history| && history[k].schemaVersion == 1 ==> history[k].batchSequence <= LastAccepted(history)
    ensures LastAccepted(history) > -1 ==>
              exists k :: 0 <= k < |history| && history[k].schemaVersion == 1 && history[k].batchSequence == LastAccepted(history)
  {
    if history == [] {
    } else {
      var before := history[..|history| - 1];
      LastAcceptedIsHighest(before);
      var b := history[|history| - 1];
      if LastAccepted(history) > -1 && !(b.schemaVersion == 1 && b.batchSequence == LastAccepted(history)) {
        var k :| 0 <= k < |before| && before[k].schemaVersion == 1 && before[k].batchSequence == LastAccepted(before);
        assert history[k] == before[k];
      }
    }
  }

  /** Repeating a batch, or delivering an older one late, has no effect. */
  lemma StaleBatchIsIgnored(history: seq<Batch>, i: nat, late: Batch)
    requires i < |history| && history[i].schemaVersion == 1 && late.batchSequence <= history[i].batchSequence
    ensures Updates(history + [late]) == Updates(history)
    ensures LastAccepted(history + [late]) == LastAccepted(history)
  {
    assert (history + [late])[..|history|] == history;
    LastAcceptedIsHighest(history);
  }

  /** How a job is counted; queued jobs and warnings only count in the total. */
  datatype Class = Finished | Broken | Busy | Uncounted

  function ClassOf(state: JobState): Class {
    match state
    case Completed => Finished
    case Failed => Broken
    case Running => Busy
    case Validating => Busy
    case _ => Uncounted
  }

  function Tally(jobs: seq<JobView>, group: Class): nat {
    if jobs == [] then 0
    else Tally(jobs[..|jobs| - 1], group) + if ClassOf(jobs[|jobs| - 1].state) == group then 1 else 0
  }

  ghost function Members(jobs: seq<JobView>, group: Class): set<JobView> {
    set j | j in jobs && ClassOf(j.state) == group
  }

  lemma MembersSnoc(jobs: seq<JobView>, job: JobView, group: Class)
    requires job !in jobs
    ensures |Members(jobs + [job], group)| == |Members(jobs, group)| + if ClassOf(job.state) == group then 1 else 0
  {
    assert Members(jobs + [job], group) ==
      Members(jobs, group) + if ClassOf(job.state) == group then {job} else {};
  }

  lemma {:induction false} TallyCounts(jobs: seq<JobView>, group: Class)
    requires DistinctIds(jobs)
    ensures Tally(jobs, group) == |Members(jobs, group)|
  {
    if jobs == [] {
    } else {
      var prefix, last := jobs[..|jobs| - 1], jobs[|jobs| - 1];
      TallyCounts(prefix, group);
      assert jobs == prefix + [last];
      MembersSnoc(prefix, last, group);
    }
  }

  /** What a frame shows when these updates have been accepted. */
  ghost function View(updates: seq<JobView>, lastAccepted: int): Snapshot {
    var jobs := PutAll([], updates);
    Snapshot(
      |jobs|, |Members(jobs, Finished)|, |Members(jobs, Busy)|, |Members(jobs, Broken)|,
      lastAccepted, FirstPage(jobs))
  }

  function FirstPage(jobs: seq<JobView>): seq<JobView> {
    jobs[..if |jobs| < 100 then |jobs| else 100]
  }

  ghost function ViewOf(history: seq<Batch>): Snapshot {
    View(Updates(history), LastAccepted(history))
  }

  /** In terms of the updates alone: line `i` of the page is the last write of the
      job that was the `i`th to appear. */
  lemma VisibleJobIsLastWritten(updates: seq<JobView>, lastAccepted: int, i: nat)
    requires i < |View(updates, lastAccepted).visibleJobs|
    ensures View(updates, lastAccepted).totalJobs == |FirstSeen(updates)|
    ensures |View(updates, lastAccepted).visibleJobs| == if |FirstSeen(updates)| <= 100 then |FirstSeen(updates)| else 100
    ensures View(updates, lastAccepted).visibleJobs[i].id == FirstSeen(updates)[i]
    ensures LastWrite(updates, FirstSeen(updates)[i]) == Some(View(updates, lastAccepted).visibleJobs[i])
  {
    LastWriteWins(updates);
    var jobs := PutAll([], updates);
    assert Ids(jobs)[i] == jobs[i].id;
    assert jobs[i] in jobs;
  }

  /** A job is counted in a class exactly when its last write is in that class. */
  lemma CountedByLastWrite(updates: seq<JobView>, group: Class, j: JobView)
    ensures j in Members(PutAll([], updates), group) <==>
              LastWrite(updates, j.id) == Some(j) && ClassOf(j.state) == group
  {
    LastWriteWins(updates);
  }

  /** What is counted as completed, active and failed. */
  lemma ViewCounts(updates: seq<JobView>, lastAccepted: int)
    ensures var v, jobs := View(updates, lastAccepted), PutAll([], updates);
      && v.completed == |set j | j in jobs && j.state == Completed|
      && v.active == |set j | j in jobs && (j.state == Running || j.state == Validating)|
      && v.failed == |set j | j in jobs && j.state == JobState.Failed|
      && v.lastBatchSequence == lastAccepted
  {
    var jobs := PutAll([], updates);
    assert Members(jobs, Finished) == set j | j in jobs && j.state == Completed;
    assert Members(jobs, Busy) == set j | j in jobs && (j.state == Running || j.state == Validating);
    assert Members(jobs, Broken) == set j | j in jobs && j.state == JobState.Failed;
  }

  lemma ViewCountsAddUp(updates: seq<JobView>, lastAccepted: int)
    ensures var v := View(updates, lastAccepted); v.completed + v.failed + v.active <= v.totalJobs
  {
    var jobs := PutAll([], updates);
    LastWriteWins(updates);
    TallyCounts(jobs, Finished);
    TallyCounts(jobs, Broken);
    TallyCounts(jobs, Busy);
    TalliesBounded(jobs);
  }

  lemma TalliesBounded(jobs: seq<JobView>)
    ensures Tally(jobs, Finished) + Tally(jobs, Broken) + Tally(jobs, Busy) <= |jobs|
  {
  }

  class QueueProjection {
    var jobs: seq<JobView>
    var lastBatchSequence: int
    var renderPending: bool
    /** The batches received since the last reset. */
    ghost var history: seq<Batch>

    ghost predicate Valid()
      reads this
    {
      jobs == Projected(history) && lastBatchSequence == LastAccepted(history)
    }

    constructor ()
      ensures Valid() && history == [] && !renderPending
    {
      jobs, lastBatchSequence, renderPending := [], -1, false;
      history := [];
    }

    method Reset()
      modifies this
      ensures Valid() && history == [] && !renderPending
    {
      jobs, lastBatchSequence, renderPending := [], -1, false;
      history := [];
    }

    /** Takes in a batch; `scheduled` tells whether it asked for a frame. */
    method Apply(batch: Batch) returns (scheduled: bool)
      requires Valid()
      modifies this
      ensures Valid() && history == old(history) + [batch]
      ensures scheduled <==> !old(renderPending) && renderPending
      ensures renderPending <==> old(renderPending) || Accepted(history, |history| - 1)
    {
      history := history + [batch];
      assert history[..|history| - 1] == old(history);
      if batch.schemaVersion != 1 || batch.batchSequence <= lastBatchSequence {
        return false;
      }
      lastBatchSequence := batch.batchSequence;
      ghost var before := Updates(old(history));
      assert before + batch.jobs[..0] == before;
      for i := 0 to |batch.jobs|
        invariant jobs == PutAll([], before + batch.jobs[..i])
        invariant history == old(history) + [batch] && lastBatchSequence == batch.batchSequence
        invariant renderPending == old(renderPending)
      {
        PutAllSnoc(before, batch.jobs, i);
        jobs := Put(jobs, batch.jobs[i]);
      }
      assert batch.jobs[..|batch.jobs|] == batch.jobs;
      scheduled := !renderPending;
      renderPending := true;
    }

    /** The scheduled callback: it publishes everything accepted so far. */
    method RunFrame() returns (s: Snapshot)
      requires Valid()
      modifies this`renderPending
      ensures Valid() && !renderPending && s == ViewOf(history)
    {
      renderPending := false;
      s := TakeSnapshot();
    }

    method TakeSnapshot() returns (s: Snapshot)
      requires Valid()
      ensures s == ViewOf(history)
    {
      var completed, active, failed := 0, 0, 0;
      for i := 0 to |jobs|
        invariant completed == Tally(jobs[..i], Finished)
        invariant active == Tally(jobs[..i], Busy)
        invariant failed == Tally(jobs[..i], Broken)
      {
        var job := jobs[i];
        assert jobs[..i + 1][..i] == jobs[..i];
        if job.state == Completed {
          completed := completed + 1;
        } else if job.state == JobState.Failed {
          failed := failed + 1;
        } else if job.state == Running || job.state == Validating {
          active := active + 1;
        }
      }
      assert jobs[..|jobs|] == jobs;
      LastWriteWins(Updates(history));
      TallyCounts(jobs, Finished);
      TallyCounts(jobs, Busy);
      TallyCounts(jobs, Broken);
      s := Snapshot(|jobs|, completed, active, failed, lastBatchSequence, FirstPage(jobs));
    }
  }

  datatype Event = Arrival(batch: Batch) | Frame | Reset

  /** The batches that arrived after the last reset. */
  function SinceReset(events: seq<Event>): seq<Batch> {
    if events == [] then []
    else
      var before := SinceReset(events[..|events| - 1]);
      match events[|events| - 1]
      case Arrival(b) => before + [b]
      case Frame => before
      case Reset => []
  }

  predicate Accepts(history: seq<Batch>, b: Batch) {
    b.schemaVersion == 1 && b.batchSequence > LastAccepted(history)
  }

  /** The event is the arrival of a batch that counts. */
  predicate IsAcceptedAt(events: seq<Event>, i: nat)
    requires i < |events|
  {
    events[i].Arrival? && Accepts(SinceReset(events[..i]), events[i].batch)
  }

  /** Whether the flag is set: an accepted batch sets it, a frame and a reset clear it. */
  function Armed(events: seq<Event>): bool {
    if events == [] then false
    else
      var n := |events| - 1;
      if events[n].Arrival? then Armed(events[..n]) || IsAcceptedAt(events, n) else false
  }

  /** The scheduled frames that the flag does not stand for: a reset that clears the flag
      leaves one behind, and a frame that runs while the flag is clear takes one away. */
  function Leftover(events: seq<Event>): nat {
    if events == [] then 0
    else
      var n := |events| - 1;
      var before := Leftover(events[..n]);
      match events[n]
      case Arrival(_) => before
      case Frame => if Armed(events[..n]) || before == 0 then before else before - 1
      case Reset => if Armed(events[..n]) then before + 1 else before
  }

  /** How many scheduled frames have not run. */
  function Pending(events: seq<Event>): nat {
    Leftover(events) + if Armed(events) then 1 else 0
  }

  /** A batch that counts arrives while the flag is clear and a frame is left over. */
  predicate DoublesAt(events: seq<Event>, i: int) {
    0 <= i < |events| && IsAcceptedAt(events, i) && !Armed(events[..i]) && Leftover(events[..i]) > 0
  }

  lemma SamePrefix(events: seq<Event>, n: nat, i: nat)
    requires i < n <= |events|
    ensures events[..n][..i] == events[..i] && events[..n][i] == events[i]
  {
  }

  lemma {:induction false} DoubledBefore(events: seq<Event>, n: nat)
    requires n <= |events| && Pending(events[..n]) > 1
    ensures exists i :: DoublesAt(events, i) && i < n
  {
    if n == 0 {
    } else {
      SamePrefix(events, n, n - 1);
      if Pending(events[..n - 1]) > 1 {
        DoubledBefore(events, n - 1);
      } else {
        assert DoublesAt(events, n - 1);
      }
    }
  }

  /** More than one frame is pending at some time exactly if at some time a batch that
      counts arrives while the flag is clear and a frame is left over. */
  lemma MoreThanOnePendingWhen(events: seq<Event>)
    ensures (exists n :: 0 <= n <= |events| && Pending(events[..n]) > 1) <==> exists i :: DoublesAt(events, i)
  {
    if n :| 0 <= n <= |events| && Pending(events[..n]) > 1 {
      DoubledBefore(events, n);
    }
    if i :| DoublesAt(events, i) {
      SamePrefix(events, i + 1, i);
      assert Pending(events[..i + 1]) > 1;
    }
  }

  /** One reset is enough for two pending frames: the frame asked for before it is still
      to come when the first batch after it asks for another. */
  lemma TwoFramesAfterReset(b: Batch) returns (events: seq<Event>)
    requires b.schemaVersion == 1 && b.batchSequence >= 0
    ensures events == [Arrival(b), Reset, Arrival(b)] && Pending(events) == 2
  {
    events := [Arrival(b), Reset, Arrival(b)];
    var one, two := events[..1], events[..2];
    assert events[..1] == [Arrival(b)] && one[..0] == [] && two[..1] == one && events[..2] == two;
    assert LastAccepted([]) == -1 && SinceReset([]) == [];
    assert IsAcceptedAt(one, 0) && Armed(one) && Leftover(one) == 0;
    assert two[1] == Reset && SinceReset(two) == [] && !Armed(two) && Leftover(two) == 1;
    assert IsAcceptedAt(events, 2);
  }

  function OneIf(b: bool): nat {
    if b then 1 else 0
  }

  lemma RejectedChangesNothing(history: seq<Batch>, b: Batch)
    requires !Accepts(history, b)
    ensures Updates(history + [b]) == Updates(history) && LastAccepted(history + [b]) == LastAccepted(history)
  {
    assert (history + [b])[..|history|] == history;
  }

  /** A batch or a reset. `pending` counts scheduled frames that have not run. */
  method Receive(q: QueueProjection, e: Event, pending: nat) returns (left: nat)
    requires q.Valid() && !e.Frame?
    modifies q
    ensures q.Valid() && q.history == if e.Arrival? then old(q.history) + [e.batch] else []
    ensures q.renderPending <==> e.Arrival? && (old(q.renderPending) || Accepts(old(q.history), e.batch))
    ensures left == pending + OneIf(q.renderPending && !old(q.renderPending))
  {
    left := pending;
    if e.Arrival? {
      ghost var history := q.history;
      var scheduled := q.Apply(e.batch);
      assert q.history[..|history|] == history;
      if scheduled { left := left + 1; }
    } else {
      q.Reset();
    }
  }

  /** The moment of a frame: a scheduled callback runs, if there is one. */
  method NextFrame(q: QueueProjection, pending: nat) returns (left: nat, published: Option<Snapshot>)
    requires q.Valid() && (q.renderPending ==> pending > 0)
    modifies q`renderPending
    ensures q.Valid() && !q.renderPending
    ensures left == if pending > 0 then pending - 1 else 0
    ensures published == if pending > 0 then Some(ViewOf(q.history)) else None
  {
    left, published := pending, None;
    if pending > 0 {
      left := left - 1;
      var s := q.RunFrame();
      published := Some(s);
    }
  }

  /** What was published last is what has been accepted, if anything has. */
  ghost predicate UpToDate(published: seq<Snapshot>, history: seq<Batch>) {
    LastAccepted(history) >= 0 ==> published != [] && published[|published| - 1] == ViewOf(history)
  }

  lemma StaysUpToDate(published: seq<Snapshot>, before: seq<Batch>, now: seq<Batch>)
    requires UpToDate(published, before)
    requires Updates(now) == Updates(before) && LastAccepted(now) == LastAccepted(before)
    ensures UpToDate(published, now)
  {
  }

  /** What is accepted is shown, or a frame is on its way. */
  lemma ShownOrPending(events: seq<Event>, i: nat, published: seq<Snapshot>, s: Option<Snapshot>)
    requires i < |events|
    requires Pending(events[..i]) == 0 ==> UpToDate(published, SinceReset(events[..i]))
    requires s.Some? <==> events[i].Frame? && Pending(events[..i]) > 0
    requires s.Some? ==> s.value == ViewOf(SinceReset(events[..i]))
    requires Pending(events[..i + 1]) == 0
    ensures UpToDate(if s.Some? then published + [s.value] else published, SinceReset(events[..i + 1]))
  {
    OneEventMore(events, i);
    var before := SinceReset(events[..i]);
    if events[i].Arrival? {
      if !Accepts(before, events[i].batch) {
        RejectedChangesNothing(before, events[i].batch);
        StaysUpToDate(published, before, SinceReset(events[..i + 1]));
      }
    }
  }

  /** The event is one at which a scheduled frame runs. */
  predicate RunsAt(events: seq<Event>, i: nat)
    requires i < |events|
  {
    events[i].Frame? && Pending(events[..i]) > 0
  }

  /** The events at which frames have run, in order. */
  function Runs(events: seq<Event>): seq<nat> {
    if events == [] then []
    else
      var n := |events| - 1;
      Runs(events[..n]) + if RunsAt(events, n) then [n] else []
  }

  /** What one more event does to all of these. */
  lemma OneEventMore(events: seq<Event>, i: nat)
    requires i < |events|
    ensures var before, now, e := events[..i], events[..i + 1], events[i];
      && Armed(now) == (e.Arrival? && (Armed(before) || Accepts(SinceReset(before), e.batch)))
      && SinceReset(now) == (match e case Arrival(b) => SinceReset(before) + [b] case Frame => SinceReset(before) case Reset => [])
      && Pending(now) == (match e
                          case Arrival(_) => Pending(before) + OneIf(Armed(now) && !Armed(before))
                          case Frame => if Pending(before) > 0 then Pending(before) - 1 else 0
                          case Reset => Pending(before))
      && Runs(now) == Runs(before) + if e.Frame? && Pending(before) > 0 then [i] else []
  {
    var now := events[..i + 1];
    assert now[..i] == events[..i] && now[i] == events[i] && |now| - 1 == i;
  }

  /** One snapshot for every frame that has run, of what had been accepted by then. */
  ghost predicate AllShown(events: seq<Event>, i: nat, published: seq<Snapshot>)
    requires i <= |events|
  {
    && |published| == |Runs(events[..i])|
    && forall k :: 0 <= k < |published| ==>
         && Runs(events[..i])[k] < i
         && published[k] == ViewOf(SinceReset(events[..Runs(events[..i])[k]]))
  }

  lemma ShownMore(events: seq<Event>, i: nat, published: seq<Snapshot>, s: Option<Snapshot>)
    requires i < |events| && AllShown(events, i, published)
    requires s.Some? <==> events[i].Frame? && Pending(events[..i]) > 0
    requires s.Some? ==> s.value == ViewOf(SinceReset(events[..i]))
    ensures AllShown(events, i + 1, if s.Some? then published + [s.value] else published)
  {
    OneEventMore(events, i);
  }

  /** A whole session. A frame is shown for every scheduled frame that runs, and shows
      everything accepted up to then; what has been accepted is shown unless a frame is
      still on its way; and the number of frames on their way is exactly `Pending`. */
  method Session(events: seq<Event>) returns (published: seq<Snapshot>, pending: nat)
    ensures AllShown(events, |events|, published)
    ensures pending == Pending(events)
    ensures pending == 0 ==> UpToDate(published, SinceReset(events))
  {
    var q := new QueueProjection();
    published, pending := [], 0;
    for i := 0 to |events|
      invariant fresh(q) && q.Valid() && q.history == SinceReset(events[..i])
      invariant AllShown(events, i, published)
      invariant q.renderPending == Armed(events[..i]) && pending == Pending(events[..i])
      invariant pending == 0 ==> UpToDate(published, SinceReset(events[..i]))
    {
      OneEventMore(events, i);
      ghost var shown := published;
      var s := None;
      if events[i].Frame? {
        pending, s := NextFrame(q, pending);
      } else {
        pending := Receive(q, events[i], pending);
      }
      ShownMore(events, i, shown, s);
      if pending == 0 { ShownOrPending(events, i, shown, s); }
      if s.Some? { published := published + [s.value]; }
    }
    assert events[..|events|] == events;
  }
}
