// The states of a job, the store that keeps them, and the loop that runs the jobs of
// a batch.
module Jobs {
  import opened Options
  import opened Sequences

  datatype JobState =
    | Queued | Inspecting | Planned | Blocked | Running | Validating
    | Completed | Warning | Failed | Cancelled | Interrupted

  predicate CanTransition(from: JobState, next: JobState) {
    match from
    case Inspecting => next.Planned? || next.Blocked? || next.Failed? || next.Cancelled?
    case Planned => next.Queued? || next.Running? || next.Blocked? || next.Cancelled?
    case Queued => next.Inspecting? || next.Blocked? || next.Cancelled?
    case Blocked => next.Queued? || next.Cancelled?
    case Interrupted => next.Queued? || next.Cancelled?
    case Running => next.Validating? || next.Failed? || next.Cancelled? || next.Interrupted?
    case Validating => next.Completed? || next.Warning? || next.Failed? || next.Cancelled? || next.Interrupted?
    case Failed => next.Queued?
    case Cancelled => next.Queued?
    case Completed => false
    case Warning => false
  }

  /** From which states each state can be entered. */
  lemma EnteredFrom(from: JobState)
    ensures CanTransition(from, Queued) <==> from in {Planned, Blocked, Interrupted, Failed, Cancelled}
    ensures CanTransition(from, Inspecting) <==> from == Queued
    ensures CanTransition(from, Planned) <==> from == Inspecting
    ensures CanTransition(from, Blocked) <==> from in {Inspecting, Planned, Queued}
    ensures CanTransition(from, Running) <==> from == Planned
    ensures CanTransition(from, Validating) <==> from == Running
    ensures CanTransition(from, Completed) <==> from == Validating
    ensures CanTransition(from, Warning) <==> from == Validating
    ensures CanTransition(from, Failed) <==> from in {Inspecting, Running, Validating}
    ensures CanTransition(from, Cancelled) <==>
              from in {Inspecting, Planned, Queued, Blocked, Interrupted, Running, Validating}
    ensures CanTransition(from, Interrupted) <==> from in {Running, Validating}
  {
  }

  /** The states of a job in order. It is created as queued in a batch and as planned
      otherwise. */
  ghost predicate IsHistory(h: seq<JobState>) {
    && h != [] && (h[0] == Queued || h[0] == Planned)
    && forall i :: 0 <= i < |h| - 1 ==> CanTransition(h[i], h[i + 1])
  }

  /** A job that ends well was planned, run and validated without a break; it was created
      as planned, or queued and inspected just before; and nothing happens to it afterwards. */
  lemma EndsWellOnlyOnceAndLast(h: seq<JobState>, i: nat)
    requires IsHistory(h) && i < |h| && (h[i] == Completed || h[i] == Warning)
    ensures i == |h| - 1
    ensures i >= 3 && h[i - 3..i] == [Planned, Running, Validating]
    ensures i == 3 || (i >= 5 && h[i - 5..i - 3] == [Queued, Inspecting])
  {
    assert i < |h| - 1 ==> CanTransition(h[i], h[i + 1]);
    assert CanTransition(h[i - 1], h[i]);
    assert CanTransition(h[i - 2], h[i - 1]);
    assert CanTransition(h[i - 3], h[i - 2]);
    if i > 3 {
      assert CanTransition(h[i - 4], h[i - 3]);
      assert CanTransition(h[i - 5], h[i - 4]);
    }
  }

  datatype Reply = Done | Faulted | Refused

  const MAX_BATCH_JOBS := 100000
  const MAX_PAGE := 10000

  /** A page of a batch's jobs, in their order; the limit is brought into its bounds. */
  function Page(members: seq<nat>, limit: nat, offset: nat): seq<nat> {
    var size := if limit < 1 then 1 else if limit > MAX_PAGE then MAX_PAGE else limit;
    var start := if offset > |members| then |members| else offset;
    members[start..if start + size > |members| then |members| else start + size]
  }

  /** The page begins at the offset and holds as many jobs as were asked for, but at least one
      and at most 10000, as far as there are any. */
  lemma PageIs(members: seq<nat>, limit: nat, offset: nat)
    ensures offset >= |members| ==> Page(members, limit, offset) == []
    ensures offset < |members| ==>
              && Page(members, limit, offset) <= members[offset..]
              && |Page(members, limit, offset)| ==
                   if limit == 0 then 1
                   else if limit <= 10000 && limit <= |members| - offset then limit
                   else if |members| - offset <= 10000 then |members| - offset
                   else 10000
  {
  }

  /** The job store as far as the batch runner sees it. A request for an illegal change
      is refused; a legal one is carried out unless the database fails. */
  class JobStore {
    var states: map<nat, JobState>
    var batches: seq<seq<nat>>
    var faults: seq<bool>
    var refusals: nat

    constructor (faults: seq<bool>)
      ensures states == map[] && batches == [] && this.faults == faults && refusals == 0
    {
      states, batches, this.faults, refusals := map[], [], faults, 0;
    }

    /** Whether the database fails at the next access. */
    method Access() returns (fault: bool)
      modifies this`faults
      ensures Calm(old(faults)) ==> Calm(faults) && !fault
    {
      fault := faults != [] && faults[0];
      faults := if faults == [] then [] else faults[1..];
    }

    method Transition(id: nat, next: JobState) returns (reply: Reply)
      modifies this`states, this`faults, this`refusals
      ensures reply == Refused <==> !(id in old(states) && CanTransition(old(states)[id], next))
      ensures refusals == old(refusals) + if reply == Refused then 1 else 0
      ensures states == if reply == Done then old(states)[id := next] else old(states)
      ensures Calm(old(faults)) ==> Calm(faults) && reply != Faulted
    {
      if id !in states || !CanTransition(states[id], next) {
        refusals := refusals + 1;
        return Refused;
      }
      var fault := Access();
      if fault { return Faulted; }
      states := states[id := next];
      return Done;
    }

    /** New jobs, all queued. */
    method InsertQueued(count: nat) returns (ids: seq<nat>)
      modifies this`states
      ensures |ids| == count && Distinct(ids) && AllQueued(ids, states)
      ensures forall i :: 0 <= i < count ==> ids[i] !in old(states)
      ensures forall id :: id in old(states) ==> id in states && states[id] == old(states)[id]
    {
      ids := [];
      var next := 0;
      while |ids| < count
        invariant |ids| <= count && Distinct(ids) && AllQueued(ids, states)
        invariant forall i :: 0 <= i < |ids| ==> ids[i] !in old(states) && ids[i] < next
        invariant forall id :: id in old(states) ==> id in states && states[id] == old(states)[id]
        invariant forall id :: id in states && id >= next ==> id in old(states)
        decreases count - |ids|
      {
        next := Unused(states, next);
        states := states[next := Queued];
        ids := ids + [next];
        next := next + 1;
      }
    }

    /** `create_queued_batch`: all jobs of a batch or none. */
    method CreateQueuedBatch(count: nat) returns (batch: Option<nat>)
      modifies this`states, this`batches, this`faults
      ensures batch.None? ==> states == old(states) && batches == old(batches)
      ensures batch.Some? ==>
                && batch.value < |batches| && |batches[batch.value]| == count
                && Distinct(batches[batch.value]) && AllQueued(batches[batch.value], states)
                && forall i :: 0 <= i < count ==> batches[batch.value][i] !in old(states)
      ensures forall id :: id in old(states) ==> id in states && states[id] == old(states)[id]
      ensures batch.Some? ==> 1 <= count <= 100000
      ensures Calm(old(faults)) ==> Calm(faults) && (batch.Some? <==> 1 <= count <= 100000)
    {
      if count == 0 || count > MAX_BATCH_JOBS { return None; }
      var fault := Access();
      if fault { return None; }
      var ids := InsertQueued(count);
      batches := batches + [ids];
      return Some(|batches| - 1);
    }

    /** `list_batch_jobs_page`. */
    method ListBatchJobsPage(batch: nat, limit: nat, offset: nat) returns (page: Option<seq<nat>>)
      requires batch < |batches|
      modifies this`faults
      ensures page.Some? ==> page.value == Page(batches[batch], limit, offset)
      ensures Calm(old(faults)) ==> Calm(faults) && page.Some?
    {
      var fault := Access();
      return if fault then None else Some(Page(batches[batch], limit, offset));
    }
  }

  predicate Calm(faults: seq<bool>) {
    forall i :: 0 <= i < |faults| ==> !faults[i]
  }

  predicate AllQueued(ids: seq<nat>, states: map<nat, JobState>) {
    forall i :: 0 <= i < |ids| ==> ids[i] in states && states[ids[i]] == Queued
  }

  function Unused(states: map<nat, JobState>, from: nat): (id: nat)
    ensures id >= from && id !in states
    decreases |set k | k in states && k >= from|
  {
    if from !in states then from
    else
      assert (set k | k in states && k >= from) == (set k | k in states && k >= from + 1) + {from};
      Unused(states, from + 1)
  }
}
