// The loop of the image batch runner over its queued jobs, and its report.
module BatchRun {
  import opened Options
  import opened Sequences
  import opened Jobs

  datatype Inspection = Same | Changed | Unreadable

  datatype Status = Pass | Warn | Unknown | Fail

  /** How the execution of a plan goes: to the end, with the report saved or not, or
      stopped before or after the engine has finished. */
  datatype Execution =
    | Finished(status: Status, reportSaved: bool)
    | StoppedEarly(byCancelling: bool)
    | StoppedLate(byCancelling: bool)

  /** What the outside world does while one job has its turn. */
  datatype Turn = Turn(cancelledBefore: bool, inspection: Inspection, execution: Execution)

  predicate SavesReport(t: Turn) {
    t.execution.Finished? ==> t.execution.reportSaved
  }

  /** The four counters of the runner, and what they have counted so far. */
  datatype Outcome = Completion | WithWarning | Failure | Cancellation

  type Totals = multiset<Outcome>

  function Sum(t: Totals): nat {
    t[Completion] + t[WithWarning] + t[Failure] + t[Cancellation]
  }

  lemma SumIsSize(t: Totals)
    ensures Sum(t) == |t|
  {
    var none: Totals := multiset{};
    var built := none[Completion := t[Completion]][WithWarning := t[WithWarning]][Failure := t[Failure]][Cancellation := t[Cancellation]];
    forall o: Outcome ensures t[o] == built[o] {
      match o
      case Completion =>
      case WithWarning =>
      case Failure =>
      case Cancellation =>
    }
    assert t == built;
  }

  /** The counter a stored state belongs to; a job whose input changed is blocked and
      counts as failed. */
  function OutcomeOf(s: JobState): Option<Outcome> {
    match s
    case Completed => Some(Completion)
    case Warning => Some(WithWarning)
    case Failed => Some(Failure)
    case Blocked => Some(Failure)
    case Cancelled => Some(Cancellation)
    case Queued => None
    case Inspecting => None
    case Planned => None
    case Running => None
    case Validating => None
    case Interrupted => None
  }

  /** How many of the first `n` jobs stand in a state that belongs to the counter. */
  function Ended(jobs: seq<nat>, n: nat, states: map<nat, JobState>, o: Outcome): nat
    requires n <= |jobs|
  {
    if n == 0 then 0
    else
      Ended(jobs, n - 1, states, o)
      + if jobs[n - 1] in states && OutcomeOf(states[jobs[n - 1]]) == Some(o) then 1 else 0
  }

  /** How many of the first `n` jobs are still queued. */
  function StillQueued(jobs: seq<nat>, n: nat, states: map<nat, JobState>): nat
    requires n <= |jobs|
  {
    if n == 0 then 0
    else StillQueued(jobs, n - 1, states) + if jobs[n - 1] in states && states[jobs[n - 1]] == Queued then 1 else 0
  }

  ghost predicate TotalsMatch(t: Totals, jobs: seq<nat>, n: nat, states: map<nat, JobState>)
    requires n <= |jobs|
  {
    forall o :: t[o] == Ended(jobs, n, states, o)
  }

  ghost predicate QueuedFrom(jobs: seq<nat>, n: nat, states: map<nat, JobState>) {
    forall i :: n <= i < |jobs| ==> jobs[i] in states && states[jobs[i]] == Queued
  }

  ghost predicate SameElsewhere(before: map<nat, JobState>, after: map<nat, JobState>, id: nat) {
    forall k :: k != id ==> (k in after <==> k in before) && (k in before ==> after[k] == before[k])
  }

  /** Jobs of other batches keep their states. */
  ghost predicate SameFor(others: set<nat>, before: map<nat, JobState>, after: map<nat, JobState>) {
    forall k :: k in others ==> (k in after <==> k in before) && (k in before ==> after[k] == before[k])
  }

  /** A change of one job leaves the counts over the jobs before it alone. */
  lemma {:induction false} CountsStay(jobs: seq<nat>, n: nat, i: nat, before: map<nat, JobState>, after: map<nat, JobState>, o: Outcome)
    requires n <= i < |jobs| && Distinct(jobs) && SameElsewhere(before, after, jobs[i])
    ensures Ended(jobs, n, after, o) == Ended(jobs, n, before, o)
    ensures StillQueued(jobs, n, after) == StillQueued(jobs, n, before)
  {
    if n == 0 {
    } else {
      assert jobs[n - 1] != jobs[i];
      CountsStay(jobs, n - 1, i, before, after, o);
    }
  }

  lemma CountsGrow(jobs: seq<nat>, i: nat, before: map<nat, JobState>, after: map<nat, JobState>, t: Totals, o: Outcome)
    requires i < |jobs| && Distinct(jobs) && TotalsMatch(t, jobs, i, before) && StillQueued(jobs, i, before) == 0
    requires SameElsewhere(before, after, jobs[i])
    requires jobs[i] in after && OutcomeOf(after[jobs[i]]) == Some(o)
    ensures TotalsMatch(t + multiset{o}, jobs, i + 1, after) && StillQueued(jobs, i + 1, after) == 0
  {
    CountsStay(jobs, i, i, before, after, o);
    forall x ensures (t + multiset{o})[x] == Ended(jobs, i + 1, after, x) {
      CountsStay(jobs, i, i, before, after, x);
    }
  }

  /** Queued jobs at the end add nothing to the counters. */
  lemma {:induction false} QueuedTail(jobs: seq<nat>, n: nat, k: nat, states: map<nat, JobState>, o: Outcome)
    requires n <= k <= |jobs| && QueuedFrom(jobs, n, states)
    ensures Ended(jobs, k, states, o) == Ended(jobs, n, states, o)
    ensures StillQueued(jobs, k, states) == StillQueued(jobs, n, states) + k - n
  {
    if k == n {
    } else {
      QueuedTail(jobs, n, k - 1, states, o);
    }
  }

  datatype Verdict = Counted(outcome: Outcome) | Aborted

  /** Where a job is left by its turn when the store answers. */
  function EndState(t: Turn): JobState {
    match t
    case Turn(_, Changed, _) => Blocked
    case Turn(_, Unreadable, _) => Failed
    case Turn(_, Same, Finished(Pass, _)) => Completed
    case Turn(_, Same, Finished(Fail, _)) => Failed
    case Turn(_, Same, Finished(_, _)) => Warning
    case Turn(_, Same, StoppedEarly(byCancelling)) => if byCancelling then Cancelled else Failed
    case Turn(_, Same, StoppedLate(byCancelling)) => if byCancelling then Cancelled else Failed
  }

  /** Which turns end well, which end cancelled, and which are counted as failures. */
  lemma TurnsEnd(t: Turn)
    ensures EndState(t) == Completed <==> t.inspection == Same && t.execution.Finished? && t.execution.status == Pass
    ensures EndState(t) == Warning <==> t.inspection == Same && t.execution.Finished? && t.execution.status in {Warn, Unknown}
    ensures EndState(t) == Cancelled <==>
              t.inspection == Same && !t.execution.Finished? && t.execution.byCancelling
    ensures EndState(t) == Blocked <==> t.inspection == Changed
    ensures EndState(t) in {Completed, Warning, Cancelled, Blocked, Failed}
  {
  }

  function StatusState(s: Status): JobState {
    match s
    case Pass => Completed
    case Warn => Warning
    case Unknown => Warning
    case Fail => Failed
  }

  /** What the turn of one job does to the store: that job alone changes, no request is
      refused, and the outcome reported is the one stored. */
  twostate predicate TookTurn(store: JobStore, id: nat, verdict: Verdict)
    reads store
  {
    && SameElsewhere(old(store.states), store.states, id) && id in store.states
    && store.refusals == old(store.refusals)
    && (verdict.Counted? ==> OutcomeOf(store.states[id]) == Some(verdict.outcome))
    && (Calm(old(store.faults)) ==> Calm(store.faults))
  }

  /** `persist_before_terminal` for a job under validation. */
  method PersistBeforeTerminal(store: JobStore, id: nat, status: Status, reportSaved: bool) returns (verdict: Verdict)
    requires id in store.states && store.states[id] == Validating
    modifies store
    ensures TookTurn(store, id, verdict)
    ensures Calm(old(store.faults)) && reportSaved ==> verdict.Counted?
    ensures verdict.Counted? ==> store.states[id] == StatusState(status)
  {
    if !reportSaved {
      var interrupted := store.Transition(id, Interrupted);
      return Aborted;
    }
    var reply := store.Transition(id, StatusState(status));
    if reply != Done { return Aborted; }
    return Counted(OutcomeOf(StatusState(status)).value);
  }

  /** What follows an execution that stopped: cancelled or failed. */
  method StopJob(store: JobStore, id: nat, byCancelling: bool) returns (verdict: Verdict)
    requires id in store.states && (store.states[id] == Running || store.states[id] == Validating)
    modifies store
    ensures TookTurn(store, id, verdict)
    ensures Calm(old(store.faults)) ==> verdict.Counted?
    ensures verdict.Counted? ==> store.states[id] == if byCancelling then Cancelled else Failed
  {
    var reply := store.Transition(id, if byCancelling then Cancelled else Failed);
    if reply != Done { return Aborted; }
    return Counted(if byCancelling then Cancellation else Failure);
  }

  /** Running the plan of a job. The engine's end is recorded on the way; when that
      fails the execution stops with the store's error. */
  method Execute(store: JobStore, id: nat, execution: Execution) returns (verdict: Verdict)
    requires id in store.states && store.states[id] == Running
    modifies store
    ensures TookTurn(store, id, verdict)
    ensures Calm(old(store.faults)) && (execution.Finished? ==> execution.reportSaved) ==> verdict.Counted?
    ensures Calm(old(store.faults)) && verdict.Counted? ==> store.states[id] == EndState(Turn(false, Same, execution))
  {
    if execution.StoppedEarly? {
      verdict := StopJob(store, id, execution.byCancelling);
      return;
    }
    var reply := store.Transition(id, Validating);
    if reply != Done {
      verdict := StopJob(store, id, false);
    } else if execution.StoppedLate? {
      verdict := StopJob(store, id, execution.byCancelling);
    } else {
      verdict := PersistBeforeTerminal(store, id, execution.status, execution.reportSaved);
    }
  }

  /** The body of the loop for one job. */
  method RunJob(store: JobStore, id: nat, turn: Turn) returns (verdict: Verdict)
    requires id in store.states && store.states[id] == Queued
    modifies store
    ensures TookTurn(store, id, verdict)
    ensures Calm(old(store.faults)) && SavesReport(turn) ==> verdict.Counted?
    ensures Calm(old(store.faults)) && verdict.Counted? ==> store.states[id] == EndState(turn)
  {
    var reply := store.Transition(id, Inspecting);
    if reply != Done { return Aborted; }
    if !turn.inspection.Same? {
      reply := store.Transition(id, if turn.inspection.Changed? then Blocked else Failed);
      if reply != Done { return Aborted; }
      return Counted(Failure);
    }
    reply := store.Transition(id, Planned);
    if reply != Done { return Aborted; }
    reply := store.Transition(id, Running);
    if reply != Done { return Aborted; }
    verdict := Execute(store, id, turn.execution);
  }

  /** The places of the jobs that are stored in one of these states. */
  ghost function JobsIn(jobs: seq<nat>, states: map<nat, JobState>, these: set<JobState>): set<int> {
    set i | 0 <= i < |jobs| && jobs[i] in states && states[jobs[i]] in these
  }

  lemma OneJobMore(jobs: seq<nat>, n: nat, states: map<nat, JobState>, these: set<JobState>)
    requires |jobs| == n + 1
    ensures |JobsIn(jobs, states, these)| ==
              |JobsIn(jobs[..n], states, these)| + if jobs[n] in states && states[jobs[n]] in these then 1 else 0
  {
    var before := JobsIn(jobs[..n], states, these);
    assert forall i :: 0 <= i < n ==> jobs[..n][i] == jobs[i];
    assert JobsIn(jobs, states, these) == if jobs[n] in states && states[jobs[n]] in these then before + {n} else before;
  }

  lemma {:induction false} EndedCounts(jobs: seq<nat>, n: nat, states: map<nat, JobState>, o: Outcome, these: set<JobState>)
    requires n <= |jobs| && forall s :: s in these <==> OutcomeOf(s) == Some(o)
    ensures Ended(jobs, n, states, o) == |JobsIn(jobs[..n], states, these)|
  {
    if n == 0 {
      assert JobsIn(jobs[..n], states, these) == {};
    } else {
      EndedCounts(jobs, n - 1, states, o, these);
      assert jobs[..n][..n - 1] == jobs[..n - 1];
      OneJobMore(jobs[..n], n - 1, states, these);
    }
  }

  lemma {:induction false} QueuedCounts(jobs: seq<nat>, n: nat, states: map<nat, JobState>)
    requires n <= |jobs|
    ensures StillQueued(jobs, n, states) == |JobsIn(jobs[..n], states, {Queued})|
  {
    if n == 0 {
      assert JobsIn(jobs[..n], states, {Queued}) == {};
    } else {
      QueuedCounts(jobs, n - 1, states);
      assert jobs[..n][..n - 1] == jobs[..n - 1];
      OneJobMore(jobs[..n], n - 1, states, {Queued});
    }
  }

  lemma CountsAreJobs(t: Totals, jobs: seq<nat>, states: map<nat, JobState>)
    requires TotalsMatch(t, jobs, |jobs|, states)
    ensures t[Completion] == |JobsIn(jobs, states, {Completed})| && t[WithWarning] == |JobsIn(jobs, states, {Warning})|
    ensures t[Failure] == |JobsIn(jobs, states, {Failed, Blocked})| && t[Cancellation] == |JobsIn(jobs, states, {Cancelled})|
    ensures StillQueued(jobs, |jobs|, states) == |JobsIn(jobs, states, {Queued})|
  {
    assert jobs[..|jobs|] == jobs;
    EndedCounts(jobs, |jobs|, states, Completion, {Completed});
    EndedCounts(jobs, |jobs|, states, WithWarning, {Warning});
    EndedCounts(jobs, |jobs|, states, Failure, {Failed, Blocked});
    EndedCounts(jobs, |jobs|, states, Cancellation, {Cancelled});
    QueuedCounts(jobs, |jobs|, states);
  }

  datatype Report = Report(planned: nat, totals: Totals, queued: nat, paused: bool)

  /** What a report says about the jobs as the store has them. */
  ghost predicate IsFaithful(r: Report, jobs: seq<nat>, states: map<nat, JobState>) {
    && r.planned == |jobs|
    && r.totals[Completion] == |JobsIn(jobs, states, {Completed})|
    && r.totals[WithWarning] == |JobsIn(jobs, states, {Warning})|
    && r.totals[Failure] == |JobsIn(jobs, states, {Failed, Blocked})|
    && r.totals[Cancellation] == |JobsIn(jobs, states, {Cancelled})|
    && r.queued == |JobsIn(jobs, states, {Queued})|
    && Sum(r.totals) + r.queued == r.planned
    && (r.paused <==> r.queued > 0)
  }

  /** The first jobs are left where their turns leave them. */
  ghost predicate EndedAsTurned(jobs: seq<nat>, turns: seq<Turn>, n: nat, states: map<nat, JobState>) {
    && n <= |jobs| == |turns|
    && forall i :: 0 <= i < n ==> jobs[i] in states && states[jobs[i]] == EndState(turns[i])
  }

  lemma OneMoreTurned(jobs: seq<nat>, turns: seq<Turn>, n: nat, before: map<nat, JobState>, after: map<nat, JobState>)
    requires EndedAsTurned(jobs, turns, n, before) && n < |jobs| && Distinct(jobs)
    requires SameElsewhere(before, after, jobs[n]) && jobs[n] in after && after[jobs[n]] == EndState(turns[n])
    ensures EndedAsTurned(jobs, turns, n + 1, after)
  {
  }

  /** The first `n` jobs have had their turn, and nothing else has changed. */
  ghost predicate Progress(jobs: seq<nat>, turns: seq<Turn>, n: nat, others: set<nat>, initial: map<nat, JobState>,
                           now: map<nat, JobState>, t: Totals, calm: bool) {
    && n <= |jobs| == |turns| && |t| == n
    && QueuedFrom(jobs, n, now) && TotalsMatch(t, jobs, n, now) && StillQueued(jobs, n, now) == 0
    && SameFor(others, initial, now) && (calm ==> EndedAsTurned(jobs, turns, n, now))
  }

  lemma ProgressGrows(jobs: seq<nat>, turns: seq<Turn>, n: nat, others: set<nat>, initial: map<nat, JobState>, before: map<nat, JobState>,
                      after: map<nat, JobState>, t: Totals, o: Outcome, calm: bool)
    requires n < |jobs| && jobs[n] !in others && Distinct(jobs) && Progress(jobs, turns, n, others, initial, before, t, calm)
    requires SameElsewhere(before, after, jobs[n]) && jobs[n] in after && OutcomeOf(after[jobs[n]]) == Some(o)
    requires calm ==> after[jobs[n]] == EndState(turns[n])
    ensures Progress(jobs, turns, n + 1, others, initial, after, t + multiset{o}, calm)
  {
    CountsGrow(jobs, n, before, after, t, o);
    if calm { OneMoreTurned(jobs, turns, n, before, after); }
  }

  lemma ProgressReports(jobs: seq<nat>, turns: seq<Turn>, n: nat, others: set<nat>, initial: map<nat, JobState>, now: map<nat, JobState>,
                        t: Totals, calm: bool)
    requires Progress(jobs, turns, n, others, initial, now, t, calm)
    ensures IsFaithful(Report(|jobs|, t, |jobs| - n, |jobs| > n), jobs, now)
  {
    SumIsSize(t);
    forall o ensures t[o] == Ended(jobs, |jobs|, now, o) && StillQueued(jobs, |jobs|, now) == |jobs| - n {
      QueuedTail(jobs, n, |jobs|, now, o);
    }
    CountsAreJobs(t, jobs, now);
  }

  lemma ProgressStarts(jobs: seq<nat>, turns: seq<Turn>, others: set<nat>, states: map<nat, JobState>, calm: bool)
    requires |turns| == |jobs| && AllQueued(jobs, states)
    ensures Progress(jobs, turns, 0, others, states, states, multiset{}, calm)
  {
  }

  /** How many jobs have their turn from number `n` on: the loop stops at the pause limit,
      before a turn that finds the batch cancelled, and after one that ends cancelled. */
  function Reached(turns: seq<Turn>, limit: Option<nat>, n: nat): nat
    requires n <= |turns|
    decreases |turns| - n
  {
    if n == |turns| || (limit.Some? && n >= limit.value) || turns[n].cancelledBefore then n
    else if EndState(turns[n]) == Cancelled then n + 1
    else Reached(turns, limit, n + 1)
  }

  /** The loop gets as far as there are jobs, unless it meets the pause limit, a cancelled
      batch, or a turn that ends cancelled; and it stops at the first of these. */
  ghost predicate StopsAt(turns: seq<Turn>, limit: Option<nat>, n: nat) {
    || n >= |turns|
    || limit == Some(n)
    || turns[n].cancelledBefore
    || (0 < n && EndState(turns[n - 1]) == Cancelled)
  }

  lemma {:induction false} ReachedIs(turns: seq<Turn>, limit: Option<nat>, n: nat)
    requires n <= |turns| && (limit.Some? ==> n <= limit.value) && (n > 0 ==> EndState(turns[n - 1]) != Cancelled)
    ensures n <= Reached(turns, limit, n) <= |turns| && StopsAt(turns, limit, Reached(turns, limit, n))
    ensures forall k :: n <= k < Reached(turns, limit, n) ==> !StopsAt(turns, limit, k)
    decreases |turns| - n
  {
    if n < |turns| && !StopsAt(turns, limit, n) && EndState(turns[n]) != Cancelled {
      ReachedIs(turns, limit, n + 1);
    }
  }

  /** One round of the loop of `run_image_batch`. */
  method RunNext(store: JobStore, jobs: seq<nat>, turns: seq<Turn>, position: nat, t: Totals,
                 ghost others: set<nat>, ghost initial: map<nat, JobState>, ghost calm: bool)
    returns (verdict: Verdict, totals: Totals)
    requires position < |jobs| && jobs[position] !in others && Distinct(jobs) && (calm ==> Calm(store.faults))
    requires Progress(jobs, turns, position, others, initial, store.states, t, calm)
    modifies store
    ensures store.refusals == old(store.refusals) && (calm ==> Calm(store.faults))
    ensures verdict.Counted? ==> Progress(jobs, turns, position + 1, others, initial, store.states, totals, calm)
    ensures calm && SavesReport(turns[position]) ==> verdict.Counted?
    ensures calm && verdict.Counted? ==> (verdict.outcome == Cancellation <==> EndState(turns[position]) == Cancelled)
    ensures SameFor(others, initial, store.states)
  {
    ghost var before := store.states;
    verdict := RunJob(store, jobs[position], turns[position]);
    totals := t;
    if verdict.Counted? {
      ProgressGrows(jobs, turns, position, others, initial, before, store.states, t, verdict.outcome, calm);
      totals := t + multiset{verdict.outcome};
    }
  }

  /** The loop of `run_image_batch` and its report. `limit` is zero when the jobs are
      only to be queued, and absent when nothing was said about pausing. No request is
      ever refused, so the run reports unless the database or a report file fails; and
      the report agrees with the store. */
  method RunQueuedJobs(store: JobStore, jobs: seq<nat>, turns: seq<Turn>, limit: Option<nat>, ghost others: set<nat>)
    returns (report: Option<Report>)
    requires (forall i :: 0 <= i < |jobs| ==> jobs[i] !in others) && Distinct(jobs) && |turns| == |jobs| && AllQueued(jobs, store.states)
    modifies store
    ensures store.refusals == old(store.refusals)
    ensures Calm(old(store.faults)) && (forall i :: 0 <= i < |turns| ==> SavesReport(turns[i])) ==> report.Some?
    ensures report.Some? ==> IsFaithful(report.value, jobs, store.states)
    ensures report.Some? && Calm(old(store.faults)) ==> EndedAsTurned(jobs, turns, Sum(report.value.totals), store.states)
    ensures report.Some? && Calm(old(store.faults)) ==> Sum(report.value.totals) == Reached(turns, limit, 0)
    ensures report.Some? && limit.Some? ==> Sum(report.value.totals) <= limit.value
    ensures SameFor(others, old(store.states), store.states)
  {
    ghost var initial, calm := store.states, Calm(store.faults);
    var totals: Totals := multiset{};
    var position := 0;
    ProgressStarts(jobs, turns, others, initial, calm);
    while position < |jobs|
      invariant Progress(jobs, turns, position, others, initial, store.states, totals, calm)
      invariant limit.Some? ==> position <= limit.value
      invariant calm ==> Reached(turns, limit, position) == Reached(turns, limit, 0)
      invariant store.refusals == old(store.refusals) && (calm ==> Calm(store.faults))
    {
      if (limit.Some? && position >= limit.value) || turns[position].cancelledBefore { break; }
      var verdict;
      verdict, totals := RunNext(store, jobs, turns, position, totals, others, initial, calm);
      if verdict.Aborted? { return None; }
      position := position + 1;
      if verdict.outcome == Cancellation { break; }
    }
    assert calm ==> position == Reached(turns, limit, 0);
    ProgressReports(jobs, turns, position, others, initial, store.states, totals, calm);
    SumIsSize(totals);
    var queued := if |jobs| >= Sum(totals) then |jobs| - Sum(totals) else 0;
    return Some(Report(|jobs|, totals, queued, queued > 0));
  }
}
