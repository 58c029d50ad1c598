/** The bounded-permit protocol of `_run_modal_operation`, as a state machine over its steps.

    A call acquires a permit, submits its operation, attaches the callback that gives the permit
    back, and waits. Workers start and finish operations, and run attached callbacks, at any time;
    a caller that stops waiting may cancel an operation that has not started. */
module ExecutorPermits {
  datatype Operation = NotSubmitted | Queued | Running | Ended

  datatype Callback = Unattached | Attached | Fired

  datatype Caller = Submitting | Waiting | TimedOut | Returned

  /** `releases` counts how often this call's permit has been given back. */
  datatype Call = Call(operation: Operation, callback: Callback, caller: Caller, releases: nat)

  type CallId = nat

  datatype Pool = Pool(free: nat, calls: map<CallId, Call>)

  datatype Step =
    | Acquire(id: CallId)
    | Submit(id: CallId)
    | SubmitFails(id: CallId)
    | AttachCallback(id: CallId)
    | Start(id: CallId)
    | Finish(id: CallId)
    | FireCallback(id: CallId)
    | TimesOut(id: CallId)
    | GetResult(id: CallId)

  function Initial(permits: nat): Pool {
    Pool(permits, map[])
  }

  /** A call that finds no permit is turned away as saturated and leaves no trace. */
  predicate Saturated(s: Pool) {
    s.free == 0
  }

  predicate Enabled(s: Pool, step: Step) {
    if step.Acquire? then !Saturated(s) && step.id !in s.calls
    else
      && step.id in s.calls
      && var c := s.calls[step.id];
      match step
      case Submit(_) => c.caller.Submitting? && c.operation.NotSubmitted?
      case SubmitFails(_) => c.caller.Submitting? && c.operation.NotSubmitted?
      case AttachCallback(_) => c.caller.Submitting? && !c.operation.NotSubmitted?
      case Start(_) => c.operation.Queued?
      case Finish(_) => c.operation.Running?
      case FireCallback(_) => c.operation.Ended? && c.callback.Attached?
      case TimesOut(_) => c.caller.Waiting?
      case GetResult(_) => c.caller.Waiting? && c.operation.Ended?
      case Acquire(_) => false
  }

  /** Cancelling ends an operation that is still queued and leaves a running one alone. */
  function Cancelled(operation: Operation): Operation {
    if operation.Queued? then Ended else operation
  }

  predicate Releases(step: Step) {
    step.SubmitFails? || step.FireCallback?
  }

  function NextCall(c: Call, step: Step): Call {
    match step
    case Submit(_) => c.(operation := Queued)
    case SubmitFails(_) => c.(caller := Returned, releases := c.releases + 1)
    case AttachCallback(_) => c.(callback := Attached, caller := Waiting)
    case Start(_) => c.(operation := Running)
    case Finish(_) => c.(operation := Ended)
    case FireCallback(_) => c.(callback := Fired, releases := c.releases + 1)
    case TimesOut(_) => c.(caller := TimedOut, operation := Cancelled(c.operation))
    case GetResult(_) => c.(caller := Returned)
    case Acquire(_) => c
  }

  /** One step of some thread; a step that is not possible now changes nothing. */
  function Next(s: Pool, step: Step): Pool {
    if !Enabled(s, step) then s
    else if step.Acquire? then Pool(s.free - 1, s.calls[step.id := Call(NotSubmitted, Unattached, Submitting, 0)])
    else Pool(if Releases(step) then s.free + 1 else s.free, s.calls[step.id := NextCall(s.calls[step.id], step)])
  }

  function Run(permits: nat, steps: seq<Step>): Pool {
    if steps == [] then Initial(permits)
    else Next(Run(permits, steps[..|steps| - 1]), steps[|steps| - 1])
  }

  // ----- where the permits are -----

  predicate CallConsistent(c: Call) {
    && (c.operation.NotSubmitted? ==> c.callback.Unattached? && c.releases == if c.caller.Submitting? then 0 else 1)
    && (c.operation.NotSubmitted? ==> c.caller.Submitting? || c.caller.Returned?)
    && (c.operation.Queued? || c.operation.Running? ==> c.releases == 0 && !c.callback.Fired?)
    && (c.operation.Ended? ==> c.releases == if c.callback.Fired? then 1 else 0)
    && (c.callback.Unattached? <==> c.caller.Submitting? || c.operation.NotSubmitted?)
  }

  /** Acquired, and the operation not handed to the executor yet. */
  predicate InSubmission(c: Call) {
    c.operation.NotSubmitted? && c.caller.Submitting?
  }

  predicate Unfinished(c: Call) {
    c.operation.Queued? || c.operation.Running?
  }

  /** The operation has ended and the callback that returns the permit has yet to run. */
  predicate AwaitingRelease(c: Call) {
    c.operation.Ended? && !c.callback.Fired?
  }

  function Holders(calls: map<CallId, Call>): set<CallId> {
    set id | id in calls && calls[id].releases == 0
  }

  ghost predicate Conserved(permits: nat, s: Pool) {
    && (forall id <- s.calls :: CallConsistent(s.calls[id]))
    && s.free + |Holders(s.calls)| == permits
  }

  lemma HoldersUpdate(calls: map<CallId, Call>, id: CallId, c: Call)
    ensures |Holders(calls[id := c])|
         == |Holders(calls) - {id}| + if c.releases == 0 then 1 else 0
    ensures |Holders(calls) - {id}| == |Holders(calls)| - if id in Holders(calls) then 1 else 0
  {
    assert Holders(calls[id := c]) == Holders(calls) - {id} + if c.releases == 0 then {id} else {};
  }

  lemma StepConserves(permits: nat, s: Pool, step: Step)
    requires Conserved(permits, s)
    ensures Conserved(permits, Next(s, step))
  {
    if Enabled(s, step) {
      HoldersUpdate(s.calls, step.id, Next(s, step).calls[step.id]);
    }
  }

  lemma {:induction false} RunConserves(permits: nat, steps: seq<Step>)
    ensures Conserved(permits, Run(permits, steps))
  {
    if steps == [] {
      assert Holders(map[]) == {};
    } else {
      RunConserves(permits, steps[..|steps| - 1]);
      StepConserves(permits, Run(permits, steps[..|steps| - 1]), steps[|steps| - 1]);
    }
  }

  function Those(calls: map<CallId, Call>, kind: Call -> bool): set<CallId> {
    set id | id in calls && kind(calls[id])
  }

  /** In every reachable state each permit is free, with a call being submitted, with an
      operation that has not ended, or about to be returned by a callback. */
  lemma PermitsAreConserved(permits: nat, steps: seq<Step>)
    ensures var s := Run(permits, steps);
            s.free + |Those(s.calls, InSubmission)| + |Those(s.calls, Unfinished)| + |Those(s.calls, AwaitingRelease)|
            == permits
  {
    RunConserves(permits, steps);
    var s := Run(permits, steps);
    HoldersSplit(s.calls);
    DisjointSizes(
      Those(s.calls, InSubmission), Those(s.calls, Unfinished), Those(s.calls, AwaitingRelease), Holders(s.calls));
  }

  lemma HoldersSplit(calls: map<CallId, Call>)
    requires forall id <- calls :: CallConsistent(calls[id])
    ensures var a, b, c := Those(calls, InSubmission), Those(calls, Unfinished), Those(calls, AwaitingRelease);
            && a !! b && a !! c && b !! c
            && forall id :: id in Holders(calls) <==> id in a || id in b || id in c
  {
  }

  lemma DisjointSizes(a: set<CallId>, b: set<CallId>, c: set<CallId>, whole: set<CallId>)
    requires a !! b && a !! c && b !! c
    requires forall id :: id in whole <==> id in a || id in b || id in c
    ensures |whole| == |a| + |b| + |c|
  {
    assert whole == a + b + c;
    assert (a + b) !! c;
  }

  /** A permit is never given back twice, and never while its operation could still be running:
      giving up on a call does not free its slot. */
  lemma PermitOutlivesCaller(permits: nat, steps: seq<Step>, id: CallId)
    requires id in Run(permits, steps).calls
    ensures var c := Run(permits, steps).calls[id];
            && c.releases <= 1
            && (c.releases == 1 ==> c.operation.Ended? || (c.operation.NotSubmitted? && c.caller.Returned?))
            && (c.caller.TimedOut? && !c.operation.Ended? ==> c.releases == 0)
  {
    RunConserves(permits, steps);
  }

  /** The semaphore never exceeds its bound, and a call is turned away exactly when every permit is
      held by some other call. */
  lemma SaturationMeansAllHeld(permits: nat, steps: seq<Step>)
    ensures var s := Run(permits, steps);
            && s.free <= permits
            && (Saturated(s) <==> |Holders(s.calls)| == permits)
            && forall step :: Enabled(s, step) && Releases(step) ==> s.free < permits
  {
    RunConserves(permits, steps);
    var s := Run(permits, steps);
    forall step | Enabled(s, step) && Releases(step) ensures s.free < permits {
      assert step.id in Holders(s.calls);
      assert |Holders(s.calls)| > 0;
    }
  }

  /** Once every operation has ended and every callback has run, full capacity is back. */
  lemma CapacityReturns(permits: nat, steps: seq<Step>)
    requires forall id <- Run(permits, steps).calls :: var c := Run(permits, steps).calls[id];
               !InSubmission(c) && !Unfinished(c) && !AwaitingRelease(c)
    ensures Run(permits, steps).free == permits
  {
    RunConserves(permits, steps);
    assert Holders(Run(permits, steps).calls) == {};
  }

  // ----- what may end an operation -----

  /** The pool after the first k steps. */
  function After(permits: nat, steps: seq<Step>, k: nat): Pool
    requires k <= |steps|
  {
    Run(permits, steps[..k])
  }

  predicate IsRunning(s: Pool, id: CallId) {
    id in s.calls && s.calls[id].operation.Running?
  }

  predicate IsWaitingInQueue(s: Pool, id: CallId) {
    id in s.calls && s.calls[id].operation.Queued? && s.calls[id].caller.Waiting?
  }

  predicate HasEnded(s: Pool, id: CallId) {
    id in s.calls && s.calls[id].operation.Ended?
  }

  /** The worker reports the operation's end in one of the steps from the k-th on. */
  ghost predicate FinishesFrom(steps: seq<Step>, k: nat, id: CallId) {
    exists j :: k <= j < |steps| && steps[j] == Finish(id)
  }

  lemma OneMoreStep(permits: nat, steps: seq<Step>)
    requires steps != []
    ensures Run(permits, steps) == Next(After(permits, steps, |steps| - 1), steps[|steps| - 1])
  {
  }

  lemma RunningStep(s: Pool, step: Step, id: CallId)
    requires IsRunning(s, id)
    ensures IsRunning(Next(s, step), id) || step == Finish(id)
  {
  }

  /** Nothing but the worker ends a running operation: no timeout, no cancellation, no other call. */
  lemma {:induction false} RunsUntilFinished(permits: nat, steps: seq<Step>, k: nat, id: CallId)
    requires k <= |steps| && IsRunning(After(permits, steps, k), id)
    ensures FinishesFrom(steps, k, id) || IsRunning(Run(permits, steps), id)
  {
    if k == |steps| {
      assert steps[..k] == steps;
    } else {
      var before := steps[..|steps| - 1];
      assert before[..k] == steps[..k];
      RunsUntilFinished(permits, before, k, id);
      OneMoreStep(permits, steps);
      if FinishesFrom(before, k, id) {
        var j :| k <= j < |before| && before[j] == Finish(id);
        assert steps[j] == Finish(id);
      } else {
        RunningStep(Run(permits, before), steps[|steps| - 1], id);
      }
    }
  }

  /** A timed-out operation keeps its permit until it truly ends: once an operation was running, its
      permit is given back, and the operation counts as ended, only after a later step in which its
      worker finishes; until then it keeps one permit from every other call. */
  lemma PermitKeptWhileRunning(permits: nat, steps: seq<Step>, k: nat, id: CallId)
    requires k <= |steps| && IsRunning(After(permits, steps, k), id)
    ensures id in Run(permits, steps).calls
    ensures var s := Run(permits, steps);
            (HasEnded(s, id) || s.calls[id].releases > 0 ==> FinishesFrom(steps, k, id))
            && (!FinishesFrom(steps, k, id) ==> s.calls[id].releases == 0 && s.free < permits)
  {
    CallStays(permits, steps, k, id);
    RunsUntilFinished(permits, steps, k, id);
    RunConserves(permits, steps);
    var s := Run(permits, steps);
    if !FinishesFrom(steps, k, id) {
      assert id in Holders(s.calls);
      assert |Holders(s.calls)| > 0;
    }
  }

  lemma {:induction false} CallStays(permits: nat, steps: seq<Step>, k: nat, id: CallId)
    requires k <= |steps| && id in After(permits, steps, k).calls
    ensures id in Run(permits, steps).calls
  {
    if k == |steps| {
      assert steps[..k] == steps;
    } else {
      var before := steps[..|steps| - 1];
      assert before[..k] == steps[..k];
      CallStays(permits, before, k, id);
      OneMoreStep(permits, steps);
    }
  }

  lemma EndedStep(s: Pool, step: Step, id: CallId)
    requires HasEnded(s, id)
    ensures HasEnded(Next(s, step), id)
  {
  }

  /** An operation that ended never runs again. */
  lemma {:induction false} EndedStays(permits: nat, steps: seq<Step>, k: nat, id: CallId)
    requires k <= |steps| && HasEnded(After(permits, steps, k), id)
    ensures HasEnded(Run(permits, steps), id)
  {
    if k == |steps| {
      assert steps[..k] == steps;
    } else {
      var before := steps[..|steps| - 1];
      assert before[..k] == steps[..k];
      EndedStays(permits, before, k, id);
      OneMoreStep(permits, steps);
      EndedStep(Run(permits, before), steps[|steps| - 1], id);
    }
  }

  /** An operation still queued when its caller times out is cancelled: it never runs. */
  lemma CancelledNeverRuns(permits: nat, steps: seq<Step>, k: nat, id: CallId)
    requires k < |steps| && IsWaitingInQueue(After(permits, steps, k), id) && steps[k] == TimesOut(id)
    ensures !IsRunning(Run(permits, steps), id) && HasEnded(Run(permits, steps), id)
  {
    assert steps[..k + 1][..k] == steps[..k];
    OneMoreStep(permits, steps[..k + 1]);
    assert HasEnded(After(permits, steps, k + 1), id);
    EndedStays(permits, steps, k + 1, id);
  }

  lemma EndingStep(s: Pool, step: Step, id: CallId)
    requires HasEnded(Next(s, step), id) && !HasEnded(s, id)
    ensures (step == Finish(id) && IsRunning(s, id)) || (step == TimesOut(id) && IsWaitingInQueue(s, id))
  {
  }

  /** Step k ends the operation: its worker finishes, or its caller gives up while it is queued. */
  ghost predicate EndsAtStep(permits: nat, steps: seq<Step>, k: nat, id: CallId)
    requires k < |steps|
  {
    || (steps[k] == Finish(id) && IsRunning(After(permits, steps, k), id))
    || (steps[k] == TimesOut(id) && IsWaitingInQueue(After(permits, steps, k), id))
  }

  /** Every operation that has ended did so in one of these two ways. */
  lemma {:induction false} HowOperationsEnd(permits: nat, steps: seq<Step>, id: CallId) returns (k: nat)
    requires HasEnded(Run(permits, steps), id)
    ensures k < |steps| && EndsAtStep(permits, steps, k, id)
  {
    var before, n := steps[..|steps| - 1], |steps| - 1;
    OneMoreStep(permits, steps);
    if HasEnded(Run(permits, before), id) {
      k := HowOperationsEnd(permits, before, id);
      assert before[..k] == steps[..k] && before[k] == steps[k];
    } else {
      EndingStep(Run(permits, before), steps[n], id);
      k := n;
    }
  }
}
