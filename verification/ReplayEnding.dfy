/**
 How a replay ends: no exception is lost, and a run can be brought to its
 footer exactly when nothing raised and the whole plan was in the trace.
 */
module ReplayEnding {
  import opened Wrappers
  import opened Ledger
  import opened Replay
  import opened ReplaySafety
  import opened ReplayProgress

  /** Something raised: reading the trace, submitting, the request itself, or a write to the ledger. */
  predicate Harmful(step: Step) {
    || step.RaiseWork? || (step.WriteWork? && !step.write.Complete?) || (step.LogStep? && !step.write.Complete?)
    || (step.SubmitStep? && !step.submitted.Accepted?) || step == FetchStep(false) || step == JudgeStep(false)
  }

  predicate Harmless(steps: seq<Step>) {
    forall k | 0 <= k < |steps| :: !Harmful(steps[k])
  }

  // ---------------------------------------------------------------------
  // States of a run in which nothing raised

  predicate Healthy(job: Job) {
    && !job.Aborted?
    && (job.InFlight? ==> job.future != Done(true) && !job.callback.Stopping? && !job.callback.Abandoned?)
  }

  ghost predicate Unharmed(c: Config, s: State) {
    && !s.error && !s.stop && !s.control.Failed? && s.control != Closing(true)
    && (s.control.Closing? || s.control.Judge? || s.control.Finished? ==> s.next == |c.trace|)
    && (s.control.Finished? ==> c.sameDigest && s.next == c.planned)
    && forall j | 0 <= j < |s.jobs| :: Healthy(s.jobs[j])
  }

  /** Changing one job to a healthy one. */
  lemma HealthyAfter(c: Config, s: State, t: State, i: nat)
    requires Unharmed(c, s) && i < |s.jobs| == |t.jobs| && t.jobs == s.jobs[i := t.jobs[i]] && Healthy(t.jobs[i])
    ensures forall j | 0 <= j < |t.jobs| :: Healthy(t.jobs[j])
  {
    hide Healthy;
  }

  lemma WorkStaysUnharmed(c: Config, s: State, step: Step)
    requires |s.jobs| == |c.trace| && Unharmed(c, s) && Apply(c, s, step).Some? && !Harmful(step)
    requires step.StartWork? || step.WriteWork? || step.EndWork?
    ensures Unharmed(c, Apply(c, s, step).value)
  {
    hide ApplyDispatcher, ApplyCallback, TallyOf, Classify;
    HealthyAfter(c, s, Apply(c, s, step).value, step.i);
  }

  lemma CallbackStaysUnharmed(c: Config, s: State, i: nat)
    requires |s.jobs| == |c.trace| && Unharmed(c, s) && ApplyCallback(c, s, i).Some?
    ensures Unharmed(c, ApplyCallback(c, s, i).value)
  {
    assert Healthy(s.jobs[i]);
    HealthyAfter(c, s, ApplyCallback(c, s, i).value, i);
  }

  lemma OfferStaysUnharmed(c: Config, s: State, step: Step)
    requires |s.jobs| == |c.trace| && s.next < |c.trace| && Unharmed(c, s) && ApplyOffer(c, s, step).Some?
    requires !Harmful(step) && !step.LogStep?
    ensures Unharmed(c, ApplyOffer(c, s, step).value)
  {
    hide Held, AppendResult;
    assert Healthy(s.jobs[s.next]);
    HealthyAfter(c, s, ApplyOffer(c, s, step).value, s.next);
  }

  lemma LogStaysUnharmed(c: Config, s: State)
    requires |s.jobs| == |c.trace| && s.next < |c.trace| && Unharmed(c, s) && s.control.LogOverload?
    ensures Unharmed(c, ApplyOffer(c, s, LogStep(Complete)).value)
  {
    hide Held, TallyOf;
    HealthyAfter(c, s, ApplyOffer(c, s, LogStep(Complete)).value, s.next);
  }

  lemma DispatchStaysUnharmed(c: Config, s: State, step: Step)
    requires |s.jobs| == |c.trace| && s.next <= |c.trace| && Unharmed(c, s) && !Harmful(step)
    requires step.FetchStep? || step.CloseStep? || step.JudgeStep?
    requires ApplyDispatcher(c, s, step).Some? && !ApplyDispatcher(c, s, step).value.control.Failed?
    ensures Unharmed(c, ApplyDispatcher(c, s, step).value)
  {
    hide ApplyOffer, Settled, Healthy;
  }

  /** While nothing raises, nothing is harmed, unless the plan turns out not to match. */
  lemma StaysUnharmed(c: Config, s: State, step: Step)
    requires Inv(c, s) && Unharmed(c, s) && !Harmful(step)
    requires Apply(c, s, step).Some? && !Apply(c, s, step).value.control.Failed?
    ensures Unharmed(c, Apply(c, s, step).value)
  {
    hide JobsOk, LedgerOk, SlotsOk, HistoryOk, ApplyOffer, ApplyCallback, Healthy, Held, AppendResult;
    match step
    case Tick(_) =>
    case StartWork(_) => WorkStaysUnharmed(c, s, step);
    case WriteWork(_, _, _) => WorkStaysUnharmed(c, s, step);
    case EndWork(_) => WorkStaysUnharmed(c, s, step);
    case CallbackStep(i) => CallbackStaysUnharmed(c, s, i);
    case FetchStep(_) => DispatchStaysUnharmed(c, s, step);
    case CloseStep => DispatchStaysUnharmed(c, s, step);
    case JudgeStep(_) => DispatchStaysUnharmed(c, s, step);
    case LogStep(_) => LogEnabled(c, s); LogStaysUnharmed(c, s);
    case _ => OfferStaysUnharmed(c, s, step);
  }

  lemma LogEnabled(c: Config, s: State)
    requires |s.jobs| == |c.trace| && s.next < |c.trace| && ApplyOffer(c, s, LogStep(Complete)).Some?
    ensures s.control.LogOverload?
  {
    hide Held, AppendResult;
  }

  // ---------------------------------------------------------------------
  // No exception is lost

  lemma SameJobsDoom(s: State, t: State)
    requires t.jobs == s.jobs && Doomed(s) && (s.error ==> t.error)
    requires s.control.Failed? || s.control == Closing(true) ==> t.control.Failed? || t.control == Closing(true)
    ensures Doomed(t)
  {
  }

  /** What dispatching an offer leaves of a failure. */
  lemma OfferStaysDoomed(c: Config, s: State, step: Step)
    requires Inv(c, s) && s.next < |c.trace| && ApplyOffer(c, s, step).Some? && Doomed(s)
    ensures Doomed(ApplyOffer(c, s, step).value)
  {
    hide JobsOk, LedgerOk, SlotsOk, HistoryOk, Held, Doomed, TallyOf, Recorded, Unrecorded, Tracked;
    var t := ApplyOffer(c, s, step).value;
    JobAt(s, s.next);
    DoomedAfter(s, t, s.next);
  }

  lemma StaysDoomed(c: Config, s: State, step: Step)
    requires Inv(c, s) && Apply(c, s, step).Some? && Doomed(s)
    ensures Doomed(Apply(c, s, step).value)
  {
    hide JobsOk, LedgerOk, SlotsOk, HistoryOk, Doomed, ApplyOffer, ApplyCallback, TallyOf, Classify, Settled;
    var t := Apply(c, s, step).value;
    match step
    case Tick(_) => SameJobsDoom(s, t);
    case StartWork(i) => DoomedAfter(s, t, i);
    case WriteWork(i, _, _) => DoomedAfter(s, t, i);
    case RaiseWork(i) => DoomedAfter(s, t, i);
    case EndWork(i) => DoomedAfter(s, t, i);
    case CallbackStep(i) =>
      CallbackFrame(c, s, i);
      DoomedAfter(s, t, i);
    case FetchStep(_) => SameJobsDoom(s, t);
    case CloseStep => SameJobsDoom(s, t);
    case JudgeStep(_) => SameJobsDoom(s, t);
    case _ => OfferStaysDoomed(c, s, step);
  }

  lemma WorkDooms(c: Config, s: State, step: Step)
    requires Inv(c, s) && Apply(c, s, step).Some? && Harmful(step) && (step.RaiseWork? || step.WriteWork?)
    ensures Doomed(Apply(c, s, step).value)
  {
    hide JobsOk, LedgerOk, SlotsOk, HistoryOk, Doomed, ApplyDispatcher, ApplyCallback, TallyOf, Classify, JobOk;
    JobAt(s, step.i);
    RaisingDooms(s, Apply(c, s, step).value, step.i);
  }

  /** Whatever raises dooms the run. */
  lemma HarmDooms(c: Config, s: State, step: Step)
    requires Inv(c, s) && Apply(c, s, step).Some? && Harmful(step)
    ensures Doomed(Apply(c, s, step).value)
  {
    hide Inv, TallyOf, Classify, Held, ApplyCallback;
    if step.RaiseWork? || step.WriteWork? {
      WorkDooms(c, s, step);
    }
  }

  /** In every interleaving: once anything has raised, the run is doomed. */
  lemma {:induction false} HarmIsNotLost(c: Config, now: int, steps: seq<Step>)
    requires Run(c, now, steps).Some? && !Harmless(steps)
    ensures Doomed(Run(c, now, steps).value)
  {
    hide Inv, Apply, Harmful, Doomed;
    var front, step := steps[..|steps| - 1], steps[|steps| - 1];
    RunKeepsInv(c, now, front);
    var s := Run(c, now, front).value;
    if Harmful(step) {
      HarmDooms(c, s, step);
    } else {
      var k :| 0 <= k < |steps| && Harmful(steps[k]);
      assert front[k] == steps[k];
      HarmIsNotLost(c, now, front);
      StaysDoomed(c, s, step);
    }
  }

  lemma FailedStays(c: Config, s: State, step: Step)
    requires |s.jobs| == |c.trace| && s.control.Failed? && Apply(c, s, step).Some?
    ensures Apply(c, s, step).value.control.Failed?
  {
    hide Held, TallyOf, Classify;
  }

  lemma InitialUnharmed(c: Config, now: int)
    ensures Unharmed(c, Initial(c, now))
  {
  }

  /** A run in which nothing raised and that has not failed is unharmed. */
  lemma {:induction false} HarmlessIsUnharmed(c: Config, now: int, steps: seq<Step>)
    requires Run(c, now, steps).Some? && Harmless(steps) && !Run(c, now, steps).value.control.Failed?
    ensures Unharmed(c, Run(c, now, steps).value)
  {
    hide Inv, Apply, Harmful, Unharmed, Initial;
    if steps == [] {
      InitialUnharmed(c, now);
      return;
    }
    var front, step := steps[..|steps| - 1], steps[|steps| - 1];
    RunKeepsInv(c, now, front);
    var s := Run(c, now, front).value;
    if s.control.Failed? {
      FailedStays(c, s, step);
    }
    HarmlessIsUnharmed(c, now, front);
    StaysUnharmed(c, s, step);
  }

  /** A run that wrote its footer had nothing raise, dispatched the whole trace, and matched plan and digest. */
  lemma FinishedMeans(c: Config, now: int, steps: seq<Step>)
    requires Run(c, now, steps).Some? && Run(c, now, steps).value.control.Finished?
    ensures Harmless(steps) && c.planned == |c.trace| && c.sameDigest
  {
    hide Run, LedgerOk, SlotsOk, HistoryOk, JobsOk, Doomed, Harmful;
    var s := Run(c, now, steps).value;
    RunKeepsInv(c, now, steps);
    assert !s.error by { FinishedIsClean(c, s); }
    JudgedIsRecorded(c, s);
    if !Harmless(steps) {
      HarmIsNotLost(c, now, steps);
    }
    HarmlessIsUnharmed(c, now, steps);
  }

  lemma FinishedIsClean(c: Config, s: State)
    requires LedgerOk(c, s) && s.control.Finished?
    ensures !s.error
  {
  }

  // ---------------------------------------------------------------------
  // Every run in which nothing raised can finish

  /** The step that takes a submitted request on without raising. */
  function WellFor(job: Job, i: nat): (step: Step)
    ensures !Harmful(step) && !step.Tick? && !step.ClockStep?
  {
    if job.InFlight? && job.future.Running? then WriteWork(i, Broken(true), Complete)
    else if job.InFlight? && job.future.Queued? then StartWork(i)
    else if job.InFlight? && job.future.Written? then EndWork(i)
    else CallbackStep(i)
  }

  lemma StepAtIsHarmless(s: State)
    requires s.control.Dispatching() ==> s.next < |s.jobs|
    ensures !Harmful(StepAt(s)) && !StepAt(s).Tick?
  {
  }

  lemma UnsettledGoesOn(c: Config, s: State, j: nat)
    requires ControlOk(c, s) && j < |s.jobs| && JobOk(s, j) && s.control.Closing? && !Settled(s.jobs[j])
    ensures Apply(c, s, WellFor(s.jobs[j], j)).Some?
  {
    hide ApplyDispatcher, TallyOf, Classify;
  }

  /** Some step that raises nothing is enabled. */
  lemma WellEnabled(c: Config, s: State) returns (step: Step)
    requires Inv(c, s) && !Ended(s)
    ensures !step.Tick? && !Harmful(step) && Apply(c, s, step).Some?
  {
    hide Apply, JobsOk, LedgerOk, SlotsOk, HistoryOk, Shape, Settled, Harmful;
    if j :| 0 <= j < |s.jobs| && s.control.Closing? && !Settled(s.jobs[j]) {
      JobAt(s, j);
      UnsettledGoesOn(c, s, j);
      step := WellFor(s.jobs[j], j);
    } else {
      if s.next < |s.jobs| { JobAt(s, s.next); }
      DispatcherCanMove(c, s);
      StepAtIsHarmless(s);
      step := StepAt(s);
    }
  }

  /** With plan and digest as they should be, a harmless step does not fail the run. */
  lemma DoesNotFail(c: Config, s: State, step: Step)
    requires Inv(c, s) && Unharmed(c, s) && c.planned == |c.trace| && c.sameDigest
    requires Apply(c, s, step).Some? && !Harmful(step)
    ensures !Apply(c, s, step).value.control.Failed?
  {
    hide JobsOk, LedgerOk, SlotsOk, HistoryOk, Held, TallyOf, Classify, Settled, Healthy, ApplyCallback;
    if step.JudgeStep? {
      JudgedIsComplete(c, s);
    } else if step.CallbackStep? {
      CallbackFrame(c, s, step.i);
    }
  }

  lemma HarmlessAppend(a: seq<Step>, b: seq<Step>)
    ensures Harmless(a + b) <==> Harmless(a) && Harmless(b)
  {
    hide Harmful;
    assert forall k | 0 <= k < |a| :: a[k] == (a + b)[k];
    assert forall k | 0 <= k < |b| :: b[k] == (a + b)[k + |a|];
  }

  lemma {:induction false} HarmlessGoesWell(c: Config, now: int, steps: seq<Step>)
    requires Run(c, now, steps).Some? && Harmless(steps) && c.planned == |c.trace| && c.sameDigest
    ensures Unharmed(c, Run(c, now, steps).value)
  {
    hide Inv, Apply, Harmful, Unharmed, Initial;
    if steps == [] {
      InitialUnharmed(c, now);
      return;
    }
    var front, step := steps[..|steps| - 1], steps[|steps| - 1];
    RunKeepsInv(c, now, front);
    HarmlessGoesWell(c, now, front);
    DoesNotFail(c, Run(c, now, front).value, step);
    StaysUnharmed(c, Run(c, now, front).value, step);
  }

  lemma UnharmedEnds(c: Config, s: State)
    requires Unharmed(c, s) && Ended(s)
    ensures s.control.Finished?
  {
  }

  /** One step on, or a wait for the clock and a look at it. */
  lemma WellTaken(c: Config, now: int, steps: seq<Step>) returns (taken: seq<Step>)
    requires Run(c, now, steps).Some? && Harmless(steps) && !Ended(Run(c, now, steps).value)
    ensures Run(c, now, steps + taken).Some? && Harmless(steps + taken)
    ensures WorkOf(c, now, steps + taken) < WorkOf(c, now, steps)
  {
    hide Inv, Apply, Work, Run;
    var s := Run(c, now, steps).value;
    RunKeepsInv(c, now, steps);
    NextFits(c, s);
    var step := WellEnabled(c, s);
    if Waits(c, s, step) {
      taken := TickThenLook(c, now, steps);
    } else {
      taken := [step];
      RunStep(c, now, steps, step);
      StepUsesWork(c, s, step);
    }
    HarmlessAppend(steps, taken);
  }

  /** A run in which nothing raised can be brought to its footer. */
  lemma {:induction false} CanFinish(c: Config, now: int, steps: seq<Step>) returns (more: seq<Step>)
    requires Run(c, now, steps).Some? && Harmless(steps) && c.planned == |c.trace| && c.sameDigest
    ensures Run(c, now, steps + more).Some? && Run(c, now, steps + more).value.control.Finished?
    decreases WorkOf(c, now, steps)
  {
    hide Run, Unharmed, Harmless, WorkOf;
    var s := Run(c, now, steps).value;
    if Ended(s) {
      HarmlessGoesWell(c, now, steps);
      UnharmedEnds(c, s);
      assert steps + [] == steps;
      return [];
    }
    var taken := WellTaken(c, now, steps);
    var rest := CanFinish(c, now, steps + taken);
    more := taken + rest;
    assert steps + taken + rest == steps + more;
  }

  ghost predicate Finishes(c: Config, now: int, steps: seq<Step>) {
    Run(c, now, steps).Some? && Run(c, now, steps).value.control.Finished?
  }

  /**
   A run can still be brought to its footer exactly when nothing has raised, the
   trace holds the whole plan, and the digests agree.
   */
  lemma CanFinishIff(c: Config, now: int, steps: seq<Step>)
    requires Run(c, now, steps).Some?
    ensures (exists more :: Finishes(c, now, steps + more)) <==>
            Harmless(steps) && c.planned == |c.trace| && c.sameDigest
  {
    hide Run, Harmless;
    if more :| Finishes(c, now, steps + more) {
      FinishedMeans(c, now, steps + more);
      HarmlessAppend(steps, more);
    }
    if Harmless(steps) && c.planned == |c.trace| && c.sameDigest {
      var more := CanFinish(c, now, steps);
      assert Finishes(c, now, steps + more);
    }
  }
}
