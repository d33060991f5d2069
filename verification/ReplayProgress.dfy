/**
 Every interleaving of a replay makes progress: a step is the clock's, a wait
 for an offer's time, or it uses up a bounded amount of work.
 */
module ReplayProgress {
  import opened Wrappers
  import opened Ledger
  import opened Replay
  import opened ReplaySafety

  // ---------------------------------------------------------------------
  // The work left

  function FutureWork(future: Future): (n: nat)
  {
    match future case Queued => 3 case Running => 2 case Written => 1 case Done(_) => 0
  }

  function CallbackWork(callback: Callback): (n: nat)
  {
    match callback
    case Unset => 7
    case Armed => 6
    case Settling => 5
    case Stopping => 4
    case Removing => 3
    case Releasing => 2
    case Released => 1
    case Abandoned => 0
  }

  /** The steps a submitted request and its callback can still take. */
  function JobWork(job: Job): (n: nat)
  {
    if job.InFlight? then FutureWork(job.future) + CallbackWork(job.callback) else 0
  }

  function JobsWork(jobs: seq<Job>): (n: nat)
  {
    if jobs == [] then 0 else JobsWork(jobs[..|jobs| - 1]) + JobWork(jobs[|jobs| - 1])
  }

  /** How far the dispatcher is from the end of one offer, with room for the work that submitting it adds. */
  function ControlWork(control: Control): (n: nat)
    ensures n <= 40
  {
    match control
    case Fetch => 40
    case Poll => 39
    case Clock => 38
    case Decide => 37
    case Acquire => 36
    case LogOverload => 35
    case Submit => 35
    case Track => 20
    case Register => 19
    case InCallback => 18
    case Closing(_) => 3
    case Judge => 2
    case Finished => 0
    case Failed => 0
  }

  function Work(c: Config, s: State): (n: nat)
    requires s.next <= |c.trace|
  {
    50 * (|c.trace| - s.next) + ControlWork(s.control) + JobsWork(s.jobs)
  }

  /** The dispatcher looks at the clock before the offer's time. */
  predicate Waits(c: Config, s: State, step: Step) {
    step.ClockStep? && s.control.Clock? && s.next < |c.trace| && s.now < c.start + c.trace[s.next].at
  }

  predicate Ended(s: State) {
    s.control.Finished? || s.control.Failed?
  }

  // ---------------------------------------------------------------------
  // Every step

  lemma {:induction false} JobsWorkAfter(jobs: seq<Job>, i: nat, job: Job)
    requires i < |jobs|
    ensures JobsWork(jobs[i := job]) + JobWork(jobs[i]) == JobsWork(jobs) + JobWork(job)
  {
    hide JobWork;
    var n := |jobs| - 1;
    if i < n {
      JobsWorkAfter(jobs[..n], i, job);
      assert jobs[i := job][..n] == jobs[..n][i := job];
    } else {
      assert jobs[i := job][..n] == jobs[..n];
    }
  }

  lemma {:induction false} NoWorkAhead(jobs: seq<Job>)
    requires forall i | 0 <= i < |jobs| :: jobs[i].Ahead?
    ensures JobsWork(jobs) == 0
  {
    if jobs != [] {
      NoWorkAhead(jobs[..|jobs| - 1]);
    }
  }

  /** The step moves one offer on and leaves the dispatcher where it is. */
  ghost predicate MovesJob(s: State, t: State, i: nat) {
    && i < |s.jobs| == |t.jobs| && t.jobs == s.jobs[i := t.jobs[i]] && t.control == s.control && t.next == s.next
    && JobWork(t.jobs[i]) < JobWork(s.jobs[i])
  }

  lemma WorkerMoves(c: Config, s: State, step: Step)
    requires |s.jobs| == |c.trace| && Apply(c, s, step).Some?
    requires step.StartWork? || step.WriteWork? || step.RaiseWork? || step.EndWork?
    ensures MovesJob(s, Apply(c, s, step).value, step.i)
  {
    hide ApplyDispatcher, ApplyCallback, TallyOf;
  }

  lemma CallbackMoves(c: Config, s: State, i: nat)
    requires |s.jobs| == |c.trace| && ApplyCallback(c, s, i).Some?
    ensures MovesJob(s, ApplyCallback(c, s, i).value, i)
  {
  }

  /** The work the dispatcher and the offer it is at have left. */
  function Front(c: Config, s: State, i: nat): (n: nat)
    requires s.next <= |c.trace| && i < |s.jobs|
  {
    50 * (|c.trace| - s.next) + ControlWork(s.control) + JobWork(s.jobs[i])
  }

  ghost predicate MovesOffer(c: Config, s: State, t: State) {
    && s.next < |s.jobs| == |t.jobs| && s.next <= |c.trace| && t.next <= |c.trace|
    && t.jobs == s.jobs[s.next := t.jobs[s.next]]
    && Front(c, t, s.next) < Front(c, s, s.next)
  }

  lemma OfferMoves(c: Config, s: State, step: Step)
    requires |s.jobs| == |c.trace| && s.next < |c.trace| && ApplyOffer(c, s, step).Some? && !Waits(c, s, step)
    requires step.PollStep? || step.ClockStep? || step.DecideStep? || step.AcquireStep?
    ensures MovesOffer(c, s, ApplyOffer(c, s, step).value)
  {
    hide Held, AppendResult;
  }

  lemma SubmissionMoves(c: Config, s: State, step: Step)
    requires |s.jobs| == |c.trace| && s.next < |c.trace| && ApplyOffer(c, s, step).Some? && Shape(s, s.next)
    requires step.SubmitStep? || step.TrackStep? || step.RegisterStep? || step.ReturnStep?
    ensures MovesOffer(c, s, ApplyOffer(c, s, step).value)
  {
    hide Held, AppendResult;
  }

  lemma LogMoves(c: Config, s: State, ending: Ending)
    requires |s.jobs| == |c.trace| && s.next < |c.trace| && s.control.LogOverload?
    ensures MovesOffer(c, s, ApplyOffer(c, s, LogStep(ending)).value)
  {
    hide Held, TallyOf;
  }

  lemma DispatcherMoves(c: Config, s: State, step: Step)
    requires |s.jobs| == |c.trace| && ApplyDispatcher(c, s, step).Some? && s.next <= |c.trace|
    requires step.FetchStep? || step.CloseStep? || step.JudgeStep?
    ensures var t := ApplyDispatcher(c, s, step).value;
            t.next == s.next && t.jobs == s.jobs && ControlWork(t.control) < ControlWork(s.control)
  {
    hide ApplyOffer;
  }

  lemma OfferUsesWork(c: Config, s: State, step: Step)
    requires |s.jobs| == |c.trace| && s.next < |c.trace| && ApplyOffer(c, s, step).Some? && !Waits(c, s, step)
    requires Shape(s, s.next)
    ensures var t := ApplyOffer(c, s, step).value; t.next <= |c.trace| && Work(c, t) < Work(c, s)
  {
    hide JobWork, Shape, Held, AppendResult, ControlWork;
    var t := ApplyOffer(c, s, step).value;
    assert MovesOffer(c, s, t) by {
      match step
      case LogStep(ending) => LogMoves(c, s, ending);
      case PollStep => OfferMoves(c, s, step);
      case ClockStep => OfferMoves(c, s, step);
      case DecideStep => OfferMoves(c, s, step);
      case AcquireStep => OfferMoves(c, s, step);
      case _ => SubmissionMoves(c, s, step);
    }
    JobsWorkAfter(s.jobs, s.next, t.jobs[s.next]);
  }

  /** A step that is not a tick and not a wait leaves less work. */
  lemma StepUsesWork(c: Config, s: State, step: Step)
    requires Inv(c, s) && Apply(c, s, step).Some? && !step.Tick? && !Waits(c, s, step)
    ensures var t := Apply(c, s, step).value; t.next <= |c.trace| && Work(c, t) < Work(c, s)
  {
    hide ApplyOffer, ApplyCallback, JobWork, JobsOk, LedgerOk, SlotsOk, HistoryOk, Held, AppendResult;
    var t := Apply(c, s, step).value;
    match step
    case StartWork(i) => WorkerMoves(c, s, step); JobsWorkAfter(s.jobs, i, t.jobs[i]);
    case WriteWork(i, _, _) => WorkerMoves(c, s, step); JobsWorkAfter(s.jobs, i, t.jobs[i]);
    case RaiseWork(i) => WorkerMoves(c, s, step); JobsWorkAfter(s.jobs, i, t.jobs[i]);
    case EndWork(i) => WorkerMoves(c, s, step); JobsWorkAfter(s.jobs, i, t.jobs[i]);
    case CallbackStep(i) => CallbackMoves(c, s, i); JobsWorkAfter(s.jobs, i, t.jobs[i]);
    case FetchStep(_) => DispatcherMoves(c, s, step);
    case CloseStep => DispatcherMoves(c, s, step);
    case JudgeStep(_) => DispatcherMoves(c, s, step);
    case _ =>
      JobAt(s, s.next);
      OfferUsesWork(c, s, step);
  }

  lemma TickKeepsWork(c: Config, s: State, elapsed: nat)
    requires Inv(c, s)
    ensures Apply(c, s, Tick(elapsed)) == Some(s.(now := s.now + elapsed))
    ensures Work(c, s.(now := s.now + elapsed)) == Work(c, s)
  {
  }

  lemma WaitAddsOne(c: Config, s: State, step: Step)
    requires Inv(c, s) && Waits(c, s, step)
    ensures Apply(c, s, step) == Some(s.(control := Poll)) && Work(c, s.(control := Poll)) == Work(c, s) + 1
  {
  }

  // ---------------------------------------------------------------------
  // Every run

  lemma NextFits(c: Config, s: State)
    requires Inv(c, s)
    ensures s.next <= |c.trace|
  {
  }

  /** The run without its last step. */
  lemma RunBefore(c: Config, now: int, steps: seq<Step>)
    requires steps != [] && Run(c, now, steps).Some?
    ensures var before := Run(c, now, steps[..|steps| - 1]);
            before.Some? && Inv(c, before.value) && Run(c, now, steps) == Apply(c, before.value, steps[|steps| - 1])
  {
    hide Inv, Apply;
    RunKeepsInv(c, now, steps[..|steps| - 1]);
  }

  /** How many steps of a run are not the clock's. */
  function Moves(steps: seq<Step>): (n: nat)
  {
    if steps == [] then 0 else Moves(steps[..|steps| - 1]) + if steps[|steps| - 1].Tick? then 0 else 1
  }

  /** How often a run looked at the clock too early. */
  ghost function Looks(c: Config, now: int, steps: seq<Step>): (n: nat)
    requires Run(c, now, steps).Some?
  {
    if steps == [] then 0 else
    var front := steps[..|steps| - 1];
    Looks(c, now, front) + if Waits(c, Run(c, now, front).value, steps[|steps| - 1]) then 1 else 0
  }

  /** In every interleaving the steps are bounded by the trace's length and the looks at the clock. */
  lemma {:induction false} RunIsBounded(c: Config, now: int, steps: seq<Step>)
    requires Run(c, now, steps).Some?
    ensures var s := Run(c, now, steps).value;
            s.next <= |c.trace| && Moves(steps) + Work(c, s) <= 50 * |c.trace| + 40 + 2 * Looks(c, now, steps)
  {
    hide Inv, Apply, Waits;
    if steps == [] {
      NoWorkAhead(Initial(c, now).jobs);
      return;
    }
    var step := steps[|steps| - 1];
    RunIsBounded(c, now, steps[..|steps| - 1]);
    RunBefore(c, now, steps);
    var s := Run(c, now, steps[..|steps| - 1]).value;
    if step.Tick? {
      TickKeepsWork(c, s, step.elapsed);
      assert !Waits(c, s, step) by { NoTickWaits(c, s, step.elapsed); }
    } else if Waits(c, s, step) {
      WaitAddsOne(c, s, step);
    } else {
      StepUsesWork(c, s, step);
    }
  }

  lemma NoTickWaits(c: Config, s: State, elapsed: nat)
    ensures !Waits(c, s, Tick(elapsed))
  {
  }

  /** The clock has reached every offer's time. */
  predicate AllDue(c: Config, s: State) {
    forall i | 0 <= i < |c.trace| :: s.now >= c.start + c.trace[i].at
  }

  lemma ClockKeepsOn(c: Config, s: State, step: Step)
    requires |s.jobs| == |c.trace| && Apply(c, s, step).Some? && !step.Tick?
    ensures Apply(c, s, step).value.now == s.now
  {
    hide Held, TallyOf;
  }

  /**
   Once the clock has reached every offer's time, whatever order the threads
   then run in, they take no more steps than there is work left.
   */
  lemma {:induction false} DueRunsEnd(c: Config, now: int, steps: seq<Step>, more: seq<Step>)
    requires Run(c, now, steps).Some? && AllDue(c, Run(c, now, steps).value)
    requires Run(c, now, steps + more).Some? && forall k | 0 <= k < |more| :: !more[k].Tick?
    ensures var s, t := Run(c, now, steps).value, Run(c, now, steps + more).value;
            && s.next <= |c.trace| && t.next <= |c.trace| && t.now == s.now
            && |more| + Work(c, t) <= Work(c, s)
    decreases |more|
  {
    hide Inv, Apply, Work;
    RunKeepsInv(c, now, steps);
    NextFits(c, Run(c, now, steps).value);
    if more == [] {
      assert steps + more == steps;
      return;
    }
    var front, all := more[..|more| - 1], steps + more;
    assert all[..|all| - 1] == steps + front;
    RunBefore(c, now, all);
    DueRunsEnd(c, now, steps, front);
    var s := Run(c, now, steps + front).value;
    ClockKeepsOn(c, s, more[|more| - 1]);
    assert !Waits(c, s, more[|more| - 1]);
    StepUsesWork(c, s, more[|more| - 1]);
  }

  // ---------------------------------------------------------------------
  // After the stop flag is set

  /** Work left once the stop flag is set: a dispatcher that is about to look at the clock may look too early once. */
  function StoppedWork(c: Config, s: State): (n: nat)
    requires s.next <= |c.trace|
  {
    Work(c, s) + if s.control.Clock? then 3 else 0
  }

  lemma StopStays(c: Config, s: State, step: Step)
    requires |s.jobs| == |c.trace| && s.stop && Apply(c, s, step).Some?
    ensures var t := Apply(c, s, step).value; t.stop && (t.control.Clock? ==> s.control.Clock?)
  {
    hide Held, TallyOf, Classify;
  }

  lemma StoppedStep(c: Config, s: State, step: Step)
    requires Inv(c, s) && s.stop && Apply(c, s, step).Some?
    ensures var t := Apply(c, s, step).value;
            && t.stop && s.next <= |c.trace| && t.next <= |c.trace|
            && StoppedWork(c, t) + (if step.Tick? then 0 else 1) <= StoppedWork(c, s)
  {
    hide Inv, Apply, Work;
    InvFits(c, s);
    NextFits(c, s);
    StopStays(c, s, step);
    if step.Tick? {
      TickKeepsWork(c, s, step.elapsed);
    } else if Waits(c, s, step) {
      WaitAddsOne(c, s, step);
    } else {
      StepUsesWork(c, s, step);
    }
  }

  /**
   Once the stop flag is set, whatever order the threads then run in and however
   early the clock is, they take no more steps than there is work left.
   */
  lemma {:induction false} StoppedRunsEnd(c: Config, now: int, steps: seq<Step>, more: seq<Step>)
    requires Run(c, now, steps).Some? && Run(c, now, steps).value.stop && Run(c, now, steps + more).Some?
    ensures var s, t := Run(c, now, steps).value, Run(c, now, steps + more).value;
            && s.next <= |c.trace| && t.next <= |c.trace| && t.stop
            && Moves(more) + StoppedWork(c, t) <= StoppedWork(c, s)
    decreases |more|
  {
    hide Inv, Apply, Work, StoppedWork;
    RunKeepsInv(c, now, steps);
    NextFits(c, Run(c, now, steps).value);
    if more == [] {
      assert steps + more == steps;
      return;
    }
    var front, all := more[..|more| - 1], steps + more;
    assert all[..|all| - 1] == steps + front;
    RunBefore(c, now, all);
    StoppedRunsEnd(c, now, steps, front);
    StoppedStep(c, Run(c, now, steps + front).value, more[|more| - 1]);
  }

  /** Until the run has ended, some step uses up work, or the dispatcher waits for the clock. */
  lemma SomethingMoves(c: Config, now: int, steps: seq<Step>) returns (step: Step)
    requires Run(c, now, steps).Some? && !Ended(Run(c, now, steps).value)
    ensures var s := Run(c, now, steps).value;
            && !step.Tick? && Apply(c, s, step).Some? && s.next <= |c.trace|
            && (Waits(c, s, step) ||
                var t := Apply(c, s, step).value; t.next <= |c.trace| && Work(c, t) < Work(c, s))
  {
    hide Inv, Apply, Work, Waits, Run;
    NoDeadlock(c, now, steps);
    RunKeepsInv(c, now, steps);
    var s := Run(c, now, steps).value;
    NextFits(c, s);
    step :| !step.Tick? && Apply(c, s, step).Some?;
    if !Waits(c, s, step) {
      StepUsesWork(c, s, step);
    }
  }

  lemma RunStep(c: Config, now: int, steps: seq<Step>, step: Step)
    requires Run(c, now, steps).Some?
    ensures Run(c, now, steps + [step]) == Apply(c, Run(c, now, steps).value, step)
  {
    hide Apply;
    assert (steps + [step])[..|steps|] == steps;
  }

  ghost function WorkOf(c: Config, now: int, steps: seq<Step>): (n: nat)
    requires Run(c, now, steps).Some?
  {
    var s := Run(c, now, steps).value;
    if s.next <= |c.trace| then Work(c, s) else 0
  }

  /** A dispatcher that looked too early finds its offer due once the clock has moved on. */
  lemma TickThenLook(c: Config, now: int, steps: seq<Step>) returns (taken: seq<Step>)
    requires Run(c, now, steps).Some? && Waits(c, Run(c, now, steps).value, ClockStep)
    ensures Run(c, now, steps + taken).Some? && WorkOf(c, now, steps + taken) < WorkOf(c, now, steps)
    ensures forall k | 0 <= k < |taken| :: taken[k].Tick? || taken[k].ClockStep?
  {
    hide Inv, Apply, Work, Run;
    var s := Run(c, now, steps).value;
    RunKeepsInv(c, now, steps);
    NextFits(c, s);
    var elapsed := c.start + c.trace[s.next].at - s.now;
    var t := s.(now := s.now + elapsed);
    TickKeepsWork(c, s, elapsed);
    RunStep(c, now, steps, Tick(elapsed));
    var ticked := steps + [Tick(elapsed)];
    RunKeepsInv(c, now, ticked);
    LookIsEnabled(c, t);
    StepUsesWork(c, t, ClockStep);
    RunStep(c, now, ticked, ClockStep);
    taken := [Tick(elapsed), ClockStep];
    assert ticked + [ClockStep] == steps + taken;
  }

  lemma LookIsEnabled(c: Config, s: State)
    requires |s.jobs| == |c.trace| && s.control.Clock? && s.next < |c.trace|
    ensures Apply(c, s, ClockStep).Some?
  {
  }

  /** From every reachable state the run can come to its end. */
  lemma {:induction false} CanEnd(c: Config, now: int, steps: seq<Step>) returns (more: seq<Step>)
    requires Run(c, now, steps).Some?
    ensures Run(c, now, steps + more).Some? && Ended(Run(c, now, steps + more).value)
    decreases WorkOf(c, now, steps)
  {
    hide Inv, Apply, Work, Run;
    var s := Run(c, now, steps).value;
    if Ended(s) {
      assert steps + [] == steps;
      return [];
    }
    var step := SomethingMoves(c, now, steps);
    var taken := [step];
    if Waits(c, s, step) {
      taken := TickThenLook(c, now, steps);
    } else {
      RunStep(c, now, steps, step);
    }
    var rest := CanEnd(c, now, steps + taken);
    more := taken + rest;
    assert steps + taken + rest == steps + more;
  }

  // ---------------------------------------------------------------------
  // A request that is done before its callback is added

  /** The dispatcher is still in the callback of offer `i`, or that callback has released its slot. */
  predicate CalledBack(s: State, i: nat) {
    && i < |s.jobs| && s.jobs[i].InFlight? && s.jobs[i].future.Done?
    && ((s.control.InCallback? && s.next == i && !s.jobs[i].callback.Unset?) || s.jobs[i].callback.Released?)
  }

  lemma RegisterCallsBack(c: Config, s: State)
    requires |s.jobs| == |c.trace| && s.next < |c.trace| && s.control.Register?
    requires s.jobs[s.next].InFlight? && s.jobs[s.next].future.Done?
    ensures Apply(c, s, RegisterStep).Some? && CalledBack(Apply(c, s, RegisterStep).value, s.next)
  {
  }

  lemma OfferStaysCalledBack(c: Config, s: State, step: Step, i: nat)
    requires |s.jobs| == |c.trace| && CalledBack(s, i) && s.next < |c.trace| && ApplyOffer(c, s, step).Some?
    requires Shape(s, s.next)
    ensures CalledBack(ApplyOffer(c, s, step).value, i)
  {
    hide Held, TallyOf;
    if s.next == i {
      assert s.control.InCallback?;
    }
  }

  lemma CallbackStaysCalledBack(c: Config, s: State, k: nat, i: nat)
    requires |s.jobs| == |c.trace| && CalledBack(s, i) && ApplyCallback(c, s, k).Some?
    ensures CalledBack(ApplyCallback(c, s, k).value, i)
  {
  }

  lemma WorkStaysCalledBack(c: Config, s: State, step: Step, i: nat)
    requires |s.jobs| == |c.trace| && CalledBack(s, i) && Apply(c, s, step).Some?
    requires step.StartWork? || step.WriteWork? || step.RaiseWork? || step.EndWork?
    ensures CalledBack(Apply(c, s, step).value, i)
  {
    hide ApplyDispatcher, ApplyCallback, TallyOf, Classify;
  }

  lemma StaysCalledBack(c: Config, s: State, step: Step, i: nat)
    requires |s.jobs| == |c.trace| && CalledBack(s, i) && Apply(c, s, step).Some?
    requires s.next < |s.jobs| ==> Shape(s, s.next)
    ensures CalledBack(Apply(c, s, step).value, i)
  {
    hide Held, AppendResult, ApplyOffer, ApplyCallback, Shape;
    if step.StartWork? || step.WriteWork? || step.RaiseWork? || step.EndWork? {
      WorkStaysCalledBack(c, s, step, i);
    } else if step.CallbackStep? {
      CallbackStaysCalledBack(c, s, step.i, i);
    } else if s.next < |c.trace| && ApplyOffer(c, s, step).Some? {
      OfferStaysCalledBack(c, s, step, i);
    }
  }

  /**
   The callback of a request that is done when its callback is added runs in the
   dispatcher: in every interleaving its slot is free before the next offer is
   fetched.
   */
  lemma {:induction false} ReleasedBeforeNext(c: Config, now: int, steps: seq<Step>, more: seq<Step>)
    requires Run(c, now, steps).Some?
    requires var s := Run(c, now, steps).value;
             s.control.Register? && s.next < |s.jobs| && s.jobs[s.next].InFlight? && s.jobs[s.next].future.Done?
    requires Run(c, now, steps + [RegisterStep] + more).Some?
    ensures var i, t := Run(c, now, steps).value.next, Run(c, now, steps + [RegisterStep] + more).value;
            CalledBack(t, i) && (t.next > i ==> t.jobs[i].callback.Released?)
    decreases |more|
  {
    hide Inv, Apply, CalledBack;
    var i, all := Run(c, now, steps).value.next, steps + [RegisterStep] + more;
    if more == [] {
      assert all == steps + [RegisterStep];
      RunStep(c, now, steps, RegisterStep);
      RegisterCallsBack(c, Run(c, now, steps).value);
    } else {
      var front := more[..|more| - 1];
      assert all[..|all| - 1] == steps + [RegisterStep] + front;
      RunBefore(c, now, all);
      ReleasedBeforeNext(c, now, steps, front);
      var s := Run(c, now, all[..|all| - 1]).value;
      ShapeAt(c, s);
      StaysCalledBack(c, s, more[|more| - 1], i);
    }
    if Run(c, now, all).value.next > i {
      CalledBackIsReleased(Run(c, now, all).value, i);
    }
  }

  lemma ShapeAt(c: Config, s: State)
    requires Inv(c, s)
    ensures s.next < |s.jobs| ==> Shape(s, s.next)
  {
    hide LedgerOk, SlotsOk, HistoryOk;
    if s.next < |s.jobs| {
      JobAt(s, s.next);
    }
  }

  lemma CalledBackIsReleased(s: State, i: nat)
    requires CalledBack(s, i) && s.next > i
    ensures s.jobs[i].callback.Released?
  {
  }
}
