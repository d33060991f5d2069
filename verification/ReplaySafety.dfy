/**
 What holds in every interleaving of a replay: slots are conserved, the ledger
 gives every offer at most one result, and a run that writes its footer has
 written a ledger the summary's reader accepts.
 */
module ReplaySafety {
  import opened Sorting
  import opened Ledger
  import opened Replay

  // ---------------------------------------------------------------------
  // The invariant

  /** Which states an offer can be in, given how far the dispatcher is. */
  ghost predicate Shape(s: State, j: nat)
    requires j < |s.jobs|
  {
    var job := s.jobs[j];
    if j < s.next then
      job.Overloaded? ||
      (job.InFlight? && !job.callback.Unset? && !job.callback.Abandoned? && (job.callback.Armed? || job.future.Done?))
    else if j > s.next then job.Ahead?
    else match s.control
      case LogOverload => job.Refused?
      case Submit => job.Slotted?
      case Track => job.InFlight? && job.callback.Unset?
      case Register => job.InFlight? && job.callback.Unset?
      case InCallback => job.InFlight? && job.future.Done? &&
        (job.callback.Settling? || job.callback.Stopping? || job.callback.Past())
      case Closing(raised) => job.Ahead? || (raised && (job.Aborted? || (job.InFlight? && job.callback.Abandoned?)))
      case Failed => job.Ahead? || job.Aborted? || (job.InFlight? && job.callback.Abandoned?)
      case _ => job.Ahead?
  }

  ghost predicate Tracked(s: State, j: nat)
    requires j < |s.jobs|
  {
    s.jobs[j].InFlight? &&
    (s.jobs[j].callback.Armed? || s.jobs[j].callback.Settling? || s.jobs[j].callback.Stopping? ||
     s.jobs[j].callback.Removing? ||
     (s.jobs[j].callback.Unset? && s.control.Register? && j == s.next))
  }

  ghost predicate Recorded(job: Job) {
    job.Overloaded? || (job.InFlight? && (job.future.Written? || job.future == Done(false)))
  }

  ghost predicate Unrecorded(job: Job) {
    job.Ahead? || job.Refused? || job.Slotted? || (job.InFlight? && (job.future.Queued? || job.future.Running?))
  }

  ghost predicate Raised(job: Job) {
    job.InFlight? && job.future == Done(true)
  }

  ghost predicate JobOk(s: State, j: nat)
    requires j < |s.jobs|
  {
    var job := s.jobs[j];
    && Shape(s, j)
    && (j in s.active <==> Tracked(s, j))
    && (Recorded(job) ==> j in s.recorded)
    && (Unrecorded(job) ==> j !in s.recorded)
    && (Raised(job) && (job.callback.Stopping? || job.callback.Past()) ==> s.error)
    && (Raised(job) && job.callback.Past() ==> s.stop)
    && (job.Refused? || job.Overloaded? ==> j in s.refusals)
  }

  ghost predicate JobsOk(s: State) {
    && (forall j | 0 <= j < |s.jobs| :: JobOk(s, j))
    && (forall j | j in s.active :: j < |s.jobs|)
    && (s.control.Judge? || s.control.Finished? ==> forall j | 0 <= j < |s.jobs| :: Settled(s.jobs[j]))
  }

  ghost predicate ControlOk(c: Config, s: State) {
    && |s.jobs| == |c.trace|
    && s.next <= |c.trace|
    && (s.control.Dispatching() ==> s.next < |c.trace|)
  }

  ghost predicate SlotsOk(c: Config, s: State)
    requires |s.jobs| == |c.trace|
  {
    forall kind: Kind :: s.free.Get(kind) + Held(c.trace, s.jobs, kind) == c.workers.Get(kind)
  }

  /** The run is going to end without a footer. */
  ghost predicate Doomed(s: State) {
    || s.error || s.control.Failed? || s.control == Closing(true)
    || exists j | 0 <= j < |s.jobs| :: Raised(s.jobs[j]) && s.jobs[j].callback.Unseen()
  }

  /** A result carries the identity, time and kind of the offer it is for. */
  predicate Matches(c: Config, record: Record)
    requires record.Result?
  {
    record.id < |c.trace| && record.at == c.trace[record.id].at && record.kind == c.trace[record.id].kind
  }

  ghost predicate RecordOk(c: Config, refusals: map<nat, nat>, record: Record) {
    record.Result? && Matches(c, record) &&
    record.outcome in Outcomes(record.kind) && (record.outcome == ClientOverload ==> record.id in refusals)
  }

  ghost predicate LedgerOk(c: Config, s: State) {
    && s.lines == [Start(c.planned)] + s.written + (if s.control.Finished? then [End(s.next, s.counts)] else [])
    && s.counts == Tallies(s.logged)
    && (forall i | 0 <= i < |s.written| :: RecordOk(c, s.refusals, s.written[i]))
    && (forall i | 0 <= i < |s.logged| :: RecordOk(c, s.refusals, s.logged[i]))
    && (!Doomed(s) ==> s.written == s.logged)
    && OnceEach(s.written, s.recorded)
    && (s.control.Finished? ==> !s.error && s.next == c.planned)
  }

  ghost predicate OnceEach(records: seq<Record>, ids: set<nat>) {
    forall id: int :: Results(records, id) == if id in ids then 1 else 0
  }

  lemma OnceEachAfter(records: seq<Record>, ids: set<nat>, record: Record)
    requires OnceEach(records, ids) && record.Result? && record.id !in ids
    ensures OnceEach(records + [record], ids + {record.id})
  {
    hide Results, Tallies;
    Appended(records, record);
  }

  function Late(submissions: seq<Submission>): (n: nat)
  {
    if submissions == [] then 0
    else Late(submissions[..|submissions| - 1]) + if submissions[|submissions| - 1].stopped then 1 else 0
  }

  ghost predicate HistoryOk(c: Config, s: State) {
    && (forall k | 0 <= k < |s.submissions| ::
          s.submissions[k].id < |c.trace| && s.submissions[k].time >= c.start + c.trace[s.submissions[k].id].at)
    && Late(s.submissions) <= 1
    && (Late(s.submissions) > 0 ==> s.stop && !s.control.Acquire?)
    && (s.control.Acquire? && s.next < |c.trace| ==> s.now >= c.start + c.trace[s.next].at)
    && (s.control.Decide? && s.next < |c.trace| ==> s.stop || s.now >= c.start + c.trace[s.next].at)
    && (forall id | id in s.refusals :: id < |c.trace| && s.refusals[id] == c.workers.Get(c.trace[id].kind))
  }

  ghost predicate Inv(c: Config, s: State) {
    ControlOk(c, s) && JobsOk(s) && SlotsOk(c, s) && LedgerOk(c, s) && HistoryOk(c, s)
  }

  // ---------------------------------------------------------------------
  // Slots

  lemma {:induction false} HeldAfter(trace: seq<Offer>, jobs: seq<Job>, i: nat, job: Job, kind: Kind)
    requires |jobs| <= |trace| && i < |jobs|
    ensures Held(trace, jobs[i := job], kind) + HoldsFor(trace, jobs, i, kind)
         == Held(trace, jobs, kind) + HoldsFor(trace, jobs[i := job], i, kind)
  {
    var n := |jobs| - 1;
    if i < n {
      HeldAfter(trace, jobs[..n], i, job, kind);
      assert jobs[i := job][..n] == jobs[..n][i := job];
    } else {
      assert jobs[i := job][..n] == jobs[..n];
    }
  }

  lemma {:induction false} NothingHeld(trace: seq<Offer>, jobs: seq<Job>, kind: Kind)
    requires |jobs| <= |trace| && forall i | 0 <= i < |jobs| :: !Holds(jobs[i])
    ensures Held(trace, jobs, kind) == 0
  {
    if jobs != [] {
      NothingHeld(trace, jobs[..|jobs| - 1], kind);
    }
  }

  /** Changing one offer's state moves its pool's free count by what it held before and holds after. */
  lemma SlotsAfter(c: Config, s: State, t: State, i: nat, job: Job)
    requires |s.jobs| == |c.trace| && SlotsOk(c, s) && i < |s.jobs| && t.jobs == s.jobs[i := job]
    requires var k := c.trace[i].kind;
             t.free.Get(k) + (if Holds(job) then 1 else 0) == s.free.Get(k) + (if Holds(s.jobs[i]) then 1 else 0)
    requires forall k | k != c.trace[i].kind :: t.free.Get(k) == s.free.Get(k)
    ensures SlotsOk(c, t)
  {
    forall kind: Kind
      ensures t.free.Get(kind) + Held(c.trace, t.jobs, kind) == c.workers.Get(kind)
    {
      HeldAfter(c.trace, s.jobs, i, job, kind);
    }
  }

  lemma InitialInv(c: Config, now: int)
    ensures Inv(c, Initial(c, now))
  {
    var s := Initial(c, now);
    forall kind: Kind
      ensures Held(c.trace, s.jobs, kind) == 0
    {
      NothingHeld(c.trace, s.jobs, kind);
    }
  }

  // ---------------------------------------------------------------------
  // Every step keeps the invariant

  lemma JobAt(s: State, i: nat)
    requires JobsOk(s) && i < |s.jobs|
    ensures JobOk(s, i)
  {
  }

  lemma ShapeOf(s: State, i: nat)
    requires i < |s.jobs| && JobOk(s, i)
    ensures Shape(s, i)
  {
  }

  /** A step on offer `i` alone: every other offer keeps its part of the invariant. */
  lemma JobsAfter(s: State, t: State, i: nat)
    requires JobsOk(s) && i < |s.jobs| == |t.jobs| && t.jobs == s.jobs[i := t.jobs[i]] && JobOk(t, i)
    requires forall j | j != i :: (j in t.active <==> j in s.active) && (j in t.recorded <==> j in s.recorded)
    requires (s.error ==> t.error) && (s.stop ==> t.stop) && s.refusals.Keys <= t.refusals.Keys
    requires (t.next == s.next && (i == s.next || t.control == s.control)) ||
             (t.next == s.next + 1 && i == s.next && t.control.Fetch?)
    requires !t.control.Judge? && !t.control.Finished?
    ensures JobsOk(t)
  {
    forall j | 0 <= j < |t.jobs|
      ensures JobOk(t, j)
    {
      if j != i {
        JobAt(s, j);
      }
    }
  }

  lemma DoomedAfter(s: State, t: State, i: nat)
    requires i < |s.jobs| == |t.jobs| && t.jobs == s.jobs[i := t.jobs[i]]
    requires (s.error ==> t.error) && (s.control.Failed? || s.control == Closing(true) ==> t.control == s.control)
    requires Raised(s.jobs[i]) && s.jobs[i].callback.Unseen()
             ==> t.error || (Raised(t.jobs[i]) && t.jobs[i].callback.Unseen())
    ensures Doomed(s) ==> Doomed(t)
  {
    if Doomed(s) && !t.error && !t.control.Failed? && t.control != Closing(true) {
      var j :| 0 <= j < |s.jobs| && Raised(s.jobs[j]) && s.jobs[j].callback.Unseen();
      assert Raised(t.jobs[j]) && t.jobs[j].callback.Unseen();
    }
  }

  /** Steps that write nothing. */
  lemma LedgerUnmoved(c: Config, s: State, t: State)
    requires LedgerOk(c, s) && !s.control.Finished? && !t.control.Finished?
    requires t.lines == s.lines && t.counts == s.counts && t.written == s.written && t.logged == s.logged &&
             t.recorded == s.recorded
    requires s.refusals.Keys <= t.refusals.Keys && (Doomed(s) ==> Doomed(t))
    ensures LedgerOk(c, t)
  {
  }

  /** Writing the one result of an offer that has none yet. */
  lemma LedgerAppended(c: Config, s: State, t: State, i: nat, outcome: Outcome, ending: Ending)
    requires LedgerOk(c, s) && !s.control.Finished? && !t.control.Finished? && i < |c.trace| && i !in s.recorded
    requires var a := AppendResult(c, s, i, outcome, ending);
             t.lines == a.lines && t.counts == a.counts && t.written == a.written && t.logged == a.logged &&
             t.recorded == a.recorded
    requires t.refusals == s.refusals && outcome in Outcomes(c.trace[i].kind) &&
             (outcome == ClientOverload ==> i in s.refusals)
    requires (Doomed(s) || !ending.Complete?) ==> Doomed(t)
    ensures LedgerOk(c, t)
  {
    hide Outcomes, Doomed, OnceEach, Tallies;
    var record := Result(i, c.trace[i].at, c.trace[i].kind, outcome);
    assert RecordOk(c, t.refusals, record);
    Appended(s.logged, record);
    OnceEachAfter(s.written, s.recorded, record);
    if !ending.Lost? {
      assert t.lines == [Start(c.planned)] + t.written + [];
    }
  }

  lemma HistoryUnmoved(c: Config, s: State, t: State)
    requires HistoryOk(c, s) && t.submissions == s.submissions && t.refusals == s.refusals
    requires s.now <= t.now && (s.stop ==> t.stop)
    requires t.control.Acquire? ==> s.control.Acquire? && t.next == s.next
    requires t.control.Decide? ==> s.control.Decide? && t.next == s.next
    ensures HistoryOk(c, t)
  {
  }

  /** Work on one offer keeps that offer's part of the invariant. */
  lemma WorkJobOk(c: Config, s: State, step: Step)
    requires ControlOk(c, s) && (step.StartWork? || step.RaiseWork? || step.EndWork?) && Apply(c, s, step).Some?
    requires step.i < |s.jobs| && JobOk(s, step.i)
    ensures var t := Apply(c, s, step).value;
            JobOk(t, step.i) && Holds(t.jobs[step.i]) == Holds(s.jobs[step.i])
  {
    hide ApplyDispatcher, ApplyCallback, ControlOk;
  }

  lemma WriteShape(c: Config, s: State, step: Step)
    requires ControlOk(c, s) && step.WriteWork? && Apply(c, s, step).Some?
    requires step.i < |s.jobs| && Shape(s, step.i)
    ensures Shape(Apply(c, s, step).value, step.i)
    ensures !s.jobs[step.i].callback.Stopping? && !s.jobs[step.i].callback.Past()
  {
    hide ApplyDispatcher, ApplyCallback, Classify, TallyOf;
  }

  lemma WriteJobOk(c: Config, s: State, step: Step)
    requires ControlOk(c, s) && step.WriteWork? && Apply(c, s, step).Some?
    requires step.i < |s.jobs| && JobOk(s, step.i)
    ensures var t := Apply(c, s, step).value;
            JobOk(t, step.i) && Holds(t.jobs[step.i]) == Holds(s.jobs[step.i])
  {
    hide ApplyDispatcher, ApplyCallback, Classify, TallyOf, Shape;
    WriteShape(c, s, step);
  }

  lemma WorkKeepsInv(c: Config, s: State, step: Step)
    requires Inv(c, s) && (step.StartWork? || step.RaiseWork? || step.EndWork?) && Apply(c, s, step).Some?
    ensures Inv(c, Apply(c, s, step).value)
  {
    hide JobsOk, LedgerOk, SlotsOk, HistoryOk, Doomed, JobOk, Holds;
    var t := Apply(c, s, step).value;
    var i := step.i;
    JobAt(s, i);
    WorkJobOk(c, s, step);
    OpenWhileWorking(s, i);
    SlotsAfter(c, s, t, i, t.jobs[i]);
    JobsAfter(s, t, i);
    DoomedAfter(s, t, i);
    LedgerUnmoved(c, s, t);
    HistoryUnmoved(c, s, t);
  }

  /** Nothing is left to do once the run is judged. */
  lemma OpenWhileWorking(s: State, i: nat)
    requires JobsOk(s) && i < |s.jobs| && !Settled(s.jobs[i])
    ensures !s.control.Judge? && !s.control.Finished?
  {
  }

  /** A request that raised is not forgotten: its callback is still to come, or the dispatcher raised too. */
  lemma RaisingDooms(s: State, t: State, i: nat)
    requires i < |s.jobs| && JobOk(s, i) && s.jobs[i].InFlight? && s.jobs[i].future.Running?
    requires i < |t.jobs| && t.jobs[i] == s.jobs[i].(future := Done(true)) && t.control == s.control
    ensures Doomed(t)
  {
    assert Raised(t.jobs[i]);
  }

  lemma WriteKeepsInv(c: Config, s: State, step: Step)
    requires Inv(c, s) && step.WriteWork? && Apply(c, s, step).Some?
    ensures Inv(c, Apply(c, s, step).value)
  {
    hide JobsOk, LedgerOk, SlotsOk, HistoryOk, Doomed, Holds, Shape;
    var t := Apply(c, s, step).value;
    var i := step.i;
    JobAt(s, i);
    WriteJobOk(c, s, step);
    OpenWhileWorking(s, i);
    SlotsAfter(c, s, t, i, t.jobs[i]);
    JobsAfter(s, t, i);
    DoomedAfter(s, t, i);
    if !step.write.Complete? {
      RaisingDooms(s, t, i);
    }
    LedgerAppended(c, s, t, i, Classify(c.trace[i].kind, step.reply), step.write);
    HistoryUnmoved(c, s, t);
  }

  lemma CallbackShape(c: Config, s: State, i: nat)
    requires ControlOk(c, s) && ApplyCallback(c, s, i).Some? && i < |s.jobs| && Shape(s, i)
    ensures Shape(ApplyCallback(c, s, i).value, i)
  {
  }

  lemma CallbackJobOk(c: Config, s: State, i: nat)
    requires ControlOk(c, s) && ApplyCallback(c, s, i).Some? && i < |s.jobs| && JobOk(s, i)
    ensures JobOk(ApplyCallback(c, s, i).value, i)
  {
    hide Shape;
    CallbackShape(c, s, i);
  }

  /** What a callback leaves alone, and what it does to its slot and to an error not seen yet. */
  lemma CallbackFrame(c: Config, s: State, i: nat)
    requires |s.jobs| == |c.trace| && ApplyCallback(c, s, i).Some?
    ensures var t := ApplyCallback(c, s, i).value;
            && i < |s.jobs| && t == s.(jobs := s.jobs[i := t.jobs[i]], active := t.active, free := t.free,
                                      error := t.error, stop := t.stop)
            && !Settled(s.jobs[i]) && (s.error ==> t.error) && (s.stop ==> t.stop)
            && (forall j | j != i :: j in t.active <==> j in s.active)
            && (Raised(s.jobs[i]) && s.jobs[i].callback.Unseen() ==>
                  t.error || (Raised(t.jobs[i]) && t.jobs[i].callback.Unseen()))
            && t.free.Get(c.trace[i].kind) + (if Holds(t.jobs[i]) then 1 else 0)
               == s.free.Get(c.trace[i].kind) + (if Holds(s.jobs[i]) then 1 else 0)
            && forall k | k != c.trace[i].kind :: t.free.Get(k) == s.free.Get(k)
  {
  }

  lemma CallbackKeepsInv(c: Config, s: State, i: nat)
    requires Inv(c, s) && ApplyCallback(c, s, i).Some?
    ensures Inv(c, ApplyCallback(c, s, i).value)
  {
    hide JobsOk, LedgerOk, SlotsOk, HistoryOk, Doomed, JobOk, ApplyCallback, Holds, Settled, Raised;
    var t := ApplyCallback(c, s, i).value;
    CallbackFrame(c, s, i);
    JobAt(s, i);
    CallbackJobOk(c, s, i);
    OpenWhileWorking(s, i);
    SlotsAfter(c, s, t, i, t.jobs[i]);
    JobsAfter(s, t, i);
    DoomedAfter(s, t, i);
    LedgerUnmoved(c, s, t);
    HistoryUnmoved(c, s, t);
  }

  /** Steps that only move the dispatcher on within one offer, or stop it. */
  lemma ControlKeepsInv(c: Config, s: State, t: State)
    requires Inv(c, s) && t == s.(control := t.control)
    requires s.control.Fetch? || s.control.Poll? || s.control.Clock? || s.control.Decide?
    requires t.control.Poll? || t.control.Clock? || t.control.Decide? || t.control.Acquire? || t.control.Closing?
    requires t.control.Dispatching() ==> s.next < |c.trace|
    requires t.control.Acquire? ==> s.control.Decide? && !s.stop
    requires t.control.Decide? ==> s.stop || (s.next < |c.trace| && s.now >= c.start + c.trace[s.next].at)
    ensures Inv(c, t)
  {
    forall j | 0 <= j < |t.jobs|
      ensures JobOk(t, j)
    {
      JobAt(s, j);
    }
    LedgerUnmoved(c, s, t);
  }

  lemma AcquireJobOk(c: Config, s: State)
    requires ControlOk(c, s) && s.next < |c.trace| && s.control.Acquire? && JobOk(s, s.next)
    ensures var t := ApplyOffer(c, s, AcquireStep).value;
            t.jobs == s.jobs[s.next := t.jobs[s.next]] && JobOk(t, s.next)
  {
    hide Held;
  }

  lemma LogJobOk(c: Config, s: State, ending: Ending)
    requires ControlOk(c, s) && s.next < |c.trace| && s.control.LogOverload? && JobOk(s, s.next)
    ensures var t := ApplyOffer(c, s, LogStep(ending)).value;
            t.jobs == s.jobs[s.next := t.jobs[s.next]] && JobOk(t, s.next)
  {
    hide TallyOf;
  }

  lemma SubmissionShape(c: Config, s: State, step: Step)
    requires ControlOk(c, s) && s.next < |c.trace| && ApplyOffer(c, s, step).Some? && Shape(s, s.next)
    requires step.SubmitStep? || step.TrackStep? || step.RegisterStep? || step.ReturnStep?
    ensures Shape(ApplyOffer(c, s, step).value, s.next)
  {
    hide Held, AppendResult;
  }

  lemma SubmissionJobOk(c: Config, s: State, step: Step)
    requires ControlOk(c, s) && s.next < |c.trace| && ApplyOffer(c, s, step).Some? && JobOk(s, s.next)
    requires step.SubmitStep? || step.TrackStep? || step.RegisterStep? || step.ReturnStep?
    ensures var t := ApplyOffer(c, s, step).value;
            t.jobs == s.jobs[s.next := t.jobs[s.next]] && JobOk(t, s.next)
  {
    hide Held, AppendResult;
    SubmissionShape(c, s, step);
  }

  /** What submitting an offer leaves alone. */
  lemma SubmissionFrame(c: Config, s: State, step: Step)
    requires ControlOk(c, s) && s.next < |c.trace| && ApplyOffer(c, s, step).Some?
    requires step.SubmitStep? || step.TrackStep? || step.RegisterStep? || step.ReturnStep?
    ensures var t, i := ApplyOffer(c, s, step).value, s.next;
            && t.lines == s.lines && t.counts == s.counts && t.written == s.written && t.logged == s.logged
            && t.recorded == s.recorded && t.refusals == s.refusals && t.submissions == s.submissions
            && t.now == s.now && t.error == s.error && t.stop == s.stop
            && (t.next == i || (t.next == i + 1 && t.control.Fetch?))
            && !s.control.Finished? && !s.control.Failed? && !s.control.Closing?
            && (t.control.Track? || t.control.Closing? || t.control.Register? || t.control.InCallback? ||
                t.control.Fetch?)
            && forall j | j != i :: j in t.active <==> j in s.active
  {
    hide Held, AppendResult;
  }

  /** What it does to the offer's slot and to an error not seen yet. */
  lemma SubmissionSlot(c: Config, s: State, step: Step)
    requires ControlOk(c, s) && s.next < |c.trace| && ApplyOffer(c, s, step).Some? && Shape(s, s.next)
    requires step.SubmitStep? || step.TrackStep? || step.RegisterStep? || step.ReturnStep?
    ensures var t, i := ApplyOffer(c, s, step).value, s.next;
            && (Raised(s.jobs[i]) && s.jobs[i].callback.Unseen() ==> Raised(t.jobs[i]) && t.jobs[i].callback.Unseen())
            && t.free.Get(c.trace[i].kind) + (if Holds(t.jobs[i]) then 1 else 0)
               == s.free.Get(c.trace[i].kind) + (if Holds(s.jobs[i]) then 1 else 0)
            && forall k | k != c.trace[i].kind :: t.free.Get(k) == s.free.Get(k)
  {
    hide Held, AppendResult;
  }

  lemma AcquireHistory(c: Config, s: State)
    requires ControlOk(c, s) && SlotsOk(c, s) && HistoryOk(c, s) && s.control.Acquire? && s.next < |c.trace|
    ensures HistoryOk(c, ApplyOffer(c, s, AcquireStep).value)
  {
    hide Held, SlotsOk, AppendResult;
    var t := ApplyOffer(c, s, AcquireStep).value;
    RefusedWhenFull(c, s);
    assert t.submissions[..|s.submissions|] == s.submissions;
  }

  lemma AcquireKeepsInv(c: Config, s: State)
    requires Inv(c, s) && s.control.Acquire? && s.next < |c.trace|
    ensures Inv(c, ApplyOffer(c, s, AcquireStep).value)
  {
    hide JobsOk, LedgerOk, Doomed, JobOk, SlotsOk, Held, HistoryOk, AppendResult;
    var t := ApplyOffer(c, s, AcquireStep).value;
    var i := s.next;
    JobAt(s, i);
    AcquireJobOk(c, s);
    AheadWhileFree(s);
    SlotsAfter(c, s, t, i, t.jobs[i]);
    JobsAfter(s, t, i);
    DoomedAfter(s, t, i);
    LedgerUnmoved(c, s, t);
    AcquireHistory(c, s);
  }

  lemma AheadWhileFree(s: State)
    requires JobsOk(s) && s.next < |s.jobs| && s.control.Acquire?
    ensures s.jobs[s.next].Ahead?
  {
    JobAt(s, s.next);
  }

  /** With no slot free, every slot of the pool is held. */
  lemma RefusedWhenFull(c: Config, s: State)
    requires ControlOk(c, s) && SlotsOk(c, s) && s.next < |c.trace|
    ensures var kind := c.trace[s.next].kind;
            s.free.Get(kind) == 0 ==> Held(c.trace, s.jobs, kind) == c.workers.Get(kind)
  {
  }

  lemma LogKeepsInv(c: Config, s: State, ending: Ending)
    requires Inv(c, s) && s.control.LogOverload? && s.next < |c.trace|
    ensures Inv(c, ApplyOffer(c, s, LogStep(ending)).value)
  {
    hide JobsOk, LedgerOk, SlotsOk, HistoryOk;
    var t := ApplyOffer(c, s, LogStep(ending)).value;
    var i := s.next;
    JobAt(s, i);
    LogJobOk(c, s, ending);
    SlotsAfter(c, s, t, i, t.jobs[i]);
    JobsAfter(s, t, i);
    DoomedAfter(s, t, i);
    LedgerAppended(c, s, t, i, ClientOverload, ending);
    HistoryUnmoved(c, s, t);
  }

  lemma SubmissionKeepsInv(c: Config, s: State, step: Step)
    requires Inv(c, s) && s.next < |c.trace| && ApplyOffer(c, s, step).Some?
    requires step.SubmitStep? || step.TrackStep? || step.RegisterStep? || step.ReturnStep?
    ensures Inv(c, ApplyOffer(c, s, step).value)
  {
    hide JobsOk, LedgerOk, SlotsOk, HistoryOk, Held, Doomed, ApplyOffer, JobOk, Holds, Shape;
    var t := ApplyOffer(c, s, step).value;
    var i := s.next;
    JobAt(s, i);
    SubmissionJobOk(c, s, step);
    SubmissionFrame(c, s, step);
    assert Shape(s, i) by { ShapeOf(s, i); }
    SubmissionSlot(c, s, step);
    SlotsAfter(c, s, t, i, t.jobs[i]);
    JobsAfter(s, t, i);
    DoomedAfter(s, t, i);
    LedgerUnmoved(c, s, t);
    HistoryUnmoved(c, s, t);
  }

  lemma TickKeepsInv(c: Config, s: State, elapsed: nat)
    requires Inv(c, s)
    ensures Inv(c, s.(now := s.now + elapsed))
  {
    var t := s.(now := s.now + elapsed);
    forall j | 0 <= j < |t.jobs|
      ensures JobOk(t, j)
    {
      JobAt(s, j);
    }
    assert Doomed(s) ==> Doomed(t);
  }

  /** A run that is neither damaged nor failing has recorded exactly what it counted. */
  lemma CloseKeepsInv(c: Config, s: State)
    requires Inv(c, s) && ApplyDispatcher(c, s, CloseStep).Some?
    ensures Inv(c, ApplyDispatcher(c, s, CloseStep).value)
  {
    hide Held, Tallies, Results, OnceEach, RecordOk;
    var t := ApplyDispatcher(c, s, CloseStep).value;
    forall j | 0 <= j < |t.jobs|
      ensures JobOk(t, j)
    {
      JobAt(s, j);
    }
    LedgerUnmoved(c, s, t);
  }

  lemma JudgeKeepsInv(c: Config, s: State, written: bool)
    requires Inv(c, s) && s.control.Judge?
    ensures Inv(c, ApplyDispatcher(c, s, JudgeStep(written)).value)
  {
    hide Held, Tallies, Results, OnceEach, RecordOk;
    var t := ApplyDispatcher(c, s, JudgeStep(written)).value;
    forall j | 0 <= j < |t.jobs|
      ensures JobOk(t, j)
    {
      JobAt(s, j);
    }
    assert !Doomed(t) ==> !Doomed(s);
    assert t.control.Finished? ==> t.lines == [Start(c.planned)] + t.written + [] + [End(s.next, s.counts)];
  }

  lemma DispatchKeepsInv(c: Config, s: State, step: Step)
    requires Inv(c, s) && ApplyDispatcher(c, s, step).Some?
    ensures Inv(c, ApplyDispatcher(c, s, step).value)
  {
    hide JobsOk, LedgerOk, SlotsOk, HistoryOk;
    var t := ApplyDispatcher(c, s, step).value;
    match step
    case FetchStep(readable) => ControlKeepsInv(c, s, t);
    case CloseStep => CloseKeepsInv(c, s);
    case JudgeStep(written) => JudgeKeepsInv(c, s, written);
    case PollStep => ControlKeepsInv(c, s, t);
    case ClockStep => ControlKeepsInv(c, s, t);
    case DecideStep => ControlKeepsInv(c, s, t);
    case AcquireStep => AcquireKeepsInv(c, s);
    case LogStep(ending) => LogKeepsInv(c, s, ending);
    case _ => SubmissionKeepsInv(c, s, step);
  }

  /** The invariant holds before a step only if it holds after it. */
  lemma StepKeepsInv(c: Config, s: State, step: Step)
    requires Inv(c, s) && Apply(c, s, step).Some?
    ensures Inv(c, Apply(c, s, step).value)
  {
    hide Inv, ApplyDispatcher, ApplyCallback;
    assert |s.jobs| == |c.trace| by { InvFits(c, s); }
    match step
    case Tick(elapsed) => TickKeepsInv(c, s, elapsed);
    case StartWork(_) => WorkKeepsInv(c, s, step);
    case RaiseWork(_) => WorkKeepsInv(c, s, step);
    case EndWork(_) => WorkKeepsInv(c, s, step);
    case WriteWork(_, _, _) => WriteKeepsInv(c, s, step);
    case CallbackStep(i) => CallbackKeepsInv(c, s, i);
    case _ => DispatchKeepsInv(c, s, step);
  }

  lemma InvFits(c: Config, s: State)
    requires Inv(c, s)
    ensures |s.jobs| == |c.trace|
  {
  }

  /** Every state of every interleaving satisfies the invariant. */
  lemma {:induction false} RunKeepsInv(c: Config, now: int, steps: seq<Step>)
    requires Run(c, now, steps).Some?
    ensures Inv(c, Run(c, now, steps).value)
  {
    hide Inv, Apply;
    if steps == [] {
      InitialInv(c, now);
    } else {
      var before := Run(c, now, steps[..|steps| - 1]);
      RunKeepsInv(c, now, steps[..|steps| - 1]);
      StepKeepsInv(c, before.value, steps[|steps| - 1]);
    }
  }

  // ---------------------------------------------------------------------
  // What a reader of the code can rely on

  /**
   In every interleaving: slots are conserved; whatever is active holds a slot;
   an offer was refused only when its whole pool was held; no offer was
   submitted before its time, and at most one after the stop flag was set.
   */
  lemma PoolSafety(c: Config, now: int, steps: seq<Step>)
    requires Run(c, now, steps).Some?
    ensures var s := Run(c, now, steps).value;
            && (forall kind: Kind :: s.free.Get(kind) + Held(c.trace, s.jobs, kind) == c.workers.Get(kind))
            && (forall i | i in s.active :: i < |s.jobs| && Holds(s.jobs[i]))
            && (forall id | id in s.refusals :: id < |c.trace| && s.refusals[id] == c.workers.Get(c.trace[id].kind))
            && (forall k | 0 <= k < |s.written| && s.written[k].Result? && s.written[k].outcome == ClientOverload ::
                  s.written[k].id in s.refusals)
            && (forall k | 0 <= k < |s.submissions| ::
                  s.submissions[k].id < |c.trace| && s.submissions[k].time >= c.start + c.trace[s.submissions[k].id].at)
            && Late(s.submissions) <= 1
  {
    RunKeepsInv(c, now, steps);
    var s := Run(c, now, steps).value;
    forall i | i in s.active
      ensures i < |s.jobs| && Holds(s.jobs[i])
    {
      JobAt(s, i);
    }
    assert forall k | 0 <= k < |s.written| :: RecordOk(c, s.refusals, s.written[k]);
  }

  lemma {:induction false} FrameAddsNoIds(planned: nat, records: seq<Record>)
    ensures Ids([Start(planned)] + records) == Ids(records)
  {
    var all := [Start(planned)] + records;
    if records == [] {
      assert all[..0] == [];
    } else {
      FrameAddsNoIds(planned, records[..|records| - 1]);
      assert all[..|all| - 1] == [Start(planned)] + records[..|records| - 1];
    }
  }

  /** In every interleaving the ledger opens with its start record and gives no offer two results. */
  lemma AtMostOneResult(c: Config, now: int, steps: seq<Step>, id: int)
    requires Run(c, now, steps).Some?
    ensures var s := Run(c, now, steps).value;
            s.lines != [] && s.lines[0] == Start(c.planned) && Results(s.lines, id) <= 1
  {
    RunKeepsInv(c, now, steps);
    var s := Run(c, now, steps).value;
    FrameAddsNoIds(c.planned, s.written);
    assert Results(s.written, id) <= 1;
    if s.control.Finished? {
      Appended([Start(c.planned)] + s.written, End(s.next, s.counts));
    } else {
      assert s.lines == [Start(c.planned)] + s.written;
    }
  }

  /** Once judged without an error, the offers dispatched are exactly those with a record, and nothing is damaged. */
  lemma JudgedIsRecorded(c: Config, s: State)
    requires ControlOk(c, s) && JobsOk(s) && !s.error && (s.control.Judge? || s.control.Finished?)
    ensures forall j | 0 <= j < |s.jobs| :: j in s.recorded <==> j < s.next
    ensures !Doomed(s)
  {
    forall j | 0 <= j < |s.jobs|
      ensures j in s.recorded <==> j < s.next
      ensures !(Raised(s.jobs[j]) && s.jobs[j].callback.Unseen())
    {
      JobAt(s, j);
    }
  }

  lemma JudgedIsOnePerId(c: Config, s: State)
    requires ControlOk(c, s) && LedgerOk(c, s) && !Doomed(s)
    requires forall j | 0 <= j < |s.jobs| :: j in s.recorded <==> j < s.next
    ensures OnePerId(s.written, s.next)
  {
    hide Results, Doomed, Tallies, Outcomes;
    forall id: int
      ensures Results(s.written, id) == if 0 <= id < s.next then 1 else 0
    {
      if Results(s.written, id) > 0 {
        IdsComeFromResults(s.written, id);
        var k :| 0 <= k < |s.written| && s.written[k].Result? && s.written[k].id == id;
        assert RecordOk(c, s.refusals, s.written[k]);
      }
    }
  }

  /** Once judged without an error, every offered request has its one counted result: the recount never falls short. */
  lemma JudgedIsComplete(c: Config, s: State)
    requires Inv(c, s) && !s.error && (s.control.Judge? || s.control.Finished?)
    ensures s.written == s.logged && OnePerId(s.logged, s.next) && AllResults(s.logged) && AllKnown(s.logged)
    ensures |s.counts| == s.next
  {
    hide Results, Doomed, Tallies, JobsOk, SlotsOk, HistoryOk, Outcomes, Sort, Range;
    JudgedIsRecorded(c, s);
    JudgedIsOnePerId(c, s);
    assert forall k | 0 <= k < |s.logged| :: RecordOk(c, s.refusals, s.logged[k]);
    ResultCount(s.logged);
    IdCount(s.logged, s.next);
  }

  lemma IdCount(records: seq<Record>, n: nat)
    requires OnePerId(records, n)
    ensures |Ids(records)| == n
  {
    forall x: int
      ensures multiset(Ids(records))[x] == if 0 <= x < n then 1 else 0
    {
      assert Results(records, x) == multiset(Ids(records))[x];
    }
    SortsToRange(Ids(records), n);
    RangeHoldsEachOnce(n, 0);
  }

  lemma {:induction false} IdsComeFromResults(records: seq<Record>, id: int)
    requires Results(records, id) > 0
    ensures exists k :: 0 <= k < |records| && records[k].Result? && records[k].id == id
  {
    var n := |records| - 1;
    assert records != [];
    if records[n].Result? && records[n].id == id {
    } else {
      IdsComeFromResults(records[..n], id);
      var k :| 0 <= k < n && records[..n][k].Result? && records[..n][k].id == id;
      assert records[k] == records[..n][k];
    }
  }

  lemma {:induction false} ResultCount(records: seq<Record>)
    requires AllResults(records)
    ensures |Ids(records)| == |records| == |Tallies(records)|
  {
    TalliesCount(records);
    if records != [] {
      ResultCount(records[..|records| - 1]);
    }
  }

  /**
   A run that reached its footer wrote, between a first start record and a last
   end record, exactly one result for each planned offer, and the summary's
   reader accepts the ledger.
   */
  lemma FinishedLedgerLoads(c: Config, now: int, steps: seq<Step>)
    requires Run(c, now, steps).Some? && Run(c, now, steps).value.control.Finished?
    ensures var lines := Run(c, now, steps).value.lines;
            Load(lines).None? && OnePerId(Body(lines), c.planned)
  {
    RunKeepsInv(c, now, steps);
    var s := Run(c, now, steps).value;
    JudgedIsComplete(c, s);
    assert Body(s.lines) == s.written;
    LoadAcceptsIff(s.lines);
  }

  /** Its results carry the times and kinds of the trace. */
  lemma FinishedRecordsMatch(c: Config, now: int, steps: seq<Step>)
    requires Run(c, now, steps).Some? && Run(c, now, steps).value.control.Finished?
    ensures var lines := Run(c, now, steps).value.lines;
            |lines| >= 2 && forall k | 0 <= k < |Body(lines)| :: Body(lines)[k].Result? && Matches(c, Body(lines)[k])
  {
    RunKeepsInv(c, now, steps);
    var s := Run(c, now, steps).value;
    assert Body(s.lines) == s.written;
    assert forall k | 0 <= k < |s.written| :: RecordOk(c, s.refusals, s.written[k]);
  }

  function StepFor(job: Job, i: nat): (step: Step)
  {
    if job.InFlight? && job.future.Queued? then StartWork(i)
    else if job.InFlight? && job.future.Running? then RaiseWork(i)
    else if job.InFlight? && job.future.Written? then EndWork(i)
    else CallbackStep(i)
  }

  function StepAt(s: State): (step: Step)
    requires s.control.Dispatching() ==> s.next < |s.jobs|
  {
    match s.control
    case Fetch => FetchStep(true)
    case Poll => PollStep
    case Clock => ClockStep
    case Decide => DecideStep
    case Acquire => AcquireStep
    case LogOverload => LogStep(Complete)
    case Submit => SubmitStep(Accepted)
    case Track => TrackStep
    case Register => RegisterStep
    case InCallback =>
      if s.jobs[s.next].InFlight? && s.jobs[s.next].callback.Released? then ReturnStep else CallbackStep(s.next)
    case Closing(_) => CloseStep
    case _ => JudgeStep(true)
  }

  lemma UnsettledCanMove(c: Config, s: State, j: nat)
    requires ControlOk(c, s) && j < |s.jobs| && JobOk(s, j) && s.control.Closing? && !Settled(s.jobs[j])
    ensures Apply(c, s, StepFor(s.jobs[j], j)).Some?
  {
    hide ApplyDispatcher;
  }

  lemma DispatcherCanMove(c: Config, s: State)
    requires ControlOk(c, s) && !s.control.Finished? && !s.control.Failed? && (s.next < |s.jobs| ==> Shape(s, s.next))
    requires s.control.Closing? ==> forall j | 0 <= j < |s.jobs| :: Settled(s.jobs[j])
    ensures Apply(c, s, StepAt(s)).Some?
  {
    hide Held, AppendResult, TallyOf;
  }

  /** No interleaving gets stuck: until the run has finished or failed, some step other than the clock's is enabled. */
  lemma NoDeadlock(c: Config, now: int, steps: seq<Step>)
    requires Run(c, now, steps).Some?
    requires var s := Run(c, now, steps).value; !s.control.Finished? && !s.control.Failed?
    ensures exists step: Step :: !step.Tick? && Apply(c, Run(c, now, steps).value, step).Some?
  {
    hide Apply, JobsOk, LedgerOk, SlotsOk, HistoryOk, Run, Shape, Settled;
    RunKeepsInv(c, now, steps);
    var s := Run(c, now, steps).value;
    if j :| 0 <= j < |s.jobs| && s.control.Closing? && !Settled(s.jobs[j]) {
      JobAt(s, j);
      UnsettledCanMove(c, s, j);
    } else {
      if s.next < |s.jobs| { JobAt(s, s.next); }
      DispatcherCanMove(c, s);
    }
  }
}
