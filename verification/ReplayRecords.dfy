/**
 What the ledger of a replay says about the replies: which step of the run each
 result comes from, and that no reply, refusal or exception is lost.
 */
module ReplayRecords {
  import opened Wrappers
  import opened Counting
  import opened Ledger
  import opened Replay
  import opened ReplaySafety

  // ---------------------------------------------------------------------
  // What one step writes

  function RecordOf(c: Config, i: nat, outcome: Outcome): (record: Record)
    requires i < |c.trace|
  {
    Result(i, c.trace[i].at, c.trace[i].kind, outcome)
  }

  /** The result records a step appends to the file. */
  function Writes(c: Config, s: State, step: Step): (records: seq<Record>)
  {
    match step
    case WriteWork(i, reply, ending) =>
      if i < |c.trace| && !ending.Lost? then [RecordOf(c, i, Classify(c.trace[i].kind, reply))] else []
    case LogStep(ending) =>
      if s.next < |c.trace| && !ending.Lost? then [RecordOf(c, s.next, ClientOverload)] else []
    case _ => []
  }

  lemma OfferWrites(c: Config, s: State, step: Step)
    requires |s.jobs| == |c.trace| && s.next < |c.trace| && ApplyOffer(c, s, step).Some?
    ensures ApplyOffer(c, s, step).value.written == s.written + Writes(c, s, step)
  {
    hide Held, Classify, TallyOf;
  }

  lemma StepWrites(c: Config, s: State, step: Step)
    requires |s.jobs| == |c.trace| && Apply(c, s, step).Some?
    ensures Apply(c, s, step).value.written == s.written + Writes(c, s, step)
  {
    hide Held, Classify, TallyOf, ApplyOffer;
    if s.next < |c.trace| && ApplyOffer(c, s, step).Some? {
      OfferWrites(c, s, step);
    }
  }

  // ---------------------------------------------------------------------
  // Every result has its reply

  /** A result that a reply of the run gives: some worker step of that offer recorded it. */
  ghost predicate Answered(c: Config, steps: seq<Step>, record: Record)
    requires record.Result?
  {
    exists k | 0 <= k < |steps| :: Answers(c, steps[k], record)
  }

  predicate Answers(c: Config, step: Step, record: Record)
    requires record.Result?
  {
    && step.WriteWork? && step.i == record.id < |c.trace|
    && record == RecordOf(c, record.id, Classify(c.trace[record.id].kind, step.reply))
  }

  ghost predicate Sourced(c: Config, steps: seq<Step>, record: Record) {
    record.Result? && (record.outcome == ClientOverload || Answered(c, steps, record))
  }

  lemma SourcedLater(c: Config, steps: seq<Step>, step: Step, record: Record)
    requires Sourced(c, steps, record)
    ensures Sourced(c, steps + [step], record)
  {
    if record.outcome != ClientOverload {
      var k :| 0 <= k < |steps| && Answers(c, steps[k], record);
      assert Answers(c, (steps + [step])[k], record);
    }
  }

  lemma WrittenIsSourced(c: Config, s: State, steps: seq<Step>, step: Step)
    ensures forall i | 0 <= i < |Writes(c, s, step)| :: Sourced(c, steps + [step], Writes(c, s, step)[i])
  {
    hide Classify;
    assert (steps + [step])[|steps|] == step;
    if step.WriteWork? && Writes(c, s, step) != [] {
      assert Answers(c, (steps + [step])[|steps|], Writes(c, s, step)[0]);
    }
  }

  lemma Front(steps: seq<Step>)
    requires steps != []
    ensures steps == steps[..|steps| - 1] + [steps[|steps| - 1]]
  {
  }

  /** In every interleaving, every result is an overload or what some reply of the run says of that offer. */
  lemma {:induction false} ResultsAreSourced(c: Config, now: int, steps: seq<Step>)
    requires Run(c, now, steps).Some?
    ensures var s := Run(c, now, steps).value;
            forall i | 0 <= i < |s.written| :: Sourced(c, steps, s.written[i])
  {
    hide Apply, Sourced, Writes;
    if steps == [] {
      return;
    }
    var front, step := steps[..|steps| - 1], steps[|steps| - 1];
    Front(steps);
    ResultsAreSourced(c, now, front);
    var s := Run(c, now, front).value;
    StepWrites(c, s, step);
    WrittenIsSourced(c, s, front, step);
    forall i | 0 <= i < |s.written|
      ensures Sourced(c, steps, s.written[i])
    {
      SourcedLater(c, front, step, s.written[i]);
    }
  }

  lemma {:induction false} WrittenGrows(c: Config, now: int, steps: seq<Step>, k: nat)
    requires Run(c, now, steps).Some? && k <= |steps|
    ensures Run(c, now, steps[..k]).Some?
    ensures Run(c, now, steps[..k]).value.written <= Run(c, now, steps).value.written
    decreases |steps|
  {
    hide Apply, Writes;
    if k == |steps| {
      assert steps[..k] == steps;
    } else {
      var front := steps[..|steps| - 1];
      WrittenGrows(c, now, front, k);
      assert front[..k] == steps[..k];
      StepWrites(c, Run(c, now, front).value, steps[|steps| - 1]);
    }
  }

  /** Conversely, every reply whose record reached the file is in it. */
  lemma RepliesAreRecorded(c: Config, now: int, steps: seq<Step>, k: nat)
    requires Run(c, now, steps).Some? && k < |steps| && steps[k].WriteWork? && !steps[k].write.Lost?
    ensures steps[k].i < |c.trace|
    ensures var i := steps[k].i;
            RecordOf(c, i, Classify(c.trace[i].kind, steps[k].reply)) in Run(c, now, steps).value.written
  {
    hide Classify;
    var upTo := steps[..k + 1];
    WrittenGrows(c, now, steps, k + 1);
    assert upTo[..k] == steps[..k] && upTo[k] == steps[k];
    var s := Run(c, now, steps[..k]).value;
    StepWrites(c, s, steps[k]);
    var written := Run(c, now, upTo).value.written;
    assert written[|s.written|] in written;
  }

  // ---------------------------------------------------------------------
  // An overload is recorded exactly for the offers that found no slot

  predicate Turned(job: Job) {
    job.Refused? || job.Overloaded? || job.Aborted?
  }

  ghost predicate RefusedOk(s: State) {
    && (forall id | id in s.refusals :: id < |s.jobs| && Turned(s.jobs[id]))
    && (forall i | 0 <= i < |s.written| :: OverloadOnly(s, s.written[i]))
  }

  predicate OverloadOnly(s: State, record: Record) {
    record.Result? && record.id in s.refusals ==> record.outcome == ClientOverload
  }

  lemma OfferKeepsTurned(c: Config, s: State, step: Step, i: nat)
    requires |s.jobs| == |c.trace| && s.next < |c.trace| && ApplyOffer(c, s, step).Some?
    requires i < |s.jobs| && Turned(s.jobs[i]) && Shape(s, s.next)
    requires step.SubmitStep? || step.RegisterStep? || step.AcquireStep?
    ensures Turned(ApplyOffer(c, s, step).value.jobs[i])
  {
    hide Held, AppendResult;
  }

  lemma LogKeepsTurned(c: Config, s: State, step: Step, i: nat)
    requires |s.jobs| == |c.trace| && s.next < |c.trace| && ApplyOffer(c, s, step).Some?
    requires i < |s.jobs| && Turned(s.jobs[i])
    requires !step.SubmitStep? && !step.RegisterStep? && !step.AcquireStep?
    ensures Turned(ApplyOffer(c, s, step).value.jobs[i])
  {
    hide Held, TallyOf;
  }

  lemma TurnedStays(c: Config, s: State, step: Step, i: nat)
    requires |s.jobs| == |c.trace| && i < |s.jobs| && Turned(s.jobs[i]) && Apply(c, s, step).Some?
    requires s.next < |s.jobs| ==> Shape(s, s.next)
    ensures Turned(Apply(c, s, step).value.jobs[i])
  {
    hide Held, TallyOf, Classify, ApplyOffer, ApplyCallback, Shape;
    if step.CallbackStep? {
      CallbackFrame(c, s, step.i);
    } else if s.next < |c.trace| && ApplyOffer(c, s, step).Some? {
      if step.SubmitStep? || step.RegisterStep? || step.AcquireStep? {
        OfferKeepsTurned(c, s, step, i);
      } else {
        LogKeepsTurned(c, s, step, i);
      }
    }
  }

  /** Only acquiring refuses, and only the offer at hand. */
  lemma RefusalsAfter(c: Config, s: State, step: Step, id: nat)
    requires |s.jobs| == |c.trace| && Apply(c, s, step).Some?
    ensures var t := Apply(c, s, step).value;
            && (id in s.refusals ==> id in t.refusals)
            && (id in t.refusals && id !in s.refusals ==>
                  step.AcquireStep? && s.control.Acquire? && id == s.next < |s.jobs| && t.jobs[id].Refused?)
  {
    hide Held, TallyOf, Classify;
  }

  lemma UnrecordedHasNone(c: Config, s: State, i: nat)
    requires LedgerOk(c, s) && i < |s.written| && s.written[i].Result?
    ensures s.written[i].id in s.recorded
  {
    hide Tallies, RecordOk, Doomed;
    IdIsListed(s.written, i);
    assert Results(s.written, s.written[i].id) > 0;
  }

  lemma {:induction false} IdIsListed(records: seq<Record>, i: nat)
    requires i < |records| && records[i].Result?
    ensures records[i].id in Ids(records)
  {
    if i < |records| - 1 {
      IdIsListed(records[..|records| - 1], i);
    }
  }

  /** The offer being acquired has no result yet. */
  lemma AcquiredIsUnrecorded(c: Config, s: State)
    requires Inv(c, s) && s.control.Acquire? && s.next < |s.jobs|
    ensures s.next !in s.recorded
  {
    hide LedgerOk, SlotsOk, HistoryOk;
    JobAt(s, s.next);
  }

  lemma WritesOverloadOnly(c: Config, s: State, step: Step)
    requires Inv(c, s) && RefusedOk(s) && Apply(c, s, step).Some?
    ensures var t := Apply(c, s, step).value;
            forall i | 0 <= i < |Writes(c, s, step)| :: OverloadOnly(t, Writes(c, s, step)[i])
  {
    hide JobsOk, LedgerOk, SlotsOk, HistoryOk, Held, Classify, TallyOf, ApplyOffer, ApplyCallback;
    if step.WriteWork? {
      assert step.i !in s.refusals;
      RefusalsAfter(c, s, step, step.i);
    }
  }

  lemma StepKeepsRefused(c: Config, s: State, step: Step)
    requires Inv(c, s) && RefusedOk(s) && Apply(c, s, step).Some?
    ensures RefusedOk(Apply(c, s, step).value)
  {
    hide Apply, JobsOk, LedgerOk, SlotsOk, HistoryOk, Turned, Shape, Writes;
    var t := Apply(c, s, step).value;
    forall id | id in t.refusals
      ensures id < |t.jobs| && Turned(t.jobs[id])
    {
      RefusalsAfter(c, s, step, id);
      if id in s.refusals {
        if s.next < |s.jobs| { JobAt(s, s.next); }
        TurnedStays(c, s, step, id);
      } else {
        RefusedIsTurned(t.jobs[id]);
      }
    }
    StepWrites(c, s, step);
    WritesOverloadOnly(c, s, step);
    forall i | 0 <= i < |s.written|
      ensures OverloadOnly(t, s.written[i])
    {
      OldStaysOverload(c, s, step, i);
    }
  }

  lemma RefusedIsTurned(job: Job)
    requires job.Refused?
    ensures Turned(job)
  {
  }

  lemma OldStaysOverload(c: Config, s: State, step: Step, i: nat)
    requires Inv(c, s) && RefusedOk(s) && Apply(c, s, step).Some? && i < |s.written|
    ensures OverloadOnly(Apply(c, s, step).value, s.written[i])
  {
    hide Apply, JobsOk, LedgerOk, SlotsOk, HistoryOk, Turned;
    assert OverloadOnly(s, s.written[i]);
    if s.written[i].Result? {
      var id := s.written[i].id;
      RefusalsAfter(c, s, step, id);
      if id in Apply(c, s, step).value.refusals && id !in s.refusals {
        UnrecordedHasNone(c, s, i);
        AcquiredIsUnrecorded(c, s);
      }
    }
  }

  lemma {:induction false} RunKeepsRefused(c: Config, now: int, steps: seq<Step>)
    requires Run(c, now, steps).Some?
    ensures RefusedOk(Run(c, now, steps).value)
  {
    hide Apply, Inv;
    if steps != [] {
      var front := steps[..|steps| - 1];
      RunKeepsRefused(c, now, front);
      RunKeepsInv(c, now, front);
      StepKeepsRefused(c, Run(c, now, front).value, steps[|steps| - 1]);
    }
  }

  // ---------------------------------------------------------------------
  // The finished ledger

  /**
   In a ledger with a footer, a result is an overload exactly when its offer
   found its whole pool held, and otherwise what a reply of the run says of it.
   */
  lemma FinishedResultsTell(c: Config, now: int, steps: seq<Step>, k: nat)
    requires Run(c, now, steps).Some? && Run(c, now, steps).value.control.Finished?
    requires var lines := Run(c, now, steps).value.lines; |lines| >= 2 && k < |Body(lines)|
    ensures var s := Run(c, now, steps).value;
            var record := Body(s.lines)[k];
            && record.Result? && Matches(c, record)
            && (record.outcome == ClientOverload <==> record.id in s.refusals)
            && (record.outcome != ClientOverload ==> Answered(c, steps, record))
  {
    hide Run, JobsOk, SlotsOk, HistoryOk, Answered, Matches, OnceEach, Doomed, Tallies;
    var s := Run(c, now, steps).value;
    RunKeepsInv(c, now, steps);
    RunKeepsRefused(c, now, steps);
    ResultsAreSourced(c, now, steps);
    assert Body(s.lines) == s.written;
    assert RecordOk(c, s.refusals, s.written[k]) && Sourced(c, steps, s.written[k]) && OverloadOnly(s, s.written[k]);
  }

  /** A write the server answered with 200 is in the finished ledger as acknowledged. */
  lemma AcknowledgedIsRecorded(c: Config, now: int, steps: seq<Step>, k: nat)
    requires Run(c, now, steps).Some? && Run(c, now, steps).value.control.Finished?
    requires k < |steps| && steps[k].WriteWork? && !steps[k].write.Lost?
    requires steps[k].i < |c.trace| && c.trace[steps[k].i].kind == Write
    requires steps[k].reply.Answered? && steps[k].reply.status == 200
    ensures var lines := Run(c, now, steps).value.lines;
            |lines| >= 2 && RecordOf(c, steps[k].i, Acknowledged) in Body(lines)
  {
    hide Run, JobsOk, SlotsOk, HistoryOk, OnceEach, Doomed, Tallies, RecordOk;
    RunKeepsInv(c, now, steps);
    RepliesAreRecorded(c, now, steps, k);
    assert Body(Run(c, now, steps).value.lines) == Run(c, now, steps).value.written;
  }

  // ---------------------------------------------------------------------
  // One result for each conclusion

  /** What became of an offer: it found its pool held, or a reply to it was classified so. */
  ghost predicate Concluded(c: Config, steps: seq<Step>, s: State, i: nat, outcome: Outcome)
    requires i < |c.trace|
  {
    if outcome == ClientOverload then i in s.refusals
    else exists k | 0 <= k < |steps| :: Concludes(c, steps[k], i, outcome)
  }

  predicate Concludes(c: Config, step: Step, i: nat, outcome: Outcome)
    requires i < |c.trace|
  {
    step.WriteWork? && step.i == i && Classify(c.trace[i].kind, step.reply) == outcome
  }

  lemma ResultIsConcluded(c: Config, now: int, steps: seq<Step>, k: nat)
    requires Run(c, now, steps).Some? && Run(c, now, steps).value.control.Finished?
    requires var lines := Run(c, now, steps).value.lines; |lines| >= 2 && k < |Body(lines)|
    ensures var s := Run(c, now, steps).value;
            var record := Body(s.lines)[k];
            record.Result? && Matches(c, record) && Concluded(c, steps, s, record.id, record.outcome)
  {
    hide Run, Classify;
    FinishedResultsTell(c, now, steps, k);
    var record := Body(Run(c, now, steps).value.lines)[k];
    if record.outcome != ClientOverload {
      var n :| 0 <= n < |steps| && Answers(c, steps[n], record);
      assert Concludes(c, steps[n], record.id, record.outcome);
    }
  }

  lemma OneResult(c: Config, now: int, steps: seq<Step>, i: nat) returns (k: nat)
    requires Run(c, now, steps).Some? && Run(c, now, steps).value.control.Finished? && i < c.planned
    ensures var lines := Run(c, now, steps).value.lines;
            && |lines| >= 2 && k < |Body(lines)| && Body(lines)[k].Result? && Body(lines)[k].id == i
            && forall l | 0 <= l < |Body(lines)| && Body(lines)[l].Result? && Body(lines)[l].id == i :: l == k
  {
    hide Run, Load;
    FinishedLedgerLoads(c, now, steps);
    FinishedRecordsMatch(c, now, steps);
    var body := Body(Run(c, now, steps).value.lines);
    ResultsAreExact(body, i);
    assert Results(body, i) == 1;
    var places := Positions(body, Names(i));
    k := OnlyMember(places);
    forall l | 0 <= l < |body| && body[l].Result? && body[l].id == i
      ensures l == k
    {
      assert l in places;
    }
  }

  lemma OnlyMember(places: set<nat>) returns (k: nat)
    requires |places| == 1
    ensures k in places && forall l | l in places :: l == k
  {
    k :| k in places;
    var others := places - {k};
    assert |others| == 0;
    assert forall l | l in places :: l == k || l in others;
  }

  /** In a finished ledger, what became of an offer is its one result. */
  lemma ConclusionIsResult(c: Config, now: int, steps: seq<Step>, i: nat, outcome: Outcome) returns (k: nat)
    requires Run(c, now, steps).Some? && Run(c, now, steps).value.control.Finished? && i < c.planned == |c.trace|
    requires forall n | 0 <= n < |steps| && steps[n].WriteWork? :: steps[n].write.Complete?
    requires Concluded(c, steps, Run(c, now, steps).value, i, outcome)
    ensures var lines := Run(c, now, steps).value.lines;
            |lines| >= 2 && k < |Body(lines)| && Body(lines)[k] == RecordOf(c, i, outcome)
  {
    hide Run, Classify;
    k := OneResult(c, now, steps, i);
    FinishedResultsTell(c, now, steps, k);
    if outcome != ClientOverload {
      var n :| 0 <= n < |steps| && Concludes(c, steps[n], i, outcome);
      RepliesAreRecorded(c, now, steps, n);
      var body := Body(Run(c, now, steps).value.lines);
      assert RecordOf(c, i, outcome) in body by { FinishedBody(c, now, steps); }
      var l :| 0 <= l < |body| && body[l] == RecordOf(c, i, outcome);
    }
  }

  lemma FinishedBody(c: Config, now: int, steps: seq<Step>)
    requires Run(c, now, steps).Some? && Run(c, now, steps).value.control.Finished?
    ensures var s := Run(c, now, steps).value; |s.lines| >= 2 && Body(s.lines) == s.written
  {
    hide Run, JobsOk, SlotsOk, HistoryOk, OnceEach, Doomed, Tallies, RecordOk;
    RunKeepsInv(c, now, steps);
  }
}
