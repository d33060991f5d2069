/**
 The open-loop replay as a transition system: the dispatcher, the workers and
 the futures' done-callbacks take atomic steps in any order, over a bounded
 pool of slots per request kind, a shared ledger and a stop flag.
 */
module Replay {
  import opened Wrappers
  import opened Ledger

  datatype Offer = Offer(at: nat, kind: Kind)

  datatype PerKind = PerKind(write: nat, strong: nat, eventual: nat) {
    function Get(kind: Kind): (n: nat)
    {
      match kind case Write => write case Strong => strong case Eventual => eventual
    }

    function Put(kind: Kind, n: nat): (p: PerKind)
      ensures p.Get(kind) == n && forall k | k != kind :: p.Get(k) == Get(k)
    {
      match kind case Write => this.(write := n) case Strong => this.(strong := n) case Eventual => this.(eventual := n)
    }
  }

  /** A run's fixed parameters; offer `i` of the trace has identity `i`. */
  datatype Config = Config(trace: seq<Offer>, workers: PerKind, start: int, planned: nat, sameDigest: bool)

  /** A submitted request: waiting, running, its record written, or done. */
  datatype Future = Queued | Running | Written | Done(raised: bool)

  /**
   A future's callback: not yet added, added, then the steps of `completed`:
   look at the result, set the stop flag, leave the active set, release the slot.
   `Abandoned` is work that stayed queued although submitting it raised.
   */
  datatype Callback = Unset | Armed | Settling | Stopping | Removing | Releasing | Released | Abandoned {
    /** The callback has not looked at the result yet. */
    predicate Unseen() {
      Unset? || Armed? || Settling?
    }

    /** The callback has gone past setting the stop flag. */
    predicate Past() {
      Removing? || Releasing? || Released?
    }
  }

  datatype Job =
    | Ahead
    | Refused                                  // no free slot; the overload record is not written yet
    | Overloaded
    | Slotted                                  // holds a slot; not submitted yet
    | InFlight(future: Future, callback: Callback)
    | Aborted                                  // an exception ended the dispatch of this offer

  datatype Control =
    | Fetch | Poll | Clock | Decide | Acquire | LogOverload | Submit | Track | Register | InCallback
    | Closing(raised: bool) | Judge | Finished | Failed
  {
    /** The dispatcher is between fetching an offer and the end of its submission. */
    predicate Dispatching() {
      Poll? || Clock? || Decide? || Acquire? || LogOverload? || Submit? || Track? || Register? || InCallback?
    }
  }

  /** The failure all threads share: of the errors raised so far it keeps the first, and any error stops the run. */
  class Failure {
    var error: Option<string>
    var stop: bool
    ghost var raised: seq<string>

    ghost predicate Valid()
      reads this
    {
      stop == (raised != []) && error == if raised == [] then None else Some(raised[0])
    }

    constructor ()
      ensures Valid() && raised == []
    {
      error, stop, raised := None, false, [];
    }

    method Set(e: string)
      requires Valid()
      modifies this
      ensures Valid() && raised == old(raised) + [e]
      ensures old(raised) != [] ==> error == old(error)
    {
      if error.None? {
        error := Some(e);
      }
      stop := true;
      raised := raised + [e];
    }
  }

  datatype Submission = Submission(id: nat, time: int, stopped: bool)

  datatype State = State(
    now: int,
    control: Control,
    next: nat,                                 // the offer being dispatched, and how many were offered
    jobs: seq<Job>,
    free: PerKind,
    active: set<nat>,
    lines: seq<Record>,
    counts: multiset<Tally>,
    error: bool,
    stop: bool,
    // history
    written: seq<Record>,                      // the result records that reached the file
    logged: seq<Record>,                       // those of them that were counted
    recorded: set<nat>,                        // the ids whose record reached the file
    submissions: seq<Submission>,
    refusals: map<nat, nat>                    // slots held when an offer was refused
  )

  /** How one write to the ledger ends: completely, with the line out but an exception, or with nothing out. */
  datatype Ending = Complete | Torn | Lost

  datatype Submitted = Accepted | RaisedIdle | RaisedQueued

  datatype Step =
    | Tick(elapsed: nat)
    | FetchStep(readable: bool)
    | PollStep
    | ClockStep
    | DecideStep
    | AcquireStep
    | LogStep(write: Ending)
    | SubmitStep(submitted: Submitted)
    | TrackStep
    | RegisterStep
    | ReturnStep
    | CloseStep
    | JudgeStep(written: bool)
    | StartWork(i: nat)
    | WriteWork(i: nat, reply: Reply, write: Ending)
    | RaiseWork(i: nat)
    | EndWork(i: nat)
    | CallbackStep(i: nat)

  function Initial(c: Config, now: int): (s: State)
  {
    State(now, Fetch, 0, seq(|c.trace|, i => Ahead), c.workers, {}, [Start(c.planned)], multiset{}, false, false,
          [], [], {}, [], map[])
  }

  predicate Holds(job: Job) {
    job.Slotted? || (job.InFlight? && !job.callback.Released? && !job.callback.Abandoned?)
  }

  function HoldsFor(trace: seq<Offer>, jobs: seq<Job>, i: nat, kind: Kind): (n: nat)
    requires |jobs| <= |trace| && i < |jobs|
  {
    if trace[i].kind == kind && Holds(jobs[i]) then 1 else 0
  }

  /** How many slots of one pool are held. */
  function Held(trace: seq<Offer>, jobs: seq<Job>, kind: Kind): (n: nat)
    requires |jobs| <= |trace|
  {
    if jobs == [] then 0
    else Held(trace, jobs[..|jobs| - 1], kind) + HoldsFor(trace, jobs, |jobs| - 1, kind)
  }

  /** Append a result record for offer `i`, as far as the write got. */
  function AppendResult(c: Config, s: State, i: nat, outcome: Outcome, write: Ending): (t: State)
    requires i < |c.trace|
  {
    var record := Result(i, c.trace[i].at, c.trace[i].kind, outcome);
    match write
    case Complete =>
      s.(lines := s.lines + [record], written := s.written + [record], recorded := s.recorded + {i},
         counts := s.counts + TallyOf(record), logged := s.logged + [record])
    case Torn => s.(lines := s.lines + [record], written := s.written + [record], recorded := s.recorded + {i})
    case Lost => s
  }

  predicate Settled(job: Job) {
    job.InFlight? ==> job.future.Done? && (job.callback.Released? || job.callback.Abandoned?)
  }

  function WithJob(s: State, i: nat, job: Job): (t: State)
    requires i < |s.jobs|
  {
    s.(jobs := s.jobs[i := job])
  }

  /** One atomic step, or nothing when it is not enabled. */
  function Apply(c: Config, s: State, step: Step): (t: Option<State>)
    requires |s.jobs| == |c.trace|
    ensures t.Some? ==> |t.value.jobs| == |c.trace|
  {
    match step
    case Tick(elapsed) => Some(s.(now := s.now + elapsed))
    case StartWork(i) =>
      if i < |s.jobs| && s.jobs[i].InFlight? && s.jobs[i].future.Queued?
      then Some(WithJob(s, i, s.jobs[i].(future := Running))) else None
    case WriteWork(i, reply, write) =>
      if i < |s.jobs| && s.jobs[i].InFlight? && s.jobs[i].future.Running? then
        var t := AppendResult(c, s, i, Classify(c.trace[i].kind, reply), write);
        Some(WithJob(t, i, s.jobs[i].(future := if write.Complete? then Written else Done(true))))
      else None
    case RaiseWork(i) =>
      if i < |s.jobs| && s.jobs[i].InFlight? && s.jobs[i].future.Running?
      then Some(WithJob(s, i, s.jobs[i].(future := Done(true)))) else None
    case EndWork(i) =>
      if i < |s.jobs| && s.jobs[i].InFlight? && s.jobs[i].future.Written?
      then Some(WithJob(s, i, s.jobs[i].(future := Done(false)))) else None
    case CallbackStep(i) => ApplyCallback(c, s, i)
    case _ => ApplyDispatcher(c, s, step)
  }

  /** The steps of `completed`, once the future is done. */
  function ApplyCallback(c: Config, s: State, i: nat): (t: Option<State>)
    requires |s.jobs| == |c.trace|
  {
    if !(i < |s.jobs| && s.jobs[i].InFlight? && s.jobs[i].future.Done?) then None else
    var job := s.jobs[i];
    match job.callback
    case Armed => Some(WithJob(s, i, job.(callback := Settling)))
    case Settling =>
      if job.future.raised then Some(WithJob(s.(error := true), i, job.(callback := Stopping)))
      else Some(WithJob(s, i, job.(callback := Removing)))
    case Stopping => Some(WithJob(s.(stop := true), i, job.(callback := Removing)))
    case Removing => Some(WithJob(s.(active := s.active - {i}), i, job.(callback := Releasing)))
    case Releasing =>
      var kind := c.trace[i].kind;
      Some(WithJob(s.(free := s.free.Put(kind, s.free.Get(kind) + 1)), i, job.(callback := Released)))
    case _ => None
  }

  function ApplyDispatcher(c: Config, s: State, step: Step): (t: Option<State>)
    requires |s.jobs| == |c.trace|
    ensures t.Some? ==> |t.value.jobs| == |c.trace|
  {
    match step
    case FetchStep(readable) =>
      if !s.control.Fetch? then None
      else if !readable then Some(s.(control := Closing(true)))
      else Some(s.(control := if s.next < |c.trace| then Poll else Closing(false)))
    case CloseStep =>
      if s.control.Closing? && forall i | 0 <= i < |s.jobs| :: Settled(s.jobs[i])
      then Some(s.(control := if s.control.raised then Failed else Judge)) else None
    case JudgeStep(written) =>
      if !s.control.Judge? then None
      else if s.error || s.next != c.planned || !c.sameDigest || |s.counts| != c.planned || !written
      then Some(s.(control := Failed))
      else Some(s.(control := Finished, lines := s.lines + [End(s.next, s.counts)]))
    case _ => if s.next < |c.trace| then ApplyOffer(c, s, step) else None
  }

  /** The steps that dispatch the current offer. */
  function ApplyOffer(c: Config, s: State, step: Step): (t: Option<State>)
    requires |s.jobs| == |c.trace| && s.next < |c.trace|
    ensures t.Some? ==> |t.value.jobs| == |c.trace|
  {
    var i, kind := s.next, c.trace[s.next].kind;
    match step
    case PollStep => if s.control.Poll? then Some(s.(control := if s.stop then Decide else Clock)) else None
    case ClockStep =>
      if s.control.Clock? then Some(s.(control := if s.now >= c.start + c.trace[i].at then Decide else Poll)) else None
    case DecideStep =>
      if s.control.Decide? then Some(s.(control := if s.stop then Closing(false) else Acquire)) else None
    case AcquireStep =>
      if !s.control.Acquire? then None else
      var t := s.(submissions := s.submissions + [Submission(i, s.now, s.stop)]);
      if s.free.Get(kind) == 0
      then
        var refusals := s.refusals[i := Held(c.trace, s.jobs, kind)];
        Some(WithJob(t.(control := LogOverload, refusals := refusals), i, Refused))
      else Some(WithJob(t.(control := Submit, free := s.free.Put(kind, s.free.Get(kind) - 1)), i, Slotted))
    case LogStep(write) =>
      if !s.control.LogOverload? then None else
      var t := AppendResult(c, s, i, ClientOverload, write);
      if write.Complete? then Some(WithJob(t.(control := Fetch, next := i + 1), i, Overloaded))
      else Some(WithJob(t.(control := Closing(true)), i, Aborted))
    case SubmitStep(submitted) =>
      if !s.control.Submit? then None else
      var back := s.(control := Closing(true), free := s.free.Put(kind, s.free.Get(kind) + 1));
      Some(match submitted
           case Accepted => WithJob(s.(control := Track), i, InFlight(Queued, Unset))
           case RaisedIdle => WithJob(back, i, Aborted)
           case RaisedQueued => WithJob(back, i, InFlight(Queued, Abandoned)))
    case TrackStep => if s.control.Track? then Some(s.(control := Register, active := s.active + {i})) else None
    case RegisterStep =>
      if !s.control.Register? || !s.jobs[i].InFlight? then None
      else if s.jobs[i].future.Done? then Some(WithJob(s.(control := InCallback), i, s.jobs[i].(callback := Settling)))
      else Some(WithJob(s.(control := Fetch, next := i + 1), i, s.jobs[i].(callback := Armed)))
    case ReturnStep =>
      if s.control.InCallback? && s.jobs[i].InFlight? && s.jobs[i].callback.Released?
      then Some(s.(control := Fetch, next := i + 1)) else None
    case _ => None
  }

  /** The state after a run, or nothing when some step was not enabled. */
  function Run(c: Config, now: int, steps: seq<Step>): (s: Option<State>)
    ensures s.Some? ==> |s.value.jobs| == |c.trace|
  {
    if steps == [] then Some(Initial(c, now)) else
    var before := Run(c, now, steps[..|steps| - 1]);
    if before.None? then None else Apply(c, before.value, steps[|steps| - 1])
  }
}
