/** The resource sampler's tick loop and its counter checks. */
module Sampler {
  import opened Wrappers
  import opened Arithmetic

  type Counters = map<string, int>

  /** What one sample reads. */
  datatype Reading = Reading(cpu: Counters, events: Counters, peak: int)

  /** How one turn of the loop goes: it wakes `late` after its time, and sampling takes `took`. */
  datatype Turn = Turn(late: nat, took: nat, sameContainer: bool, reading: Reading)

  datatype Sample = Sample(begin: int, end: int, reading: Reading)

  datatype Report = Report(
    samples: nat,
    skipped: nat,
    elapsed: int,
    scheduled: seq<int>,
    cpuDelta: Counters,
    eventsDelta: Counters)

  datatype Error = NotPositive | MissingCounter | Regressed | PeakRegressed | ContainerChanged | MissedWindow

  predicate HasCpuFields(cpu: Counters) {
    "usage_usec" in cpu && "user_usec" in cpu && "system_usec" in cpu
  }

  /** Every counter of the earlier sample is in the later one, and has not gone down. */
  predicate Advances(earlier: Counters, later: Counters) {
    forall key | key in earlier :: key in later && earlier[key] <= later[key]
  }

  /** `sample`'s checks against the previous sample. */
  function Check(previous: Option<Reading>, r: Reading): (error: Option<Error>)
  {
    if !HasCpuFields(r.cpu) then Some(MissingCounter)
    else if previous.Some? && !(Advances(previous.value.cpu, r.cpu) && Advances(previous.value.events, r.events))
    then Some(Regressed)
    else if previous.Some? && r.peak < previous.value.peak then Some(PeakRegressed)
    else None
  }

  lemma AdvancesChain(a: Counters, b: Counters, c: Counters)
    requires Advances(a, b) && Advances(b, c)
    ensures Advances(a, c)
  {
  }

  function Delta(first: Counters, last: Counters): (d: Counters)
    requires Advances(first, last)
    ensures forall key :: key in d <==> key in first
    ensures forall key | key in d :: d[key] >= 0 && last[key] == first[key] + d[key]
  {
    map key | key in first :: last[key] - first[key]
  }

  function Min(a: int, b: int): (c: int)
    ensures c <= a && c <= b && (c == a || c == b)
  {
    if a <= b then a else b
  }

  function Max(a: int, b: int): (c: int)
    ensures c >= a && c >= b && (c == a || c == b)
  {
    if a <= b then b else a
  }

  /** The time of tick `n`, clipped to the deadline. */
  function TickAt(start: int, interval: int, deadline: int, n: int): (at: int)
  {
    Min(start + n * interval, deadline)
  }

  predicate Increasing(times: seq<int>) {
    forall i, j | 0 <= i < j < |times| :: times[i] < times[j]
  }

  /** Each scheduled time is a later tick than the one before, clipped to the deadline. */
  ghost predicate OnTicks(times: seq<int>, ticks: seq<int>, start: int, interval: int, deadline: int) {
    && |times| == |ticks|
    && (forall i | 0 <= i < |times| :: times[i] == TickAt(start, interval, deadline, ticks[i]) && ticks[i] >= i + 1)
    && (forall i, j | 0 <= i < j < |ticks| :: ticks[i] < ticks[j])
  }

  /** The schedule so far, and the tick and time it is about to wait for. */
  ghost predicate Paced(times: seq<int>, ticks: seq<int>, start: int, interval: int, deadline: int, n: int,
      nextAt: int) {
    && OnTicks(times, ticks, start, interval, deadline) && Increasing(times)
    && n > |times| && nextAt == TickAt(start, interval, deadline, n)
    && (forall i | 0 <= i < |ticks| :: ticks[i] < n)
    && (forall i | 0 <= i < |times| :: times[i] < nextAt)
  }

  lemma PacedEnds(times: seq<int>, ticks: seq<int>, start: int, interval: int, deadline: int, n: int, nextAt: int)
    requires Paced(times, ticks, start, interval, deadline, n, nextAt)
    ensures OnTicks(times + [nextAt], ticks + [n], start, interval, deadline) && Increasing(times + [nextAt])
  {
  }

  lemma PacedGoesOn(times: seq<int>, ticks: seq<int>, start: int, interval: int, deadline: int, n: int, nextAt: int,
      tick: int)
    requires Paced(times, ticks, start, interval, deadline, n, nextAt)
    requires interval > 0 && tick > n && nextAt < deadline
    ensures Paced(times + [nextAt], ticks + [n], start, interval, deadline, tick,
                  TickAt(start, interval, deadline, tick))
  {
    PacedEnds(times, ticks, start, interval, deadline, n, nextAt);
    LaterTick(start, interval, n, tick);
  }

  /** The next tick after `end`, once the loop has woken at or after tick `n`, and the ticks it skips. */
  lemma NextTick(start: int, interval: int, n: int, end: int)
    requires interval > 0 && end >= start + n * interval
    ensures var tick := (end - start) / interval + 1;
            && tick >= n + 1
            && (start + tick * interval - (start + n * interval)) / interval - 1 == tick - n - 1
            && end < start + tick * interval <= end + interval
  {
    var tick := (end - start) / interval + 1;
    QuotientIsClose(end - start, interval);
    FloorBelow(end - start, interval, n);
    assert start + tick * interval - (start + n * interval) == (tick - n) * interval;
    ExactQuotient(tick - n, interval);
  }

  lemma ExactQuotient(k: int, d: int)
    requires d > 0
    ensures (k * d) / d == k
  {
    FloorBelow(k * d, d, k);
    FloorBelow(k * d, d, k + 1);
    assert (k + 1) * d == k * d + d;
  }

  lemma LaterTick(start: int, interval: int, a: int, b: int)
    requires interval > 0 && a < b
    ensures start + a * interval < start + b * interval
  {
    Times(a + 1, b, interval);
  }

  /** A tick before the deadline is one of the first ceiling-many. */
  lemma TickIsEarly(start: int, interval: int, deadline: int, n: int)
    requires interval > 0
    ensures start + n * interval < deadline <==> n < CeilDiv(deadline - start, interval)
  {
    CeilAbove(n, deadline - start, interval);
  }

  predicate Progressed(first: Reading, last: Reading) {
    Advances(first.cpu, last.cpu) && Advances(first.events, last.events)
  }

  lemma CheckedProgress(first: Reading, previous: Reading, current: Reading)
    requires Progressed(first, previous) && Check(Some(previous), current) == None
    ensures Progressed(first, current)
  {
    AdvancesChain(first.cpu, previous.cpu, current.cpu);
    AdvancesChain(first.events, previous.events, current.events);
  }

  /** The next tick to wait for and how many ticks before it are skipped. */
  function Reschedule(start: int, interval: int, nextAt: int, end: int): (r: (int, int))
    requires interval > 0
  {
    var tick := (end - start) / interval + 1;
    var desired := start + tick * interval;
    (desired, Max(0, (desired - nextAt) / interval - 1))
  }

  /** Tick `n` is the first one after a time. */
  predicate FirstAfter(start: int, interval: int, n: int, end: int) {
    end < start + n * interval <= end + interval
  }

  lemma Rescheduled(start: int, interval: int, deadline: int, n: int, end: int)
    requires interval > 0 && end >= start + n * interval
    ensures var r := Reschedule(start, interval, start + n * interval, end);
            && r.1 >= 0 && Min(r.0, deadline) == TickAt(start, interval, deadline, n + 1 + r.1)
            && FirstAfter(start, interval, n + 1 + r.1, end)
  {
    NextTick(start, interval, n, end);
  }

  // ---------------------------------------------------------------------
  // The samples of one run

  /** The sample a turn takes: it wakes at its time or once the previous sample is done, if that is later. */
  function Taken(turn: Turn, at: int, previous: Sample): (sample: Sample)
  {
    var begin := Max(at, previous.end) + turn.late;
    Sample(begin, begin + turn.took, turn.reading)
  }

  /** The container changed, or the reading fails its checks against the previous one. */
  predicate Fails(turn: Turn, previous: Reading, error: Error) {
    if !turn.sameContainer then error == ContainerChanged else Check(Some(previous), turn.reading) == Some(error)
  }

  predicate Passes(turn: Turn, previous: Reading) {
    turn.sameContainer && Check(Some(previous), turn.reading) == None
  }

  /** The samples in order, each taken by its own turn, which passed. */
  ghost predicate TakenBy(samples: seq<Sample>, first: Sample, scheduled: seq<int>, turns: nat -> Turn) {
    && |samples| == |scheduled| + 1 && samples[0] == first
    && forall i | 0 <= i < |scheduled| :: OneTaken(samples, scheduled, turns, i)
  }

  ghost predicate OneTaken(samples: seq<Sample>, scheduled: seq<int>, turns: nat -> Turn, i: nat)
    requires i < |scheduled| < |samples|
  {
    samples[i + 1] == Taken(turns(i + 1), scheduled[i], samples[i]) && Passes(turns(i + 1), samples[i].reading)
  }

  /** The first wait is for tick one, and every other for the first tick after the sample before it. */
  ghost predicate Prompt(ticks: seq<int>, samples: seq<Sample>, start: int, interval: int) {
    && |samples| == |ticks| + 1 && (ticks != [] ==> ticks[0] == 1)
    && forall i | 0 < i < |ticks| :: FirstAfter(start, interval, ticks[i], samples[i].end)
  }

  /** The tick to wait for after these samples. */
  ghost predicate Awaited(n: int, samples: seq<Sample>, start: int, interval: int)
    requires samples != []
  {
    if |samples| == 1 then n == 1 else FirstAfter(start, interval, n, samples[|samples| - 1].end)
  }

  predicate Before(samples: seq<Sample>, deadline: int) {
    forall i | 0 <= i < |samples| :: samples[i].begin < deadline
  }

  lemma TakesOne(samples: seq<Sample>, first: Sample, scheduled: seq<int>, turns: nat -> Turn, at: int, next: Sample)
    requires TakenBy(samples, first, scheduled, turns)
    requires next == Taken(turns(|samples|), at, samples[|samples| - 1])
    requires Passes(turns(|samples|), samples[|samples| - 1].reading)
    ensures TakenBy(samples + [next], first, scheduled + [at], turns)
  {
    hide Taken, Passes;
    var all, times := samples + [next], scheduled + [at];
    forall i | 0 <= i < |times|
      ensures OneTaken(all, times, turns, i)
    {
      if i < |scheduled| {
        assert OneTaken(samples, scheduled, turns, i);
      }
    }
  }

  lemma StaysPrompt(ticks: seq<int>, samples: seq<Sample>, start: int, interval: int, n: int, next: Sample)
    requires Prompt(ticks, samples, start, interval) && Awaited(n, samples, start, interval)
    ensures Prompt(ticks + [n], samples + [next], start, interval)
  {
    hide FirstAfter;
  }

  /** The deltas of a report: what each counter of the first reading gained by the last one. */
  predicate Gained(delta: Counters, first: Counters, last: Counters) {
    delta.Keys == first.Keys && forall key | key in first :: key in last && delta[key] == last[key] - first[key]
  }

  lemma DeltaIsGained(first: Counters, last: Counters)
    requires Advances(first, last)
    ensures Gained(Delta(first, last), first, last)
  {
  }

  /** Over a whole run no counter disappears or goes down, and neither does the peak. */
  lemma {:induction false} RunProgress(samples: seq<Sample>, first: Sample, scheduled: seq<int>, turns: nat -> Turn,
      i: nat, j: nat)
    requires TakenBy(samples, first, scheduled, turns) && i <= j < |samples|
    ensures var a, b := samples[i].reading, samples[j].reading;
            Advances(a.cpu, b.cpu) && Advances(a.events, b.events) && a.peak <= b.peak
    decreases j - i
  {
    hide HasCpuFields;
    if i < j {
      RunProgress(samples, first, scheduled, turns, i, j - 1);
      assert OneTaken(samples, scheduled, turns, j - 1);
      CheckedProgress(samples[i].reading, samples[j - 1].reading, samples[j].reading);
    }
  }

  /** What a run did: the times it waited for, their ticks, and the samples it took. */
  datatype Log = Log(times: seq<int>, ticks: seq<int>, samples: seq<Sample>)

  ghost predicate Logged(log: Log, first: Sample, turns: nat -> Turn, interval: int, deadline: int) {
    && TakenBy(log.samples, first, log.times, turns) && Prompt(log.ticks, log.samples, first.begin, interval)
    && OnTicks(log.times, log.ticks, first.begin, interval, deadline) && Increasing(log.times)
  }

  /** The run stopped at a turn that fails, before any sample reached the deadline. */
  ghost predicate Broke(log: Log, turns: nat -> Turn, deadline: int, error: Error) {
    && log.samples != [] && Before(log.samples, deadline)
    && Fails(turns(|log.samples|), log.samples[|log.samples| - 1].reading, error)
  }

  /** The run stopped at the first sample at or after the deadline, and reports it. */
  ghost predicate Reached(log: Log, report: Report, deadline: int) {
    var n := |log.samples| - 1;
    && n > 0 && |log.ticks| == n && Before(log.samples[..n], deadline) && log.samples[n].begin >= deadline
    && report.samples == n + 1 && report.samples + report.skipped == log.ticks[n - 1] + 1
    && report.scheduled == log.times && report.elapsed == log.samples[n].begin - log.samples[0].begin
    && Gained(report.cpuDelta, log.samples[0].reading.cpu, log.samples[n].reading.cpu)
    && Gained(report.eventsDelta, log.samples[0].reading.events, log.samples[n].reading.events)
  }

  /**
   The tick loop of `collect`, from its first sample to its report. `turns`
   says how each turn goes; waking is never early, and clocks never go back.
   It succeeds exactly when every turn passes up to the first sample at or
   after the deadline.
   */
  method Collect(first: Sample, base: int, duration: int, interval: int, turns: nat -> Turn)
    returns (r: Result<Report, Error>, ghost log: Log)
    requires first.begin <= first.end
    ensures duration <= 0 || interval <= 0 <==> r == Err(NotPositive)
    ensures duration > 0 && interval > 0 && Check(None, first.reading).Some? ==>
            r == Err(Check(None, first.reading).value)
    ensures duration > 0 && interval > 0 && Check(None, first.reading).None? && first.begin >= base + duration ==>
              r == Err(MissedWindow)
    ensures duration > 0 && interval > 0 && Check(None, first.reading).None? && first.begin < base + duration ==>
              && Logged(log, first, turns, interval, base + duration)
              && (r.Err? ==> Broke(log, turns, base + duration, r.error))
    ensures r.Ok? ==> Reached(log, r.value, base + duration)
    ensures r.Ok? ==> r.value.samples <= CeilDiv(base + duration - first.begin, interval) + 1
    ensures r.Ok? ==> "usage_usec" in r.value.cpuDelta
    ensures r.Ok? ==> forall key | key in first.reading.cpu :: key in r.value.cpuDelta && r.value.cpuDelta[key] >= 0
    ensures r.Ok? ==> forall key | key in first.reading.events ::
              key in r.value.eventsDelta && r.value.eventsDelta[key] >= 0
  {
    hide Paced, OnTicks, Increasing, Progressed, CeilDiv, Reschedule;
    hide TakenBy, Prompt, Awaited, Check, Delta, Gained, HasCpuFields, FirstAfter;
    log := Log([], [], [first]);
    if duration <= 0 || interval <= 0 {
      return Err(NotPositive), log;
    }
    var deadline := base + duration;
    var fault := Check(None, first.reading);
    FirstErrors(first.reading);
    if fault.Some? {
      return Err(fault.value), log;
    }
    var start := first.begin;
    if start >= deadline {
      return Err(MissedWindow), log;
    }
    var previous, count: nat, skipped: nat := first, 1, 0;
    var scheduled: seq<int> := [];
    var nextAt := Min(start + interval, deadline);
    Begins(first, turns, interval, deadline);
    while true
      invariant log.times == scheduled && |log.samples| == count && log.samples[count - 1] == previous
      invariant log.samples[0] == first && Before(log.samples, deadline)
      invariant Paced(scheduled, log.ticks, start, interval, deadline, count + skipped, nextAt)
      invariant Logged(log, first, turns, interval, deadline)
      invariant Awaited(count + skipped, log.samples, start, interval)
      invariant nextAt == TickAt(start, interval, deadline, count + skipped)
      invariant count == 1 + |scheduled| && |log.ticks| == |scheduled|
      invariant |scheduled| < CeilDiv(deadline - start, interval)
      invariant Progressed(first.reading, previous.reading)
      decreases CeilDiv(deadline - start, interval) - |scheduled|
    {
      var turn := turns(count);
      var begin := Max(nextAt, previous.end) + turn.late;
      if !turn.sameContainer {
        return Err(ContainerChanged), log;
      }
      fault := Check(Some(previous.reading), turn.reading);
      LaterErrors(previous.reading, turn.reading);
      if fault.Some? {
        return Err(fault.value), log;
      }
      CheckedProgress(first.reading, previous.reading, turn.reading);
      var current := Sample(begin, begin + turn.took, turn.reading);
      ghost var n := count + skipped;
      PacedEnds(scheduled, log.ticks, start, interval, deadline, n, nextAt);
      TakesOne(log.samples, first, scheduled, turns, nextAt, current);
      StaysPrompt(log.ticks, log.samples, start, interval, n, current);
      if current.begin < deadline {
        ghost var tick := n + 1 + Reschedule(start, interval, nextAt, current.end).1;
        Rescheduled(start, interval, deadline, n, current.end);
        PacedGoesOn(scheduled, log.ticks, start, interval, deadline, n, nextAt, tick);
        TickIsEarly(start, interval, deadline, n);
        AwaitsNext(log.samples, current, start, interval, tick);
      }
      scheduled := scheduled + [nextAt];
      log := Log(scheduled, log.ticks + [n], log.samples + [current]);
      count := count + 1;
      previous := current;
      if current.begin >= deadline {
        break;
      }
      var next := Reschedule(start, interval, nextAt, current.end);
      skipped := skipped + next.1;
      nextAt := Min(next.0, deadline);
    }
    DeltasExist(first.reading, previous.reading);
    DeltaIsGained(first.reading.cpu, previous.reading.cpu);
    DeltaIsGained(first.reading.events, previous.reading.events);
    var cpu := Delta(first.reading.cpu, previous.reading.cpu);
    var events := Delta(first.reading.events, previous.reading.events);
    return Ok(Report(count, skipped, previous.begin - start, scheduled, cpu, events)), log;
  }

  lemma FirstErrors(reading: Reading)
    ensures Check(None, reading) != Some(NotPositive)
  {
  }

  lemma LaterErrors(previous: Reading, reading: Reading)
    ensures Check(Some(previous), reading) != Some(NotPositive)
  {
  }

  lemma Begins(first: Sample, turns: nat -> Turn, interval: int, deadline: int)
    requires interval > 0 && first.begin < deadline
    ensures var start := first.begin;
            && Paced([], [], start, interval, deadline, 1, Min(start + interval, deadline))
            && 0 < CeilDiv(deadline - start, interval)
            && Logged(Log([], [], [first]), first, turns, interval, deadline)
            && Awaited(1, [first], start, interval) && Progressed(first.reading, first.reading)
  {
    BeginsPaced(first.begin, interval, deadline);
  }

  lemma AwaitsNext(samples: seq<Sample>, next: Sample, start: int, interval: int, tick: int)
    requires samples != [] && FirstAfter(start, interval, tick, next.end)
    ensures Awaited(tick, samples + [next], start, interval)
  {
  }

  lemma BeginsPaced(start: int, interval: int, deadline: int)
    requires interval > 0 && start < deadline
    ensures Paced([], [], start, interval, deadline, 1, Min(start + interval, deadline))
    ensures 0 < CeilDiv(deadline - start, interval)
  {
    TickIsEarly(start, interval, deadline, 0);
  }

  lemma DeltasExist(first: Reading, last: Reading)
    requires Progressed(first, last) && Check(None, first) == None
    ensures Advances(first.cpu, last.cpu) && Advances(first.events, last.events) && "usage_usec" in first.cpu
  {
  }
}
