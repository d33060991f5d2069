/** From a specification through the replay of its trace to the summary: every planned offer is reported. */
module Pipeline {
  import opened Wrappers
  import opened Counting
  import opened Sorting
  import opened Ledger
  import opened Schedule
  import opened Workload
  import opened Summary
  import Replay
  import ReplayEnding
  import ReplayRecords
  import ReplaySafety

  /** The trace as the replay reads it. */
  function AsTrace(offers: seq<Offer>): (trace: seq<Replay.Offer>)
    requires From(offers, 0)
    ensures |trace| == |offers|
    ensures forall i | 0 <= i < |offers| :: trace[i] == Replay.Offer(offers[i].at, offers[i].kind)
  {
    seq(|offers|, i requires 0 <= i < |offers| => Replay.Offer(offers[i].at, offers[i].kind))
  }

  /** The offers of one phase and kind. */
  predicate Is(offer: Offer, name: string, kind: Kind) {
    offer.phase == name && offer.kind == kind
  }

  function IsAt(offers: seq<Offer>, name: string, kind: Kind): (p: int -> bool)
  {
    id => 0 <= id < |offers| && Is(offers[id], name, kind)
  }

  function Offered(offers: seq<Offer>, name: string, kind: Kind): (n: nat)
  {
    if offers == [] then 0 else
    var before := Offered(offers[..|offers| - 1], name, kind);
    if Is(offers[|offers| - 1], name, kind) then before + 1 else before
  }

  /** How many results fall into a phase and are of a kind. */
  function Reported(results: seq<Record>, bounds: seq<Bound>, name: string, kind: Kind): (n: nat)
    requires AllResults(results)
  {
    if results == [] then 0 else
    var last := results[|results| - 1];
    var before := Reported(results[..|results| - 1], bounds, name, kind);
    if PhaseAt(bounds, last.at) == Some(name) && last.kind == kind then before + 1 else before
  }

  /** The summary's counters of a phase and kind add up to the results that fall into it. */
  lemma {:induction false} CountersAddUp(results: seq<Record>, bounds: seq<Bound>, name: string, kind: Kind)
    requires AllResults(results) && forall i | 0 <= i < |results| :: Attributed(results[i], bounds)
    ensures Total(PhaseCounts(results, bounds), name, kind, OUTCOMES) == Reported(results, bounds, name, kind)
  {
    hide Total, PhaseAt;
    if results == [] {
      NoneCounted(name, kind, OUTCOMES);
      return;
    }
    var front, last := results[..|results| - 1], results[|results| - 1];
    CountersAddUp(front, bounds, name, kind);
    TotalAppend(PhaseCounts(front, bounds), TagOf(last, bounds), name, kind, OUTCOMES);
    EachOutcomeOnce(last.outcome);
  }

  /** Every result names an offer and carries that offer's time and kind. */
  ghost predicate Answers(results: seq<Record>, offers: seq<Offer>) {
    && AllResults(results)
    && forall i | 0 <= i < |results| ::
         results[i].id < |offers| && results[i].at == offers[results[i].id].at &&
         results[i].kind == offers[results[i].id].kind
  }

  ghost predicate FoundBy(offers: seq<Offer>, bounds: seq<Bound>) {
    forall i | 0 <= i < |offers| :: PhaseAt(bounds, offers[i].at) == Some(offers[i].phase)
  }

  /** Counting results by phase is counting their ids by the phase of the offer. */
  lemma {:induction false} ReportedById(results: seq<Record>, offers: seq<Offer>, bounds: seq<Bound>, name: string,
      kind: Kind)
    requires Answers(results, offers) && FoundBy(offers, bounds)
    ensures Reported(results, bounds, name, kind) == CountIf(Ids(results), IsAt(offers, name, kind))
  {
    if results != [] {
      var front, last := results[..|results| - 1], results[|results| - 1];
      ReportedById(front, offers, bounds, name, kind);
      assert last.id < |offers| && PhaseAt(bounds, offers[last.id].at) == Some(offers[last.id].phase);
      CountIfAppend(Ids(front), last.id, IsAt(offers, name, kind));
    }
  }

  lemma {:induction false} OfferedByRange(offers: seq<Offer>, n: nat, name: string, kind: Kind)
    requires n <= |offers|
    ensures CountIf(Range(n), IsAt(offers, name, kind)) == Offered(offers[..n], name, kind)
  {
    if n > 0 {
      OfferedByRange(offers, n - 1, name, kind);
      CountIfAppend(Range(n - 1), n - 1, IsAt(offers, name, kind));
      assert offers[..n][..n - 1] == offers[..n - 1];
    }
  }

  lemma {:induction false} OfferedJoins(a: seq<Offer>, b: seq<Offer>, name: string, kind: Kind)
    ensures Offered(a + b, name, kind) == Offered(a, name, kind) + Offered(b, name, kind)
  {
    if b == [] {
      assert a + b == a;
    } else {
      assert (a + b)[..|a + b| - 1] == a + b[..|b| - 1];
      OfferedJoins(a, b[..|b| - 1], name, kind);
    }
  }

  lemma {:induction false} OfferedOnly(offers: seq<Offer>, name: string, kind: Kind)
    requires OfPhase(offers, name)
    ensures Offered(offers, name, kind) == |Only(offers, kind)|
  {
    if offers != [] {
      OfferedOnly(offers[1..], name, kind);
      assert offers == [offers[0]] + offers[1..];
      OfferedJoins([offers[0]], offers[1..], name, kind);
      assert [offers[0]][..0] == [];
      assert Offered([], name, kind) == 0;
    }
  }

  lemma {:induction false} NoneOffered(offers: seq<Offer>, phase: string, name: string, kind: Kind)
    requires OfPhase(offers, phase) && phase != name
    ensures Offered(offers, name, kind) == 0
  {
    if offers != [] {
      NoneOffered(offers[..|offers| - 1], phase, name, kind);
    }
  }

  lemma {:induction false} NoneLater(phases: seq<Phase>, start: int, name: string, kind: Kind)
    requires Lasting(phases) && forall i | 0 <= i < |phases| :: phases[i].name != name
    ensures Offered(Offers(phases, start), name, kind) == 0
  {
    if phases != [] {
      var end := EndOf(phases[0], start);
      PhaseIsKept(phases[0], start);
      NoneOffered(PhaseOffers(phases[0], start), phases[0].name, name, kind);
      NoneLater(phases[1..], end, name, kind);
      OfferedJoins(PhaseOffers(phases[0], start), Offers(phases[1..], end), name, kind);
    }
  }

  /** The schedule offers a phase and kind exactly as often as it plans. */
  lemma {:induction false} OfferedAsPlanned(phases: seq<Phase>, start: int, p: nat, kind: Kind)
    requires Lasting(phases) && p < |phases|
    requires forall i, j | 0 <= i < j < |phases| :: phases[i].name != phases[j].name
    ensures Offered(Offers(phases, start), phases[p].name, kind) == Planned(phases[p], kind)
  {
    var first, end := PhaseOffers(phases[0], start), EndOf(phases[0], start);
    OfferedJoins(first, Offers(phases[1..], end), phases[p].name, kind);
    PhaseIsKept(phases[0], start);
    if p == 0 {
      OfferedOnly(first, phases[0].name, kind);
      PhaseStream(phases[0], start, kind);
      NoneLater(phases[1..], end, phases[0].name, kind);
    } else {
      NoneOffered(first, phases[0].name, phases[p].name, kind);
      OfferedAsPlanned(phases[1..], end, p - 1, kind);
    }
  }

  /** A number of offers: a rate's worth of whole seconds, and none of a rate that is not positive. */
  predicate Amounts(n: nat, seconds: int, rate: int) {
    n == if rate > 0 then seconds * rate else 0
  }

  /** The same, on the phase's own rates. */
  lemma OfferedAsSpecified(phases: seq<Phase>, start: int, p: nat)
    requires Lasting(phases) && p < |phases|
    requires forall i, j | 0 <= i < j < |phases| :: phases[i].name != phases[j].name
    ensures var offers, phase := Offers(phases, start), phases[p];
            && Amounts(Offered(offers, phase.name, Write), phase.seconds, phase.write)
            && Amounts(Offered(offers, phase.name, Strong), phase.seconds, phase.strong)
            && Amounts(Offered(offers, phase.name, Eventual), phase.seconds, phase.eventual)
  {
    hide Offered, Offers;
    OfferedAsPlanned(phases, start, p, Write);
    OfferedAsPlanned(phases, start, p, Strong);
    OfferedAsPlanned(phases, start, p, Eventual);
  }

  lemma ScheduleIsFound(phases: seq<Phase>, start: int)
    requires Lasting(phases)
    ensures FoundBy(Offers(phases, start), Bounds(phases, start))
  {
    forall i | 0 <= i < |Offers(phases, start)|
      ensures PhaseAt(Bounds(phases, start), Offers(phases, start)[i].at) == Some(Offers(phases, start)[i].phase)
    {
      var p := OfferIsInOnePhase(phases, start, i);
    }
  }

  lemma AllAttributed(results: seq<Record>, offers: seq<Offer>, bounds: seq<Bound>)
    requires Answers(results, offers) && FoundBy(offers, bounds)
    ensures forall i | 0 <= i < |results| :: Attributed(results[i], bounds)
  {
    forall i | 0 <= i < |results|
      ensures Attributed(results[i], bounds)
    {
      assert PhaseAt(bounds, offers[results[i].id].at) == Some(offers[results[i].id].phase);
    }
  }

  /** One result per id and agreement with the trace make the summary's counters add up to the schedule. */
  lemma ReportedAsOffered(results: seq<Record>, offers: seq<Offer>, bounds: seq<Bound>, name: string, kind: Kind)
    requires Answers(results, offers) && FoundBy(offers, bounds) && OnePerId(results, |offers|)
    ensures forall i | 0 <= i < |results| :: Attributed(results[i], bounds)
    ensures Total(PhaseCounts(results, bounds), name, kind, OUTCOMES) == Offered(offers, name, kind)
  {
    hide Reported, Offered, Sort, Range, CountIf, IsAt, Ids, Total, PhaseCounts, PhaseAt;
    AllAttributed(results, offers, bounds);
    CountersAddUp(results, bounds, name, kind);
    var ids := Ids(results);
    assert forall x: int :: Results(results, x) == multiset(ids)[x];
    SortsToRange(ids, |offers|);
    ReportedById(results, offers, bounds, name, kind);
    CountIfSort(ids, IsAt(offers, name, kind));
    OfferedByRange(offers, |offers|, name, kind);
    assert offers[..|offers|] == offers;
  }

  /** A replay of a specification's trace. */
  ghost predicate Replays(spec: Spec, c: Replay.Config)
    requires ValidSpec(spec)
  {
    && Lasting(spec.phases) && From(Offers(spec.phases, 0), 0)
    && c.trace == AsTrace(Offers(spec.phases, 0)) && c.planned == |c.trace|
  }

  /** The ledger loads, and the counters of each of its phases are the schedule's offers. */
  lemma ReportedAsScheduled(spec: Spec, c: Replay.Config, now: int, steps: seq<Replay.Step>, p: nat, kind: Kind)
    requires ValidSpec(spec) && Replays(spec, c) && p < |spec.phases|
    requires Replay.Run(c, now, steps).Some? && Replay.Run(c, now, steps).value.control.Finished?
    ensures var lines := Replay.Run(c, now, steps).value.lines;
            var bounds := Bounds(spec.phases, 0);
            && Load(lines).None? && AllResults(Body(lines))
            && (forall i | 0 <= i < |Body(lines)| :: Attributed(Body(lines)[i], bounds))
            && Total(PhaseCounts(Body(lines), bounds), spec.phases[p].name, kind, OUTCOMES)
               == Offered(Offers(spec.phases, 0), spec.phases[p].name, kind)
  {
    hide Replay.Run, Load, Offers, Bounds, PhaseAt, Reported, Offered, Total, PhaseCounts;
    ReplaySafety.FinishedLedgerLoads(c, now, steps);
    ReplaySafety.FinishedRecordsMatch(c, now, steps);
    var results := Body(Replay.Run(c, now, steps).value.lines);
    var offers, bounds := Offers(spec.phases, 0), Bounds(spec.phases, 0);
    ScheduleIsFound(spec.phases, 0);
    assert Answers(results, offers) by {
      assert forall i | 0 <= i < |results| :: ReplaySafety.Matches(c, results[i]);
    }
    ReportedAsOffered(results, offers, bounds, spec.phases[p].name, kind);
  }

  /**
   Conservation from specification to summary: in every interleaving of a replay
   that finishes, the ledger loads, the summary finds a phase for every result,
   and its counters of each phase and kind add up to that kind's rate times the
   phase's duration.
   */
  lemma EveryOfferIsReported(spec: Spec, c: Replay.Config, now: int, steps: seq<Replay.Step>, p: nat)
    requires ValidSpec(spec) && Replays(spec, c) && p < |spec.phases|
    requires Replay.Run(c, now, steps).Some? && Replay.Run(c, now, steps).value.control.Finished?
    ensures var lines := Replay.Run(c, now, steps).value.lines;
            var bounds, phase := Bounds(spec.phases, 0), spec.phases[p];
            && Load(lines).None? && AllResults(Body(lines))
            && (forall i | 0 <= i < |Body(lines)| :: Attributed(Body(lines)[i], bounds))
            && var counts := PhaseCounts(Body(lines), bounds);
            && Amounts(Total(counts, phase.name, Write, OUTCOMES), phase.seconds, phase.write)
            && Amounts(Total(counts, phase.name, Strong, OUTCOMES), phase.seconds, phase.strong)
            && Amounts(Total(counts, phase.name, Eventual, OUTCOMES), phase.seconds, phase.eventual)
  {
    hide Replay.Run, Load, Offers, Bounds, PhaseAt, Offered, Total, PhaseCounts, Amounts, Attributed;
    ReportedAsScheduled(spec, c, now, steps, p, Write);
    ReportedAsScheduled(spec, c, now, steps, p, Strong);
    ReportedAsScheduled(spec, c, now, steps, p, Eventual);
    OfferedAsSpecified(spec.phases, 0, p);
  }

  /** The offers of a phase and kind that came to an outcome. */
  ghost function ConcludedOffers(spec: Spec, c: Replay.Config, steps: seq<Replay.Step>, s: Replay.State, name: string,
      kind: Kind, outcome: Outcome): (ids: set<nat>)
    requires ValidSpec(spec) && Replays(spec, c)
  {
    var offers := Offers(spec.phases, 0);
    set i: nat | i < |offers| && Is(offers[i], name, kind) && ReplayRecords.Concluded(c, steps, s, i, outcome)
  }

  /** A result of a finished replay is counted under the phase and kind of its offer. */
  lemma PlacedByOffer(spec: Spec, c: Replay.Config, record: Record, name: string, kind: Kind, outcome: Outcome)
    requires ValidSpec(spec) && Replays(spec, c) && record.Result? && ReplaySafety.Matches(c, record)
    ensures FallsUnder(Bounds(spec.phases, 0), name, kind, outcome)(record) <==>
            Is(Offers(spec.phases, 0)[record.id], name, kind) && record.outcome == outcome
  {
    hide Offers, Bounds, PhaseAt;
    var offers, bounds := Offers(spec.phases, 0), Bounds(spec.phases, 0);
    ScheduleIsFound(spec.phases, 0);
    assert PhaseAt(bounds, offers[record.id].at) == Some(offers[record.id].phase);
  }

  /**
   In every interleaving that finishes, each of the summary's counters is the
   number of offers of that phase and kind that came to that outcome: that found
   their pool held, or whose reply is classified so.
   */
  lemma EveryConclusionIsCounted(spec: Spec, c: Replay.Config, now: int, steps: seq<Replay.Step>, name: string,
      kind: Kind, outcome: Outcome)
    requires ValidSpec(spec) && Replays(spec, c)
    requires Replay.Run(c, now, steps).Some? && Replay.Run(c, now, steps).value.control.Finished?
    ensures var s := Replay.Run(c, now, steps).value;
            var bounds := Bounds(spec.phases, 0);
            && |s.lines| >= 2 && (forall i | 0 <= i < |Body(s.lines)| :: Attributed(Body(s.lines)[i], bounds))
            && PhaseCounts(Body(s.lines), bounds)[PhaseTally(name, kind, outcome)]
               == |ConcludedOffers(spec, c, steps, s, name, kind, outcome)|
  {
    hide Replay.Run, Load, Offers, Bounds, PhaseAt, PhaseCounts, FallsUnder, Is, ReplayRecords.Concluded, Attributed;
    var s := Replay.Run(c, now, steps).value;
    var bounds := Bounds(spec.phases, 0);
    ReportedAsScheduled(spec, c, now, steps, 0, kind);
    ReplayEnding.FinishedMeans(c, now, steps);
    ReplayRecords.FinishedBody(c, now, steps);
    var results := Body(s.lines);
    CountsAreExact(results, bounds, name, kind, outcome);
    var places := Positions(results, FallsUnder(bounds, name, kind, outcome));
    var ids := ConcludedOffers(spec, c, steps, s, name, kind, outcome);
    var idAt := (k: nat) => if k < |results| && results[k].Result? then results[k].id else 0;
    forall k | k in places
      ensures idAt(k) in ids
    {
      ReplayRecords.ResultIsConcluded(c, now, steps, k);
      PlacedByOffer(spec, c, results[k], name, kind, outcome);
    }
    forall k, l | k in places && l in places && idAt(k) == idAt(l)
      ensures k == l
    {
      ReplayRecords.ResultIsConcluded(c, now, steps, k);
      ReplayRecords.ResultIsConcluded(c, now, steps, l);
      var only := ReplayRecords.OneResult(c, now, steps, idAt(k));
    }
    forall i | i in ids
      ensures exists k :: k in places && idAt(k) == i
    {
      var k := PlaceOfConclusion(spec, c, now, steps, name, kind, outcome, i);
    }
    OneToOne(places, ids, idAt);
  }

  lemma PlaceOfConclusion(spec: Spec, c: Replay.Config, now: int, steps: seq<Replay.Step>, name: string, kind: Kind,
      outcome: Outcome, i: nat) returns (k: nat)
    requires ValidSpec(spec) && Replays(spec, c)
    requires Replay.Run(c, now, steps).Some? && Replay.Run(c, now, steps).value.control.Finished?
    requires i in ConcludedOffers(spec, c, steps, Replay.Run(c, now, steps).value, name, kind, outcome)
    ensures var lines := Replay.Run(c, now, steps).value.lines;
            && |lines| >= 2 && k in Positions(Body(lines), FallsUnder(Bounds(spec.phases, 0), name, kind, outcome))
            && Body(lines)[k].Result? && Body(lines)[k].id == i
  {
    hide Replay.Run, Offers, Bounds, PhaseAt, FallsUnder, Is, ReplayRecords.Concluded;
    ReplayEnding.FinishedMeans(c, now, steps);
    assert forall n | 0 <= n < |steps| && steps[n].WriteWork? :: steps[n].write.Complete? by {
      assert forall n | 0 <= n < |steps| :: !ReplayEnding.Harmful(steps[n]);
    }
    k := ReplayRecords.ConclusionIsResult(c, now, steps, i, outcome);
    PlacedByOffer(spec, c, Body(Replay.Run(c, now, steps).value.lines)[k], name, kind, outcome);
  }
}
