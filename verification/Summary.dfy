/** The summary: exact percentiles, and the attribution of results to phases. */
module Summary {
  import opened Wrappers
  import opened Counting
  import opened Sorting
  import opened Ledger
  import opened Histograms
  import opened LagWindow
  import opened Schedule

  // ---------------------------------------------------------------------
  // Percentiles

  function NotAbove(v: int): (p: int -> bool)
  {
    x => x <= v
  }

  function Under(v: int): (p: int -> bool)
  {
    x => x < v
  }

  /** A percentile is the value at its rank: that many values are not above it, and fewer are under it. */
  lemma PercentileIsRanked(values: seq<int>, num: nat, den: nat)
    requires den > 0 && values != []
    ensures var v, rank := Percentile(values, num, den), NearestRank(num, den, |values|);
            CountIf(values, NotAbove(v)) >= rank > CountIf(values, Under(v))
  {
    hide NearestRank, Sort, Ordered, CountIf;
    var v, rank, s := Percentile(values, num, den), NearestRank(num, den, |values|), Sort(values);
    SortSorts(values);
    forall i | 0 <= i < rank ensures NotAbove(v)(s[i]) { OrderedAt(s, i, rank - 1); }
    forall i | rank - 1 <= i < |s| ensures !Under(v)(s[i]) { OrderedAt(s, rank - 1, i); }
    FirstCount(s, rank, NotAbove(v));
    OnlyFirstCount(s, rank - 1, Under(v));
    CountIfSort(values, NotAbove(v));
    CountIfSort(values, Under(v));
  }

  /** p50 <= p95 <= p99 <= max. */
  lemma PercentilesAreOrdered(values: seq<int>, low: nat, high: nat, den: nat)
    requires den > 0 && low <= high && values != []
    ensures Percentile(values, low, den) <= Percentile(values, high, den) <= Sort(values)[|values| - 1]
  {
    hide NearestRank, Sort, Ordered;
    SortSorts(values);
    RankIsMonotone(low, high, den, |values|);
    var a, b := NearestRank(low, den, |values|), NearestRank(high, den, |values|);
    OrderedAt(Sort(values), a - 1, b - 1);
    OrderedAt(Sort(values), b - 1, |values| - 1);
  }

  // ---------------------------------------------------------------------
  // Phases

  datatype PhaseTally = PhaseTally(phase: string, kind: Kind, outcome: Outcome)

  predicate Attributed(record: Record, bounds: seq<Bound>) {
    record.Result? && PhaseAt(bounds, record.at).Some?
  }

  function TagOf(record: Record, bounds: seq<Bound>): (t: PhaseTally)
    requires Attributed(record, bounds)
  {
    PhaseTally(PhaseAt(bounds, record.at).value, record.kind, record.outcome)
  }

  /** The counters of a ledger's results. */
  function PhaseCounts(results: seq<Record>, bounds: seq<Bound>): (counts: multiset<PhaseTally>)
    requires forall i | 0 <= i < |results| :: Attributed(results[i], bounds)
  {
    if results == [] then multiset{} else
    PhaseCounts(results[..|results| - 1], bounds) + multiset{TagOf(results[|results| - 1], bounds)}
  }

  const OUTCOMES: seq<Outcome> :=
    [Acknowledged, SearchOk, Conflict, Backpressure, Rejected,
     UnknownWrite, HttpError, RequestError, Timeout, ClientOverload]

  lemma EachOutcomeOnce(outcome: Outcome)
    ensures multiset(OUTCOMES)[outcome] == 1
  {
  }

  /** What the counters of one phase and kind hold over some outcomes. */
  function Total(counts: multiset<PhaseTally>, name: string, kind: Kind, outcomes: seq<Outcome>): (n: nat)
  {
    if outcomes == [] then 0 else
    counts[PhaseTally(name, kind, outcomes[0])] + Total(counts, name, kind, outcomes[1..])
  }

  lemma {:induction false} TotalAppend(
    counts: multiset<PhaseTally>, t: PhaseTally, name: string, kind: Kind, outcomes: seq<Outcome>)
    ensures Total(counts + multiset{t}, name, kind, outcomes) ==
            Total(counts, name, kind, outcomes)
            + if t.phase == name && t.kind == kind then multiset(outcomes)[t.outcome] else 0
  {
    if outcomes != [] {
      TotalAppend(counts, t, name, kind, outcomes[1..]);
      assert outcomes == [outcomes[0]] + outcomes[1..];
      assert t == PhaseTally(t.phase, t.kind, t.outcome);
    }
  }

  lemma {:induction false} NoneCounted(name: string, kind: Kind, outcomes: seq<Outcome>)
    ensures Total(multiset{}, name, kind, outcomes) == 0
  {
    if outcomes != [] {
      NoneCounted(name, kind, outcomes[1..]);
    }
  }

  /** The record is a result of this phase, kind and outcome. */
  function FallsUnder(bounds: seq<Bound>, name: string, kind: Kind, outcome: Outcome): (p: Record -> bool)
  {
    (record: Record) =>
      record.Result? && PhaseAt(bounds, record.at) == Some(name) && record.kind == kind && record.outcome == outcome
  }

  lemma CountsStep(results: seq<Record>, bounds: seq<Bound>, i: nat)
    requires i < |results| && forall j | 0 <= j <= i :: Attributed(results[j], bounds)
    ensures PhaseCounts(results[..i + 1], bounds) ==
            PhaseCounts(results[..i], bounds) + multiset{TagOf(results[i], bounds)}
  {
    hide Attributed, TagOf;
    assert results[..i + 1][..i] == results[..i];
  }

  /** Each counter is the number of results of that phase, kind and outcome. */
  lemma {:induction false} CountsAreExact(results: seq<Record>, bounds: seq<Bound>, name: string, kind: Kind,
      outcome: Outcome)
    requires forall i | 0 <= i < |results| :: Attributed(results[i], bounds)
    ensures PhaseCounts(results, bounds)[PhaseTally(name, kind, outcome)]
         == |Positions(results, FallsUnder(bounds, name, kind, outcome))|
  {
    hide PhaseAt, Positions;
    if results == [] {
      NoPositions(FallsUnder(bounds, name, kind, outcome));
    } else {
      CountsAreExact(results[..|results| - 1], bounds, name, kind, outcome);
      PositionsStep(results, FallsUnder(bounds, name, kind, outcome));
    }
  }

  lemma {:induction false} CountsSize(results: seq<Record>, bounds: seq<Bound>)
    requires forall i | 0 <= i < |results| :: Attributed(results[i], bounds)
    ensures |PhaseCounts(results, bounds)| == |results|
  {
    hide Attributed, TagOf;
    if results != [] {
      CountsSize(results[..|results| - 1], bounds);
    }
  }

  /** The per-phase counters of `client`; a result outside every phase raises. */
  method ByPhase(results: seq<Record>, bounds: seq<Bound>) returns (counts: Option<multiset<PhaseTally>>)
    requires AllResults(results)
    ensures counts.Some? <==> forall i | 0 <= i < |results| :: Attributed(results[i], bounds)
    ensures counts.Some? ==> counts.value == PhaseCounts(results, bounds) && |counts.value| == |results|
    ensures counts.Some? ==> forall name: string, kind: Kind, outcome: Outcome ::
              counts.value[PhaseTally(name, kind, outcome)]
              == |Positions(results, FallsUnder(bounds, name, kind, outcome))|
  {
    hide PhaseCounts, Positions, FallsUnder, PhaseAt;
    var done: multiset<PhaseTally> := multiset{};
    NothingCounted(bounds);
    for i := 0 to |results|
      invariant forall j | 0 <= j < i :: Attributed(results[j], bounds)
      invariant done == PhaseCounts(results[..i], bounds)
    {
      var name := PhaseAt(bounds, results[i].at);
      if name.None? {
        return None;
      }
      CountsStep(results, bounds, i);
      done := done + multiset{PhaseTally(name.value, results[i].kind, results[i].outcome)};
    }
    assert results[..|results|] == results;
    CountsSize(results, bounds);
    forall name: string, kind: Kind, outcome: Outcome
      ensures PhaseCounts(results, bounds)[PhaseTally(name, kind, outcome)]
           == |Positions(results, FallsUnder(bounds, name, kind, outcome))|
    {
      CountsAreExact(results, bounds, name, kind, outcome);
    }
    return Some(done);
  }

  lemma NothingCounted(bounds: seq<Bound>)
    ensures PhaseCounts([], bounds) == multiset{}
  {
  }
}
