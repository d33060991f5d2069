/** The open-loop schedule: phases on the trace clock, evenly spaced offers, merged by time. */
module Schedule {
  import opened Wrappers
  import opened Arithmetic
  import opened Ledger

  const NANOSECONDS := 1_000_000_000

  datatype Phase = Phase(name: string, seconds: int, write: int, strong: int, eventual: int) {
    /** Offers per second of a kind. */
    function Rate(kind: Kind): (rps: int)
    {
      match kind case Write => write case Strong => strong case Eventual => eventual
    }
  }

  datatype Bound = Bound(name: string, start: int, end: int)

  datatype Offer = Offer(phase: string, at: int, kind: Kind)

  // ---------------------------------------------------------------------
  // Phases

  function EndOf(phase: Phase, start: int): (end: int)
  {
    start + phase.seconds * NANOSECONDS
  }

  /** Phases follow each other without gaps from `start`. */
  function Bounds(phases: seq<Phase>, start: int): (bounds: seq<Bound>)
    ensures |bounds| == |phases|
  {
    if phases == [] then []
    else [Bound(phases[0].name, start, EndOf(phases[0], start))] + Bounds(phases[1..], EndOf(phases[0], start))
  }

  lemma {:induction false} BoundsAppend(phases: seq<Phase>, start: int, phase: Phase)
    ensures var bounds := Bounds(phases, start);
            var offset := if bounds == [] then start else bounds[|bounds| - 1].end;
            Bounds(phases + [phase], start) == bounds + [Bound(phase.name, offset, EndOf(phase, offset))]
  {
    if phases == [] {
      assert [phase][1..] == [];
      assert Bounds([], EndOf(phase, start)) == [];
    } else {
      assert (phases + [phase])[1..] == phases[1..] + [phase];
      BoundsAppend(phases[1..], EndOf(phases[0], start), phase);
    }
  }

  /** `phase_bounds`. */
  method PhaseBounds(phases: seq<Phase>) returns (bounds: seq<Bound>)
    ensures bounds == Bounds(phases, 0) && |bounds| == |phases|
    ensures bounds != [] ==> bounds[0].start == 0
    ensures forall i | 0 <= i < |phases| ::
              bounds[i].name == phases[i].name && bounds[i].end == bounds[i].start + phases[i].seconds * 1_000_000_000
    ensures forall i | 0 < i < |phases| :: bounds[i].start == bounds[i - 1].end
  {
    bounds := [];
    var offset := 0;
    for i := 0 to |phases|
      invariant bounds == Bounds(phases[..i], 0) && |bounds| == i && (i > 0 ==> bounds[0].start == 0)
      invariant forall j | 0 <= j < i ::
                  bounds[j].name == phases[j].name && bounds[j].end == bounds[j].start + phases[j].seconds * NANOSECONDS
      invariant forall j | 0 < j < i :: bounds[j].start == bounds[j - 1].end
      invariant offset == if bounds == [] then 0 else bounds[|bounds| - 1].end
    {
      assert phases[..i + 1] == phases[..i] + [phases[i]];
      BoundsAppend(phases[..i], 0, phases[i]);
      var end := offset + phases[i].seconds * NANOSECONDS;
      bounds := bounds + [Bound(phases[i].name, offset, end)];
      offset := end;
    }
    assert phases[..|phases|] == phases;
  }

  // ---------------------------------------------------------------------
  // One stream of offers

  /** The time of the `i`-th offer of a stream. */
  function TimeOf(start: int, rate: int, i: int): (at: int)
    requires rate > 0
  {
    start + i * NANOSECONDS / rate
  }

  /** The first `n` offers of a stream. */
  function Stream(name: string, start: int, rate: int, kind: Kind, n: nat): (offers: seq<Offer>)
    requires n > 0 ==> rate > 0
    ensures |offers| == n
    ensures forall i | 0 <= i < n :: offers[i] == Offer(name, TimeOf(start, rate, i), kind)
  {
    seq(n, i requires 0 <= i < n => Offer(name, TimeOf(start, rate, i), kind))
  }

  /** `range(duration * rate)`: nothing for a product that is not positive. */
  function Planned(phase: Phase, kind: Kind): (n: nat)
    requires phase.seconds > 0
    ensures n > 0 ==> phase.Rate(kind) > 0
    ensures phase.Rate(kind) >= 0 ==> n == phase.seconds * phase.Rate(kind)
    ensures phase.Rate(kind) <= 0 ==> n == 0
  {
    if phase.Rate(kind) > 0 then Times(0, phase.Rate(kind), phase.seconds); phase.seconds * phase.Rate(kind) else 0
  }

  /** `offers_at` of one phase and kind. */
  function OffersAt(phase: Phase, start: int, kind: Kind): (offers: seq<Offer>)
    requires phase.seconds > 0
  {
    Stream(phase.name, start, phase.Rate(kind), kind, Planned(phase, kind))
  }

  predicate From(offers: seq<Offer>, t: int) {
    forall i | 0 <= i < |offers| :: t <= offers[i].at
  }

  predicate Before(offers: seq<Offer>, t: int) {
    forall i | 0 <= i < |offers| :: offers[i].at < t
  }

  /** The order of `(at_ns, kind.value)`: at one time, `eventual` is before `strong` and `strong` before `write`. */
  predicate Leq(a: Offer, b: Offer) {
    a.at < b.at || (a.at == b.at && Rank(a.kind) <= Rank(b.kind))
  }

  function Rank(kind: Kind): (r: nat)
  {
    match kind case Eventual => 0 case Strong => 1 case Write => 2
  }

  predicate Follow(first: Offer, offers: seq<Offer>) {
    forall i | 0 <= i < |offers| :: Leq(first, offers[i])
  }

  predicate Sorted(offers: seq<Offer>) {
    offers == [] || (Follow(offers[0], offers) && Sorted(offers[1..]))
  }

  predicate OfKind(offers: seq<Offer>, kind: Kind) {
    forall i | 0 <= i < |offers| :: offers[i].kind == kind
  }

  predicate OfPhase(offers: seq<Offer>, name: string) {
    forall i | 0 <= i < |offers| :: offers[i].phase == name
  }

  lemma TimesGrow(start: int, rate: int, i: nat, j: nat)
    requires rate > 0 && i <= j
    ensures TimeOf(start, rate, i) <= TimeOf(start, rate, j)
  {
    Times(i, j, NANOSECONDS);
    QuotientIsMonotone(i * NANOSECONDS, j * NANOSECONDS, rate);
  }

  /** The stream's `i`-th offer is before `start + t` exactly when `i` is below the ceiling of `t * rate` per second. */
  lemma TimeBefore(start: int, rate: int, i: nat, t: int)
    requires rate > 0
    ensures TimeOf(start, rate, i) < start + t <==> i < CeilDiv(t * rate, NANOSECONDS)
  {
    FloorBelow(i * NANOSECONDS, rate, t);
    CeilAbove(i, t * rate, NANOSECONDS);
  }

  lemma StreamIsInPhase(phase: Phase, start: int, kind: Kind)
    requires phase.seconds > 0
    ensures From(OffersAt(phase, start, kind), start)
    ensures Before(OffersAt(phase, start, kind), EndOf(phase, start))
  {
    var rate, n := phase.Rate(kind), Planned(phase, kind);
    forall i | 0 <= i < n
      ensures start <= OffersAt(phase, start, kind)[i].at < EndOf(phase, start)
    {
      TimesGrow(start, rate, 0, i);
      TimeBefore(start, rate, i, phase.seconds * NANOSECONDS);
      assert phase.seconds * NANOSECONDS * rate == (phase.seconds * rate) * NANOSECONDS;
      CeilOfMultiple(phase.seconds * rate, NANOSECONDS);
    }
  }

  lemma {:induction false} SortedSuffix(name: string, start: int, rate: int, kind: Kind, n: nat, i: nat)
    requires i <= n && (n > 0 ==> rate > 0)
    ensures Sorted(Stream(name, start, rate, kind, n)[i..])
    decreases n - i
  {
    if i < n {
      var offers := Stream(name, start, rate, kind, n);
      SortedSuffix(name, start, rate, kind, n, i + 1);
      assert offers[i..][1..] == offers[i + 1..];
      forall j | 0 <= j < n - i
        ensures Leq(offers[i..][0], offers[i..][j])
      {
        TimesGrow(start, rate, i, i + j);
      }
    }
  }

  lemma StreamIsSorted(phase: Phase, start: int, kind: Kind)
    requires phase.seconds > 0
    ensures Sorted(OffersAt(phase, start, kind))
  {
    SortedSuffix(phase.name, start, phase.Rate(kind), kind, Planned(phase, kind), 0);
    assert OffersAt(phase, start, kind)[0..] == OffersAt(phase, start, kind);
  }

  // ---------------------------------------------------------------------
  // Merging the three streams

  /** The first of a nonempty stream is taken before the first of another. */
  predicate Wins(a: seq<Offer>, b: seq<Offer>) {
    a != [] && (b == [] || Leq(a[0], b[0]))
  }

  /** `heapq.merge`: the least first element of the three is next. */
  function Merge(w: seq<Offer>, s: seq<Offer>, e: seq<Offer>): (m: seq<Offer>)
    decreases |w| + |s| + |e|
  {
    if Wins(e, s) && Wins(e, w) then [e[0]] + Merge(w, s, e[1..])
    else if Wins(s, w) then [s[0]] + Merge(w, s[1..], e)
    else if w != [] then [w[0]] + Merge(w[1..], s, e)
    else []
  }

  lemma {:induction false} MergeKeeps(w: seq<Offer>, s: seq<Offer>, e: seq<Offer>, low: int, high: int, name: string)
    requires From(w, low) && From(s, low) && From(e, low)
    requires Before(w, high) && Before(s, high) && Before(e, high)
    requires OfPhase(w, name) && OfPhase(s, name) && OfPhase(e, name)
    ensures From(Merge(w, s, e), low) && Before(Merge(w, s, e), high) && OfPhase(Merge(w, s, e), name)
    decreases |w| + |s| + |e|
  {
    if Wins(e, s) && Wins(e, w) {
      MergeKeeps(w, s, e[1..], low, high, name);
    } else if Wins(s, w) {
      MergeKeeps(w, s[1..], e, low, high, name);
    } else if w != [] {
      MergeKeeps(w[1..], s, e, low, high, name);
    }
  }

  lemma {:induction false} MergeFollows(first: Offer, w: seq<Offer>, s: seq<Offer>, e: seq<Offer>)
    requires Follow(first, w) && Follow(first, s) && Follow(first, e)
    ensures Follow(first, Merge(w, s, e))
    decreases |w| + |s| + |e|
  {
    if Wins(e, s) && Wins(e, w) {
      MergeFollows(first, w, s, e[1..]);
    } else if Wins(s, w) {
      MergeFollows(first, w, s[1..], e);
    } else if w != [] {
      MergeFollows(first, w[1..], s, e);
    }
  }

  lemma PrependSorted(first: Offer, rest: seq<Offer>)
    requires Follow(first, rest) && Sorted(rest)
    ensures Sorted([first] + rest)
  {
    assert ([first] + rest)[1..] == rest;
  }

  lemma FollowLater(first: Offer, offers: seq<Offer>)
    requires Sorted(offers) && (offers != [] ==> Leq(first, offers[0]))
    ensures Follow(first, offers)
  {
  }

  /** Merging sorted streams gives a sorted stream. */
  lemma {:induction false} MergeIsSorted(w: seq<Offer>, s: seq<Offer>, e: seq<Offer>)
    requires Sorted(w) && Sorted(s) && Sorted(e)
    ensures Sorted(Merge(w, s, e))
    decreases |w| + |s| + |e|
  {
    if Wins(e, s) && Wins(e, w) {
      MergeIsSorted(w, s, e[1..]);
      FollowLater(e[0], w);
      FollowLater(e[0], s);
      MergeFollows(e[0], w, s, e[1..]);
      PrependSorted(e[0], Merge(w, s, e[1..]));
    } else if Wins(s, w) {
      MergeIsSorted(w, s[1..], e);
      FollowLater(s[0], w);
      FollowLater(s[0], e);
      MergeFollows(s[0], w, s[1..], e);
      PrependSorted(s[0], Merge(w, s[1..], e));
    } else if w != [] {
      MergeIsSorted(w[1..], s, e);
      FollowLater(w[0], s);
      FollowLater(w[0], e);
      MergeFollows(w[0], w[1..], s, e);
      PrependSorted(w[0], Merge(w[1..], s, e));
    }
  }

  /** The offers of one kind, in order. */
  function Only(offers: seq<Offer>, kind: Kind): (r: seq<Offer>)
  {
    if offers == [] then []
    else if offers[0].kind == kind then [offers[0]] + Only(offers[1..], kind)
    else Only(offers[1..], kind)
  }

  lemma OnlyPrepend(first: Offer, rest: seq<Offer>, kind: Kind)
    ensures Only([first] + rest, kind) == if first.kind == kind then [first] + Only(rest, kind) else Only(rest, kind)
  {
    assert ([first] + rest)[1..] == rest;
  }

  /** The stream of a kind among the three. */
  function Pick(w: seq<Offer>, s: seq<Offer>, e: seq<Offer>, kind: Kind): (offers: seq<Offer>)
  {
    match kind case Write => w case Strong => s case Eventual => e
  }

  /** Merging loses, adds and reorders nothing within a kind. */
  lemma {:induction false} MergeIsComplete(w: seq<Offer>, s: seq<Offer>, e: seq<Offer>, kind: Kind)
    requires OfKind(w, Write) && OfKind(s, Strong) && OfKind(e, Eventual)
    ensures Only(Merge(w, s, e), kind) == Pick(w, s, e, kind)
    decreases |w| + |s| + |e|
  {
    if Wins(e, s) && Wins(e, w) {
      MergeIsComplete(w, s, e[1..], kind);
      OnlyPrepend(e[0], Merge(w, s, e[1..]), kind);
    } else if Wins(s, w) {
      MergeIsComplete(w, s[1..], e, kind);
      OnlyPrepend(s[0], Merge(w, s[1..], e), kind);
    } else if w != [] {
      MergeIsComplete(w[1..], s, e, kind);
      OnlyPrepend(w[0], Merge(w[1..], s, e), kind);
    }
  }

  // ---------------------------------------------------------------------
  // The whole schedule

  function PhaseOffers(phase: Phase, start: int): (offers: seq<Offer>)
    requires phase.seconds > 0
  {
    Merge(OffersAt(phase, start, Write), OffersAt(phase, start, Strong), OffersAt(phase, start, Eventual))
  }

  predicate Lasting(phases: seq<Phase>) {
    forall i | 0 <= i < |phases| :: phases[i].seconds > 0
  }

  /** `schedule` of the phases from a start offset. */
  function Offers(phases: seq<Phase>, start: int): (offers: seq<Offer>)
    requires Lasting(phases)
  {
    if phases == [] then [] else PhaseOffers(phases[0], start) + Offers(phases[1..], EndOf(phases[0], start))
  }

  lemma PhaseIsKept(phase: Phase, start: int)
    requires phase.seconds > 0
    ensures From(PhaseOffers(phase, start), start)
    ensures Before(PhaseOffers(phase, start), EndOf(phase, start))
    ensures OfPhase(PhaseOffers(phase, start), phase.name)
    ensures Sorted(PhaseOffers(phase, start))
  {
    hide From, Before, Sorted, Merge;
    var w, s, e := OffersAt(phase, start, Write), OffersAt(phase, start, Strong), OffersAt(phase, start, Eventual);
    StreamIsInPhase(phase, start, Write);
    StreamIsInPhase(phase, start, Strong);
    StreamIsInPhase(phase, start, Eventual);
    MergeKeeps(w, s, e, start, EndOf(phase, start), phase.name);
    StreamIsSorted(phase, start, Write);
    StreamIsSorted(phase, start, Strong);
    StreamIsSorted(phase, start, Eventual);
    MergeIsSorted(w, s, e);
  }

  lemma {:induction false} JoinSorted(a: seq<Offer>, b: seq<Offer>, t: int)
    requires Sorted(a) && Sorted(b) && Before(a, t) && From(b, t)
    ensures Sorted(a + b)
  {
    if a == [] {
      assert a + b == b;
    } else {
      JoinSorted(a[1..], b, t);
      assert a + b == [a[0]] + (a[1..] + b);
      PrependSorted(a[0], a[1..] + b);
    }
  }

  /** The merged multi-phase schedule is sorted by time and kind, so it never goes back in time. */
  lemma {:induction false} ScheduleIsSorted(phases: seq<Phase>, start: int)
    requires Lasting(phases)
    ensures Sorted(Offers(phases, start)) && From(Offers(phases, start), start)
  {
    if phases != [] {
      var end := EndOf(phases[0], start);
      PhaseIsKept(phases[0], start);
      ScheduleIsSorted(phases[1..], end);
      JoinSorted(PhaseOffers(phases[0], start), Offers(phases[1..], end), end);
    }
  }

  lemma {:induction false} SortedAt(offers: seq<Offer>, i: nat, j: nat)
    requires Sorted(offers) && i < j < |offers|
    ensures Leq(offers[i], offers[j])
  {
    if i > 0 {
      SortedAt(offers[1..], i - 1, j - 1);
    }
  }

  /** The schedule's order: by time, and at one time eventual searches before strong ones and those before writes. */
  lemma ScheduleIsOrdered(phases: seq<Phase>, start: int, i: nat, j: nat)
    requires Lasting(phases) && i < j < |Offers(phases, start)|
    ensures var a, b := Offers(phases, start)[i], Offers(phases, start)[j];
            && start <= a.at <= b.at
            && (a.at == b.at && b.kind == Eventual ==> a.kind == Eventual)
            && (a.at == b.at && b.kind == Strong ==> a.kind != Write)
  {
    ScheduleIsSorted(phases, start);
    SortedAt(Offers(phases, start), i, j);
  }

  // ---------------------------------------------------------------------
  // Phase attribution

  /** The summary's phase of a time: the first whose interval holds it. */
  function PhaseAt(bounds: seq<Bound>, at: int): (name: Option<string>)
  {
    if bounds == [] then None
    else if bounds[0].start <= at < bounds[0].end then Some(bounds[0].name)
    else PhaseAt(bounds[1..], at)
  }

  predicate Holds(bound: Bound, at: int) {
    bound.start <= at < bound.end
  }

  lemma {:induction false} LaterBounds(phases: seq<Phase>, start: int, at: int, j: nat)
    requires Lasting(phases) && at < start && j < |phases|
    ensures !Holds(Bounds(phases, start)[j], at)
  {
    if j > 0 {
      LaterBounds(phases[1..], EndOf(phases[0], start), at, j - 1);
    }
  }

  /** Every offer lies in exactly one phase's interval, its own, and the summary's lookup finds it. */
  lemma {:induction false} OfferIsInOnePhase(phases: seq<Phase>, start: int, k: nat) returns (p: nat)
    requires Lasting(phases) && k < |Offers(phases, start)|
    ensures var offer := Offers(phases, start)[k];
            && p < |phases| && phases[p].name == offer.phase
            && (forall j | 0 <= j < |phases| :: Holds(Bounds(phases, start)[j], offer.at) <==> j == p)
            && PhaseAt(Bounds(phases, start), offer.at) == Some(offer.phase)
  {
    var first, end := PhaseOffers(phases[0], start), EndOf(phases[0], start);
    var bounds, rest := Bounds(phases, start), Bounds(phases[1..], end);
    PhaseIsKept(phases[0], start);
    assert bounds[1..] == rest;
    if k < |first| {
      p := 0;
      assert Offers(phases, start)[k] == first[k];
      forall j | 1 <= j < |phases|
        ensures !Holds(bounds[j], first[k].at)
      {
        LaterBounds(phases[1..], end, first[k].at, j - 1);
      }
    } else {
      var later := Offers(phases[1..], end);
      assert Offers(phases, start)[k] == later[k - |first|];
      var q := OfferIsInOnePhase(phases[1..], end, k - |first|);
      p := q + 1;
      ScheduleIsSorted(phases[1..], end);
      assert forall j | 1 <= j < |phases| :: bounds[j] == rest[j - 1];
    }
  }

  // ---------------------------------------------------------------------
  // No drift

  /** How many offers of a kind are before a time. */
  function CountBefore(offers: seq<Offer>, kind: Kind, t: int): (n: nat)
  {
    if offers == [] then 0 else
    var last := offers[|offers| - 1];
    var before := CountBefore(offers[..|offers| - 1], kind, t);
    if last.kind == kind && last.at < t then before + 1 else before
  }

  function Least(a: int, b: int): (c: int)
    ensures c <= a && c <= b && (c == a || c == b)
  {
    if a <= b then a else b
  }

  lemma {:induction false} StreamCount(name: string, start: int, rate: int, kind: Kind, n: nat, t: int)
    requires n > 0 ==> rate > 0
    requires t >= 0
    ensures rate > 0 ==>
            CountBefore(Stream(name, start, rate, kind, n), kind, start + t) == Least(n, CeilDiv(t * rate, NANOSECONDS))
    ensures rate <= 0 ==> CountBefore(Stream(name, start, rate, kind, n), kind, start + t) == 0
  {
    if n == 0 {
      if rate > 0 {
        Times(0, t, rate);
        CeilAbove(-1, t * rate, NANOSECONDS);
      }
    } else {
      StreamCount(name, start, rate, kind, n - 1, t);
      var offers := Stream(name, start, rate, kind, n);
      assert offers[..n - 1] == Stream(name, start, rate, kind, n - 1);
      TimeBefore(start, rate, n - 1, t);
    }
  }

  lemma {:induction false} CountJoins(a: seq<Offer>, b: seq<Offer>, kind: Kind, t: int)
    ensures CountBefore(a + b, kind, t) == CountBefore(a, kind, t) + CountBefore(b, kind, t)
  {
    if b == [] {
      assert a + b == a;
    } else {
      assert (a + b)[..|a + b| - 1] == a + b[..|b| - 1];
      CountJoins(a, b[..|b| - 1], kind, t);
    }
  }

  lemma {:induction false} CountOnly(offers: seq<Offer>, kind: Kind, t: int)
    ensures CountBefore(offers, kind, t) == CountBefore(Only(offers, kind), kind, t)
  {
    if offers != [] {
      CountOnly(offers[1..], kind, t);
      assert offers == [offers[0]] + offers[1..];
      CountJoins([offers[0]], offers[1..], kind, t);
      CountJoins([offers[0]], Only(offers[1..], kind), kind, t);
      assert [offers[0]][..0] == [];
      assert CountBefore([], kind, t) == 0;
    }
  }

  /** The offers of a kind in a phase's schedule are that kind's stream. */
  lemma PhaseStream(phase: Phase, start: int, kind: Kind)
    requires phase.seconds > 0
    ensures Only(PhaseOffers(phase, start), kind) == OffersAt(phase, start, kind)
  {
    var w, s, e := OffersAt(phase, start, Write), OffersAt(phase, start, Strong), OffersAt(phase, start, Eventual);
    MergeIsComplete(w, s, e, kind);
  }

  lemma KindDrift(phase: Phase, start: int, kind: Kind, t: nat)
    requires phase.seconds > 0 && phase.Rate(kind) >= 0
    ensures CountBefore(PhaseOffers(phase, start), kind, start + t)
         == Least(phase.seconds * phase.Rate(kind), CeilDiv(t * phase.Rate(kind), NANOSECONDS))
  {
    var rate := phase.Rate(kind);
    PhaseStream(phase, start, kind);
    CountOnly(PhaseOffers(phase, start), kind, start + t);
    StreamCount(phase.name, start, rate, kind, Planned(phase, kind), t);
    if rate == 0 {
      CeilOfMultiple(0, NANOSECONDS);
      assert t * rate == 0 && phase.seconds * rate == 0;
    }
  }

  /** Offers in the first `t` nanoseconds of a phase: the rate's share, rounded up, until all are offered. */
  predicate OnPace(n: nat, seconds: int, rate: int, t: nat) {
    n == Least(seconds * rate, CeilDiv(t * rate, 1_000_000_000))
  }

  /**
   No drift: strictly before `t` nanoseconds into a phase, each kind has been
   offered as often as its own rate says, rounded up, until all are offered.
   */
  lemma NoDrift(phase: Phase, start: int, t: nat)
    requires phase.seconds > 0
    ensures var offers, now := PhaseOffers(phase, start), start + t;
            && (phase.write >= 0 ==> OnPace(CountBefore(offers, Write, now), phase.seconds, phase.write, t))
            && (phase.strong >= 0 ==> OnPace(CountBefore(offers, Strong, now), phase.seconds, phase.strong, t))
            && (phase.eventual >= 0 ==> OnPace(CountBefore(offers, Eventual, now), phase.seconds, phase.eventual, t))
  {
    hide PhaseOffers, CountBefore;
    if phase.write >= 0 { KindDrift(phase, start, Write, t); }
    if phase.strong >= 0 { KindDrift(phase, start, Strong, t); }
    if phase.eventual >= 0 { KindDrift(phase, start, Eventual, t); }
  }

  /** In one whole second of a phase, `rate` offers of the kind, and `seconds * rate` in all. */
  ghost predicate Even(phase: Phase, start: int, kind: Kind, rate: int, second: nat)
    requires phase.seconds > 0
  {
    var offers := PhaseOffers(phase, start);
    && CountBefore(offers, kind, start + (second + 1) * 1_000_000_000)
       == CountBefore(offers, kind, start + second * 1_000_000_000) + rate
    && |Only(offers, kind)| == phase.seconds * rate
  }

  /** Every whole second of a phase gets exactly each kind's own rate, and the phase rate times duration. */
  lemma EverySecondIsEven(phase: Phase, start: int, second: nat)
    requires second < phase.seconds
    ensures phase.write >= 0 ==> Even(phase, start, Write, phase.write, second)
    ensures phase.strong >= 0 ==> Even(phase, start, Strong, phase.strong, second)
    ensures phase.eventual >= 0 ==> Even(phase, start, Eventual, phase.eventual, second)
  {
    hide Even;
    if phase.write >= 0 { KindIsEven(phase, start, Write, second); }
    if phase.strong >= 0 { KindIsEven(phase, start, Strong, second); }
    if phase.eventual >= 0 { KindIsEven(phase, start, Eventual, second); }
  }

  lemma KindIsEven(phase: Phase, start: int, kind: Kind, second: nat)
    requires phase.Rate(kind) >= 0 && second < phase.seconds
    ensures Even(phase, start, kind, phase.Rate(kind), second)
  {
    hide PhaseOffers, CountBefore;
    var rate := phase.Rate(kind);
    SecondCount(phase, start, kind, second);
    SecondCount(phase, start, kind, second + 1);
    PhaseStream(phase, start, kind);
    assert (second + 1) * rate == second * rate + rate;
  }

  lemma SecondCount(phase: Phase, start: int, kind: Kind, second: nat)
    requires phase.Rate(kind) >= 0 && second <= phase.seconds && phase.seconds > 0
    ensures CountBefore(PhaseOffers(phase, start), kind, start + second * NANOSECONDS) == second * phase.Rate(kind)
  {
    hide PhaseOffers, CountBefore;
    var rate := phase.Rate(kind);
    KindDrift(phase, start, kind, second * NANOSECONDS);
    assert second * NANOSECONDS * rate == (second * rate) * NANOSECONDS;
    CeilOfMultiple(second * rate, NANOSECONDS);
    if rate > 0 {
      Times(second, phase.seconds, rate);
    }
  }
}
