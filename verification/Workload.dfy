/** The trace generator: what a specification must satisfy, the trace it numbers, and which entities it writes. */
module Workload {
  import opened Wrappers
  import opened Arithmetic
  import opened Ledger
  import opened Schedule

  const MAX_TOP_K := 800

  datatype Spec = Spec(
    randomSeed: int,
    hotEntities: int,
    topK: int,
    insertPercent: int,
    removePercent: int,
    deletePercent: int,
    hotPercent: int,
    phases: seq<Phase>)

  // ---------------------------------------------------------------------
  // Validation

  predicate Percent(n: int) {
    0 <= n <= 100
  }

  predicate Warmup(name: string) {
    "warmup" <= name
  }

  /**
   `any(integer(rate) for kind in Kind)` looks at the rates in the order write,
   strong, eventual, raises at a negative one and stops at a positive one.
   */
  predicate OffersWork(phase: Phase) {
    phase.write > 0 || (phase.write == 0 && (phase.strong > 0 || (phase.strong == 0 && phase.eventual > 0)))
  }

  predicate ValidNumbers(spec: Spec) {
    && spec.randomSeed >= 0 && spec.hotEntities >= 1 && 1 <= spec.topK <= 800
    && Percent(spec.insertPercent) && Percent(spec.removePercent)
    && Percent(spec.deletePercent) && Percent(spec.hotPercent)
    && spec.insertPercent + spec.removePercent + spec.deletePercent <= 100
  }

  predicate ValidPhase(phase: Phase) {
    phase.name != "" && phase.seconds >= 1 && OffersWork(phase)
  }

  predicate ValidPhases(phases: seq<Phase>) {
    && (forall i | 0 <= i < |phases| :: ValidPhase(phases[i]))
    && (forall i, j | 0 <= i < j < |phases| :: phases[i].name != phases[j].name)
    && (forall i, j | 0 <= i < j < |phases| :: Warmup(phases[j].name) ==> Warmup(phases[i].name))
  }

  /** A well-formed specification: warm-ups come first, and something is measured. */
  predicate ValidSpec(spec: Spec) {
    && ValidNumbers(spec) && spec.phases != [] && ValidPhases(spec.phases)
    && exists i | 0 <= i < |spec.phases| :: !Warmup(spec.phases[i].name)
  }

  /** `name.startswith("warmup")`. */
  method IsWarmup(name: string) returns (r: bool)
    ensures r <==> Warmup(name)
  {
    r := |name| >= 6 && name[..6] == "warmup";
  }

  /** Whether `any` finds a rate; false stands also for the error it raises at a negative one. */
  method Offering(phase: Phase) returns (r: bool)
    ensures r <==> OffersWork(phase)
  {
    var rates := [phase.write, phase.strong, phase.eventual];
    for i := 0 to 3
      invariant forall j | 0 <= j < i :: rates[j] == 0
    {
      assert (i > 0 ==> rates[0] == 0) && (i > 1 ==> rates[1] == 0);
      if rates[i] < 0 {
        return false;
      }
      if rates[i] > 0 {
        return true;
      }
    }
    assert rates[0] == rates[1] == rates[2] == 0;
    return false;
  }

  /** `validate`. */
  method Validate(spec: Spec) returns (ok: bool)
    ensures ok <==> ValidSpec(spec)
  {
    hide Warmup, OffersWork;
    if spec.randomSeed < 0 || spec.hotEntities < 1 || spec.topK < 1 || spec.topK > MAX_TOP_K {
      return false;
    }
    var percents := [spec.insertPercent, spec.removePercent, spec.deletePercent, spec.hotPercent];
    for i := 0 to 4
      invariant forall j | 0 <= j < i :: Percent(percents[j])
    {
      if percents[i] < 0 || percents[i] > 100 {
        assert !Percent(percents[i]);
        return false;
      }
    }
    assert Percent(percents[0]) && Percent(percents[1]) && Percent(percents[2]) && Percent(percents[3]);
    if spec.insertPercent + spec.removePercent + spec.deletePercent > 100 || spec.phases == [] {
      return false;
    }
    var phases := spec.phases;
    var names: set<string> := {};
    var measured := false;
    for n := 0 to |phases|
      invariant ValidPhases(phases[..n])
      invariant forall i | 0 <= i < n :: phases[i].name in names
      invariant forall name | name in names :: exists i | 0 <= i < n :: phases[i].name == name
      invariant measured <==> exists i | 0 <= i < n :: !Warmup(phases[i].name)
    {
      var phase := phases[n];
      if phase.name == "" || phase.name in names {
        return false;
      }
      names := names + {phase.name};
      var warmup := IsWarmup(phase.name);
      if warmup && measured {
        return false;
      }
      measured := measured || !warmup;
      var offers := Offering(phase);
      if phase.seconds < 1 || !offers {
        return false;
      }
    }
    assert phases[..|phases|] == phases;
    return measured;
  }

  /** A valid phase has a negative rate exactly when a positive one stops the check before it. */
  lemma NegativeRateIff(phase: Phase)
    requires ValidPhase(phase)
    ensures phase.write < 0 || phase.strong < 0 || phase.eventual < 0 <==>
            || (phase.write > 0 && (phase.strong < 0 || phase.eventual < 0))
            || (phase.write == 0 && phase.strong > 0 && phase.eventual < 0)
  {
    assert phase.Rate(Write) == phase.write;
  }

  /** Nothing is offered of a kind whose rate is negative. */
  lemma NegativeRateOffersNothing(phase: Phase, start: int)
    requires ValidPhase(phase)
    ensures phase.strong < 0 ==> Only(PhaseOffers(phase, start), Strong) == []
    ensures phase.eventual < 0 ==> Only(PhaseOffers(phase, start), Eventual) == []
    ensures phase.write >= 0
  {
    hide PhaseOffers;
    PhaseStream(phase, start, Strong);
    PhaseStream(phase, start, Eventual);
  }

  /** A specification whose negative rate passes validation. */
  lemma NegativeRatePasses() returns (spec: Spec)
    ensures ValidSpec(spec) && spec.phases != [] && spec.phases[0].strong < 0
  {
    var phase := Phase("steady", 1, 1, -1, 0);
    spec := Spec(0, 1, 1, 0, 0, 0, 0, [phase]);
    assert !Warmup(spec.phases[0].name) by { assert phase.name[0] == 's'; }
    assert ValidPhase(phase);
  }

  lemma ValidLasts(phases: seq<Phase>)
    requires ValidPhases(phases)
    ensures Lasting(phases)
  {
    assert forall i | 0 <= i < |phases| :: ValidPhase(phases[i]);
  }

  lemma WorkIsOffered(phase: Phase, start: int)
    requires ValidPhase(phase)
    ensures PhaseOffers(phase, start) != []
  {
    hide PhaseOffers;
    var kind := if phase.write > 0 then Write else if phase.strong > 0 then Strong else Eventual;
    PhaseStream(phase, start, kind);
    Times(1, phase.Rate(kind), phase.seconds);
    assert OffersAt(phase, start, kind) != [];
    assert Only([], kind) == [];
  }

  /** A valid specification offers at least one request. */
  lemma SomethingIsOffered(spec: Spec)
    requires ValidSpec(spec)
    ensures Lasting(spec.phases) && Offers(spec.phases, 0) != []
  {
    hide PhaseOffers;
    ValidLasts(spec.phases);
    WorkIsOffered(spec.phases[0], 0);
  }

  // ---------------------------------------------------------------------
  // The numbered trace and its reader

  datatype Row = Row(id: int, at: int, kind: Kind)

  /** Contiguous identities from zero and times that never go back. */
  predicate InOrder(rows: seq<Row>) {
    forall i | 0 <= i < |rows| :: RowInOrder(rows, i)
  }

  predicate RowInOrder(rows: seq<Row>, i: nat)
    requires i < |rows|
  {
    rows[i].id == i && rows[i].at >= 0 && (i > 0 ==> rows[i].at >= rows[i - 1].at)
  }

  /** The replay's reader: the rows it yields before it stops, and whether it read them all. */
  method ReadOffers(rows: seq<Row>) returns (offers: seq<Row>, ok: bool)
    ensures ok <==> InOrder(rows)
    ensures offers <= rows && InOrder(offers)
    ensures ok ==> offers == rows
    ensures !ok ==> |offers| < |rows| && !RowInOrder(rows, |offers|)
  {
    offers := [];
    var previous, identity := 0, 0;
    for i := 0 to |rows|
      invariant offers == rows[..i] && InOrder(offers)
      invariant identity == i && previous == if i == 0 then 0 else rows[i - 1].at
    {
      var row := rows[i];
      if row.id < 0 || row.at < 0 || row.id != identity || row.at < previous {
        assert !RowInOrder(rows, i);
        return offers, false;
      }
      identity := identity + 1;
      previous := row.at;
      InOrderAppend(offers, row);
      offers := offers + [row];
    }
    assert rows[..|rows|] == rows;
    return offers, true;
  }

  lemma InOrderAppend(rows: seq<Row>, row: Row)
    requires InOrder(rows)
    requires row.id == |rows| && row.at >= 0 && (rows != [] ==> row.at >= rows[|rows| - 1].at)
    ensures InOrder(rows + [row])
  {
    forall i | 0 <= i < |rows + [row]|
      ensures RowInOrder(rows + [row], i)
    {
      assert i < |rows| ==> RowInOrder(rows, i);
    }
  }

  /** The rows `generate` writes. */
  function Trace(offers: seq<Offer>): (rows: seq<Row>)
    ensures |rows| == |offers|
    ensures forall i | 0 <= i < |offers| :: rows[i] == Row(i, offers[i].at, offers[i].kind)
  {
    seq(|offers|, i requires 0 <= i < |offers| => Row(i, offers[i].at, offers[i].kind))
  }

  lemma {:induction false} NeverBack(offers: seq<Offer>, i: nat)
    requires Sorted(offers) && i + 1 < |offers|
    ensures offers[i].at <= offers[i + 1].at
  {
    if i > 0 {
      NeverBack(offers[1..], i - 1);
    }
  }

  /** Every valid specification's trace passes the replay reader. */
  lemma TraceIsReadable(spec: Spec)
    requires ValidSpec(spec)
    ensures Lasting(spec.phases) && InOrder(Trace(Offers(spec.phases, 0)))
  {
    ValidLasts(spec.phases);
    ScheduleIsSorted(spec.phases, 0);
    var offers := Offers(spec.phases, 0);
    forall i | 0 <= i < |offers|
      ensures RowInOrder(Trace(offers), i)
    {
      if i > 0 {
        NeverBack(offers, i - 1);
      }
    }
  }

  // ---------------------------------------------------------------------
  // Which entities are written

  /** The numbers one offer's random choices draw; each is reduced to the range asked for. */
  datatype Draws = Draws(source: nat, roll: nat, quarter: nat, revisit: nat, heat: nat, pick: nat)

  datatype Operation =
    | Search
    | Insert(ordinal: int)
    | Delete(ordinal: int)
    | Remove(ordinal: int)
    | Update(ordinal: int, source: int)

  /** A random integer below `n`; an empty range raises. */
  function Below(draw: nat, n: int): (k: int)
    requires n > 0
    ensures 0 <= k < n
  {
    draw % n
  }

  /** A seed entity that an operation looks up by ordinal. */
  predicate LooksUp(op: Operation) {
    op.Delete? || op.Remove? || op.Update?
  }

  predicate InCohort(op: Operation, rows: int, deleteStart: int) {
    match op
    case Search => true
    case Insert(ordinal) => ordinal >= rows
    case Delete(ordinal) => deleteStart <= ordinal < rows
    case Remove(ordinal) => 0 <= ordinal < deleteStart
    case Update(ordinal, source) => 0 <= ordinal < deleteStart && 0 <= source < rows
  }

  /** The ordinals inserted, in order. */
  function Inserted(ops: seq<Operation>): (ordinals: seq<int>)
  {
    if ops == [] then [] else
    var front := Inserted(ops[..|ops| - 1]);
    var last := ops[|ops| - 1];
    if last.Insert? then front + [last.ordinal] else front
  }

  function Deletes(ops: seq<Operation>): (n: nat)
  {
    if ops == [] then 0 else
    var front := Deletes(ops[..|ops| - 1]);
    if ops[|ops| - 1].Delete? then front + 1 else front
  }

  /**
   Where an operation lands in its cohort: a quarter of deletes revisit its
   front and the others go round it; a share of the rest are hot; a quarter of
   updates restore the entity's own document.
   */
  predicate Placed(op: Operation, draw: Draws, spec: Spec, rows: int, deleted: nat)
    requires rows * 3 / 4 < rows
  {
    var deleteStart := rows * 3 / 4;
    match op
    case Search => true
    case Insert(_) => true
    case Delete(ordinal) =>
      if draw.quarter % 4 == 0 then ordinal < deleteStart + spec.hotEntities
      else ordinal == deleteStart + deleted % (rows - deleteStart)
    case Remove(ordinal) => ordinal < spec.hotEntities <==> draw.heat % 100 < spec.hotPercent
    case Update(ordinal, source) =>
      && (ordinal < spec.hotEntities <==> draw.heat % 100 < spec.hotPercent)
      && source == if draw.quarter % 4 == 0 then ordinal else draw.source % rows
  }

  /** The write the roll selects: the percentages partition `0..99`. */
  function Rolled(spec: Spec, roll: int): (name: string)
  {
    var insertEnd := spec.insertPercent;
    var removeEnd := insertEnd + spec.removePercent;
    var deleteEnd := removeEnd + spec.deletePercent;
    if roll < insertEnd then "insert"
    else if roll < removeEnd then "remove"
    else if roll < deleteEnd then "delete"
    else "update"
  }

  /** How many of the rolls below `n` select a write. */
  function Rolls(spec: Spec, name: string, n: nat): (count: nat)
  {
    if n == 0 then 0 else Rolls(spec, name, n - 1) + if Rolled(spec, n - 1) == name then 1 else 0
  }

  /** How much of `0..n` lies between two bounds. */
  function Between(n: int, low: int, high: int): (count: int)
  {
    if n <= low then 0 else if n <= high then n - low else high - low
  }

  lemma {:induction false} RollsBelow(spec: Spec, n: nat)
    requires ValidNumbers(spec) && n <= 100
    ensures var a := spec.insertPercent;
            var b := a + spec.removePercent;
            var c := b + spec.deletePercent;
            && Rolls(spec, "insert", n) == Between(n, 0, a) && Rolls(spec, "remove", n) == Between(n, a, b)
            && Rolls(spec, "delete", n) == Between(n, b, c) && Rolls(spec, "update", n) == Between(n, c, 100)
  {
    if n > 0 {
      RollsBelow(spec, n - 1);
      var first := Rolled(spec, n - 1)[0];
      assert first == 'i' || first == 'r' || first == 'd' || first == 'u';
    }
  }

  /** Of the rolls 0 to 99, each write is selected by exactly its percentage, and updates by what is left. */
  lemma RollsAreShared(spec: Spec)
    requires ValidNumbers(spec)
    ensures Rolls(spec, "insert", 100) == spec.insertPercent && Rolls(spec, "remove", 100) == spec.removePercent
    ensures Rolls(spec, "delete", 100) == spec.deletePercent
    ensures Rolls(spec, "update", 100) == 100 - spec.insertPercent - spec.removePercent - spec.deletePercent
  {
    hide Rolls;
    RollsBelow(spec, 100);
  }

  predicate IsNamed(op: Operation, name: string) {
    match op
    case Search => false
    case Insert(_) => name == "insert"
    case Delete(_) => name == "delete"
    case Remove(_) => name == "remove"
    case Update(_, _) => name == "update"
  }

  /** The offers of one kind and one place in the trace get the operation their draws select. */
  predicate Follows(op: Operation, kind: Kind, draw: Draws, spec: Spec, rows: int, deleted: nat)
    requires rows * 3 / 4 < rows
  {
    && InCohort(op, rows, rows * 3 / 4) && Placed(op, draw, spec, rows, deleted)
    && if kind == Write then IsNamed(op, Rolled(spec, draw.roll % 100)) else op == Search
  }

  /** One write, given how many were inserted and deleted before it. */
  method ChooseWrite(spec: Spec, rows: nat, draw: Draws, inserted: nat, deleted: nat) returns (op: Operation)
    requires ValidSpec(spec) && spec.hotEntities < rows * 3 / 4 < rows
    ensures Follows(op, Write, draw, spec, rows, deleted)
    ensures op.Insert? ==> op.ordinal == rows + inserted
  {
    var deleteStart := rows * 3 / 4;
    var hot := spec.hotEntities;
    var source := Below(draw.source, rows);
    var name := Rolled(spec, Below(draw.roll, 100));
    if name == "insert" {
      return Insert(rows + inserted);
    } else if name == "delete" {
      var cohort := rows - deleteStart;
      var offset := if Below(draw.quarter, 4) == 0
                    then Below(draw.revisit, if hot < cohort then hot else cohort)
                    else deleted % cohort;
      return Delete(deleteStart + offset);
    }
    var ordinal := if Below(draw.heat, 100) < spec.hotPercent
                   then Below(draw.pick, hot)
                   else hot + Below(draw.pick, deleteStart - hot);
    if name == "remove" {
      return Remove(ordinal);
    }
    return Update(ordinal, if Below(draw.quarter, 4) == 0 then ordinal else source);
  }

  /** The cohort loop of `generate`, for every outcome of the random choices. */
  method Generate(spec: Spec, rows: nat, kinds: seq<Kind>, draws: seq<Draws>) returns (ops: Option<seq<Operation>>)
    requires ValidSpec(spec) && |draws| == |kinds|
    ensures ops.Some? <==> spec.hotEntities < rows * 3 / 4 < rows
    ensures ops.Some? ==> |ops.value| == |kinds|
    ensures ops.Some? ==> forall i | 0 <= i < |kinds| ::
              Follows(ops.value[i], kinds[i], draws[i], spec, rows, Deletes(ops.value[..i]))
    ensures ops.Some? ==> forall k | 0 <= k < |Inserted(ops.value)| :: Inserted(ops.value)[k] == rows + k
    ensures ops.Some? ==> Disjoint(ops.value) && InSeed(ops.value, rows)
  {
    hide ValidSpec, InCohort, Placed, IsNamed, Rolled, Disjoint, InSeed;
    if !(spec.hotEntities < rows * 3 / 4 < rows) {
      return None;
    }
    var done: seq<Operation> := [];
    var inserted, deleted := 0, 0;
    for i := 0 to |kinds|
      invariant |done| == i
      invariant inserted == |Inserted(done)| && deleted == Deletes(done)
      invariant forall k | 0 <= k < inserted :: Inserted(done)[k] == rows + k
      invariant forall j | 0 <= j < i :: Follows(done[j], kinds[j], draws[j], spec, rows, Deletes(done[..j]))
    {
      var op := Search;
      if kinds[i] == Write {
        op := ChooseWrite(spec, rows, draws[i], inserted, deleted);
        inserted := if op.Insert? then inserted + 1 else inserted;
        deleted := if op.Delete? then deleted + 1 else deleted;
      } else {
        SearchFollows(kinds[i], draws[i], spec, rows, deleted);
      }
      assert (done + [op])[..i] == done;
      assert forall j | 0 <= j < i :: (done + [op])[..j] == done[..j];
      done := done + [op];
    }
    CohortsAreDisjoint(done, kinds, draws, spec, rows);
    return Some(done);
  }

  /** No update or removal targets an entity that any delete targets. */
  predicate Disjoint(ops: seq<Operation>) {
    forall i, j | 0 <= i < |ops| && 0 <= j < |ops| ::
      (ops[i].Remove? || ops[i].Update?) && ops[j].Delete? ==> ops[i].ordinal != ops[j].ordinal
  }

  /** Every entity looked up is one of the seed's. */
  predicate InSeed(ops: seq<Operation>, rows: int) {
    forall i | 0 <= i < |ops| :: LooksUp(ops[i]) ==> 0 <= ops[i].ordinal < rows
  }

  lemma CohortsAreDisjoint(ops: seq<Operation>, kinds: seq<Kind>, draws: seq<Draws>, spec: Spec, rows: nat)
    requires |ops| == |kinds| == |draws| && rows * 3 / 4 < rows
    requires forall i | 0 <= i < |ops| :: Follows(ops[i], kinds[i], draws[i], spec, rows, Deletes(ops[..i]))
    ensures Disjoint(ops) && InSeed(ops, rows)
  {
    hide Placed, IsNamed, Rolled, Deletes;
    forall i | 0 <= i < |ops|
      ensures InCohort(ops[i], rows, rows * 3 / 4)
    {
      assert Follows(ops[i], kinds[i], draws[i], spec, rows, Deletes(ops[..i]));
    }
  }

  lemma SearchFollows(kind: Kind, draw: Draws, spec: Spec, rows: int, deleted: nat)
    requires kind != Write && rows * 3 / 4 < rows
    ensures Follows(Search, kind, draw, spec, rows, deleted)
  {
  }
}
