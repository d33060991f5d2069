/**
 The request ledger: the outcome of one request, the records a replay writes,
 and the reader that a summary trusts.
 */
module Ledger {
  import opened Wrappers
  import opened Counting
  import opened Sorting

  datatype Kind = Write | Strong | Eventual

  datatype Outcome =
    | Acknowledged | SearchOk | Conflict | Backpressure | Rejected | UnknownWrite
    | HttpError | RequestError | Timeout | ClientOverload

  function Outcomes(kind: Kind): (known: set<Outcome>)
  {
    if kind == Write
    then {Acknowledged, Conflict, Backpressure, Rejected, UnknownWrite, Timeout, ClientOverload}
    else {SearchOk, Conflict, Backpressure, HttpError, RequestError, Timeout, ClientOverload}
  }

  datatype Flag = Absent | True | NotTrue

  /** What came back for one request: a transport or decoding failure, or a JSON object. */
  datatype Reply =
    | Broken(timedOut: bool)
    | Answered(status: int, error: string, retryable: Flag)

  function Classify(kind: Kind, reply: Reply): (outcome: Outcome)
    ensures outcome in Outcomes(kind) && outcome != ClientOverload
    ensures outcome in {Acknowledged, SearchOk} <==> reply.Answered? && reply.status == 200
    ensures outcome == Rejected ==> reply.Answered? && 400 <= reply.status < 500
    ensures kind == Write && reply.Answered? && !(400 <= reply.status < 500) && reply.status != 200 ==>
            outcome == UnknownWrite
  {
    match reply
    case Broken(timedOut) => if timedOut then Timeout else if kind == Write then UnknownWrite else RequestError
    case Answered(status, error, retryable) =>
      if status == 200 then if kind == Write then Acknowledged else SearchOk
      else if status == 409 && error == "transaction_conflict" && retryable != NotTrue then Conflict
      else if status == 429 && error == "index_backpressure" && retryable == True then Backpressure
      else if kind != Write then HttpError
      else if 400 <= status < 500 then Rejected
      else UnknownWrite
  }

  predicate Status(reply: Reply, low: int, high: int) {
    reply.Answered? && low <= reply.status < high
  }

  predicate IsConflict(reply: Reply) {
    Status(reply, 409, 410) && reply.error == "transaction_conflict" && reply.retryable != NotTrue
  }

  predicate IsBackpressure(reply: Reply) {
    Status(reply, 429, 430) && reply.error == "index_backpressure" && reply.retryable == True
  }

  /**
   What each recorded outcome says about the reply; the outcomes of a kind
   exclude each other and cover every reply.
   */
  lemma OutcomeMeans(kind: Kind, reply: Reply)
    ensures var outcome := Classify(kind, reply);
            && (outcome == Conflict <==> IsConflict(reply))
            && (outcome == Backpressure <==> IsBackpressure(reply))
            && (outcome == Timeout <==> reply == Broken(true))
            && (outcome == RequestError <==> kind != Write && reply == Broken(false))
            && (outcome == Rejected <==>
                  kind == Write && Status(reply, 400, 500) && !IsConflict(reply) && !IsBackpressure(reply))
            && (outcome == HttpError <==>
                  kind != Write && reply.Answered? && reply.status != 200
                  && !IsConflict(reply) && !IsBackpressure(reply))
            && (outcome == UnknownWrite <==>
                  kind == Write
                  && (reply == Broken(false) || (reply.Answered? && reply.status != 200 && !Status(reply, 400, 500))))
  {
    if reply.Answered? && reply.status == 409 {
      assert reply.status != 429;
    }
  }

  /** The reply says whether the request was carried out: it succeeded, or the server refused it. */
  predicate Settles(reply: Reply) {
    reply.Answered? && (reply.status == 200 || 400 <= reply.status < 500)
  }

  /** A write is counted as uncertain exactly when its reply leaves open whether it was carried out. */
  lemma UncertainWrites(reply: Reply)
    ensures Classify(Write, reply) in {UnknownWrite, Timeout} <==> !Settles(reply)
    ensures Classify(Write, reply) in {Acknowledged, Conflict, Backpressure, Rejected} <==> Settles(reply)
  {
    OutcomeMeans(Write, reply);
  }

  /** A reply that gives an outcome. */
  function Giving(outcome: Outcome): (reply: Reply)
  {
    match outcome
    case Timeout => Broken(true)
    case UnknownWrite => Broken(false)
    case RequestError => Broken(false)
    case Conflict => Answered(409, "transaction_conflict", Absent)
    case Backpressure => Answered(429, "index_backpressure", True)
    case Rejected => Answered(404, "", Absent)
    case HttpError => Answered(404, "", Absent)
    case _ => Answered(200, "", Absent)
  }

  /** The known outcomes of a kind are exactly those some reply gives, and the one recorded without a reply. */
  lemma OutcomesAreExact(kind: Kind, outcome: Outcome)
    ensures outcome in Outcomes(kind) <==> outcome == ClientOverload || exists reply :: Classify(kind, reply) == outcome
  {
    if outcome in Outcomes(kind) && outcome != ClientOverload {
      assert Classify(kind, Giving(outcome)) == outcome;
    }
  }

  /** A counter key: `kind:outcome`. */
  datatype Tally = Tally(kind: Kind, outcome: Outcome)

  datatype Record =
    | Start(planned: nat)
    | Result(id: nat, at: int, kind: Kind, outcome: Outcome)
    | End(offered: nat, counts: multiset<Tally>)

  /** The keys counted for a sequence of records. */
  function Tallies(records: seq<Record>): (counts: multiset<Tally>)
  {
    if records == [] then multiset{} else Tallies(records[..|records| - 1]) + TallyOf(records[|records| - 1])
  }

  function TallyOf(record: Record): (counts: multiset<Tally>)
  {
    if record.Result? then multiset{Tally(record.kind, record.outcome)} else multiset{}
  }

  /** The ids of the result records, in ledger order. */
  function Ids(records: seq<Record>): (ids: seq<int>)
  {
    if records == [] then [] else
    var last := records[|records| - 1];
    Ids(records[..|records| - 1]) + if last.Result? then [last.id] else []
  }

  /** How often an id was given a result. */
  function Results(records: seq<Record>, id: int): (n: nat)
  {
    multiset(Ids(records))[id]
  }

  lemma Appended(records: seq<Record>, record: Record)
    ensures Tallies(records + [record]) == Tallies(records) + TallyOf(record)
    ensures forall id: int ::
              Results(records + [record], id) ==
              Results(records, id) + if record.Result? && record.id == id then 1 else 0
  {
    assert (records + [record])[..|records|] == records;
  }

  lemma {:induction false} TalliesCount(records: seq<Record>)
    requires AllResults(records)
    ensures |Tallies(records)| == |records|
  {
    if records != [] {
      TalliesCount(records[..|records| - 1]);
    }
  }

  /** The record is a result of this kind and outcome. */
  function Counts(kind: Kind, outcome: Outcome): (p: Record -> bool)
  {
    (record: Record) => record.Result? && record.kind == kind && record.outcome == outcome
  }

  /** The record is a result of this id. */
  function Names(id: int): (p: Record -> bool)
  {
    (record: Record) => record.Result? && record.id == id
  }

  lemma TallyCounts(record: Record, kind: Kind, outcome: Outcome)
    ensures TallyOf(record)[Tally(kind, outcome)] == if Counts(kind, outcome)(record) then 1 else 0
  {
  }

  /** Each counter is the number of results of that kind and outcome. */
  lemma {:induction false} TalliesAreExact(records: seq<Record>, kind: Kind, outcome: Outcome)
    ensures Tallies(records)[Tally(kind, outcome)] == |Positions(records, Counts(kind, outcome))|
  {
    hide Positions, TallyOf, Counts;
    if records == [] {
      NoPositions(Counts(kind, outcome));
    } else {
      TalliesAreExact(records[..|records| - 1], kind, outcome);
      PositionsStep(records, Counts(kind, outcome));
      TallyCounts(records[|records| - 1], kind, outcome);
    }
  }

  lemma {:induction false} ResultsAreExact(records: seq<Record>, id: int)
    ensures Results(records, id) == |Positions(records, Names(id))|
  {
    hide Positions;
    if records == [] {
      NoPositions(Names(id));
    } else {
      ResultsAreExact(records[..|records| - 1], id);
      PositionsStep(records, Names(id));
    }
  }

  /** The ledger object: one lock guards the file and the counts. */
  class File {
    var lines: seq<Record>
    var counts: multiset<Tally>

    ghost predicate Valid()
      reads this
    {
      counts == Tallies(lines)
    }

    constructor ()
      ensures Valid() && lines == []
    {
      lines, counts := [], multiset{};
    }

    method Append(record: Record)
      requires Valid()
      modifies this
      ensures Valid() && lines == old(lines) + [record]
    {
      Appended(lines, record);
      lines := lines + [record];
      if record.Result? {
        counts := counts + multiset{Tally(record.kind, record.outcome)};
      }
    }
  }

  // ---------------------------------------------------------------------
  // The reader

  datatype Rejection = NoFrame | UnexpectedRecord | NotOnePerOffer | UnknownOutcome | FooterDisagrees

  /** The records between the first and the last. */
  function Body(records: seq<Record>): (body: seq<Record>)
    requires |records| >= 2
  {
    records[1..|records| - 1]
  }

  predicate Framed(records: seq<Record>) {
    |records| >= 2 && records[0].Start? && records[|records| - 1].End?
  }

  predicate AllResults(records: seq<Record>) {
    forall i | 0 <= i < |records| :: records[i].Result?
  }

  predicate AllKnown(records: seq<Record>) {
    forall i | 0 <= i < |records| :: records[i].Result? ==> records[i].outcome in Outcomes(records[i].kind)
  }

  /** `load_ledger`: its checks, in order. */
  function Load(records: seq<Record>): (r: Option<Rejection>)
  {
    if !Framed(records) then Some(NoFrame) else
    var start, results, end := records[0], Body(records), records[|records| - 1];
    if !AllResults(results) then Some(UnexpectedRecord)
    else if Sort(Ids(results)) != Range(start.planned) then Some(NotOnePerOffer)
    else if !AllKnown(results) then Some(UnknownOutcome)
    else if Tallies(results) != end.counts || end.offered != start.planned then Some(FooterDisagrees)
    else None
  }

  ghost predicate OnePerId(records: seq<Record>, n: nat) {
    forall id: int :: Results(records, id) == if 0 <= id < n then 1 else 0
  }

  /**
   Accepted ledgers are exactly those framed by a start and an end record that
   hold one known outcome for each planned id and whose footer is the recount.
   */
  lemma LoadAcceptsIff(records: seq<Record>)
    ensures Load(records).None? <==>
            && Framed(records)
            && AllResults(Body(records)) && AllKnown(Body(records))
            && OnePerId(Body(records), records[0].planned)
            && records[|records| - 1].offered == records[0].planned
            && records[|records| - 1].counts == Tallies(Body(records))
  {
    if Framed(records) {
      var ids := Ids(Body(records));
      SortsToRange(ids, records[0].planned);
      assert forall id :: Results(Body(records), id) == multiset(ids)[id];
    }
  }
}
