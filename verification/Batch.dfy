/** Read batches: the validator, its error paths, and the builders that skip it. */
module Batch {
  import opened Wrappers
  import opened Syntax
  import opened Nesting
  import opened ReadOnly

  // ---------------------------------------------------------------------
  // Entry paths

  function Digit(d: nat): (c: char)
    requires d < 10
    ensures '0' <= c <= '9'
  {
    '0' + d as char
  }

  function Decimal(n: nat): (s: string)
  {
    if n < 10 then [Digit(n)] else Decimal(n / 10) + [Digit(n % 10)]
  }

  /** Reading a numeral back. */
  function Numeral(s: string): (n: int)
  {
    if s == [] then 0 else 10 * Numeral(s[..|s| - 1]) + (s[|s| - 1] as int - '0' as int)
  }

  lemma {:induction false} DecimalReadsBack(n: nat)
    ensures Numeral(Decimal(n)) == n
    ensures forall i | 0 <= i < |Decimal(n)| :: Decimal(n)[i] != ']'
  {
    if n < 10 {
      assert [Digit(n)][..0] == [];
      assert Numeral([]) == 0;
    } else {
      DecimalReadsBack(n / 10);
      assert Decimal(n)[..|Decimal(n)| - 1] == Decimal(n / 10);
    }
  }

  function Place(path: string, index: nat): (place: string)
  {
    path + ("[" + (Decimal(index) + "]"))
  }

  function Body(path: string, index: nat): (place: string)
  {
    Place(path, index) + ".for_each"
  }

  // ---------------------------------------------------------------------
  // The validator

  /** `validate_read_entries` from one index on: the path it reports, if any. */
  function Validate(entries: seq<Entry>, index: nat, path: string): (offender: Option<string>)
    requires index <= |entries|
    decreases entries, |entries| - index
  {
    if index == |entries| then None else
    match entries[index]
    case Query(_, root, _) =>
      if IsReadOnly(root) then Validate(entries, index + 1, path) else Some(Place(path, index))
    case ForEach(_, body) =>
      var nested := Validate(body, 0, Body(path, index));
      if nested.Some? then nested else Validate(entries, index + 1, path)
  }

  /** A query of the batch and where it is. */
  datatype Located = Located(place: string, root: Step)

  /** Every query at every depth, in document order. */
  function Queries(entries: seq<Entry>, index: nat, path: string): (all: seq<Located>)
    requires index <= |entries|
    decreases entries, |entries| - index
  {
    if index == |entries| then [] else
    match entries[index]
    case Query(_, root, _) => [Located(Place(path, index), root)] + Queries(entries, index + 1, path)
    case ForEach(_, body) => Queries(body, 0, Body(path, index)) + Queries(entries, index + 1, path)
  }

  function FirstOffender(all: seq<Located>): (offender: Option<string>)
  {
    if all == [] then None
    else if !IsReadOnly(all[0].root) then Some(all[0].place)
    else FirstOffender(all[1..])
  }

  lemma {:induction false} OffenderJoins(a: seq<Located>, b: seq<Located>)
    ensures FirstOffender(a + b) == if FirstOffender(a).Some? then FirstOffender(a) else FirstOffender(b)
  {
    if a == [] {
      assert a + b == b;
    } else {
      assert (a + b)[1..] == a[1..] + b;
      OffenderJoins(a[1..], b);
    }
  }

  /** The validator reports the first query, in document order, that is not read-only. */
  lemma {:induction false} ValidateReports(entries: seq<Entry>, index: nat, path: string)
    requires index <= |entries|
    ensures Validate(entries, index, path) == FirstOffender(Queries(entries, index, path))
    decreases entries, |entries| - index
  {
    if index < |entries| {
      ValidateReports(entries, index + 1, path);
      var rest := Queries(entries, index + 1, path);
      match entries[index]
      case Query(_, root, _) => assert ([Located(Place(path, index), root)] + rest)[1..] == rest;
      case ForEach(_, body) =>
        ValidateReports(body, 0, Body(path, index));
        OffenderJoins(Queries(body, 0, Body(path, index)), rest);
    }
  }

  ghost predicate CleanFrom(entries: seq<Entry>, index: nat)
    requires index <= |entries|
  {
    AllClean(EntryParts(entries[index..]))
  }

  lemma CleanEntry(entries: seq<Entry>, index: nat)
    requires index < |entries|
    ensures CleanFrom(entries, index) <==> Clean(OfEntry(entries[index])) && CleanFrom(entries, index + 1)
  {
    assert entries[index..][1..] == entries[index + 1..];
    CleanOne(OfEntry(entries[index]));
    CleanJoins([OfEntry(entries[index])], EntryParts(entries[index + 1..]));
  }

  /** It accepts exactly the entries with no mutation nested below them, whatever the path. */
  lemma {:induction false} AcceptsClean(entries: seq<Entry>, index: nat, path: string)
    requires index <= |entries|
    ensures Validate(entries, index, path).None? <==> CleanFrom(entries, index)
    decreases entries, |entries| - index
  {
    if index == |entries| {
      NothingIsClean();
      assert entries[index..] == [];
    } else {
      hide Clean, AllClean, IsReadOnly;
      AcceptsClean(entries, index + 1, path);
      CleanEntry(entries, index);
      CleanAlone(OfEntry(entries[index]));
      match entries[index]
      case Query(_, root, _) =>
        ReadOnlyIsClean(root);
        CleanOne(OfStep(root));
      case ForEach(_, body) =>
        AcceptsClean(body, 0, Body(path, index));
        assert body[0..] == body;
    }
  }

  // ---------------------------------------------------------------------
  // A path names one query

  function Inside(path: string, index: nat, rest: string): (place: string)
  {
    Place(path, index) + rest
  }

  /** The texts up to the first closing bracket decide which entry a place is inside of. */
  lemma BracketsSplit(a: string, r: string, b: string, q: string)
    requires a + ("]" + r) == b + ("]" + q)
    requires forall i | 0 <= i < |a| :: a[i] != ']'
    requires forall i | 0 <= i < |b| :: b[i] != ']'
    ensures a == b
  {
    var s, t := a + ("]" + r), b + ("]" + q);
    assert s[|a|] == ']' && t[|b|] == ']';
    assert forall i | 0 <= i < |a| :: s[i] == a[i];
    assert forall i | 0 <= i < |b| :: t[i] == b[i];
    assert |a| == |b|;
    assert a == s[..|a|] && b == t[..|b|];
  }

  lemma InsideSplits(path: string, i: nat, r: string, j: nat, q: string)
    requires Inside(path, i, r) == Inside(path, j, q)
    ensures i == j
  {
    DecimalReadsBack(i);
    DecimalReadsBack(j);
    var n := |path| + 1;
    assert Inside(path, i, r)[n..] == Decimal(i) + ("]" + r);
    assert Inside(path, j, q)[n..] == Decimal(j) + ("]" + q);
    BracketsSplit(Decimal(i), r, Decimal(j), q);
  }

  /** Where the `k`-th query is inside of. */
  lemma {:induction false} QueryIsInside(entries: seq<Entry>, index: nat, path: string, k: nat)
    returns (j: nat, rest: string)
    requires index <= |entries| && k < |Queries(entries, index, path)|
    ensures index <= j && Queries(entries, index, path)[k].place == Inside(path, j, rest)
    decreases |entries| - index
  {
    var head := if entries[index].Query? then [Located(Place(path, index), entries[index].root)]
                else Queries(entries[index].body, 0, Body(path, index));
    if k >= |head| {
      j, rest := QueryIsInside(entries, index + 1, path, k - |head|);
      return;
    }
    j := index;
    rest := QueryIsInsideEntry(entries, index, path, k);
  }

  /** A query of the `index`-th entry is inside of that entry's place. */
  lemma {:induction false} QueryIsInsideEntry(entries: seq<Entry>, index: nat, path: string, k: nat)
    returns (rest: string)
    requires index < |entries|
    requires entries[index].Query? ==> k == 0
    requires entries[index].ForEach? ==> k < |Queries(entries[index].body, 0, Body(path, index))|
    ensures entries[index].Query? ==> Place(path, index) == Inside(path, index, rest)
    ensures entries[index].ForEach? ==>
            Queries(entries[index].body, 0, Body(path, index))[k].place == Inside(path, index, rest)
  {
    if entries[index].Query? {
      rest := "";
      assert Place(path, index) + "" == Place(path, index);
    } else {
      var place := Queries(entries[index].body, 0, Body(path, index))[k].place;
      Prefixed(entries[index].body, 0, Body(path, index), k);
      rest := ".for_each" + place[|Body(path, index)|..];
      assert place == Body(path, index) + place[|Body(path, index)|..];
    }
  }

  /** Every place extends the path it was reported under. */
  lemma {:induction false} Prefixed(entries: seq<Entry>, index: nat, path: string, k: nat)
    requires index <= |entries| && k < |Queries(entries, index, path)|
    ensures path <= Queries(entries, index, path)[k].place
    decreases entries, |entries| - index
  {
    match entries[index]
    case Query(_, root, _) =>
      if k > 0 { Prefixed(entries, index + 1, path, k - 1); }
    case ForEach(_, body) =>
      var nested := |Queries(body, 0, Body(path, index))|;
      if k < nested {
        Prefixed(body, 0, Body(path, index), k);
      } else {
        Prefixed(entries, index + 1, path, k - nested);
      }
  }

  /** No two queries of a batch share a place, so a reported path names one query. */
  lemma {:induction false} PlacesAreDistinct(entries: seq<Entry>, index: nat, path: string, k: nat, l: nat)
    requires index <= |entries| && k < l < |Queries(entries, index, path)|
    ensures Queries(entries, index, path)[k].place != Queries(entries, index, path)[l].place
    decreases entries, |entries| - index
  {
    var rest := Queries(entries, index + 1, path);
    var nested := if entries[index].Query? then 1 else |Queries(entries[index].body, 0, Body(path, index))|;
    if k >= nested {
      PlacesAreDistinct(entries, index + 1, path, k - nested, l - nested);
    } else if l < nested {
      PlacesAreDistinct(entries[index].body, 0, Body(path, index), k, l);
    } else {
      var tail := QueryIsInsideEntry(entries, index, path, k);
      var j, other := QueryIsInside(entries, index + 1, path, l - nested);
      if Queries(entries, index, path)[k].place == Queries(entries, index, path)[l].place {
        InsideSplits(path, index, tail, j, other);
      }
    }
  }

  // ---------------------------------------------------------------------
  // A path leads to its query

  /** Where the first closing bracket is, from a position on. */
  function Closing(text: string, from: nat): (at: nat)
    requires from <= |text|
    ensures from <= at <= |text|
    decreases |text| - from
  {
    if from == |text| || text[from] == ']' then from else Closing(text, from + 1)
  }

  /** Reads a path without its leading word: an index in brackets, and `.for_each` before the next one. */
  function Follow(entries: seq<Entry>, path: string): (root: Option<Step>)
    decreases |path|
  {
    if path == "" || path[0] != '[' then None else
    var close := Closing(path, 1);
    if close == |path| then None else
    var index, rest := Numeral(path[1..close]), path[close + 1..];
    if index < 0 || index >= |entries| then None else
    match entries[index]
    case Query(_, root, _) => if rest == "" then Some(root) else None
    case ForEach(_, body) => if ".for_each" <= rest then Follow(body, rest[9..]) else None
  }

  /** The root of the query that a reported path leads to. */
  function Resolve(entries: seq<Entry>, path: string): (root: Option<Step>)
  {
    if "entries" <= path then Follow(entries, path[7..]) else None
  }

  lemma {:induction false} ClosesAt(text: string, from: nat, at: nat)
    requires from <= at < |text| && text[at] == ']' && forall i | from <= i < at :: text[i] != ']'
    ensures Closing(text, from) == at
    decreases at - from
  {
    if from < at {
      ClosesAt(text, from + 1, at);
    }
  }

  /** What a path that starts at one entry reads. */
  function FollowInto(entry: Entry, rest: string): (root: Option<Step>)
  {
    match entry
    case Query(_, root, _) => if rest == "" then Some(root) else None
    case ForEach(_, body) => if ".for_each" <= rest then Follow(body, rest[9..]) else None
  }

  lemma FollowEntry(entries: seq<Entry>, index: nat, rest: string)
    requires index < |entries|
    ensures Follow(entries, "[" + (Decimal(index) + "]") + rest) == FollowInto(entries[index], rest)
  {
    var number := Decimal(index);
    var path := "[" + (number + "]") + rest;
    DecimalReadsBack(index);
    assert forall i | 0 <= i < |number| :: path[i + 1] == number[i];
    assert forall i | 1 <= i < |number| + 1 :: path[i] == number[i - 1];
    ClosesAt(path, 1, |number| + 1);
    assert path[1..|number| + 1] == number;
    assert path[|number| + 2..] == rest;
  }

  /** The place of every query, at every depth, leads to that query. */
  lemma {:induction false} PlacesLead(entries: seq<Entry>, index: nat, path: string, k: nat)
    requires index <= |entries| && k < |Queries(entries, index, path)|
    ensures var found := Queries(entries, index, path)[k];
            path <= found.place && Follow(entries, found.place[|path|..]) == Some(found.root)
    decreases entries, |entries| - index
  {
    hide Follow, Decimal;
    Prefixed(entries, index, path, k);
    var step := "[" + (Decimal(index) + "]");
    match entries[index]
    case Query(_, root, _) =>
      if k > 0 {
        PlacesLead(entries, index + 1, path, k - 1);
      } else {
        FollowEntry(entries, index, "");
        assert Place(path, index)[|path|..] == step + "";
      }
    case ForEach(_, body) =>
      var inner := Body(path, index);
      var nested := Queries(body, 0, inner);
      if k >= |nested| {
        PlacesLead(entries, index + 1, path, k - |nested|);
      } else {
        PlacesLead(body, 0, inner, k);
        var place := nested[k].place;
        var rest := ".for_each" + place[|inner|..];
        assert place == inner + place[|inner|..];
        assert place[|path|..] == step + rest;
        assert rest[9..] == place[|inner|..];
        FollowEntry(entries, index, rest);
      }
  }

  lemma {:induction false} OffenderIsListed(all: seq<Located>) returns (k: nat)
    requires FirstOffender(all).Some?
    ensures k < |all| && FirstOffender(all) == Some(all[k].place) && !IsReadOnly(all[k].root)
    ensures forall i | 0 <= i < k :: IsReadOnly(all[i].root)
  {
    k := 0;
    if IsReadOnly(all[0].root) {
      var later := OffenderIsListed(all[1..]);
      k := later + 1;
    }
  }

  /** The path a batch is refused with leads to a query that is not read-only. */
  lemma ReportedPathLeads(entries: seq<Entry>)
    requires Validate(entries, 0, "entries").Some?
    ensures var root := Resolve(entries, Validate(entries, 0, "entries").value);
            root.Some? && !IsReadOnly(root.value)
  {
    hide Queries, Follow, IsReadOnly;
    ValidateReports(entries, 0, "entries");
    var k := OffenderIsListed(Queries(entries, 0, "entries"));
    PlacesLead(entries, 0, "entries", k);
  }

  // ---------------------------------------------------------------------
  // The batch and its builders

  predicate Accepted(entries: seq<Entry>) {
    Validate(entries, 0, "entries").None?
  }

  lemma AcceptedIsClean(entries: seq<Entry>)
    ensures Accepted(entries) <==> AllClean(EntryParts(entries))
  {
    AcceptsClean(entries, 0, "entries");
    assert entries[0..] == entries;
  }

  lemma {:induction false} EntryPartsJoin(a: seq<Entry>, b: seq<Entry>)
    ensures EntryParts(a + b) == EntryParts(a) + EntryParts(b)
  {
    if a == [] {
      assert a + b == b;
    } else {
      assert (a + b)[1..] == a[1..] + b;
      EntryPartsJoin(a[1..], b);
    }
  }

  /** Adding an entry keeps a batch acceptable exactly when the entry is. */
  lemma AcceptedAppend(entries: seq<Entry>, entry: Entry)
    ensures Accepted(entries + [entry]) <==> Accepted(entries) && Accepted([entry])
  {
    AcceptedIsClean(entries + [entry]);
    AcceptedIsClean(entries);
    AcceptedIsClean([entry]);
    EntryPartsJoin(entries, [entry]);
    CleanJoins(EntryParts(entries), EntryParts([entry]));
  }

  lemma AcceptedQuery(name: Option<string>, root: Step, condition: Option<Condition>)
    ensures Accepted([Query(name, root, condition)]) <==> IsReadOnly(root)
  {
    assert Validate([Query(name, root, condition)], 1, "entries") == None;
  }

  lemma AcceptedForEach(param: string, body: seq<Entry>)
    ensures Accepted([ForEach(param, body)]) <==> Accepted(body)
  {
    assert Validate([ForEach(param, body)], 1, "entries") == None;
    AcceptsClean(body, 0, Body("entries", 0));
    AcceptsClean(body, 0, "entries");
  }

  /** A read batch. Builders push onto `entries` and overwrite `returns`. */
  class ReadBatch {
    var entries: seq<Entry>
    var returnVars: seq<string>

    constructor ()
      ensures entries == [] && returnVars == [] && Accepted(entries)
    {
      entries, returnVars := [], [];
    }

    constructor FromParts(parts: seq<Entry>, vars: seq<string>)
      ensures entries == parts && returnVars == vars
    {
      entries, returnVars := parts, vars;
    }

    /** `var_as` and `var_as_if`: the traversal's type only vouches for its appended steps. */
    method VarAs(name: string, condition: Option<Condition>, root: Step)
      requires SpineReadOnly(root)
      modifies this
      ensures entries == old(entries) + [Query(Some(name), root, condition)] && returnVars == old(returnVars)
      ensures Accepted(entries) <==> old(Accepted(entries)) && BranchesReadOnly(root)
    {
      SpineAndBranches(root);
      AcceptedQuery(Some(name), root, condition);
      AcceptedAppend(entries, Query(Some(name), root, condition));
      entries := entries + [Query(Some(name), root, condition)];
    }

    method ForEachParam(param: string, body: ReadBatch)
      modifies this
      ensures entries == old(entries) + [ForEach(param, old(body.entries))] && returnVars == old(returnVars)
      ensures Accepted(entries) <==> old(Accepted(entries)) && old(Accepted(body.entries))
    {
      AcceptedForEach(param, body.entries);
      AcceptedAppend(entries, ForEach(param, body.entries));
      entries := entries + [ForEach(param, body.entries)];
    }

    method Returning(vars: seq<string>)
      modifies this
      ensures returnVars == vars && entries == old(entries)
      ensures Accepted(entries) <==> old(Accepted(entries))
    {
      returnVars := vars;
    }
  }

  /** `try_from_parts`: a batch of exactly these parts, or the path of the first offender. */
  method TryFromParts(entries: seq<Entry>, vars: seq<string>) returns (r: Result<ReadBatch, string>)
    ensures r.Ok? <==> AllClean(EntryParts(entries))
    ensures r.Ok? ==> fresh(r.value) && r.value.entries == entries && r.value.returnVars == vars
    ensures r.Err? ==> FirstOffender(Queries(entries, 0, "entries")) == Some(r.error)
    ensures r.Err? ==> var root := Resolve(entries, r.error); root.Some? && !IsReadOnly(root.value)
  {
    AcceptedIsClean(entries);
    ValidateReports(entries, 0, "entries");
    var offender := Validate(entries, 0, "entries");
    if offender.Some? {
      ReportedPathLeads(entries);
      return Err(offender.value);
    }
    var batch := new ReadBatch.FromParts(entries, vars);
    return Ok(batch);
  }

  /** One builder call; a body is a batch built by its own calls. */
  datatype Call =
    | AddQuery(name: string, root: Step, condition: Option<Condition>)
    | AddForEach(param: string, body: seq<Call>)
    | SetReturns(vars: seq<string>)

  /** The entries a run of builder calls leaves. */
  function Built(calls: seq<Call>): (entries: seq<Entry>)
  {
    if calls == [] then [] else
    var before := Built(calls[..|calls| - 1]);
    match calls[|calls| - 1]
    case AddQuery(name, root, condition) => before + [Query(Some(name), root, condition)]
    case AddForEach(param, body) => before + [ForEach(param, Built(body))]
    case SetReturns(_) => before
  }

  /** The calls type-check as read-only. */
  predicate Typed(calls: seq<Call>) {
    calls == [] || (
      && Typed(calls[..|calls| - 1])
      && match calls[|calls| - 1]
         case AddQuery(_, root, _) => SpineReadOnly(root)
         case AddForEach(_, body) => Typed(body)
         case SetReturns(_) => true)
  }

  /** Every sub-traversal embedded in a root given to the builders is read-only. */
  predicate Guarded(calls: seq<Call>) {
    calls == [] || (
      && Guarded(calls[..|calls| - 1])
      && match calls[|calls| - 1]
         case AddQuery(_, root, _) => BranchesReadOnly(root)
         case AddForEach(_, body) => Guarded(body)
         case SetReturns(_) => true)
  }

  /** A built batch re-validates exactly when its embedded sub-traversals are read-only. */
  lemma {:induction false} BuiltRevalidates(calls: seq<Call>)
    requires Typed(calls)
    ensures Accepted(Built(calls)) <==> Guarded(calls)
  {
    hide Accepted, SpineReadOnly, BranchesReadOnly;
    if calls == [] {
      AcceptedIsClean([]);
      NothingIsClean();
      return;
    }
    var front := calls[..|calls| - 1];
    BuiltRevalidates(front);
    match calls[|calls| - 1]
    case AddQuery(name, root, condition) =>
      SpineAndBranches(root);
      AcceptedQuery(Some(name), root, condition);
      AcceptedAppend(Built(front), Query(Some(name), root, condition));
    case AddForEach(param, body) =>
      BuiltRevalidates(body);
      AcceptedForEach(param, Built(body));
      AcceptedAppend(Built(front), ForEach(param, Built(body)));
    case SetReturns(_) =>
  }

  /** A union branch that drops nodes passes the read-only type and not the validator. */
  lemma EmbeddedMutationIsMissed()
    ensures var root := Branching(Union, Source(Nodes), [Unary(Drop, Source(Context))]);
            Typed([AddQuery("x", root, None)]) && !Accepted(Built([AddQuery("x", root, None)]))
  {
    var root := Branching(Union, Source(Nodes), [Unary(Drop, Source(Context))]);
    var calls := [AddQuery("x", root, None)];
    assert calls[..0] == [];
    assert Typed([]);
    assert SpineReadOnly(Source(Nodes));
    assert !IsReadOnly(Unary(Drop, Source(Context)));
    assert !AllReadOnly([Unary(Drop, Source(Context))]);
    AcceptedQuery(Some("x"), root, None);
    assert Built([]) == [];
    assert Built(calls) == [Query(Some("x"), root, None)];
  }
}
