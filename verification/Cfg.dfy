/** The token-cursor evaluator for `cfg` expressions. */
module Cfg {
  import opened Wrappers

  datatype Token = All | Any | Not | Test | Feature(name: string) | Open | Close | Comma

  datatype Parsed = Parsed(value: bool, next: nat)

  datatype Items = Items(values: seq<bool>, next: nat)

  datatype Setting = Setting(test: bool, features: set<string>)

  predicate Groups(token: Token) {
    token.All? || token.Any? || token.Not?
  }

  /** `all`, `any`, or the negation of the first value; negating no value raises. */
  function Combine(token: Token, values: seq<bool>): (r: Option<bool>)
    requires Groups(token)
  {
    match token
    case All => Some(forall i | 0 <= i < |values| :: values[i])
    case Any => Some(exists i | 0 <= i < |values| :: values[i])
    case Not => if values == [] then None else Some(!values[0])
  }

  /** Values read before the rest of a group. */
  function After(values: seq<bool>, rest: Option<Items>): (r: Option<Items>)
  {
    if rest.None? then None else Some(Items(values + rest.value.values, rest.value.next))
  }

  /** Past an optional comma. */
  function Skip(tokens: seq<Token>, pos: nat): (next: nat)
    requires pos < |tokens|
  {
    if tokens[pos].Comma? then pos + 1 else pos
  }

  /** What evaluating from a position gives and where it stops; `None` is an index error. */
  function Eval(tokens: seq<Token>, pos: nat, s: Setting): (r: Option<Parsed>)
    ensures r.Some? ==> r.value.next > pos
    decreases |tokens| - pos, 1
  {
    if pos >= |tokens| then None
    else if tokens[pos].Test? then Some(Parsed(s.test, pos + 1))
    else if tokens[pos].Feature? then Some(Parsed(tokens[pos].name in s.features, pos + 1))
    else if Groups(tokens[pos]) then Grouped(tokens[pos], EvalItems(tokens, pos + 2, s))
    else None
  }

  function Grouped(token: Token, items: Option<Items>): (r: Option<Parsed>)
    requires Groups(token)
    ensures r.Some? ==> items.Some? && r.value.next == items.value.next
  {
    if items.None? then None else
    var value := Combine(token, items.value.values);
    if value.None? then None else Some(Parsed(value.value, items.value.next))
  }

  /** The arguments up to the closing parenthesis. */
  function EvalItems(tokens: seq<Token>, pos: nat, s: Setting): (r: Option<Items>)
    ensures r.Some? ==> r.value.next > pos
    decreases |tokens| - pos, 2
  {
    if pos >= |tokens| then None
    else if tokens[pos].Close? then Some(Items([], pos + 1))
    else
      var first := Eval(tokens, pos, s);
      if first.None? || first.value.next >= |tokens| then None
      else After([first.value.value], EvalItems(tokens, Skip(tokens, first.value.next), s))
  }

  lemma ItemsClose(tokens: seq<Token>, pos: nat, s: Setting)
    requires pos < |tokens| && tokens[pos].Close?
    ensures EvalItems(tokens, pos, s) == Some(Items([], pos + 1))
  {
  }

  lemma ItemsStep(tokens: seq<Token>, pos: nat, s: Setting)
    requires pos < |tokens| && !tokens[pos].Close?
    ensures var first := Eval(tokens, pos, s);
            EvalItems(tokens, pos, s) ==
            if first.None? || first.value.next >= |tokens| then None
            else After([first.value.value], EvalItems(tokens, Skip(tokens, first.value.next), s))
  {
  }

  lemma ItemsEnd(tokens: seq<Token>, pos: nat, s: Setting)
    requires pos >= |tokens|
    ensures EvalItems(tokens, pos, s) == None
  {
  }

  lemma GroupStep(tokens: seq<Token>, pos: nat, s: Setting)
    requires pos < |tokens| && Groups(tokens[pos])
    ensures Eval(tokens, pos, s) == Grouped(tokens[pos], EvalItems(tokens, pos + 2, s))
  {
  }

  lemma AfterNothing(rest: Option<Items>)
    ensures After([], rest) == rest
  {
    if rest.Some? {
      assert [] + rest.value.values == rest.value.values;
    }
  }

  /** The evaluator: a recursive closure over one shared position. */
  class Cursor {
    const tokens: seq<Token>
    const setting: Setting
    var position: nat

    constructor (tokens: seq<Token>, setting: Setting)
      ensures this.tokens == tokens && this.setting == setting && position == 0
    {
      this.tokens, this.setting, position := tokens, setting, 0;
    }

    method Parse() returns (r: Option<bool>)
      modifies this
      ensures r.Some? <==> Eval(tokens, old(position), setting).Some?
      ensures r.Some? ==> Eval(tokens, old(position), setting).value == Parsed(r.value, position)
      decreases |tokens| - position
    {
      if position >= |tokens| {
        return None;
      }
      var token := tokens[position];
      position := position + 1;
      if Groups(token) {
        r := ParseGroup(token);
        return;
      }
      if token.Test? {
        return Some(setting.test);
      }
      if token.Feature? {
        return Some(token.name in setting.features);
      }
      return None;
    }

    /** The arguments of a group, from the opening parenthesis on, which is skipped unread. */
    method ParseGroup(token: Token) returns (r: Option<bool>)
      requires 0 < position <= |tokens| && token == tokens[position - 1] && Groups(token)
      modifies this
      ensures r.Some? <==> Eval(tokens, old(position) - 1, setting).Some?
      ensures r.Some? ==> Eval(tokens, old(position) - 1, setting).value == Parsed(r.value, position)
      decreases |tokens| - position
    {
      hide Eval, EvalItems;
      GroupStep(tokens, position - 1, setting);
      position := position + 1;
      ghost var start := position;
      var values: seq<bool> := [];
      AfterNothing(EvalItems(tokens, start, setting));
      while position < |tokens| && !tokens[position].Close?
        invariant position >= start
        invariant EvalItems(tokens, start, setting) == After(values, EvalItems(tokens, position, setting))
        decreases |tokens| - position
      {
        ItemsStep(tokens, position, setting);
        var value := Parse();
        if value.None? || position >= |tokens| {
          return None;
        }
        if tokens[position].Comma? {
          position := position + 1;
        }
        AfterOne(values, value.value, EvalItems(tokens, position, setting));
        values := values + [value.value];
      }
      if position >= |tokens| {
        ItemsEnd(tokens, position, setting);
        return None;
      }
      ItemsClose(tokens, position, setting);
      position := position + 1;
      assert values + [] == values;
      return Combine(token, values);
    }
  }

  lemma AfterOne(values: seq<bool>, value: bool, rest: Option<Items>)
    ensures After(values, After([value], rest)) == After(values + [value], rest)
  {
    if rest.Some? {
      assert values + ([value] + rest.value.values) == values + [value] + rest.value.values;
    }
  }

  // ---------------------------------------------------------------------
  // Printed trees

  datatype Connective = AllOf | AnyOf | NoneOf

  /** A `cfg` tree; a nonempty group may end in a trailing comma. */
  datatype Tree =
    | IsTest
    | HasFeature(name: string)
    | Group(connective: Connective, args: seq<Tree>, trailing: bool)

  /** A negation has an argument. */
  predicate Proper(t: Tree) {
    t.Group? ==> (t.connective == NoneOf ==> t.args != []) && forall i | 0 <= i < |t.args| :: Proper(t.args[i])
  }

  predicate Holds(t: Tree, s: Setting)
    requires Proper(t)
  {
    match t
    case IsTest => s.test
    case HasFeature(name) => name in s.features
    case Group(AllOf, args, _) => forall i | 0 <= i < |args| :: Holds(args[i], s)
    case Group(AnyOf, args, _) => exists i | 0 <= i < |args| :: Holds(args[i], s)
    case Group(NoneOf, args, _) => !Holds(args[0], s)
  }

  function Keyword(c: Connective): (token: Token)
    ensures Groups(token)
  {
    match c case AllOf => All case AnyOf => Any case NoneOf => Not
  }

  function Print(t: Tree): (tokens: seq<Token>)
    ensures tokens != [] && !tokens[0].Close?
    decreases t, 0
  {
    match t
    case IsTest => [Test]
    case HasFeature(name) => [Feature(name)]
    case Group(connective, args, trailing) => [Keyword(connective), Open] + (PrintArgs(args, trailing) + [Close])
  }

  function PrintArgs(args: seq<Tree>, trailing: bool): (tokens: seq<Token>)
    decreases args, 0
  {
    if args == [] then []
    else Print(args[0]) + (if |args| > 1 || trailing then [Comma] else []) + PrintArgs(args[1..], trailing)
  }

  /** The tokens from a position on begin with these. */
  predicate Reads(tokens: seq<Token>, pos: nat, part: seq<Token>) {
    pos + |part| <= |tokens| && tokens[pos..pos + |part|] == part
  }

  lemma ReadsSplit(tokens: seq<Token>, pos: nat, a: seq<Token>, b: seq<Token>)
    requires Reads(tokens, pos, a + b)
    ensures Reads(tokens, pos, a) && Reads(tokens, pos + |a|, b)
  {
    var all := tokens[pos..pos + |a + b|];
    assert tokens[pos..pos + |a|] == all[..|a|] == a;
    assert tokens[pos + |a|..pos + |a| + |b|] == all[|a|..] == b;
  }

  predicate AllProper(args: seq<Tree>) {
    forall i | 0 <= i < |args| :: Proper(args[i])
  }

  function Meanings(args: seq<Tree>, s: Setting): (values: seq<bool>)
    requires AllProper(args)
    ensures |values| == |args| && forall i | 0 <= i < |args| :: values[i] == Holds(args[i], s)
  {
    seq(|args|, i requires 0 <= i < |args| => Holds(args[i], s))
  }

  lemma MeaningsCombine(t: Tree, s: Setting)
    requires Proper(t) && t.Group?
    ensures AllProper(t.args)
    ensures Combine(Keyword(t.connective), Meanings(t.args, s)) == Some(Holds(t, s))
  {
    var values := Meanings(t.args, s);
    assert forall i | 0 <= i < |t.args| :: values[i] == Holds(t.args[i], s);
  }

  /**
   On a printed tree anywhere among the tokens, the evaluator gives the tree's
   meaning and stops exactly past the tree.
   */
  lemma {:induction false} EvalReadsBack(t: Tree, tokens: seq<Token>, pos: nat, s: Setting)
    requires Proper(t) && Reads(tokens, pos, Print(t))
    ensures Eval(tokens, pos, s) == Some(Parsed(Holds(t, s), pos + |Print(t)|))
    decreases t, 0
  {
    hide EvalItems, Combine, Reads, PrintArgs;
    FirstRead(tokens, pos, Print(t));
    if t.Group? {
      var arguments := PrintArgs(t.args, t.trailing) + [Close];
      ReadsSplit(tokens, pos, [Keyword(t.connective), Open], arguments);
      MeaningsCombine(t, s);
      ItemsReadBack(t.args, t.trailing, tokens, pos + 2, s);
      GroupStep(tokens, pos, s);
    }
  }

  lemma {:induction false} ItemsReadBack(args: seq<Tree>, trailing: bool, tokens: seq<Token>, pos: nat, s: Setting)
    requires AllProper(args) && Reads(tokens, pos, PrintArgs(args, trailing) + [Close])
    ensures EvalItems(tokens, pos, s) == Some(Items(Meanings(args, s), pos + |PrintArgs(args, trailing)| + 1))
    decreases args, 0
  {
    hide Eval, EvalItems, Print, Holds, Reads, Proper;
    if args == [] {
      assert PrintArgs(args, trailing) + [Close] == [Close];
      FirstRead(tokens, pos, [Close]);
      ItemsClose(tokens, pos, s);
    } else {
      var comma := if |args| > 1 || trailing then [Comma] else [];
      var first, rest := Print(args[0]), PrintArgs(args[1..], trailing);
      assert PrintArgs(args, trailing) + [Close] == first + (comma + (rest + [Close]));
      ReadsSplit(tokens, pos, first, comma + (rest + [Close]));
      EvalReadsBack(args[0], tokens, pos, s);
      var next := pos + |first|;
      ReadsSplit(tokens, next, comma, rest + [Close]);
      ItemsReadBack(args[1..], trailing, tokens, next + |comma|, s);
      NextIsSeparator(tokens, next, comma, rest);
      FirstRead(tokens, pos, first);
      ItemsStep(tokens, pos, s);
      assert Meanings(args, s) == [Holds(args[0], s)] + Meanings(args[1..], s);
    }
  }

  lemma FirstRead(tokens: seq<Token>, pos: nat, part: seq<Token>)
    requires Reads(tokens, pos, part) && part != []
    ensures pos < |tokens| && tokens[pos] == part[0]
  {
    assert tokens[pos] == tokens[pos..pos + |part|][0];
  }

  /** After an argument comes its comma, or the closing parenthesis. */
  lemma NextIsSeparator(tokens: seq<Token>, pos: nat, comma: seq<Token>, rest: seq<Token>)
    requires comma == [Comma] || (comma == [] && rest == [])
    requires Reads(tokens, pos, comma) && Reads(tokens, pos + |comma|, rest + [Close])
    ensures pos < |tokens| && (tokens[pos].Comma? <==> comma == [Comma])
  {
    if comma == [Comma] {
      assert tokens[pos] == tokens[pos..pos + 1][0];
    } else {
      assert rest + [Close] == [Close];
      assert tokens[pos] == tokens[pos..pos + 1][0];
    }
  }

  /** Evaluating exactly a printed tree gives its meaning and consumes every token. */
  lemma PrintedTreeEvaluates(t: Tree, s: Setting)
    requires Proper(t)
    ensures Eval(Print(t), 0, s) == Some(Parsed(Holds(t, s), |Print(t)|))
  {
    assert Print(t)[0..|Print(t)|] == Print(t);
    EvalReadsBack(t, Print(t), 0, s);
  }
}
