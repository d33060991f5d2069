/** Wire tags: the derive's snake-case rule and the Go SDK's, on ASCII names. */
module Names {

  predicate Upper(c: char) {
    'A' <= c <= 'Z'
  }

  predicate Lower(c: char) {
    'a' <= c <= 'z'
  }

  predicate Digit(c: char) {
    '0' <= c <= '9'
  }

  function ToLower(c: char): (r: char)
    ensures Upper(c) ==> Lower(r)
    ensures !Upper(c) ==> r == c
  {
    if Upper(c) then 'a' + (c - 'A') else c
  }

  function ToUpper(c: char): (r: char)
    ensures Upper(c) ==> r == c
  {
    if Lower(c) then 'A' + (c - 'a') else c
  }

  /** An ASCII alphanumeric name that starts with a capital. */
  predicate Pascal(name: string) {
    && name != "" && Upper(name[0])
    && forall i | 0 <= i < |name| :: Upper(name[i]) || Lower(name[i]) || Digit(name[i])
  }

  // ---------------------------------------------------------------------
  // The two rules

  /** A character of a tag, with the underscore before it if any. */
  function Piece(c: char, breaks: bool): (s: string)
    ensures |s| == if breaks then 2 else 1
  {
    if breaks then ['_', ToLower(c)] else [ToLower(c)]
  }

  /** serde's rule breaks before every capital but the first character. */
  predicate SerdeBreaks(name: string, i: nat)
    requires i < |name|
  {
    i > 0 && Upper(name[i])
  }

  /** The SDK's rule keeps runs of capitals together, up to the last before a lowercase letter. */
  predicate SdkBreaks(name: string, i: nat)
    requires i < |name|
  {
    && i > 0 && Upper(name[i])
    && (Lower(name[i - 1]) || Digit(name[i - 1]) || (Upper(name[i - 1]) && i + 1 < |name| && Lower(name[i + 1])))
  }

  function Serde(name: string, from: nat): (tag: string)
    requires from <= |name|
    decreases |name| - from
  {
    if from == |name| then "" else Piece(name[from], SerdeBreaks(name, from)) + Serde(name, from + 1)
  }

  function Sdk(name: string, from: nat): (tag: string)
    requires from <= |name|
    decreases |name| - from
  {
    if from == |name| then "" else Piece(name[from], SdkBreaks(name, from)) + Sdk(name, from + 1)
  }

  /** `RenameRule::SnakeCase.variant`. */
  method Variant(name: string) returns (snake: string)
    ensures snake == Serde(name, 0)
  {
    snake := "";
    for i := 0 to |name|
      invariant snake + Serde(name, i) == Serde(name, 0)
    {
      assert snake + Serde(name, i) == snake + Piece(name[i], SerdeBreaks(name, i)) + Serde(name, i + 1);
      ghost var before := snake;
      if i > 0 && Upper(name[i]) {
        snake := snake + ['_'];
      }
      snake := snake + [ToLower(name[i])];
      assert snake == before + Piece(name[i], SerdeBreaks(name, i));
    }
  }

  /** `snakeName`. */
  method SnakeName(name: string) returns (out: string)
    ensures out == Sdk(name, 0)
  {
    out := "";
    for i := 0 to |name|
      invariant out + Sdk(name, i) == Sdk(name, 0)
    {
      assert out + Sdk(name, i) == out + Piece(name[i], SdkBreaks(name, i)) + Sdk(name, i + 1);
      ghost var before := out;
      var r := name[i];
      if Upper(r) {
        if i > 0 {
          var prev := name[i - 1];
          var nextIsLower := i + 1 < |name| && Lower(name[i + 1]);
          if Lower(prev) || Digit(prev) || (Upper(prev) && nextIsLower) {
            out := out + ['_'];
          }
        }
        out := out + [ToLower(r)];
      } else {
        out := out + [r];
      }
      assert out == before + Piece(name[i], SdkBreaks(name, i));
    }
  }

  // ---------------------------------------------------------------------
  // Tags are invertible

  /** A name from its tag: capitalize the first letter and every letter after an underscore. */
  function Unsnake(tag: string, capital: bool): (name: string)
  {
    if tag == "" then ""
    else if tag[0] == '_' then Unsnake(tag[1..], true)
    else [if capital then ToUpper(tag[0]) else tag[0]] + Unsnake(tag[1..], false)
  }

  lemma UnsnakePiece(c: char, breaks: bool, rest: string, capital: bool)
    requires Upper(c) || Lower(c) || Digit(c)
    requires (breaks || capital) <==> Upper(c)
    ensures Unsnake(Piece(c, breaks) + rest, capital) == [c] + Unsnake(rest, false)
  {
    var low := [ToLower(c)] + rest;
    assert low[1..] == rest;
    if breaks {
      assert (Piece(c, breaks) + rest)[1..] == low;
    } else {
      assert Piece(c, breaks) + rest == low;
    }
  }

  lemma {:induction false} SerdeInverts(name: string, from: nat)
    requires Pascal(name) && from <= |name|
    ensures Unsnake(Serde(name, from), from == 0) == name[from..]
    decreases |name| - from
  {
    if from < |name| {
      SerdeInverts(name, from + 1);
      UnsnakePiece(name[from], SerdeBreaks(name, from), Serde(name, from + 1), from == 0);
      assert name[from..] == [name[from]] + name[from + 1..];
    }
  }

  /** Distinct variants never share a wire tag. */
  lemma TagsAreDistinct(a: string, b: string)
    requires Pascal(a) && Pascal(b) && Serde(a, 0) == Serde(b, 0)
    ensures a == b
  {
    SerdeInverts(a, 0);
    SerdeInverts(b, 0);
    assert a[0..] == a && b[0..] == b;
  }

  // ---------------------------------------------------------------------
  // The rules agree without runs of capitals

  lemma {:induction false} SdkIsNoLonger(name: string, from: nat)
    requires from <= |name|
    ensures |Sdk(name, from)| <= |Serde(name, from)|
    ensures (exists i | from <= i < |name| :: SerdeBreaks(name, i) && !SdkBreaks(name, i)) ==>
              |Sdk(name, from)| < |Serde(name, from)|
    decreases |name| - from
  {
    if from < |name| {
      SdkIsNoLonger(name, from + 1);
    }
  }

  lemma {:induction false} SameBreaksSameTag(name: string, from: nat)
    requires from <= |name|
    requires forall i | from <= i < |name| :: SerdeBreaks(name, i) ==> SdkBreaks(name, i)
    ensures Sdk(name, from) == Serde(name, from)
    decreases |name| - from
  {
    if from < |name| {
      SameBreaksSameTag(name, from + 1);
      assert SerdeBreaks(name, from) <==> SdkBreaks(name, from);
    }
  }

  /** A capital after a capital that no lowercase letter follows. */
  predicate RunsOn(name: string, i: nat)
    requires i < |name|
  {
    i > 0 && Upper(name[i]) && Upper(name[i - 1]) && !(i + 1 < |name| && Lower(name[i + 1]))
  }

  /** The two tags are the same exactly when no run of capitals goes on. */
  lemma RulesAgreeIff(name: string)
    requires Pascal(name)
    ensures Sdk(name, 0) == Serde(name, 0) <==> forall i | 0 <= i < |name| :: !RunsOn(name, i)
  {
    assert forall i | 0 <= i < |name| :: RunsOn(name, i) <==> SerdeBreaks(name, i) && !SdkBreaks(name, i);
    if forall i | 0 <= i < |name| :: !RunsOn(name, i) {
      SameBreaksSameTag(name, 0);
    } else {
      SdkIsNoLonger(name, 0);
    }
  }

  /** The SDK's rule gives two names one tag. */
  lemma SdkTagsCollide()
    ensures Pascal("AB") && Pascal("Ab") && Sdk("AB", 0) == Sdk("Ab", 0)
  {
    assert Sdk("AB", 2) == "" && Sdk("Ab", 2) == "";
    assert Piece('B', false) == ['b'] && Piece('b', false) == ['b'];
    assert Sdk("AB", 1) == "b" && Sdk("Ab", 1) == "b";
  }

  // ---------------------------------------------------------------------
  // Which names share an SDK tag

  /** The name with every capital lowered that the SDK's rule does not break before. */
  function Calmed(name: string): (calm: string)
    ensures |calm| == |name|
    ensures forall i | 0 <= i < |name| ::
              calm[i] == if i == 0 || SdkBreaks(name, i) then name[i] else ToLower(name[i])
  {
    seq(|name|, i requires 0 <= i < |name| => if i == 0 || SdkBreaks(name, i) then name[i] else ToLower(name[i]))
  }

  /** The calmed name breaks where the name does, and has no run of capitals. */
  lemma CalmedBreaks(name: string, i: nat)
    requires Pascal(name) && i < |name|
    ensures SdkBreaks(Calmed(name), i) <==> SdkBreaks(name, i)
    ensures !RunsOn(Calmed(name), i)
  {
  }

  lemma CalmedIsPascal(name: string)
    requires Pascal(name)
    ensures Pascal(Calmed(name))
  {
    hide SdkBreaks;
  }

  lemma {:induction false} CalmedTag(name: string, from: nat)
    requires Pascal(name) && from <= |name|
    ensures Sdk(Calmed(name), from) == Sdk(name, from)
    decreases |name| - from
  {
    hide SdkBreaks;
    if from < |name| {
      CalmedTag(name, from + 1);
      CalmedBreaks(name, from);
    }
  }

  /** Reading an SDK tag back gives the calmed name. */
  lemma SdkReadsBack(name: string)
    requires Pascal(name)
    ensures Unsnake(Sdk(name, 0), true) == Calmed(name)
  {
    hide SdkBreaks, RunsOn, Unsnake, Sdk, Serde;
    var calm := Calmed(name);
    CalmedIsPascal(name);
    forall i | 0 <= i < |calm|
      ensures !RunsOn(calm, i)
    {
      CalmedBreaks(name, i);
    }
    CalmedTag(name, 0);
    RulesAgreeIff(calm);
    SerdeInverts(calm, 0);
    assert calm[0..] == calm;
  }

  /** The SDK's tag gives the name back exactly when no run of capitals goes on. */
  lemma SdkInvertsIff(name: string)
    requires Pascal(name)
    ensures Unsnake(Sdk(name, 0), true) == name <==> forall i | 0 <= i < |name| :: !RunsOn(name, i)
  {
    SdkReadsBack(name);
    var calm := Calmed(name);
    if i :| 0 <= i < |name| && RunsOn(name, i) {
      assert calm[i] == ToLower(name[i]);
    } else {
      forall i | 0 <= i < |name|
        ensures calm[i] == name[i]
      {
        assert !RunsOn(name, i);
      }
    }
  }

  /** Two names share an SDK tag exactly when lowering their running capitals makes them one name. */
  lemma SdkTagsCollideIff(a: string, b: string)
    requires Pascal(a) && Pascal(b)
    ensures Sdk(a, 0) == Sdk(b, 0) <==> Calmed(a) == Calmed(b)
  {
    SdkReadsBack(a);
    SdkReadsBack(b);
    CalmedTag(a, 0);
    CalmedTag(b, 0);
  }
}
