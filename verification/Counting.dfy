/** Counting the positions of a sequence, and sets by their images. */
module Counting {

  /** Where a sequence satisfies a predicate. */
  function Positions<T>(s: seq<T>, p: T -> bool): (places: set<nat>)
  {
    set i: nat | i < |s| && p(s[i])
  }

  lemma PositionsStep<T>(s: seq<T>, p: T -> bool)
    requires s != []
    ensures |Positions(s, p)| == |Positions(s[..|s| - 1], p)| + if p(s[|s| - 1]) then 1 else 0
  {
    var n := |s| - 1;
    var front := s[..n];
    var before, all := Positions(front, p), Positions(s, p);
    assert forall i: nat | i < n :: front[i] == s[i];
    if p(s[n]) {
      forall i: nat
        ensures i in all <==> i in before + {n}
      {
      }
      assert all == before + {n};
    } else {
      forall i: nat
        ensures i in all <==> i in before
      {
      }
      assert all == before;
    }
  }

  lemma NoPositions<T>(p: T -> bool)
    ensures Positions([], p) == {}
  {
  }

  /** A one-to-one map of one set onto another keeps its size. */
  lemma {:induction false} OneToOne<A(!new), B>(from: set<A>, onto: set<B>, f: A -> B)
    requires forall a | a in from :: f(a) in onto
    requires forall a, b | a in from && b in from && f(a) == f(b) :: a == b
    requires forall y | y in onto :: exists a :: a in from && f(a) == y
    ensures |from| == |onto|
    decreases |from|
  {
    if from == {} {
      assert onto == {};
    } else {
      var x :| x in from;
      forall y | y in onto - {f(x)}
        ensures exists a :: a in from - {x} && f(a) == y
      {
        var a :| a in from && f(a) == y;
        assert a in from - {x};
      }
      OneToOne(from - {x}, onto - {f(x)}, f);
    }
  }
}
