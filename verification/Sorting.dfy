/** Sorted sequences of integers, as Python's `sorted` returns them. */
module Sorting {

  predicate Ordered(s: seq<int>) {
    s == [] || ((forall i | 0 <= i < |s| :: s[0] <= s[i]) && Ordered(s[1..]))
  }

  function Insert(x: int, s: seq<int>): (r: seq<int>)
    ensures |r| == |s| + 1
  {
    if s == [] || x <= s[0] then [x] + s else [s[0]] + Insert(x, s[1..])
  }

  function Sort(s: seq<int>): (r: seq<int>)
    ensures |r| == |s|
  {
    if s == [] then [] else Insert(s[0], Sort(s[1..]))
  }

  lemma {:induction false} InsertCounts(x: int, s: seq<int>)
    ensures multiset(Insert(x, s)) == multiset{x} + multiset(s)
  {
    if s == [] || x <= s[0] {
    } else {
      InsertCounts(x, s[1..]);
      assert s == [s[0]] + s[1..];
    }
  }

  lemma {:induction false} InsertOrders(x: int, s: seq<int>)
    requires Ordered(s)
    ensures Ordered(Insert(x, s))
  {
    if s == [] || x <= s[0] {
      assert ([x] + s)[1..] == s;
    } else {
      InsertOrders(x, s[1..]);
      InsertCounts(x, s[1..]);
      var t := Insert(x, s[1..]);
      forall i | 0 <= i < |t|
        ensures s[0] <= t[i]
      {
        assert t[i] in multiset(t);
        assert t[i] == x || t[i] in s[1..];
      }
      assert ([s[0]] + t)[1..] == t;
    }
  }

  /** `sorted` returns the same elements, in order. */
  lemma {:induction false} SortSorts(s: seq<int>)
    ensures Ordered(Sort(s)) && multiset(Sort(s)) == multiset(s)
  {
    if s != [] {
      SortSorts(s[1..]);
      InsertOrders(s[0], Sort(s[1..]));
      InsertCounts(s[0], Sort(s[1..]));
      assert s == [s[0]] + s[1..];
    }
  }

  lemma {:induction false} OrderedAt(s: seq<int>, i: nat, j: nat)
    requires Ordered(s) && i <= j < |s|
    ensures s[i] <= s[j]
  {
    if i > 0 {
      OrderedAt(s[1..], i - 1, j - 1);
    }
  }

  lemma HeadIsLeast(a: seq<int>, b: seq<int>)
    requires Ordered(a) && Ordered(b) && multiset(a) == multiset(b) && a != [] && b != []
    ensures a[0] <= b[0]
  {
    assert b[0] in multiset(a);
    var j :| 0 <= j < |a| && a[j] == b[0];
  }

  /** An ordered sequence is determined by its elements. */
  lemma {:induction false} OrderedIsUnique(a: seq<int>, b: seq<int>)
    requires Ordered(a) && Ordered(b) && multiset(a) == multiset(b)
    ensures a == b
    decreases |a|
  {
    assert |a| == |multiset(a)| == |multiset(b)| == |b|;
    if a != [] {
      HeadIsLeast(a, b);
      HeadIsLeast(b, a);
      assert a == [a[0]] + a[1..] && b == [b[0]] + b[1..];
      assert multiset(a[1..]) == multiset(a) - multiset{a[0]};
      assert multiset(b[1..]) == multiset(b) - multiset{b[0]};
      OrderedIsUnique(a[1..], b[1..]);
    }
  }

  function Range(n: nat): (r: seq<int>)
  {
    if n == 0 then [] else Range(n - 1) + [n - 1]
  }

  lemma {:induction false} RangeHoldsEachOnce(n: nat, x: int)
    ensures |Range(n)| == n
    ensures forall i | 0 <= i < n :: Range(n)[i] == i
    ensures multiset(Range(n))[x] == if 0 <= x < n then 1 else 0
  {
    if n > 0 {
      RangeHoldsEachOnce(n - 1, x);
    }
  }

  lemma {:induction false} AscendingIsOrdered(s: seq<int>)
    requires forall i, j | 0 <= i < j < |s| :: s[i] <= s[j]
    ensures Ordered(s)
  {
    if s != [] {
      AscendingIsOrdered(s[1..]);
    }
  }

  lemma RangeIsOrdered(n: nat)
    ensures Ordered(Range(n))
  {
    hide Ordered;
    RangeHoldsEachOnce(n, 0);
    AscendingIsOrdered(Range(n));
  }

  lemma SameAsRange(s: seq<int>, n: nat)
    requires forall x {:trigger multiset(s)[x]} :: multiset(s)[x] == if 0 <= x < n then 1 else 0
    ensures multiset(s) == multiset(Range(n))
  {
    hide Range;
    forall x: int
      ensures multiset(s)[x] == multiset(Range(n))[x]
    {
      RangeHoldsEachOnce(n, x);
    }
  }

  /** Sorting gives `range(n)` exactly when each of its numbers occurs once and nothing else occurs. */
  lemma SortsToRange(s: seq<int>, n: nat)
    ensures Sort(s) == Range(n) <==> forall x {:trigger multiset(s)[x]} :: multiset(s)[x] == if 0 <= x < n then 1 else 0
  {
    hide Sort, Range, Ordered;
    SortSorts(s);
    if forall x {:trigger multiset(s)[x]} :: multiset(s)[x] == if 0 <= x < n then 1 else 0 {
      SameAsRange(s, n);
      RangeIsOrdered(n);
      OrderedIsUnique(Sort(s), Range(n));
    } else if Sort(s) == Range(n) {
      forall x: int
        ensures multiset(s)[x] == if 0 <= x < n then 1 else 0
      {
        RangeHoldsEachOnce(n, x);
      }
    }
  }

  /** How many elements satisfy a predicate. */
  function CountIf(s: seq<int>, p: int -> bool): (n: nat)
    ensures n <= |s|
  {
    if s == [] then 0 else (if p(s[0]) then 1 else 0) + CountIf(s[1..], p)
  }

  lemma {:induction false} CountIfInsert(x: int, s: seq<int>, p: int -> bool)
    ensures CountIf(Insert(x, s), p) == CountIf(s, p) + if p(x) then 1 else 0
  {
    if s == [] || x <= s[0] {
      assert ([x] + s)[1..] == s;
    } else {
      CountIfInsert(x, s[1..], p);
    }
  }

  /** Sorting keeps every count. */
  lemma {:induction false} CountIfSort(s: seq<int>, p: int -> bool)
    ensures CountIf(Sort(s), p) == CountIf(s, p)
  {
    if s != [] {
      CountIfSort(s[1..], p);
      CountIfInsert(s[0], Sort(s[1..]), p);
    }
  }

  lemma {:induction false} CountIfAppend(s: seq<int>, x: int, p: int -> bool)
    ensures CountIf(s + [x], p) == CountIf(s, p) + if p(x) then 1 else 0
  {
    if s == [] {
      assert [x][1..] == [];
      assert CountIf([], p) == 0;
    } else {
      assert (s + [x])[1..] == s[1..] + [x];
      CountIfAppend(s[1..], x, p);
    }
  }

  /** At least the first `r` elements count. */
  lemma {:induction false} FirstCount(s: seq<int>, r: nat, p: int -> bool)
    requires r <= |s| && forall i | 0 <= i < r :: p(s[i])
    ensures CountIf(s, p) >= r
  {
    if r > 0 {
      FirstCount(s[1..], r - 1, p);
    }
  }

  /** At most the first `r` elements count. */
  lemma {:induction false} OnlyFirstCount(s: seq<int>, r: nat, p: int -> bool)
    requires r <= |s| && forall i | r <= i < |s| :: !p(s[i])
    ensures CountIf(s, p) <= r
  {
    if s != [] {
      OnlyFirstCount(s[1..], if r > 0 then r - 1 else 0, p);
    }
  }
}
