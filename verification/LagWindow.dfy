/**
 The lag observed between two cumulative samples: bucket differences, the
 checks that reject a pair of samples, and what an accepted window means.
 */
module LagWindow {
  import opened Wrappers
  import opened Arithmetic
  import opened Sorting
  import opened Buckets
  import opened Histograms

  datatype Sample = Sample(count: int, buckets: Counts, sum: int, max: int)

  datatype Window = Window(count: int, mean: Option<real>, lifetimeMax: int, buckets: Counts)

  datatype Error = NotABound(floor: int) | Regressed | Disagrees

  /** What the loop raises at one item of the later sample. */
  function Fault(before: Counts, item: Bucket): (e: Option<Error>)
  {
    if BucketFloor(item.floor) != item.floor then Some(NotABound(item.floor))
    else if item.count < Get(before, item.floor) then Some(Regressed)
    else None
  }

  /** The positive changes, in the later sample's order. */
  function Changes(before: Counts, after: Counts): (m: Counts)
    ensures |m| <= |after|
  {
    if after == [] then [] else
    var rest := Changes(before, after[..|after| - 1]);
    var last := after[|after| - 1];
    var change := last.count - Get(before, last.floor);
    if change > 0 then rest + [Bucket(last.floor, change)] else rest
  }

  ghost predicate Unfaulted(before: Counts, after: Counts) {
    forall i | 0 <= i < |after| :: Fault(before, after[i]) == None
  }

  /** The pair of samples has a window. */
  ghost predicate Accepts(before: Sample, after: Sample) {
    && Unfaulted(before.buckets, after.buckets)
    && after.count - before.count == Sum(Changes(before.buckets, after.buckets))
  }

  /** The error is the one raised: the first faulty item's, or the count check's when no item is. */
  ghost predicate Raised(before: Sample, after: Sample, error: Error) {
    if Unfaulted(before.buckets, after.buckets) then error == Disagrees
    else exists i | 0 <= i < |after.buckets| ::
        Fault(before.buckets, after.buckets[i]) == Some(error) && Unfaulted(before.buckets, after.buckets[..i])
  }

  function Mean(before: Sample, after: Sample): (mean: Option<real>)
  {
    var count := after.count - before.count;
    if count == 0 then None else Some((after.sum - before.sum) as real / count as real)
  }

  lemma ChangesStep(before: Counts, items: Counts, i: nat)
    requires i < |items|
    ensures var change := items[i].count - Get(before, items[i].floor);
            Changes(before, items[..i + 1]) ==
            Changes(before, items[..i]) + if change > 0 then [Bucket(items[i].floor, change)] else []
  {
    assert items[..i + 1][..i] == items[..i];
  }

  lemma UnfaultedStep(before: Counts, items: Counts, i: nat)
    requires i < |items| && Unfaulted(before, items[..i]) && Fault(before, items[i]) == None
    ensures Unfaulted(before, items[..i + 1])
  {
    hide Fault;
    var all := items[..i + 1];
    assert forall j | 0 <= j < i :: all[j] == items[..i][j];
  }

  lemma FaultIsRaised(before: Sample, after: Sample, i: nat)
    requires i < |after.buckets| && Unfaulted(before.buckets, after.buckets[..i])
    requires Fault(before.buckets, after.buckets[i]).Some?
    ensures !Unfaulted(before.buckets, after.buckets)
    ensures Raised(before, after, Fault(before.buckets, after.buckets[i]).value)
  {
    hide Fault;
  }

  /** `lag_window`, without its percentiles. */
  method Difference(before: Sample, after: Sample) returns (r: Result<Window, Error>)
    ensures r.Ok? <==> Accepts(before, after)
    ensures r.Ok? ==> r.value == Window(after.count - before.count, Mean(before, after), after.max,
                                        Changes(before.buckets, after.buckets))
    ensures r.Err? ==> Raised(before, after, r.error)
  {
    hide Changes, Unfaulted, Raised, Sum, BucketFloor;
    var buckets: Counts := [];
    var items := after.buckets;
    assert Unfaulted(before.buckets, []) && Changes(before.buckets, []) == [] by { NothingChanged(before.buckets); }
    for next := 0 to |items|
      invariant buckets == Changes(before.buckets, items[..next])
      invariant Unfaulted(before.buckets, items[..next])
    {
      var item := items[next];
      if BucketFloor(item.floor) != item.floor {
        FaultIsRaised(before, after, next);
        return Err(NotABound(item.floor));
      }
      var change := item.count - Get(before.buckets, item.floor);
      if change < 0 {
        FaultIsRaised(before, after, next);
        return Err(Regressed);
      }
      UnfaultedStep(before.buckets, items, next);
      ChangesStep(before.buckets, items, next);
      if change > 0 {
        buckets := buckets + [Bucket(item.floor, change)];
      }
    }
    assert items[..|items|] == items;
    var count := after.count - before.count;
    if count != Sum(buckets) {
      DisagreementIsRaised(before, after);
      return Err(Disagrees);
    }
    var mean := if count == 0 then None else Some((after.sum - before.sum) as real / count as real);
    return Ok(Window(count, mean, after.max, buckets));
  }

  lemma NothingChanged(before: Counts)
    ensures Unfaulted(before, []) && Changes(before, []) == []
  {
  }

  lemma DisagreementIsRaised(before: Sample, after: Sample)
    requires Unfaulted(before.buckets, after.buckets)
    ensures Raised(before, after, Disagrees)
  {
  }

  lemma {:induction false} SumAppend(m: Counts, item: Bucket)
    ensures Sum(m + [item]) == Sum(m) + item.count
  {
    if m == [] {
      assert [item][1..] == [];
    } else {
      assert (m + [item])[1..] == m[1..] + [item];
      SumAppend(m[1..], item);
    }
  }

  lemma {:induction false} GetAppend(m: Counts, item: Bucket, k: int)
    requires item.floor !in Floors(m)
    ensures Get(m + [item], k) == Get(m, k) + if k == item.floor then item.count else 0
  {
    if m == [] {
      assert [item][1..] == [];
    } else {
      assert (m + [item])[1..] == m[1..] + [item];
      assert forall i | 0 <= i < |m| - 1 :: Floors(m[1..])[i] == Floors(m)[i + 1];
      assert m[0].floor == Floors(m)[0];
      GetAppend(m[1..], item, k);
    }
  }

  /** A window's buckets are distinct, positive and among the later sample's. */
  lemma {:induction false} ChangesAreBuckets(before: Counts, after: Counts)
    requires Distinct(after)
    ensures Distinct(Changes(before, after))
    ensures forall i | 0 <= i < |Changes(before, after)| ::
      Changes(before, after)[i].count > 0 && Changes(before, after)[i].floor in Floors(after)
  {
    if after != [] {
      var front, last := after[..|after| - 1], after[|after| - 1];
      ChangesAreBuckets(before, front);
      assert forall i | 0 <= i < |front| :: Floors(front)[i] == Floors(after)[i];
      assert last.floor == Floors(after)[|front|];
      assert last.floor !in Floors(front);
    }
  }

  lemma ChangesAreAmong(before: Counts, after: Counts, floor: int)
    requires Distinct(after) && floor !in Floors(after)
    ensures floor !in Floors(Changes(before, after))
  {
    ChangesAreBuckets(before, after);
  }

  lemma FrontIsUnfaulted(before: Counts, after: Counts)
    requires after != [] && Unfaulted(before, after)
    ensures Unfaulted(before, after[..|after| - 1]) && Fault(before, after[|after| - 1]) == None
  {
    hide Fault;
    var front := after[..|after| - 1];
    assert forall i | 0 <= i < |front| :: front[i] == after[i];
  }

  lemma FrontIsDistinct(m: Counts)
    requires m != [] && Distinct(m)
    ensures var front := m[..|m| - 1]; Distinct(front) && m[|m| - 1].floor !in Floors(front)
  {
  }

  /** At a bucket of the later sample, the window holds the growth since the earlier one. */
  lemma {:induction false} ChangesGet(before: Counts, after: Counts, k: int)
    requires Distinct(after) && Unfaulted(before, after)
    ensures Get(Changes(before, after), k) == if k in Floors(after) then Get(after, k) - Get(before, k) else 0
    ensures k in Floors(after) ==> Get(after, k) >= Get(before, k)
  {
    hide BucketFloor, Unfaulted, Distinct;
    if after != [] {
      var front, last := after[..|after| - 1], after[|after| - 1];
      assert after == front + [last];
      FrontIsUnfaulted(before, after);
      FrontIsDistinct(after);
      ChangesGet(before, front, k);
      assert Floors(after) == Floors(front) + [last.floor];
      GetAppend(front, last, k);
      MissingKey(front, last.floor);
      var rest := Changes(before, front);
      assert last.floor !in Floors(rest) by { ChangesAreAmong(before, front, last.floor); }
      GetAppend(rest, Bucket(last.floor, last.count - Get(before, last.floor)), k);
    }
  }

  /** The window's total, against the part of the earlier sample it covers. */
  lemma {:induction false} ChangesSum(before: Counts, after: Counts)
    requires Unfaulted(before, after)
    ensures Sum(Changes(before, after)) == Sum(after) - SumAt(before, Floors(after))
  {
    hide BucketFloor, Unfaulted;
    if after != [] {
      var front, last := after[..|after| - 1], after[|after| - 1];
      assert after == front + [last];
      FrontIsUnfaulted(before, after);
      ChangesSum(before, front);
      SumAppend(front, last);
      assert Floors(after) == Floors(front) + [last.floor];
      SumAtAppend(before, Floors(front), last.floor);
      var change := last.count - Get(before, last.floor);
      SumAppend(Changes(before, front), Bucket(last.floor, change));
    }
  }

  /** What the earlier sample counts outside a run of keys. */
  function Outside(m: Counts, keys: seq<int>): (n: nat)
  {
    if m == [] then 0
    else (if m[0].floor in keys then 0 else m[0].count) + Outside(m[1..], keys)
  }

  lemma {:induction false} SumAtWith(m: Counts, keys: seq<int>)
    requires m != [] && m[0].floor !in Floors(m[1..])
    requires forall i, j | 0 <= i < j < |keys| :: keys[i] != keys[j]
    ensures SumAt(m, keys) == SumAt(m[1..], keys) + if m[0].floor in keys then m[0].count else 0
  {
    if keys != [] {
      if keys[0] == m[0].floor {
        SumAtWithout(m, keys[1..]);
        MissingKey(m[1..], keys[0]);
      } else {
        SumAtWith(m, keys[1..]);
        assert keys == [keys[0]] + keys[1..];
      }
    }
  }

  /** Keys cover a sample's total up to what lies outside them. */
  lemma {:induction false} KeysCover(m: Counts, keys: seq<int>)
    requires Distinct(m)
    requires forall i, j | 0 <= i < j < |keys| :: keys[i] != keys[j]
    ensures SumAt(m, keys) + Outside(m, keys) == Sum(m)
  {
    if m == [] {
      NothingToSum(keys);
    } else {
      KeysCover(m[1..], keys);
      SumAtWith(m, keys);
    }
  }

  lemma {:induction false} NothingToSum(keys: seq<int>)
    ensures SumAt([], keys) == 0
  {
    if keys != [] {
      NothingToSum(keys[1..]);
    }
  }

  lemma {:induction false} OutsideIsEmpty(m: Counts, keys: seq<int>)
    requires Distinct(m)
    ensures Outside(m, keys) == 0 <==> forall k | k !in keys :: Get(m, k) == 0
  {
    if m != [] {
      OutsideIsEmpty(m[1..], keys);
      MissingKey(m[1..], m[0].floor);
      assert forall k | k != m[0].floor :: Get(m, k) == Get(m[1..], k);
      assert Get(m, m[0].floor) == m[0].count;
    }
  }

  /** A sample as the server prints it: its count is its buckets' total. */
  ghost predicate Consistent(s: Sample) {
    Distinct(s.buckets) && s.count == Sum(s.buckets)
  }

  ghost predicate Grew(before: Counts, after: Counts) {
    forall k: int :: Get(before, k) <= Get(after, k)
  }

  ghost predicate OnBounds(m: Counts) {
    forall i | 0 <= i < |m| :: IsBound(m[i].floor)
  }

  lemma UnfaultedIsOnBounds(before: Counts, after: Counts)
    requires Unfaulted(before, after)
    ensures OnBounds(after)
  {
    hide BucketFloor, IsBound;
    forall i | 0 <= i < |after|
      ensures IsBound(after[i].floor)
    {
      assert Fault(before, after[i]) == None;
      BoundIff(after[i].floor);
    }
  }

  lemma GrewIsUnfaulted(before: Counts, after: Counts)
    requires Distinct(after) && OnBounds(after) && Grew(before, after)
    ensures Unfaulted(before, after)
  {
    hide BucketFloor, IsBound;
    forall i | 0 <= i < |after|
      ensures Fault(before, after[i]) == None
    {
      GetAt(after, i);
      BoundIff(after[i].floor);
    }
  }

  /** The count check of two consistent samples says that no counted bucket vanished. */
  lemma CountCheck(before: Sample, after: Sample)
    requires Consistent(before) && Consistent(after)
    requires Unfaulted(before.buckets, after.buckets)
    ensures Accepts(before, after) <==> forall k | k !in Floors(after.buckets) :: Get(before.buckets, k) == 0
  {
    ChangesSum(before.buckets, after.buckets);
    KeysCover(before.buckets, Floors(after.buckets));
    OutsideIsEmpty(before.buckets, Floors(after.buckets));
  }

  /**
   Two consistent samples have a window exactly when every later bucket is a
   bucket bound and no bucket shrank, vanished buckets included.
   */
  lemma AcceptsIff(before: Sample, after: Sample)
    requires Consistent(before) && Consistent(after)
    ensures Accepts(before, after) <==> OnBounds(after.buckets) && Grew(before.buckets, after.buckets)
  {
    hide BucketFloor, IsBound;
    var earlier, later := before.buckets, after.buckets;
    if Accepts(before, after) {
      CountCheck(before, after);
      UnfaultedIsOnBounds(earlier, later);
      forall k: int
        ensures Get(earlier, k) <= Get(later, k)
      {
        ChangesGet(earlier, later, k);
      }
    }
    if OnBounds(later) && Grew(earlier, later) {
      GrewIsUnfaulted(earlier, later);
      forall k | k !in Floors(later)
        ensures Get(earlier, k) == 0
      {
        MissingKey(later, k);
      }
      CountCheck(before, after);
    }
  }

  /** Conservation: an accepted window is exactly what was added to every bucket. */
  lemma WindowIsExact(before: Sample, after: Sample, k: int)
    requires Consistent(before) && Consistent(after) && Accepts(before, after)
    ensures Get(after.buckets, k)
         == Get(before.buckets, k) + Get(Changes(before.buckets, after.buckets), k)
  {
    CountCheck(before, after);
    ChangesGet(before.buckets, after.buckets, k);
    MissingKey(after.buckets, k);
  }

  /** Adjoining windows compose: they join into an accepted window that adds them up. */
  lemma WindowsCompose(a: Sample, b: Sample, c: Sample, k: int)
    requires Consistent(a) && Consistent(b) && Consistent(c)
    requires Accepts(a, b) && Accepts(b, c)
    ensures Accepts(a, c)
    ensures Get(Changes(a.buckets, c.buckets), k)
         == Get(Changes(a.buckets, b.buckets), k) + Get(Changes(b.buckets, c.buckets), k)
  {
    AcceptsIff(a, b);
    AcceptsIff(b, c);
    AcceptsIff(a, c);
    WindowIsExact(a, b, k);
    WindowIsExact(b, c, k);
    WindowIsExact(a, c, k);
  }

  /** A window's histogram is that of the lags recorded between its samples. */
  lemma WindowHolds(before: Sample, after: Sample, earlier: seq<int>, added: seq<int>)
    requires IsHistogram(before.buckets, earlier) && before.count == |earlier|
    requires IsHistogram(after.buckets, earlier + added) && after.count == |earlier + added|
    requires OnBounds(after.buckets)
    ensures Accepts(before, after)
    ensures IsHistogram(Changes(before.buckets, after.buckets), added)
  {
    SumIsCount(before.buckets, earlier);
    SumIsCount(after.buckets, earlier + added);
    forall k: int
      ensures Get(after.buckets, k) == Get(before.buckets, k) + InBucket(added, k)
    {
      InBucketJoins(earlier, added, k);
    }
    AcceptsIff(before, after);
    ChangesAreBuckets(before.buckets, after.buckets);
    forall k: int
      ensures Get(Changes(before.buckets, after.buckets), k) == InBucket(added, k)
    {
      WindowIsExact(before, after, k);
    }
  }

  function Total(lags: seq<int>): (n: int)
  {
    if lags == [] then 0 else lags[0] + Total(lags[1..])
  }

  lemma {:induction false} TotalJoins(s: seq<int>, t: seq<int>)
    ensures Total(s + t) == Total(s) + Total(t)
  {
    if s == [] {
      assert s + t == t;
    } else {
      assert (s + t)[1..] == s[1..] + t;
      TotalJoins(s[1..], t);
    }
  }

  /** A window's mean is that of the lags recorded between its samples. */
  lemma MeanIsAverage(before: Sample, after: Sample, earlier: seq<int>, added: seq<int>)
    requires before.count == |earlier| && before.sum == Total(earlier)
    requires after.count == |earlier + added| && after.sum == Total(earlier + added)
    ensures Mean(before, after) == if added == [] then None else Some(Total(added) as real / |added| as real)
  {
    TotalJoins(earlier, added);
  }

  lemma {:induction false} InBucketJoins(s: seq<int>, t: seq<int>, k: int)
    ensures InBucket(s + t, k) == InBucket(s, k) + InBucket(t, k)
  {
    if s == [] {
      assert s + t == t;
    } else {
      assert (s + t)[1..] == s[1..] + t;
      InBucketJoins(s[1..], t, k);
    }
  }

  // ---------------------------------------------------------------------
  // The reported percentiles

  lemma RankIsMonotone(low: nat, high: nat, den: nat, total: nat)
    requires den > 0 && low <= high
    ensures NearestRank(low, den, total) <= NearestRank(high, den, total)
  {
    var x, y := low * total + den - 1, high * total + den - 1;
    assert low * total <= high * total;
    QuotientIsMonotone(x, y, den);
  }

  lemma {:induction false} ReachesLater(m: Counts, keys: seq<int>, seen: nat, low: nat, high: nat)
    requires Ordered(keys) && low <= high
    requires FirstReaching(m, keys, seen, low).Some? && FirstReaching(m, keys, seen, high).Some?
    ensures FirstReaching(m, keys, seen, low).value <= FirstReaching(m, keys, seen, high).value
  {
    if seen + Get(m, keys[0]) < low {
      ReachesLater(m, keys[1..], seen + Get(m, keys[0]), low, high);
    } else {
      ReachedIsKey(m, keys, seen, high);
    }
  }

  lemma {:induction false} ReachedIsKey(m: Counts, keys: seq<int>, seen: nat, rank: nat)
    requires FirstReaching(m, keys, seen, rank).Some?
    ensures FirstReaching(m, keys, seen, rank).value in keys
  {
    if seen + Get(m, keys[0]) < rank {
      ReachedIsKey(m, keys[1..], seen + Get(m, keys[0]), rank);
    }
  }

  /** Percentiles are ordered as their ranks are: p50 <= p95 <= p99. */
  lemma QuantilesAreOrdered(m: Counts, low: nat, high: nat, den: nat)
    requires den > 0 && low <= high && Distinct(m) && Sum(m) > 0
    ensures Quantile(m, low, den).Some? && Quantile(m, high, den).Some?
    ensures Quantile(m, low, den).value <= Quantile(m, high, den).value
  {
    RankIsMonotone(low, high, den, Sum(m));
    RankIsReached(m, NearestRank(low, den, Sum(m)));
    RankIsReached(m, NearestRank(high, den, Sum(m)));
    SortSorts(Floors(m));
    ReachesLater(m, Sort(Floors(m)), 0, NearestRank(low, den, Sum(m)), NearestRank(high, den, Sum(m)));
  }
}
