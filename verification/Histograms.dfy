/**
 Lag histograms: nearest-rank quantiles over bucket counts, and the window
 between two cumulative samples. A dictionary is its items in insertion order.
 */
module Histograms {
  import opened Wrappers
  import opened Arithmetic
  import opened Sorting
  import opened Buckets

  datatype Bucket = Bucket(floor: int, count: nat)

  type Counts = seq<Bucket>

  ghost predicate Distinct(m: Counts) {
    forall i, j | 0 <= i < j < |m| :: m[i].floor != m[j].floor
  }

  /** `m.get(k, 0)`. */
  function Get(m: Counts, k: int): (n: nat)
  {
    if m == [] then 0 else if m[0].floor == k then m[0].count else Get(m[1..], k)
  }

  function Sum(m: Counts): (n: nat)
  {
    if m == [] then 0 else m[0].count + Sum(m[1..])
  }

  function Floors(m: Counts): (keys: seq<int>)
    ensures |keys| == |m| && forall i | 0 <= i < |m| :: keys[i] == m[i].floor
  {
    seq(|m|, i requires 0 <= i < |m| => m[i].floor)
  }

  /** The counts under a sequence of keys, added up. */
  function SumAt(m: Counts, keys: seq<int>): (n: nat)
  {
    if keys == [] then 0 else Get(m, keys[0]) + SumAt(m, keys[1..])
  }

  // ---------------------------------------------------------------------
  // Quantiles

  /** `nearest_rank` of the quantile `num / den`: 1-based, clamped into `[1, total]`. */
  function NearestRank(num: nat, den: nat, total: nat): (rank: nat)
    requires den > 0
    ensures total > 0 ==> 1 <= rank <= total
  {
    var ceiling := CeilDiv(num * total, den);
    var low := if ceiling < 1 then 1 else ceiling;
    if low < total then low else total
  }

  /** The rank is the least that covers the quantile's share of the total. */
  lemma NearestRankIsLeast(num: nat, den: nat, total: nat)
    requires 0 < den && num <= den && total > 0
    ensures var rank := NearestRank(num, den, total);
            rank * den >= num * total && (rank > 1 ==> (rank - 1) * den < num * total)
  {
    var ceiling := CeilDiv(num * total, den);
    CeilAbove(ceiling, num * total, den);
    CeilAbove(ceiling - 1, num * total, den);
    CeilAbove(total, num * total, den);
    ShareIsWithin(num, den, total);
    if ceiling < 1 {
      Times(ceiling, 1, den);
    }
  }

  lemma ShareIsWithin(num: nat, den: nat, total: nat)
    requires num <= den
    ensures num * total <= total * den
  {
  }

  /** The exact nearest-rank element of the sorted values, as `distribution` picks it. */
  function Percentile(values: seq<int>, num: nat, den: nat): (v: int)
    requires den > 0 && values != []
  {
    Sort(values)[NearestRank(num, den, |values|) - 1]
  }

  /** The first key at which the running count reaches `rank`. */
  function FirstReaching(m: Counts, keys: seq<int>, seen: nat, rank: nat): (floor: Option<int>)
  {
    if keys == [] then None
    else if seen + Get(m, keys[0]) >= rank then Some(keys[0])
    else FirstReaching(m, keys[1..], seen + Get(m, keys[0]), rank)
  }

  function Quantile(m: Counts, num: nat, den: nat): (floor: Option<int>)
    requires den > 0
  {
    if Sum(m) == 0 then None else FirstReaching(m, Sort(Floors(m)), 0, NearestRank(num, den, Sum(m)))
  }

  /** `bucket_quantile`; falling out of its loop is an assertion failure, which never happens. */
  method BucketQuantile(m: Counts, num: nat, den: nat) returns (floor: Option<int>)
    requires den > 0 && Distinct(m)
    ensures floor == Quantile(m, num, den)
    ensures floor.None? <==> Sum(m) == 0
  {
    var total := Sum(m);
    if total == 0 {
      return None;
    }
    var rank := NearestRank(num, den, total);
    var keys := Sort(Floors(m));
    RankIsReached(m, rank);
    var seen: nat := 0;
    assert keys[0..] == keys;
    for next := 0 to |keys|
      invariant seen < rank
      invariant Quantile(m, num, den) == FirstReaching(m, keys[next..], seen, rank)
    {
      assert keys[next..][1..] == keys[next + 1..];
      seen := seen + Get(m, keys[next]);
      if seen >= rank {
        return Some(keys[next]);
      }
    }
    assert false;
  }

  lemma {:induction false} SumAtInsert(m: Counts, k: int, keys: seq<int>)
    ensures SumAt(m, Insert(k, keys)) == Get(m, k) + SumAt(m, keys)
  {
    if keys == [] || k <= keys[0] {
      assert ([k] + keys)[1..] == keys;
    } else {
      SumAtInsert(m, k, keys[1..]);
    }
  }

  lemma {:induction false} SumAtSort(m: Counts, keys: seq<int>)
    ensures SumAt(m, Sort(keys)) == SumAt(m, keys)
  {
    if keys != [] {
      SumAtSort(m, keys[1..]);
      SumAtInsert(m, keys[0], Sort(keys[1..]));
    }
  }

  lemma {:induction false} GetAt(m: Counts, i: nat)
    requires Distinct(m) && i < |m|
    ensures Get(m, m[i].floor) == m[i].count
  {
    if i > 0 {
      GetAt(m[1..], i - 1);
    }
  }

  /** Leaving out an entry changes no other key's count. */
  lemma {:induction false} SumAtWithout(m: Counts, keys: seq<int>)
    requires m != [] && m[0].floor !in keys
    ensures SumAt(m, keys) == SumAt(m[1..], keys)
  {
    if keys != [] {
      SumAtWithout(m, keys[1..]);
    }
  }

  lemma {:induction false} SumAtFloors(m: Counts)
    requires Distinct(m)
    ensures SumAt(m, Floors(m)) == Sum(m)
  {
    if m != [] {
      SumAtFloors(m[1..]);
      assert Floors(m)[1..] == Floors(m[1..]);
      assert m[0].floor !in Floors(m[1..]);
      SumAtWithout(m, Floors(m)[1..]);
    }
  }

  lemma {:induction false} ReachesWithin(m: Counts, keys: seq<int>, seen: nat, rank: nat)
    ensures FirstReaching(m, keys, seen, rank).Some? <==> keys != [] && seen + SumAt(m, keys) >= rank
  {
    if keys != [] {
      ReachesWithin(m, keys[1..], seen + Get(m, keys[0]), rank);
    }
  }

  lemma RankIsReached(m: Counts, rank: nat)
    requires Distinct(m) && Sum(m) > 0 && rank <= Sum(m)
    ensures FirstReaching(m, Sort(Floors(m)), 0, rank).Some?
  {
    SumAtFloors(m);
    SumAtSort(m, Floors(m));
    ReachesWithin(m, Sort(Floors(m)), 0, rank);
  }

  // ---------------------------------------------------------------------
  // Quantiles commute with bucketing

  /** How many lags are in the bucket at `floor`. */
  function InBucket(lags: seq<int>, floor: int): (n: nat)
  {
    if lags == [] then 0 else (if BucketFloor(lags[0]) == floor then 1 else 0) + InBucket(lags[1..], floor)
  }

  /** How many lags are in buckets up to and including `floor`. */
  function UpTo(lags: seq<int>, floor: int): (n: nat)
  {
    if lags == [] then 0 else (if BucketFloor(lags[0]) <= floor then 1 else 0) + UpTo(lags[1..], floor)
  }

  ghost predicate IsHistogram(m: Counts, lags: seq<int>) {
    Distinct(m) && forall floor: int :: Get(m, floor) == InBucket(lags, floor)
  }

  lemma InBucketOne(lag: int, floor: int)
    ensures InBucket([lag], floor) == if BucketFloor(lag) == floor then 1 else 0
  {
    assert [lag][1..] == [];
    assert InBucket([], floor) == 0;
  }

  lemma {:induction false} InBucketInsert(x: int, s: seq<int>, floor: int)
    ensures InBucket(Insert(x, s), floor) == InBucket([x], floor) + InBucket(s, floor)
  {
    if s == [] || x <= s[0] {
      assert ([x] + s)[1..] == s;
    } else {
      InBucketInsert(x, s[1..], floor);
    }
  }

  lemma {:induction false} InBucketSort(lags: seq<int>, floor: int)
    ensures InBucket(Sort(lags), floor) == InBucket(lags, floor)
  {
    if lags != [] {
      InBucketSort(lags[1..], floor);
      InBucketInsert(lags[0], Sort(lags[1..]), floor);
    }
  }

  ghost predicate Ascending(keys: seq<int>) {
    forall i, j | 0 <= i < j < |keys| :: keys[i] < keys[j]
  }

  /** The lags counted under a run of keys. */
  function Counted(lags: seq<int>, keys: seq<int>): (n: nat)
  {
    if keys == [] then 0 else InBucket(lags, keys[0]) + Counted(lags, keys[1..])
  }

  lemma {:induction false} CountedStep(lags: seq<int>, keys: seq<int>)
    requires lags != []
    ensures Counted(lags, keys) == Counted([lags[0]], keys) + Counted(lags[1..], keys)
  {
    if keys != [] {
      InBucketOne(lags[0], keys[0]);
      CountedStep(lags, keys[1..]);
    }
  }

  lemma {:induction false} CountedOne(lag: int, keys: seq<int>)
    requires Ascending(keys)
    ensures Counted([lag], keys) == if BucketFloor(lag) in keys then 1 else 0
  {
    if keys != [] {
      InBucketOne(lag, keys[0]);
      CountedOne(lag, keys[1..]);
      assert keys == [keys[0]] + keys[1..];
    }
  }

  /** The first `j` keys count exactly the lags up to the last of them. */
  lemma {:induction false} CountedIsUpTo(lags: seq<int>, keys: seq<int>, j: nat)
    requires Ascending(keys) && 0 < j <= |keys|
    requires forall i | 0 <= i < |lags| :: BucketFloor(lags[i]) in keys
    ensures Counted(lags, keys[..j]) == UpTo(lags, keys[j - 1])
    decreases |lags|
  {
    if lags == [] {
      NothingCounted(keys[..j]);
    } else {
      CountedStep(lags, keys[..j]);
      CountedOne(lags[0], keys[..j]);
      CountedIsUpTo(lags[1..], keys, j);
      var i :| 0 <= i < |keys| && keys[i] == BucketFloor(lags[0]);
      assert keys[i] in keys[..j] <==> i < j by {
        if i < j { assert keys[..j][i] == keys[i]; }
      }
    }
  }

  lemma {:induction false} NothingCounted(keys: seq<int>)
    ensures Counted([], keys) == 0
  {
    if keys != [] {
      NothingCounted(keys[1..]);
    }
  }

  lemma {:induction false} SumAtCounted(m: Counts, lags: seq<int>, keys: seq<int>)
    requires forall floor: int :: Get(m, floor) == InBucket(lags, floor)
    ensures SumAt(m, keys) == Counted(lags, keys)
  {
    if keys != [] {
      SumAtCounted(m, lags, keys[1..]);
    }
  }

  /** At least `r` lags are counted when the first `r` are. */
  lemma {:induction false} PrefixCounts(s: seq<int>, r: nat, floor: int)
    requires r <= |s| && forall i | 0 <= i < r :: BucketFloor(s[i]) <= floor
    ensures UpTo(s, floor) >= r
  {
    if r > 0 {
      PrefixCounts(s[1..], r - 1, floor);
    }
  }

  /** At most `r` lags are counted when none from the `r`-th on is. */
  lemma {:induction false} SuffixDoesNot(s: seq<int>, r: nat, floor: int)
    requires r <= |s| && forall i | r <= i < |s| :: BucketFloor(s[i]) > floor
    ensures UpTo(s, floor) <= r
  {
    if s != [] {
      SuffixDoesNot(s[1..], if r > 0 then r - 1 else 0, floor);
    }
  }

  /** The `rank`-th smallest lag's floor is the first bound up to which `rank` lags are counted. */
  lemma RankedFloor(s: seq<int>, rank: nat, floor: int)
    requires Ordered(s) && 1 <= rank <= |s|
    ensures floor < BucketFloor(s[rank - 1]) ==> UpTo(s, floor) < rank
    ensures floor == BucketFloor(s[rank - 1]) ==> UpTo(s, floor) >= rank
  {
    if floor < BucketFloor(s[rank - 1]) {
      forall i | rank - 1 <= i < |s|
        ensures BucketFloor(s[i]) > floor
      {
        OrderedAt(s, rank - 1, i);
        FloorIsMonotone(s[rank - 1], s[i]);
      }
      SuffixDoesNot(s, rank - 1, floor);
    } else if floor == BucketFloor(s[rank - 1]) {
      forall i | 0 <= i < rank
        ensures BucketFloor(s[i]) <= floor
      {
        OrderedAt(s, i, rank - 1);
        FloorIsMonotone(s[i], s[rank - 1]);
      }
      PrefixCounts(s, rank, floor);
    }
  }

  /** What the loop has seen once it has added key `j`. */
  function SeenAt(m: Counts, keys: seq<int>, j: nat): (n: nat)
    requires j < |keys|
  {
    SumAt(m, keys[..j + 1])
  }

  /** Walking up to key `k`, whose prefix sum is the first to reach the rank. */
  lemma {:induction false} ReachedAt(m: Counts, keys: seq<int>, from: nat, k: nat, rank: nat)
    requires from <= k < |keys|
    requires forall j | from <= j < k :: SeenAt(m, keys, j) < rank
    requires SeenAt(m, keys, k) >= rank
    ensures FirstReaching(m, keys[from..], SumAt(m, keys[..from]), rank) == Some(keys[k])
    decreases k - from
  {
    SumAtAppend(m, keys[..from], keys[from]);
    assert keys[..from] + [keys[from]] == keys[..from + 1];
    assert SeenAt(m, keys, from) == SumAt(m, keys[..from + 1]);
    if from < k {
      ReachedAt(m, keys, from + 1, k, rank);
      assert keys[from..][1..] == keys[from + 1..];
    }
  }

  lemma {:induction false} SumAtAppend(m: Counts, keys: seq<int>, k: int)
    ensures SumAt(m, keys + [k]) == SumAt(m, keys) + Get(m, k)
  {
    if keys != [] {
      assert (keys + [k])[1..] == keys[1..] + [k];
      SumAtAppend(m, keys[1..], k);
    }
  }

  lemma {:induction false} MissingKey(m: Counts, k: int)
    ensures k !in Floors(m) ==> Get(m, k) == 0
  {
    if m != [] {
      MissingKey(m[1..], k);
      assert Floors(m)[0] == m[0].floor;
      assert forall i | 0 <= i < |m| - 1 :: Floors(m)[i + 1] == Floors(m[1..])[i];
    }
  }

  lemma {:induction false} OwnBucket(lags: seq<int>, i: nat)
    requires i < |lags|
    ensures InBucket(lags, BucketFloor(lags[i])) > 0
  {
    if i > 0 {
      OwnBucket(lags[1..], i - 1);
    }
  }

  /** The sorted bounds are strictly ascending and hold every lag's bucket. */
  lemma SortedBounds(m: Counts, lags: seq<int>)
    requires IsHistogram(m, lags)
    ensures Ascending(Sort(Floors(m)))
    ensures forall i | 0 <= i < |lags| :: BucketFloor(lags[i]) in Sort(Floors(m))
  {
    var floors, keys := Floors(m), Sort(Floors(m));
    SortSorts(floors);
    forall i, j | 0 <= i < j < |keys|
      ensures keys[i] < keys[j]
    {
      OrderedAt(keys, i, j);
      if keys[i] == keys[j] { RepeatedElement(keys, i, j); DistinctElement(floors, keys[i]); }
    }
    forall i | 0 <= i < |lags|
      ensures BucketFloor(lags[i]) in keys
    {
      OwnBucket(lags, i);
      MissingKey(m, BucketFloor(lags[i]));
      assert BucketFloor(lags[i]) in multiset(floors);
    }
  }

  lemma RepeatedElement(s: seq<int>, i: nat, j: nat)
    requires i < j < |s| && s[i] == s[j]
    ensures multiset(s)[s[i]] >= 2
  {
    assert s == s[..j] + [s[j]] + s[j + 1..];
    assert s[..j][i] == s[i];
    assert s[i] in multiset(s[..j]);
  }

  lemma {:induction false} DistinctElement(s: seq<int>, x: int)
    requires forall i, j | 0 <= i < j < |s| :: s[i] != s[j]
    ensures multiset(s)[x] <= 1
  {
    if s != [] {
      DistinctElement(s[1..], x);
      assert s == [s[0]] + s[1..];
      assert s[0] !in s[1..];
    }
  }

  /** The histogram's total is the number of lags. */
  lemma {:induction false} SumIsCount(m: Counts, lags: seq<int>)
    requires IsHistogram(m, lags)
    ensures Sum(m) == |lags|
  {
    var keys := Sort(Floors(m));
    SortedBounds(m, lags);
    SumAtFloors(m);
    SumAtSort(m, Floors(m));
    SumAtCounted(m, lags, keys);
    if lags == [] {
      NothingCounted(keys);
    } else {
      assert BucketFloor(lags[0]) in keys;
      assert keys[..|keys|] == keys;
      CountedIsUpTo(lags, keys, |keys|);
      AllUpTo(lags, keys[|keys| - 1], keys);
    }
  }

  lemma {:induction false} AllUpTo(lags: seq<int>, last: int, keys: seq<int>)
    requires Ascending(keys) && keys != [] && last == keys[|keys| - 1]
    requires forall i | 0 <= i < |lags| :: BucketFloor(lags[i]) in keys
    ensures UpTo(lags, last) == |lags|
  {
    if lags != [] {
      AllUpTo(lags[1..], last, keys);
      var i :| 0 <= i < |keys| && keys[i] == BucketFloor(lags[0]);
    }
  }

  /** The running counts of a histogram stay below the rank up to the key they reach it at. */
  lemma RunningCounts(m: Counts, s: seq<int>, keys: seq<int>, rank: nat, j: nat)
    requires IsHistogram(m, s) && Ascending(keys) && Ordered(s) && 1 <= rank <= |s| && j < |keys|
    requires forall i | 0 <= i < |s| :: BucketFloor(s[i]) in keys
    ensures keys[j] < BucketFloor(s[rank - 1]) ==> SeenAt(m, keys, j) < rank
    ensures keys[j] == BucketFloor(s[rank - 1]) ==> SeenAt(m, keys, j) >= rank
  {
    SumAtCounted(m, s, keys[..j + 1]);
    CountedIsUpTo(s, keys, j + 1);
    RankedFloor(s, rank, keys[j]);
  }

  lemma SortedHistogram(m: Counts, lags: seq<int>)
    requires IsHistogram(m, lags)
    ensures IsHistogram(m, Sort(lags))
  {
    forall floor: int
      ensures Get(m, floor) == InBucket(Sort(lags), floor)
    {
      InBucketSort(lags, floor);
    }
  }

  /**
   Quantiles commute with bucketing: for any lags and any quantile, the bucket
   quantile of their histogram is the bucket of the exact nearest-rank lag.
   */
  lemma QuantilesCommute(m: Counts, lags: seq<int>, num: nat, den: nat)
    requires den > 0 && IsHistogram(m, lags) && lags != []
    ensures Quantile(m, num, den) == Some(BucketFloor(Percentile(lags, num, den)))
  {
    hide NearestRank, BucketFloor, Sort, Ordered, SumAt, SeenAt, IsHistogram;
    SumIsCount(m, lags);
    SortSorts(lags);
    SortedHistogram(m, lags);
    var rank, s, keys := NearestRank(num, den, |lags|), Sort(lags), Sort(Floors(m));
    SortedBounds(m, s);
    assert BucketFloor(s[rank - 1]) in keys;
    var k :| 0 <= k < |keys| && keys[k] == BucketFloor(s[rank - 1]);
    forall j | 0 <= j < k
      ensures SeenAt(m, keys, j) < rank
    {
      RunningCounts(m, s, keys, rank, j);
    }
    RunningCounts(m, s, keys, rank, k);
    assert keys[0..] == keys && keys[..0] == [];
    ReachedAt(m, keys, 0, k, rank);
    NothingSummed(m);
  }

  lemma NothingSummed(m: Counts)
    ensures SumAt(m, []) == 0
  {
  }
}
