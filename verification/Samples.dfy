/** The cumulative samples a benchmark server prints: the stream check and the samples around a window. */
module Samples {
  import opened Wrappers

  datatype Counter = Counter(name: string, value: int)

  /** One sample; `counters` are its flattened cumulative counters, in order. */
  datatype Sample = Sample(
    number: int,
    role: string,
    elapsed: int,
    unixMs: int,
    lagCount: int,
    acknowledged: int,
    censored: int,
    counters: seq<Counter>)

  datatype Error = NoSamples | NotContiguous | ElapsedRegressed

  datatype Anomaly = CountDiffers(sample: nat, lagCount: int, expected: int) | Regressed(sample: nat, name: string)

  /** `previous.get(name, 0)` finds the counter, if it is there. */
  function Find(counters: seq<Counter>, name: string): (v: Option<int>)
  {
    if counters == [] then None
    else if counters[0].name == name then Some(counters[0].value)
    else Find(counters[1..], name)
  }

  function ValueOr(v: Option<int>, otherwise: int): (n: int)
  {
    if v.Some? then v.value else otherwise
  }

  /** The counters of one sample that are below those of the previous one. */
  function Regressions(index: nat, current: seq<Counter>, previous: seq<Counter>): (found: seq<Anomaly>)
  {
    if current == [] then [] else
    var rest := Regressions(index, current[1..], previous);
    if current[0].value < ValueOr(Find(previous, current[0].name), 0)
    then [Regressed(index, current[0].name)] + rest else rest
  }

  function Miscounts(index: nat, s: Sample): (found: seq<Anomaly>)
  {
    var expected := s.acknowledged - s.censored;
    if s.lagCount != expected then [CountDiffers(index, s.lagCount, expected)] else []
  }

  /** The fault that ends the check at one sample. */
  function Fault(samples: seq<Sample>, i: nat): (e: Option<Error>)
    requires i < |samples|
  {
    if samples[i].number != i || samples[i].role != samples[0].role then Some(NotContiguous)
    else if i > 0 && samples[i].elapsed < samples[i - 1].elapsed then Some(ElapsedRegressed)
    else None
  }

  function Previous(samples: seq<Sample>, i: nat): (counters: seq<Counter>)
    requires i < |samples|
  {
    if i == 0 then [] else samples[i - 1].counters
  }

  /** The anomalies of the first `n` samples. */
  function Anomalies(samples: seq<Sample>, n: nat): (found: seq<Anomaly>)
    requires n <= |samples|
  {
    if n == 0 then [] else
    Anomalies(samples, n - 1) +
    (Miscounts(n - 1, samples[n - 1]) + Regressions(n - 1, samples[n - 1].counters, Previous(samples, n - 1)))
  }

  lemma NoAnomalies(samples: seq<Sample>)
    ensures Anomalies(samples, 0) == []
  {
  }

  lemma AnomaliesStep(samples: seq<Sample>, i: nat)
    requires i < |samples|
    ensures Anomalies(samples, i + 1) ==
            Anomalies(samples, i) +
            (Miscounts(i, samples[i]) + Regressions(i, samples[i].counters, Previous(samples, i)))
  {
    hide Miscounts, Regressions, Previous;
  }

  /** The check goes through exactly on samples numbered from zero, of one role, whose elapsed time never goes back. */
  lemma {:induction false} FaultlessIff(samples: seq<Sample>)
    ensures (forall i | 0 <= i < |samples| :: Fault(samples, i).None?) <==>
            && (forall i | 0 <= i < |samples| :: samples[i].number == i)
            && (forall i, j | 0 <= i <= j < |samples| ::
                  samples[i].role == samples[j].role && samples[i].elapsed <= samples[j].elapsed)
  {
    if forall i | 0 <= i < |samples| :: Fault(samples, i).None? {
      forall i, j | 0 <= i <= j < |samples|
        ensures samples[i].role == samples[j].role && samples[i].elapsed <= samples[j].elapsed
      {
        assert Fault(samples, i).None? && Fault(samples, j).None?;
        NeverEarlier(samples, i, j);
      }
      assert forall i | 0 <= i < |samples| :: Fault(samples, i).None? ==> samples[i].number == i;
    }
  }

  lemma {:induction false} NeverEarlier(samples: seq<Sample>, i: nat, j: nat)
    requires i <= j < |samples| && forall k | 0 <= k < |samples| :: Fault(samples, k).None?
    ensures samples[i].elapsed <= samples[j].elapsed
    decreases j - i
  {
    if i < j {
      NeverEarlier(samples, i, j - 1);
      assert Fault(samples, j).None?;
    }
  }

  /** `check`. */
  method Check(samples: seq<Sample>) returns (r: Result<seq<Anomaly>, Error>)
    ensures r.Ok? <==> samples != [] && forall i | 0 <= i < |samples| :: Fault(samples, i).None?
    ensures r.Ok? ==> r.value == Anomalies(samples, |samples|)
    ensures r.Err? && samples == [] ==> r.error == NoSamples
    ensures r.Err? && samples != [] ==> exists i | 0 <= i < |samples| ::
              Fault(samples, i) == Some(r.error) && forall j | 0 <= j < i :: Fault(samples, j).None?
  {
    hide Regressions, Anomalies;
    if samples == [] {
      return Err(NoSamples);
    }
    var role := samples[0].role;
    var anomalies: seq<Anomaly> := [];
    var previous: seq<Counter> := [];
    NoAnomalies(samples);
    for index := 0 to |samples|
      invariant forall i | 0 <= i < index :: Fault(samples, i).None?
      invariant anomalies == Anomalies(samples, index)
      invariant index < |samples| ==> previous == Previous(samples, index)
    {
      var sample := samples[index];
      if sample.number != index || sample.role != role {
        assert Fault(samples, index) == Some(NotContiguous);
        return Err(NotContiguous);
      }
      if index > 0 && sample.elapsed < samples[index - 1].elapsed {
        assert Fault(samples, index) == Some(ElapsedRegressed);
        return Err(ElapsedRegressed);
      }
      var expected := sample.acknowledged - sample.censored;
      var found: seq<Anomaly> := [];
      if sample.lagCount != expected {
        found := [CountDiffers(index, sample.lagCount, expected)];
      }
      found := found + Regressions(index, sample.counters, previous);
      anomalies := anomalies + found;
      AnomaliesStep(samples, index);
      previous := sample.counters;
    }
    return Ok(anomalies);
  }

  // ---------------------------------------------------------------------
  // What a stream without reported regressions says

  /** A printed counter is below the previous sample's, or below zero where that one lacks it. */
  predicate Below(c: Counter, previous: seq<Counter>) {
    c.value < ValueOr(Find(previous, c.name), 0)
  }

  /** Sample `i` prints the counter below what the previous sample printed. */
  predicate Falls(samples: seq<Sample>, i: nat, name: string)
    requires i < |samples|
  {
    var current := samples[i].counters;
    exists k | 0 <= k < |current| :: current[k].name == name && Below(current[k], Previous(samples, i))
  }

  /** What an anomaly says is true of the stream. */
  predicate Holds(samples: seq<Sample>, a: Anomaly)
    requires a.sample < |samples|
  {
    match a
    case CountDiffers(i, lagCount, expected) =>
      lagCount == samples[i].lagCount != expected == samples[i].acknowledged - samples[i].censored
    case Regressed(i, name) => Falls(samples, i, name)
  }

  lemma {:induction false} RegressionsAreFalls(index: nat, current: seq<Counter>, previous: seq<Counter>, a: Anomaly)
    ensures a in Regressions(index, current, previous) <==>
            exists k | 0 <= k < |current| :: a == Regressed(index, current[k].name) && Below(current[k], previous)
  {
    hide Find, ValueOr;
    if current != [] {
      var rest := current[1..];
      RegressionsAreFalls(index, rest, previous, a);
      if k :| 0 <= k < |current| && a == Regressed(index, current[k].name) && Below(current[k], previous) && k > 0 {
        assert rest[k - 1] == current[k];
      }
      if k :| 0 <= k < |rest| && a == Regressed(index, rest[k].name) && Below(rest[k], previous) {
        assert rest[k] == current[k + 1];
      }
    }
  }

  /** What one sample adds to the report is what holds of it. */
  lemma SampleReports(samples: seq<Sample>, i: nat, a: Anomaly)
    requires i < |samples|
    ensures a in Miscounts(i, samples[i]) + Regressions(i, samples[i].counters, Previous(samples, i)) <==>
            a.sample == i && Holds(samples, a)
  {
    hide Regressions, Below, Previous;
    RegressionsAreFalls(i, samples[i].counters, Previous(samples, i), a);
  }

  /**
   The check reports exactly the samples that miscount and the counters that a
   sample prints below the previous one.
   */
  lemma {:induction false} ReportedIff(samples: seq<Sample>, n: nat, a: Anomaly)
    requires n <= |samples|
    ensures a in Anomalies(samples, n) <==> a.sample < n && Holds(samples, a)
  {
    hide Regressions, Miscounts, Previous, Holds;
    if n > 0 {
      ReportedIff(samples, n - 1, a);
      SampleReports(samples, n - 1, a);
    }
  }

  /** The sample counts every acknowledged lag, and every counter it prints has at least its previous value. */
  predicate Quiet(samples: seq<Sample>, i: nat)
    requires i < |samples|
  {
    var current := samples[i].counters;
    && samples[i].lagCount == samples[i].acknowledged - samples[i].censored
    && forall k | 0 <= k < |current| :: current[k].value >= ValueOr(Find(Previous(samples, i), current[k].name), 0)
  }

  lemma QuietIff(samples: seq<Sample>, i: nat)
    requires i < |samples|
    ensures Quiet(samples, i) <==> forall a: Anomaly | a.sample == i :: !Holds(samples, a)
  {
    hide Find, ValueOr, Previous;
    var s := samples[i];
    if !Quiet(samples, i) {
      if s.lagCount != s.acknowledged - s.censored {
        assert Holds(samples, CountDiffers(i, s.lagCount, s.acknowledged - s.censored));
      } else {
        var k :| 0 <= k < |s.counters| && Below(s.counters[k], Previous(samples, i));
        assert Holds(samples, Regressed(i, s.counters[k].name));
      }
    }
  }

  /** The check reports nothing exactly when every sample is quiet. */
  lemma NothingToReport(samples: seq<Sample>, n: nat)
    requires n <= |samples|
    ensures Anomalies(samples, n) == [] <==> forall i | 0 <= i < n :: Quiet(samples, i)
  {
    hide Anomalies, Quiet, Holds;
    var found := Anomalies(samples, n);
    if found != [] {
      ReportedIff(samples, n, found[0]);
      QuietIff(samples, found[0].sample);
    } else {
      forall i | 0 <= i < n
        ensures Quiet(samples, i)
      {
        forall a: Anomaly | a.sample == i
          ensures !Holds(samples, a)
        {
          ReportedIff(samples, n, a);
        }
        QuietIff(samples, i);
      }
    }
  }

  lemma {:induction false} FoundIsPrinted(counters: seq<Counter>, name: string) returns (k: nat)
    requires Find(counters, name).Some?
    ensures k < |counters| && counters[k] == Counter(name, Find(counters, name).value)
  {
    k := 0;
    if counters[0].name != name {
      var later := FoundIsPrinted(counters[1..], name);
      k := later + 1;
    }
  }

  /** A name is found exactly when it is printed, at its first place. */
  lemma {:induction false} FindFinds(counters: seq<Counter>, name: string)
    ensures Find(counters, name).Some? <==> exists k | 0 <= k < |counters| :: counters[k].name == name
    ensures forall k | 0 <= k < |counters| && counters[k].name == name ::
              (forall l | 0 <= l < k :: counters[l].name != name) ==> Find(counters, name) == Some(counters[k].value)
  {
    if counters != [] {
      var rest := counters[1..];
      FindFinds(rest, name);
      assert forall k | 0 <= k < |rest| :: rest[k] == counters[k + 1];
      assert forall k | 1 <= k < |counters| :: counters[k] == rest[k - 1];
    }
  }

  predicate Prints(sample: Sample, name: string) {
    Find(sample.counters, name).Some?
  }

  /** A stream with nothing to report never takes a counter down while its samples keep printing it. */
  lemma {:induction false} CountersOnlyGrow(samples: seq<Sample>, name: string, i: nat, j: nat)
    requires i <= j < |samples| && forall k | 0 <= k < |samples| :: Quiet(samples, k)
    requires forall k | i <= k <= j :: Prints(samples[k], name)
    ensures Prints(samples[i], name) && Prints(samples[j], name)
    ensures Find(samples[i].counters, name).value <= Find(samples[j].counters, name).value
    decreases j - i
  {
    hide Find;
    assert Prints(samples[j], name);
    if i < j {
      CountersOnlyGrow(samples, name, i, j - 1);
      assert Quiet(samples, j);
      var k := FoundIsPrinted(samples[j].counters, name);
    }
  }

  /** A counter that one sample leaves out may come back lower without being reported. */
  lemma VanishedCounterHides() returns (samples: seq<Sample>)
    ensures |samples| == 3 && Anomalies(samples, 3) == []
    ensures forall i | 0 <= i < 3 :: Fault(samples, i).None?
    ensures Find(samples[0].counters, "c") == Some(2) && Find(samples[2].counters, "c") == Some(1)
  {
    hide Anomalies;
    var two, one := Counter("c", 2), Counter("c", 1);
    samples := [
      Sample(0, "writer", 0, 0, 0, 0, 0, [two]),
      Sample(1, "writer", 0, 0, 0, 0, 0, []),
      Sample(2, "writer", 0, 0, 0, 0, 0, [one])];
    assert Quiet(samples, 0) && Quiet(samples, 1) && Quiet(samples, 2);
    NothingToReport(samples, 3);
  }

  // ---------------------------------------------------------------------
  // The samples around a window

  /** The indices of the samples up to a time, in stream order. */
  function UpTo(samples: seq<Sample>, t: int): (found: seq<nat>)
    ensures forall k | 0 <= k < |found| :: found[k] < |samples| && samples[found[k]].unixMs <= t
    ensures forall k, l | 0 <= k < l < |found| :: found[k] < found[l]
    ensures forall i | 0 <= i < |samples| && samples[i].unixMs <= t :: i in found
  {
    if samples == [] then [] else
    var n := |samples| - 1;
    var front := UpTo(samples[..n], t);
    if samples[n].unixMs <= t then front + [n] else front
  }

  /** The indices of the samples from a time on, in stream order. */
  function From(samples: seq<Sample>, t: int): (found: seq<nat>)
    ensures forall k | 0 <= k < |found| :: found[k] < |samples| && samples[found[k]].unixMs >= t
    ensures forall k, l | 0 <= k < l < |found| :: found[k] < found[l]
    ensures forall i | 0 <= i < |samples| && samples[i].unixMs >= t :: i in found
  {
    if samples == [] then [] else
    var n := |samples| - 1;
    var front := From(samples[..n], t);
    if samples[n].unixMs >= t then front + [n] else front
  }

  datatype Span = Span(first: nat, last: nat, startGap: int, endGap: int)

  /** `bracket`. */
  function Bracket(samples: seq<Sample>, start: int, end: int): (r: Option<Span>)
  {
    var before, after := UpTo(samples, start), From(samples, end);
    if before == [] || after == [] || end <= start then None
    else
      var first, last := before[|before| - 1], after[0];
      Some(Span(first, last, start - samples[first].unixMs, samples[last].unixMs - end))
  }

  /** The window is spanned exactly when a sample is at or before its start and one at or after its end. */
  lemma BracketCovers(samples: seq<Sample>, start: int, end: int)
    ensures Bracket(samples, start, end).Some? <==>
            && start < end
            && (exists i | 0 <= i < |samples| :: samples[i].unixMs <= start)
            && (exists i | 0 <= i < |samples| :: samples[i].unixMs >= end)
  {
    var before, after := UpTo(samples, start), From(samples, end);
    if before != [] { assert samples[before[0]].unixMs <= start; }
    if after != [] { assert samples[after[0]].unixMs >= end; }
  }

  /** The first sample is the last of the stream at or before the start, the last the first at or after the end. */
  lemma BracketIsTight(samples: seq<Sample>, start: int, end: int)
    requires Bracket(samples, start, end).Some?
    ensures var s := Bracket(samples, start, end).value;
            && s.first < |samples| && s.last < |samples| && s.startGap >= 0 && s.endGap >= 0
            && samples[s.first].unixMs <= start && samples[s.last].unixMs >= end
            && (forall i | s.first < i < |samples| :: samples[i].unixMs > start)
            && (forall i | 0 <= i < s.last :: samples[i].unixMs < end)
  {
    var before, after := UpTo(samples, start), From(samples, end);
    var first, last := before[|before| - 1], after[0];
    assert forall i | 0 <= i < |samples| && samples[i].unixMs <= start :: i in before;
    assert forall i | 0 <= i < |samples| && samples[i].unixMs >= end :: i in after;
  }

  /** On a clock that never goes back, the window runs forward and its gaps are less than one sample interval. */
  lemma GapsAreShort(samples: seq<Sample>, start: int, end: int)
    requires Bracket(samples, start, end).Some?
    requires forall i, j | 0 <= i < j < |samples| :: samples[i].unixMs <= samples[j].unixMs
    ensures var s := Bracket(samples, start, end).value;
            && s.first < s.last < |samples|
            && s.startGap < samples[s.first + 1].unixMs - samples[s.first].unixMs
            && s.endGap < samples[s.last].unixMs - samples[s.last - 1].unixMs
  {
    hide Bracket;
    SpanGaps(samples, start, end);
    BracketIsTight(samples, start, end);
  }

  lemma SpanGaps(samples: seq<Sample>, start: int, end: int)
    requires Bracket(samples, start, end).Some?
    ensures var s := Bracket(samples, start, end).value;
            && s.first < |samples| && s.last < |samples| && start < end
            && s.startGap == start - samples[s.first].unixMs && s.endGap == samples[s.last].unixMs - end
  {
  }
}
