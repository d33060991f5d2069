/**
 How `arena::Map` orders the entries it has read: reverse, stable sort by key,
 then drop every entry whose key equals its predecessor's.
 */
module SortedEntries {
  import opened Wrappers

  datatype Keyed<V> = Keyed(key: string, value: V)

  /** `str` ordering: code points, lexicographically, a proper prefix first. */
  predicate Below(a: string, b: string) {
    b != [] && (a == [] || a[0] < b[0] || (a[0] == b[0] && Below(a[1..], b[1..])))
  }

  lemma {:induction false} BelowIsStrictTotalOrder(a: string, b: string, c: string)
    ensures Below(a, b) && Below(b, c) ==> Below(a, c)
    ensures !(Below(a, b) && Below(b, a))
    ensures Below(a, b) || a == b || Below(b, a)
  {
    if a != [] && b != [] {
      BelowIsStrictTotalOrder(a[1..], b[1..], if c == [] then [] else c[1..]);
      assert a == [a[0]] + a[1..] && b == [b[0]] + b[1..];
    }
  }

  function Reverse<T(!new)>(s: seq<T>): (r: seq<T>)
    ensures |r| == |s|
    ensures forall x :: x in r <==> x in s
  {
    if s == [] then [] else Reverse(s[1..]) + [s[0]]
  }

  /** Insert before the first entry whose key is not below this one's. */
  function Insert<V(!new)>(e: Keyed<V>, s: seq<Keyed<V>>): (r: seq<Keyed<V>>)
    ensures forall x :: x in r <==> x == e || x in s
  {
    if s == [] || !Below(s[0].key, e.key) then [e] + s else
    assert s == [s[0]] + s[1..];
    [s[0]] + Insert(e, s[1..])
  }

  /** A stable sort by key. */
  function StableSort<V(!new)>(s: seq<Keyed<V>>): (r: seq<Keyed<V>>)
    ensures forall x :: x in r <==> x in s
  {
    if s == [] then [] else Insert(s[0], StableSort(s[1..]))
  }

  /** Keep the first of every run of entries with one key. */
  function Dedup<V(!new)>(s: seq<Keyed<V>>): (r: seq<Keyed<V>>)
    ensures forall x :: x in r ==> x in s
    ensures s != [] ==> r != [] && r[0] == s[0]
    decreases |s|
  {
    if |s| <= 1 then s
    else if s[0].key == s[1].key then Dedup([s[0]] + s[2..])
    else [s[0]] + Dedup(s[1..])
  }

  function Normalize<V(!new)>(s: seq<Keyed<V>>): (r: seq<Keyed<V>>)
    ensures forall x :: x in r ==> x in s
  {
    Dedup(StableSort(Reverse(s)))
  }

  /** Collecting entries into a `BTreeMap`: a later value replaces an earlier one. */
  function Collect<V(!new)>(s: seq<Keyed<V>>, seen: map<string, V>): (m: map<string, V>)
  {
    if s == [] then seen else Collect(s[1..], seen[s[0].key := s[0].value])
  }

  function First<V(!new)>(s: seq<Keyed<V>>, key: string): (v: Option<V>)
  {
    if s == [] then None
    else if s[0].key == key then Some(s[0].value)
    else First(s[1..], key)
  }

  function Get<V(!new)>(m: map<string, V>, key: string): (v: Option<V>)
  {
    if key in m then Some(m[key]) else None
  }

  predicate Sorted<V(!new)>(s: seq<Keyed<V>>) {
    forall i, j | 0 <= i < j < |s| :: !Below(s[j].key, s[i].key)
  }

  predicate StrictlySorted<V(!new)>(s: seq<Keyed<V>>) {
    forall i, j | 0 <= i < j < |s| :: Below(s[i].key, s[j].key)
  }

  lemma {:induction false} FirstOfAppend<V(!new)>(s: seq<Keyed<V>>, t: seq<Keyed<V>>, key: string)
    ensures First(s + t, key) == if First(s, key).Some? then First(s, key) else First(t, key)
  {
    if s == [] {
      assert s + t == t;
    } else {
      assert (s + t)[1..] == s[1..] + t;
      FirstOfAppend(s[1..], t, key);
    }
  }

  lemma {:induction false} CollectKeepsLast<V(!new)>(s: seq<Keyed<V>>, seen: map<string, V>, key: string)
    ensures Get(Collect(s, seen), key)
         == if First(Reverse(s), key).Some? then First(Reverse(s), key) else Get(seen, key)
  {
    if s != [] {
      CollectKeepsLast(s[1..], seen[s[0].key := s[0].value], key);
      FirstOfAppend(Reverse(s[1..]), [s[0]], key);
    }
  }

  lemma {:induction false} FirstOfInsert<V(!new)>(e: Keyed<V>, s: seq<Keyed<V>>, key: string)
    ensures First(Insert(e, s), key) == if e.key == key then Some(e.value) else First(s, key)
  {
    if s == [] || !Below(s[0].key, e.key) {
      assert ([e] + s)[1..] == s;
    } else {
      FirstOfInsert(e, s[1..], key);
      BelowIsStrictTotalOrder(s[0].key, e.key, "");
    }
  }

  lemma {:induction false} FirstOfStableSort<V(!new)>(s: seq<Keyed<V>>, key: string)
    ensures First(StableSort(s), key) == First(s, key)
  {
    if s != [] {
      FirstOfStableSort(s[1..], key);
      FirstOfInsert(s[0], StableSort(s[1..]), key);
    }
  }

  lemma {:induction false} FirstOfDedup<V(!new)>(s: seq<Keyed<V>>, key: string)
    ensures First(Dedup(s), key) == First(s, key)
    decreases |s|
  {
    if |s| > 1 {
      if s[0].key == s[1].key {
        var t := [s[0]] + s[2..];
        FirstOfDedup(t, key);
        assert t[1..] == s[1..][1..];
      } else {
        FirstOfDedup(s[1..], key);
      }
    }
  }

  lemma {:induction false} InsertKeepsSorted<V(!new)>(e: Keyed<V>, s: seq<Keyed<V>>)
    requires Sorted(s)
    ensures Sorted(Insert(e, s))
  {
    if s == [] {
    } else if !Below(s[0].key, e.key) {
      forall j | 0 <= j < |s|
        ensures !Below(s[j].key, e.key)
      {
        BelowIsStrictTotalOrder(s[0].key, s[j].key, e.key);
        BelowIsStrictTotalOrder(s[j].key, e.key, s[0].key);
      }
    } else {
      InsertKeepsSorted(e, s[1..]);
      var t := Insert(e, s[1..]);
      forall j | 0 <= j < |t|
        ensures !Below(t[j].key, s[0].key)
      {
        BelowIsStrictTotalOrder(s[0].key, e.key, "");
        assert t[j] in t;
      }
    }
  }

  lemma {:induction false} StableSortSorts<V(!new)>(s: seq<Keyed<V>>)
    ensures Sorted(StableSort(s))
  {
    if s != [] {
      StableSortSorts(s[1..]);
      InsertKeepsSorted(s[0], StableSort(s[1..]));
    }
  }

  lemma {:induction false} DedupIsStrict<V(!new)>(s: seq<Keyed<V>>)
    requires Sorted(s)
    ensures StrictlySorted(Dedup(s))
    decreases |s|
  {
    if |s| > 1 {
      if s[0].key == s[1].key {
        var kept := [s[0]] + s[2..];
        assert forall i | 1 <= i < |kept| :: kept[i] == s[i + 1];
        assert Sorted(kept);
        DedupIsStrict(kept);
      } else {
        DedupIsStrict(s[1..]);
        var t := Dedup(s[1..]);
        forall j | 0 <= j < |t|
          ensures Below(s[0].key, t[j].key)
        {
          assert Below(s[0].key, s[1].key) by { BelowIsStrictTotalOrder(s[0].key, s[1].key, ""); }
          BelowIsStrictTotalOrder(s[0].key, s[1].key, t[j].key);
          assert j > 0 ==> Below(t[0].key, t[j].key);
        }
      }
    }
  }

  lemma {:induction false} FirstInStrict<V(!new)>(s: seq<Keyed<V>>, key: string)
    requires StrictlySorted(s)
    ensures First(Reverse(s), key) == First(s, key)
  {
    if s != [] {
      FirstInStrict(s[1..], key);
      FirstOfAppend(Reverse(s[1..]), [s[0]], key);
      if s[0].key == key && First(s[1..], key).Some? {
        var k := FirstIndex(s[1..], key);
        BelowIsStrictTotalOrder(s[0].key, s[k + 1].key, "");
      }
    }
  }

  lemma {:induction false} FirstIndex<V(!new)>(s: seq<Keyed<V>>, key: string) returns (k: nat)
    requires First(s, key).Some?
    ensures k < |s| && s[k].key == key && First(s, key) == Some(s[k].value)
  {
    if s[0].key == key {
      k := 0;
    } else {
      k := FirstIndex(s[1..], key);
      k := k + 1;
    }
  }

  /**
   The arena map's entries are strictly sorted, and collecting them gives the
   map that inserting every entry in reading order gives.
   */
  lemma NormalizeIsTheBTreeMap<V(!new)>(s: seq<Keyed<V>>)
    ensures StrictlySorted(Normalize(s))
    ensures Collect(Normalize(s), map[]) == Collect(s, map[])
  {
    var sorted := StableSort(Reverse(s));
    StableSortSorts(Reverse(s));
    DedupIsStrict(sorted);
    var kept := Collect(Normalize(s), map[]);
    var all := Collect(s, map[]);
    forall key: string
      ensures Get(kept, key) == Get(all, key)
    {
      CollectKeepsLast(s, map[], key);
      CollectKeepsLast(Normalize(s), map[], key);
      FirstInStrict(Normalize(s), key);
      FirstOfDedup(sorted, key);
      FirstOfStableSort(Reverse(s), key);
    }
    assert forall key :: key in kept <==> Get(kept, key).Some?;
    assert forall key :: key in all <==> Get(all, key).Some?;
    assert kept.Keys == all.Keys;
    assert forall key | key in kept :: Some(kept[key]) == Get(kept, key) == Get(all, key) == Some(all[key]);
  }

  /** `arena::Map::get`: a binary search that agrees with looking the key up in the collected map. */
  method BinarySearch<V(!new)>(entries: seq<Keyed<V>>, key: string) returns (v: Option<V>)
    requires StrictlySorted(entries)
    ensures v == Get(Collect(entries, map[]), key)
  {
    CollectKeepsLast(entries, map[], key);
    FirstInStrict(entries, key);
    var low, high := 0, |entries|;
    while low < high
      invariant 0 <= low <= high <= |entries|
      invariant forall k | 0 <= k < low :: entries[k].key != key
      invariant forall k | high <= k < |entries| :: entries[k].key != key
    {
      var mid := (low + high) / 2;
      if entries[mid].key == key {
        FirstAt(entries, mid);
        return Some(entries[mid].value);
      } else if Below(entries[mid].key, key) {
        forall k | 0 <= k < mid
          ensures entries[k].key != key
        {
          BelowIsStrictTotalOrder(entries[k].key, entries[mid].key, key);
          BelowIsStrictTotalOrder(key, key, key);
        }
        low := mid + 1;
      } else {
        BelowIsStrictTotalOrder(entries[mid].key, key, "");
        forall k | mid < k < |entries|
          ensures entries[k].key != key
        {
          BelowIsStrictTotalOrder(key, entries[mid].key, entries[k].key);
          BelowIsStrictTotalOrder(key, key, key);
        }
        high := mid;
      }
    }
    if First(entries, key).Some? {
      var k := FirstIndex(entries, key);
      assert false;
    }
    return None;
  }

  lemma {:induction false} FirstAt<V(!new)>(s: seq<Keyed<V>>, k: nat)
    requires StrictlySorted(s) && k < |s|
    ensures First(s, s[k].key) == Some(s[k].value)
  {
    if k > 0 {
      BelowIsStrictTotalOrder(s[0].key, s[k].key, "");
      FirstAt(s[1..], k - 1);
    }
  }
}
