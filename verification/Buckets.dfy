/** The server's lag histogram layout: exact below 16 microseconds, then eight buckets per power of two. */
module Buckets {
  import opened Arithmetic

  const LINEAR_MICROS := 16
  const SUB_BUCKET_BITS := 3

  function Pow2(k: nat): (p: nat)
    ensures p > 0
  {
    if k == 0 then 1 else 2 * Pow2(k - 1)
  }

  /** Python's `int.bit_length` of a nonnegative integer. */
  function BitLength(n: nat): (k: nat)
    ensures n > 0 ==> k > 0 && Pow2(k - 1) <= n
    ensures n < Pow2(k)
  {
    if n == 0 then 0 else 1 + BitLength(n / 2)
  }

  lemma {:induction false} Pow2Grows(a: nat, b: nat)
    requires a <= b
    ensures Pow2(a) <= Pow2(b)
  {
    if a < b {
      Pow2Grows(a, b - 1);
    }
  }

  lemma BitLengthIsUnique(n: nat, k: nat)
    requires k > 0 && Pow2(k - 1) <= n < Pow2(k)
    ensures BitLength(n) == k
  {
    var b := BitLength(n);
    if b < k {
      Pow2Grows(b, k - 1);
    } else if b > k {
      Pow2Grows(k, b - 1);
    }
  }

  function Shift(micros: int): (s: nat)
    requires micros >= LINEAR_MICROS
    ensures 8 * Pow2(s) <= micros < 16 * Pow2(s)
    ensures s > 0
  {
    var b := BitLength(micros);
    assert b > 4 by {
      assert Pow2(4) == 16;
      if b <= 4 { Pow2Grows(b, 4); }
    }
    assert Pow2(b - 1) == 2 * Pow2(b - 2) == 4 * Pow2(b - 3) == 8 * Pow2(b - 4);
    b - 1 - SUB_BUCKET_BITS
  }

  /** Shifting right and then left by the same amount. */
  function RoundDown(m: int, unit: int): (r: int)
    requires unit > 0
  {
    (m / unit) * unit
  }

  function BucketFloor(micros: int): (floor: int)
  {
    if micros < LINEAR_MICROS then micros else RoundDown(micros, Pow2(Shift(micros)))
  }

  lemma RoundDownIsClose(m: int, unit: int)
    requires unit > 0
    ensures RoundDown(m, unit) <= m < RoundDown(m, unit) + unit
  {
    assert m == (m / unit) * unit + m % unit;
  }

  lemma RoundDownKeepsMultiples(q: int, m: int, unit: int)
    requires unit > 0 && q * unit <= m
    ensures q * unit <= RoundDown(m, unit)
    ensures m == q * unit ==> RoundDown(m, unit) == m
  {
    RoundDownIsClose(m, unit);
    var p := m / unit;
    if p < q {
      Times(p + 1, q, unit);
    } else {
      Times(q, p, unit);
    }
  }

  lemma RoundDownIsMonotone(a: int, b: int, unit: int)
    requires unit > 0 && a <= b
    ensures RoundDown(a, unit) <= RoundDown(b, unit)
  {
    RoundDownIsClose(a, unit);
    RoundDownKeepsMultiples(a / unit, b, unit);
  }

  /** In its bucket: at or above the floor, by less than one eighth of it, and the floor is in the same power of two. */
  lemma FloorIsClose(micros: int)
    ensures BucketFloor(micros) <= micros
    ensures micros >= 16 ==>
            var unit := Pow2(Shift(micros));
            && micros < BucketFloor(micros) + unit
            && 8 * unit <= BucketFloor(micros) < 16 * unit
            && 8 * (micros - BucketFloor(micros)) < BucketFloor(micros)
  {
    if micros >= LINEAR_MICROS {
      hide RoundDown;
      var unit := Pow2(Shift(micros));
      RoundDownIsClose(micros, unit);
      RoundDownKeepsMultiples(8, micros, unit);
    }
  }

  /** A bucket's floor is in that bucket. */
  lemma FloorIsIdempotent(micros: int)
    ensures BucketFloor(BucketFloor(micros)) == BucketFloor(micros)
  {
    if micros >= LINEAR_MICROS {
      FloorIsClose(micros);
      var s := Shift(micros);
      var unit, floor := Pow2(s), BucketFloor(micros);
      assert Pow2(s + 1) == 2 * unit && Pow2(s + 2) == 4 * unit && Pow2(s + 3) == 8 * unit && Pow2(s + 4) == 16 * unit;
      BitLengthIsUnique(floor, s + 4);
      assert Shift(floor) == s;
      RoundDownKeepsMultiples(micros / unit, floor, unit);
    }
  }

  /** A later lag is never in an earlier bucket. */
  lemma FloorIsMonotone(a: int, b: int)
    requires a <= b
    ensures BucketFloor(a) <= BucketFloor(b)
  {
    FloorIsClose(a);
    FloorIsClose(b);
    if a >= LINEAR_MICROS {
      var s, t := Shift(a), Shift(b);
      hide RoundDown;
      if s == t {
        RoundDownIsMonotone(a, b, Pow2(s));
      } else if s < t {
        Pow2Grows(s + 1, t);
      } else {
        Pow2Grows(t + 1, s);
      }
    }
  }

  // ---------------------------------------------------------------------
  // The bounds themselves

  function BoundAt(q: int, s: nat): (b: int)
  {
    q * Pow2(s)
  }

  /** The server's bucket bounds: every integer below 16, then eight per power of two. */
  ghost predicate IsBound(b: int) {
    b < 16 || exists q: int, s: nat :: 8 <= q < 16 && s >= 1 && b == BoundAt(q, s)
  }

  lemma ShiftOf(b: int, s: nat)
    requires s >= 1 && 8 * Pow2(s) <= b < 16 * Pow2(s)
    ensures b >= 16 && Shift(b) == s
  {
    var unit := Pow2(s);
    assert unit == 2 * Pow2(s - 1);
    assert Pow2(s + 1) == 2 * unit && Pow2(s + 2) == 4 * unit && Pow2(s + 3) == 8 * unit && Pow2(s + 4) == 16 * unit;
    BitLengthIsUnique(b, s + 4);
  }

  /** The floors are exactly the bounds. */
  lemma BoundIff(b: int)
    ensures BucketFloor(b) == b <==> IsBound(b)
  {
    if q: int, s: nat :| 8 <= q < 16 && s >= 1 && b == BoundAt(q, s) {
      Times(8, q, Pow2(s));
      Times(q + 1, 16, Pow2(s));
      ShiftOf(b, s);
      RoundDownKeepsMultiples(q, b, Pow2(s));
    } else if b >= 16 && BucketFloor(b) == b {
      var unit := Pow2(Shift(b));
      var q := b / unit;
      assert b == BoundAt(q, Shift(b));
      if q < 8 { Times(q, 7, unit); }
      if q >= 16 { Times(16, q, unit); }
    }
  }

  /** The floor is the greatest bucket bound not above the lag. */
  lemma FloorIsGreatestBound(micros: int)
    ensures IsBound(BucketFloor(micros)) && BucketFloor(micros) <= micros
    ensures forall bound | IsBound(bound) && bound <= micros :: bound <= BucketFloor(micros)
  {
    hide BucketFloor, IsBound;
    FloorIsClose(micros);
    FloorIsIdempotent(micros);
    BoundIff(BucketFloor(micros));
    forall bound | IsBound(bound) && bound <= micros
      ensures bound <= BucketFloor(micros)
    {
      BoundIff(bound);
      FloorIsMonotone(bound, micros);
    }
  }
}
