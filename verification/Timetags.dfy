/** OSC time tags and lo_timetag_diff, over the real numbers. */
module Timetags {
  import opened Octets

  type uint32 = n: int | 0 <= n < TWO32

  datatype Timetag = Timetag(sec: uint32, frac: uint32)

  /** LO_TT_IMMEDIATE */
  const IMMEDIATE := Timetag(0, 1)

  /** The source's decimal constant for 2 to the power of -32. */
  const UNIT: real := 0.00000000023283064365

  /** FLT_EPSILON: 2 to the power of -23. */
  const EPSILON: real := 1.0 / 8388608.0

  /** lo_timetag_diff: the seconds from b to a. */
  function Diff(a: Timetag, b: Timetag): real {
    (a.sec - b.sec) as real + (a.frac - b.frac) as real * UNIT
  }

  /** Time tags in order: by seconds, then by fractions. */
  predicate Before(a: Timetag, b: Timetag) {
    a.sec < b.sec || (a.sec == b.sec && a.frac < b.frac)
  }

  /** Which is the order of the 64-bit values. */
  lemma BeforeIs(a: Timetag, b: Timetag)
    ensures Before(a, b) <==> a.sec * TWO32 + a.frac < b.sec * TWO32 + b.frac
  {
    if a.sec < b.sec {
      assert (a.sec + 1) * TWO32 <= b.sec * TWO32;
    } else if b.sec < a.sec {
      assert (b.sec + 1) * TWO32 <= a.sec * TWO32;
    }
  }

  /** The sign of the difference is the order of the tags, although the constant is rounded. */
  lemma DiffIsOrder(a: Timetag, b: Timetag)
    ensures Diff(a, b) > 0.0 <==> Before(b, a)
    ensures Diff(a, b) < 0.0 <==> Before(a, b)
    ensures Diff(a, b) == 0.0 <==> a == b
  {
    var s, f := a.sec - b.sec, a.frac - b.frac;
    FracBound(f);
    if s == 0 {
      assert f > 0 ==> f as real * UNIT > 0.0;
      assert f < 0 ==> f as real * UNIT < 0.0;
    }
  }

  lemma FracBound(f: int)
    requires -TWO32 < f < TWO32
    ensures -1.0 < f as real * UNIT < 1.0
  {
    assert TWO32 as real * UNIT < 1.0;
    if f >= 0 {
      assert f as real * UNIT <= TWO32 as real * UNIT;
    } else {
      assert (-f) as real * UNIT <= TWO32 as real * UNIT;
    }
  }

  /** Differences add up. */
  lemma DiffAdds(a: Timetag, b: Timetag, c: Timetag)
    ensures Diff(a, c) == Diff(a, b) + Diff(b, c)
  {}

  /** Within one batch: at most 512 units of 2 to the power of -32 seconds after the head in the same
      second, and at most 511 across the turn of a second, where the rounded constant costs a unit. */
  lemma WithinEpsilon(a: Timetag, head: Timetag)
    requires !Before(a, head)
    ensures Diff(a, head) < EPSILON <==>
      if a.sec == head.sec then a.frac - head.frac <= 512
      else a.sec == head.sec + 1 && TWO32 + a.frac - head.frac <= 511
  {
    var s, f := a.sec - head.sec, a.frac - head.frac;
    FracBound(f);
    if s == 0 {
      Scale(f, 512);
    } else if s == 1 {
      Scale(TWO32 + f, 511);
      assert (TWO32 + f) as real == TWO32 as real + f as real;
      assert Diff(a, head) == (1.0 - TWO32 as real * UNIT) + (TWO32 + f) as real * UNIT;
      Scale(TWO32 + f, 512);
    }
  }

  lemma Scale(n: int, k: int)
    ensures n <= k ==> n as real * UNIT <= k as real * UNIT
    ensures n > k ==> n as real * UNIT >= (k + 1) as real * UNIT
  {}
}
