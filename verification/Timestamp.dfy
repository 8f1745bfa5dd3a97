/** prost-extend/src/timestamp.rs */
module Timestamps {
  import opened Wrappers
  import opened TimeArithmetic
  import Durations

  const EARLIEST: int := Total(I64_MIN, 0)
  const LATEST: int := Total(I64_MAX, 999_999_999)

  function ClampedTotal(seconds: int, nanos: int): int {
    Clamp(Total(seconds, nanos), EARLIEST, LATEST)
  }

  /** `normalize` as one mathematical function: the floor form of the clamped total. */
  function Normalized(seconds: i64, nanos: i32): (r: (i64, i32)) {
    var t := ClampedTotal(seconds, nanos);
    (t / NANOS_PER_SECOND, t % NANOS_PER_SECOND)
  }

  predicate IsNormal(seconds: int, nanos: int) {
    I64_MIN <= seconds <= I64_MAX && 0 <= nanos < NANOS_PER_SECOND
  }

  lemma NormalizedIsTheOnlyNormalForm(seconds: i64, nanos: i32, s: int, n: int)
    ensures IsNormal(s, n) && Total(s, n) == ClampedTotal(seconds, nanos) <==> (s, n) == Normalized(seconds, nanos)
  {
  }

  /** Nothing is cut off that a normal pair could say. */
  lemma CutExactlyWhenOutOfRange(seconds: i64, nanos: i32)
    ensures ClampedTotal(seconds, nanos) == Total(seconds, nanos)
            <==> exists s, n :: IsNormal(s, n) && Total(s, n) == Total(seconds, nanos)
  {
    var (s, n) := Normalized(seconds, nanos);
    NormalizedIsTheOnlyNormalForm(seconds, nanos, s, n);
  }

  lemma NormalizeIdempotent(seconds: i64, nanos: i32)
    ensures var (s, n) := Normalized(seconds, nanos); Normalized(s, n) == (s, n)
    ensures Normalized(seconds, nanos) == (seconds, nanos) <==> IsNormal(seconds, nanos)
  {
  }

  lemma NormalizeMonotone(s0: i64, n0: i32, s1: i64, n1: i32)
    requires Total(s0, n0) <= Total(s1, n1)
    ensures var (a, b) := Normalized(s0, n0); var (c, d) := Normalized(s1, n1);
            !LexicographicallyLess(c, d, a, b)
  {
  }

  /** The two messages keep the same time exactly when neither bound of the timestamp cuts a duration. */
  lemma SameTimeAsDuration(seconds: i64, nanos: i32)
    ensures var (s, n) := Normalized(seconds, nanos);
            var (ds, dn) := Durations.Normalized(seconds, nanos);
            Total(s, n) == Total(ds, dn) <==> EARLIEST <= Total(seconds, nanos)
  {
  }

  class Timestamp {
    var seconds: i64
    var nanos: i32

    constructor (seconds: i64, nanos: i32)
      ensures this.seconds == seconds && this.nanos == nanos
    {
      this.seconds, this.nanos := seconds, nanos;
    }

    /** The branches of the source; here the saturating arm of the second stage can run. */
    method Normalize()
      modifies this
      ensures (seconds, nanos) == Normalized(old(seconds), old(nanos))
    {
      TruncParts(nanos, NANOS_PER_SECOND);
      if nanos <= -NANOS_PER_SECOND || nanos >= NANOS_PER_SECOND {
        match CheckedAdd(seconds, TruncDiv(nanos, NANOS_PER_SECOND))
        case Some(s) =>
          seconds := s;
          nanos := TruncRem(nanos, NANOS_PER_SECOND);
        case None =>
          if nanos < 0 {
            seconds, nanos := I64_MIN, 0;
          } else {
            seconds, nanos := I64_MAX, 999_999_999;
          }
      }
      if nanos < 0 {
        match CheckedAdd(seconds, -1)
        case Some(s) =>
          seconds := s;
          nanos := nanos + NANOS_PER_SECOND;
        case None =>
          nanos := 0;
      }
      NormalizedIsTheOnlyNormalForm(old(seconds), old(nanos), seconds, nanos);
    }
  }
}
