/** Arithmetic shared by the two protobuf time types. */
module TimeArithmetic {
  import opened Wrappers

  const NANOS_PER_SECOND: i32 := 1_000_000_000

  /** What a (seconds, nanos) pair is worth, in nanoseconds. */
  function Total(seconds: int, nanos: int): int {
    seconds * NANOS_PER_SECOND + nanos
  }

  function Clamp(x: int, low: int, high: int): int
    requires low <= high
  {
    if x < low then low else if x > high then high else x
  }

  /** `/` and `%` of Rust, which round toward zero. */
  function TruncDiv(a: int, b: int): int
    requires b > 0
  {
    if a < 0 then -(-a / b) else a / b
  }

  function TruncRem(a: int, b: int): int
    requires b > 0
  {
    if a < 0 then -(-a % b) else a % b
  }

  lemma TruncParts(a: int, b: int)
    requires b == NANOS_PER_SECOND
    ensures TruncDiv(a, b) * NANOS_PER_SECOND + TruncRem(a, b) == a
    ensures -b < TruncRem(a, b) < b && (a >= 0 ==> TruncRem(a, b) >= 0) && (a <= 0 ==> TruncRem(a, b) <= 0)
    ensures (a > -b ==> TruncDiv(a, b) >= 0) && (a < b ==> TruncDiv(a, b) <= 0)
  {
  }

  /** `i64::checked_add`; `checked_sub` is the same with the operand negated. */
  function CheckedAdd(a: i64, b: int): Option<i64> {
    if I64_MIN <= a + b <= I64_MAX then Some(a + b) else None
  }

  predicate LexicographicallyLess(s0: int, n0: int, s1: int, n1: int) {
    s0 < s1 || (s0 == s1 && n0 < n1)
  }
}

/** prost-extend/src/duration.rs */
module Durations {
  import opened Wrappers
  import opened TimeArithmetic
  import opened Decimal
  import opened Text

  const NANOS_MAX: i32 := NANOS_PER_SECOND - 1
  const LEAST: int := Total(I64_MIN, -NANOS_MAX)
  const GREATEST: int := Total(I64_MAX, NANOS_MAX)

  /** Fields in range, and never of opposite signs. */
  predicate IsNormal(seconds: int, nanos: int) {
    && I64_MIN <= seconds <= I64_MAX
    && -NANOS_MAX <= nanos <= NANOS_MAX
    && (seconds > 0 ==> nanos >= 0)
    && (seconds < 0 ==> nanos <= 0)
  }

  /** The time `normalize` keeps: the input's, brought into the representable range. */
  function ClampedTotal(seconds: int, nanos: int): int {
    Clamp(Total(seconds, nanos), LEAST, GREATEST)
  }

  /** `normalize` as one mathematical function: split the clamped total toward zero. */
  function Normalized(seconds: i64, nanos: i32): (r: (i64, i32)) {
    var t := ClampedTotal(seconds, nanos);
    (TruncDiv(t, NANOS_PER_SECOND), TruncRem(t, NANOS_PER_SECOND))
  }

  /** A normal pair is the only normal pair worth its total, so `Normalized` has one possible value. */
  lemma NormalizedIsTheOnlyNormalForm(seconds: i64, nanos: i32, s: int, n: int)
    ensures IsNormal(s, n) && Total(s, n) == ClampedTotal(seconds, nanos) <==> (s, n) == Normalized(seconds, nanos)
  {
  }

  /** Nothing is cut off that a normal pair could say. */
  lemma CutExactlyWhenTooLong(seconds: i64, nanos: i32)
    ensures ClampedTotal(seconds, nanos) == Total(seconds, nanos)
            <==> exists s, n :: IsNormal(s, n) && Total(s, n) == Total(seconds, nanos)
  {
    var (s, n) := Normalized(seconds, nanos);
    NormalizedIsTheOnlyNormalForm(seconds, nanos, s, n);
  }

  /** On normal pairs the field order is the time order, both ways. */
  lemma OrderIsTimeOrder(s0: int, n0: int, s1: int, n1: int)
    requires IsNormal(s0, n0) && IsNormal(s1, n1)
    ensures LexicographicallyLess(s0, n0, s1, n1) <==> Total(s0, n0) < Total(s1, n1)
  {
  }

  /** Normalising again changes nothing, and a normal pair is left as it is. */
  lemma NormalizeIdempotent(seconds: i64, nanos: i32)
    ensures var (s, n) := Normalized(seconds, nanos); Normalized(s, n) == (s, n)
    ensures Normalized(seconds, nanos) == (seconds, nanos) <==> IsNormal(seconds, nanos)
  {
  }

  /** A longer input never normalises to a shorter duration. */
  lemma NormalizeMonotone(s0: i64, n0: i32, s1: i64, n1: i32)
    requires Total(s0, n0) <= Total(s1, n1)
    ensures var (a, b) := Normalized(s0, n0); var (c, d) := Normalized(s1, n1);
            !LexicographicallyLess(c, d, a, b)
  {
  }

  // ---- text ----

  /** The text, or None where `i64::abs` overflows (a panic when overflow checks are on). */
  function DisplayText(seconds: i64, nanos: i32): Option<string> {
    var (s, n) := Normalized(seconds, nanos);
    if s == I64_MIN then None
    else
      var sign := if seconds < 0 && nanos < 0 then "-" else "";
      Some(sign + Magnitude(s, n))
  }

  /** The text without its sign. */
  function Magnitude(seconds: int, nanos: int): string {
    Natural(Abs(seconds)) + FractionText(Abs(nanos))
  }

  function Abs(x: int): nat {
    if x < 0 then -x else x
  }

  function FractionDigits(nanos: nat): nat {
    if nanos == 0 then 0
    else if nanos % 1_000_000 == 0 then 3
    else if nanos % 1_000 == 0 then 6
    else 9
  }

  /** The fraction in units of its last printed digit. */
  function FractionPart(nanos: nat): nat {
    match FractionDigits(nanos)
    case 3 => nanos / 1_000_000
    case 6 => nanos / 1_000
    case _ => nanos
  }

  function Fraction(nanos: nat): string {
    ZeroPadded(Natural(FractionPart(nanos)), FractionDigits(nanos))
  }

  function FractionText(nanos: nat): string {
    if nanos == 0 then "s" else "." + Fraction(nanos) + "s"
  }

  /** Reads "12.345s" or "-12.345s" back as nanoseconds. */
  function ReadSeconds(text: string): Option<int> {
    if StartsWith(text, "-") then
      match ReadUnsigned(text[1..])
      case Some(t) => Some(-t)
      case None => None
    else ReadUnsigned(text)
  }

  function ReadUnsigned(text: string): Option<int> {
    if text == "" || text[|text| - 1] != 's' then None else ReadNumber(text[..|text| - 1])
  }

  function ReadNumber(number: string): Option<int> {
    match SplitOnce(number, '.')
    case None => if IsWhole(number) then Some(Value(number) * NANOS_PER_SECOND) else None
    case Some((whole, fraction)) =>
      if IsWhole(whole) && IsFraction(fraction) then
        Some(Value(whole) * NANOS_PER_SECOND + FractionValue(fraction))
      else None
  }

  predicate IsWhole(s: string) {
    AllDigits(s) && s != ""
  }

  predicate IsFraction(s: string) {
    AllDigits(s) && 0 < |s| <= 9
  }

  function FractionValue(fraction: string): nat
    requires IsFraction(fraction)
  {
    Shift(Value(fraction), 9 - |fraction|)
  }

  lemma Powers()
    ensures Pow10(0) == 1 && Pow10(3) == 1_000 && Pow10(6) == 1_000_000 && Pow10(9) == 1_000_000_000
  {
  }

  lemma ReadWhole(whole: string)
    requires IsWhole(whole)
    ensures ReadUnsigned(whole + "s") == Some(Value(whole) * NANOS_PER_SECOND)
  {
  }

  lemma ReadParts(whole: string, fraction: string)
    requires IsWhole(whole) && IsFraction(fraction)
    ensures ReadUnsigned(whole + ("." + fraction + "s"))
            == Some(Total(Value(whole), FractionValue(fraction)))
  {
    hide FractionValue, Value, SplitOnce;
    var text := whole + ("." + fraction + "s");
    var number := whole + ['.'] + fraction;
    assert text == number + ['s'];
    assert ReadUnsigned(text) == ReadNumber(number);
    assert '.' !in whole;
    SplitOnceAt(whole, '.', fraction);
  }

  lemma Shifts(v: nat)
    ensures Shift(v, 0) == v && Shift(v, 3) == 1_000 * v && Shift(v, 6) == 1_000_000 * v
  {
    assert Shift(v, 3) == 10 * Shift(v, 2) && Shift(v, 2) == 10 * Shift(v, 1) && Shift(v, 1) == 10 * Shift(v, 0);
    assert Shift(v, 6) == 10 * Shift(v, 5) && Shift(v, 5) == 10 * Shift(v, 4) && Shift(v, 4) == 10 * Shift(v, 3);
  }

  lemma FractionReadsBack(nanos: nat) returns (fraction: string)
    requires 0 < nanos <= NANOS_MAX
    ensures FractionText(nanos) == "." + fraction + "s" && |fraction| == FractionDigits(nanos)
    ensures IsFraction(fraction) && FractionValue(fraction) == nanos
  {
    fraction := Fraction(nanos);
    Powers();
    var part := FractionPart(nanos);
    Shifts(part);
    PaddedNatural(part, FractionDigits(nanos));
  }

  /** The unsigned part of the text is exact, whatever the number of fraction digits. */
  lemma MagnitudeReadsBack(whole: string, nanos: nat)
    requires IsWhole(whole) && nanos <= NANOS_MAX
    ensures ReadUnsigned(whole + FractionText(nanos)) == Some(Total(Value(whole), nanos))
  {
    if nanos == 0 {
      ReadWhole(whole);
    } else {
      var fraction := FractionReadsBack(nanos);
      FractionMagnitude(whole, fraction, FractionText(nanos), nanos);
    }
  }

  lemma FractionMagnitude(whole: string, fraction: string, text: string, nanos: nat)
    requires IsWhole(whole) && IsFraction(fraction) && FractionValue(fraction) == nanos
    requires text == "." + fraction + "s"
    ensures ReadUnsigned(whole + text) == Some(Total(Value(whole), nanos))
  {
    hide *;
    ReadParts(whole, fraction);
  }

  lemma CoarserDivides(nanos: nat)
    ensures nanos % 1_000_000 == 0 ==> nanos % 1_000 == 0
    ensures nanos <= NANOS_MAX ==> (nanos % 1_000_000_000 == 0 <==> nanos == 0)
  {
  }

  /** No fewer digits (of 0, 3, 6 or 9) would say the same. */
  lemma FewestDigits(nanos: nat, digits: nat)
    requires nanos <= NANOS_MAX && digits in {0, 3, 6, 9}
    ensures nanos % Pow10(9 - digits) == 0 <==> FractionDigits(nanos) <= digits
  {
    hide Pow10;
    Powers();
    CoarserDivides(nanos);
  }

  /**
   * The sign is decided by the fields before normalisation, and only when both are
   * negative; so the text reads back as the duration exactly when the duration is not
   * negative or both input fields are. (-1 s, 0 ns) prints "1s".
   */
  lemma DisplayReadsBack(seconds: i64, nanos: i32)
    ensures DisplayText(seconds, nanos).None? <==> Total(seconds, nanos) <= Total(I64_MIN, 0)
    ensures DisplayText(seconds, nanos).Some? ==>
              (ReadSeconds(DisplayText(seconds, nanos).value) == Some(ClampedTotal(seconds, nanos))
               <==> Total(seconds, nanos) >= 0 || (seconds < 0 && nanos < 0))
  {
    hide Natural, FractionText, ReadUnsigned, Value;
    var (s, n) := Normalized(seconds, nanos);
    NormalizedIsTheOnlyNormalForm(seconds, nanos, s, n);
    MagnitudeReadsBack(Natural(Abs(s)), Abs(n));
    NormalMagnitude(s, n);
    assert Magnitude(s, n)[0] == Natural(Abs(s))[0];
    SignReadsBack(Magnitude(s, n), Abs(Total(s, n)));
  }

  lemma NormalMagnitude(seconds: int, nanos: int)
    requires IsNormal(seconds, nanos)
    ensures Total(Abs(seconds), Abs(nanos)) == Abs(Total(seconds, nanos))
  {
  }

  lemma SignReadsBack(unsigned: string, value: int)
    requires unsigned != "" && IsDigit(unsigned[0]) && ReadUnsigned(unsigned) == Some(value)
    ensures ReadSeconds("" + unsigned) == Some(value)
    ensures ReadSeconds("-" + unsigned) == Some(-value)
  {
    assert "" + unsigned == unsigned;
    var text := "-" + unsigned;
    assert text[0] == '-' && text[1..] == unsigned;
  }

  /** The smallest input whose sign is lost. */
  lemma MinusOneSecondPrintsPositive()
    ensures DisplayText(-1, 0) == Some("1s")
    ensures ClampedTotal(-1, 0) < 0
  {
    assert Normalized(-1, 0) == (-1, 0);
    assert Natural(1) == [Digit(1)] == "1";
    assert Magnitude(-1, 0) == "1" + "s" == "1s";
    assert "" + "1s" == "1s";
  }

  // ---- conversions ----

  /** `std::time::Duration` */
  datatype StdDuration = StdDuration(secs: u64, nanos: u32)

  type StdTime = d: StdDuration | d.nanos < NANOS_PER_SECOND witness StdDuration(0, 0)

  datatype DurationError = OutOfRange | NegativeDuration(magnitude: StdTime)

  /** What a conversion does: return, or panic on the overflow of a negation. */
  datatype Outcome<+T> = Return(result: Result<T, DurationError>) | Panic

  function FromStd(d: StdTime): Result<(i64, i32), DurationError> {
    if d.secs > I64_MAX then Err(OutOfRange) else Ok((d.secs, d.nanos))
  }

  function ToStd(seconds: i64, nanos: i32): Outcome<StdTime> {
    var t := ClampedTotal(seconds, nanos);
    if t >= 0 then Return(Ok(StdDuration(t / NANOS_PER_SECOND, t % NANOS_PER_SECOND)))
    else if t <= Total(I64_MIN, 0) then Panic
    else Return(Err(NegativeDuration(StdDuration(-t / NANOS_PER_SECOND, -t % NANOS_PER_SECOND))))
  }

  /** Out and back: the same value, refused exactly when the seconds do not fit an i64. */
  lemma StdRoundTrip(d: StdTime)
    ensures FromStd(d).Err? <==> d.secs > I64_MAX
    ensures FromStd(d).Ok? ==> ToStd(FromStd(d).value.0, FromStd(d).value.1) == Return(Ok(d))
  {
  }

  /** In and back: the normalised input when that is not negative; otherwise its magnitude is reported. */
  lemma ProtoRoundTrip(seconds: i64, nanos: i32)
    ensures ToStd(seconds, nanos).Return? && ToStd(seconds, nanos).result.Ok? ==>
              FromStd(ToStd(seconds, nanos).result.value) == Ok(Normalized(seconds, nanos))
    ensures ToStd(seconds, nanos).Return? && ToStd(seconds, nanos).result.Err? ==>
              var e := ToStd(seconds, nanos).result.error;
              e.NegativeDuration? && Total(e.magnitude.secs, e.magnitude.nanos) == -ClampedTotal(seconds, nanos)
    ensures ToStd(seconds, nanos).Panic? <==> Normalized(seconds, nanos).0 == I64_MIN
  {
  }

  // ---- the mutable message ----

  class Duration {
    var seconds: i64
    var nanos: i32

    constructor (seconds: i64, nanos: i32)
      ensures this.seconds == seconds && this.nanos == nanos
    {
      this.seconds, this.nanos := seconds, nanos;
    }

    /** The branches of the source, stage by stage. */
    method Normalize()
      modifies this
      ensures (seconds, nanos) == Normalized(old(seconds), old(nanos))
    {
      TruncParts(nanos, NANOS_PER_SECOND);
      if nanos <= -NANOS_PER_SECOND || nanos >= NANOS_PER_SECOND {
        match CheckedAdd(seconds, TruncDiv(nanos, NANOS_PER_SECOND))
        case Some(s) =>
          seconds := s;
          nanos := TruncRem(nanos, NANOS_PER_SECOND);
        case None =>
          if nanos < 0 {
            seconds, nanos := I64_MIN, -NANOS_MAX;
          } else {
            seconds, nanos := I64_MAX, NANOS_MAX;
          }
      }
      if seconds < 0 && nanos > 0 {
        match CheckedAdd(seconds, 1)
        case Some(s) =>
          seconds := s;
          nanos := nanos - NANOS_PER_SECOND;
        case None =>
          assert false; // the saturating arm of the source: unreachable
      } else if seconds > 0 && nanos < 0 {
        match CheckedAdd(seconds, -1)
        case Some(s) =>
          seconds := s;
          nanos := nanos + NANOS_PER_SECOND;
        case None =>
          assert false; // the saturating arm of the source: unreachable
      }
      NormalizedIsTheOnlyNormalForm(old(seconds), old(nanos), seconds, nanos);
    }

    /** Writes the text piece by piece; None stands for the panic of `abs`. */
    method Display() returns (text: Option<string>)
      ensures text == DisplayText(seconds, nanos)
    {
      var d := new Duration(seconds, nanos);
      d.Normalize();
      var f := "";
      if seconds < 0 && nanos < 0 {
        f := f + "-";
      }
      if d.seconds == I64_MIN {
        return None;
      }
      ghost var sign := f;
      assert sign == if seconds < 0 && nanos < 0 then "-" else "";
      f := f + Natural(Abs(d.seconds));
      var fraction := WriteFraction(Abs(d.nanos));
      f := f + fraction;
      assert f == sign + Magnitude(d.seconds, d.nanos);
      text := Some(f);
    }

    /** Sub-seconds as nothing, millis, micros or nanos. */
    static method WriteFraction(n: nat) returns (f: string)
      ensures f == FractionText(n)
    {
      if n == 0 {
        f := "s";
      } else if n % 1_000_000 == 0 {
        f := "." + ZeroPadded(Natural(n / 1_000_000), 3) + "s";
      } else if n % 1_000 == 0 {
        f := "." + ZeroPadded(Natural(n / 1_000), 6) + "s";
      } else {
        f := "." + ZeroPadded(Natural(n), 9) + "s";
      }
    }

    static method TryFromStd(d: StdTime) returns (r: Result<(i64, i32), DurationError>)
      ensures r == FromStd(d)
    {
      if d.secs > I64_MAX {
        return Err(OutOfRange);
      }
      var duration := new Duration(d.secs, d.nanos);
      duration.Normalize();
      r := Ok((duration.seconds, duration.nanos));
    }

    method TryIntoStd() returns (r: Outcome<StdTime>)
      ensures r == ToStd(seconds, nanos)
    {
      var d := new Duration(seconds, nanos);
      d.Normalize();
      if d.seconds >= 0 && d.nanos >= 0 {
        r := Return(Ok(StdDuration(d.seconds, d.nanos)));
      } else if d.seconds == I64_MIN {
        r := Panic;
      } else {
        r := Return(Err(NegativeDuration(StdDuration(-d.seconds, -d.nanos))));
      }
    }
  }
}
