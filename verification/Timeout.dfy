/** The timeout header of pRPC (grpc/prpc/timeout.go:27-98), in 64-bit arithmetic. */
module Timeout {

  import opened Ints
  import opened Text

  type Duration = d: int | MIN_INT64 <= d <= MAX_INT64

  function Wrap(x: int): Duration {
    (x + TWO_63) % TWO_64 - TWO_63
  }

  /** Division as Go does it: towards zero. */
  function Quotient(d: int, r: int): int
    requires r > 0
  {
    if d >= 0 then d / r else -(-d / r)
  }

  function Remainder(d: int, r: int): int
    requires r > 0
  {
    d - Quotient(d, r) * r
  }

  /** div: rounds up. */
  function Div(d: Duration, r: int): int
    requires r > 0
  {
    if Remainder(d, r) > 0 then Wrap(Quotient(d, r) + 1) else Quotient(d, r)
  }

  const HOUR: int := 3600_000_000_000
  const MINUTE: int := 60_000_000_000
  const SECOND: int := 1_000_000_000
  const MILLISECOND: int := 1_000_000
  const MICROSECOND: int := 1_000
  const NANOSECOND: int := 1

  /** timeoutUnitToDuration. */
  function UnitOf(c: char): Option<int> {
    match c
    case 'H' => Some(HOUR)
    case 'M' => Some(MINUTE)
    case 'S' => Some(SECOND)
    case 'm' => Some(MILLISECOND)
    case 'u' => Some(MICROSECOND)
    case 'n' => Some(NANOSECOND)
    case _ => None
  }

  const MAX_TIMEOUT_VALUE: int := 100_000_000 - 1

  function EncodeTimeout(t: Duration): string {
    if Div(t, NANOSECOND) <= MAX_TIMEOUT_VALUE then Dec(Div(t, NANOSECOND)) + "n"
    else if Div(t, MICROSECOND) <= MAX_TIMEOUT_VALUE then Dec(Div(t, MICROSECOND)) + "u"
    else if Div(t, MILLISECOND) <= MAX_TIMEOUT_VALUE then Dec(Div(t, MILLISECOND)) + "m"
    else if Div(t, SECOND) <= MAX_TIMEOUT_VALUE then Dec(Div(t, SECOND)) + "S"
    else if Div(t, MINUTE) <= MAX_TIMEOUT_VALUE then Dec(Div(t, MINUTE)) + "M"
    else Dec(Div(t, HOUR)) + "H"
  }

  /** None is any of the errors. */
  function DecodeTimeout(s: string): Option<Duration> {
    if |s| < 2 then None
    else
      match UnitOf(s[|s| - 1])
      case None => None
      case Some(d) =>
        match ParseInt(s[..|s| - 1], MIN_INT64, MAX_INT64)
        case None => None
        case Some(t) => Some(Wrap(d * t))
  }

  // ----- Rounding up -----

  /** The least multiple of r that is at least d. */
  ghost predicate RoundedUp(d: int, r: int, n: int)
    requires r > 0
  {
    r * n - r < d <= r * n
  }

  lemma AtLeastItself(q: int, r: int)
    requires q >= 0 && r >= 1
    ensures q * r >= q
  {
    assert q * r == q + q * (r - 1);
  }

  lemma DivMod(d: int, r: int)
    requires d >= 0 && r > 0
    ensures d == r * (d / r) + d % r && 0 <= d % r < r && 0 <= d / r
  {
  }

  lemma RoundUp(d: int, r: int, q: int, m: int)
    requires d >= 0 && r > 0 && d == r * q + m && 0 <= m < r && q >= 0
    ensures m > 0 ==> RoundedUp(d, r, q + 1) && q + 1 <= d
    ensures m == 0 ==> RoundedUp(d, r, q) && q <= d
  {
    AtLeastItself(q, r);
    assert r * (q + 1) == r * q + r && q * r == r * q;
  }

  lemma DivRoundsUp(d: Duration, r: int)
    requires d >= 0 && r > 0
    ensures RoundedUp(d, r, Div(d, r)) && 0 <= Div(d, r) <= d
  {
    DivMod(d, r);
    RoundUp(d, r, d / r, d % r);
    assert Remainder(d, r) == d % r by { assert (d / r) * r == r * (d / r); }
    hide Remainder, RoundedUp;
  }

  // ----- The codec -----

  /** A unit and the count of it that a timeout is written with. */
  function UnitFor(t: Duration): char {
    if Div(t, NANOSECOND) <= MAX_TIMEOUT_VALUE then 'n'
    else if Div(t, MICROSECOND) <= MAX_TIMEOUT_VALUE then 'u'
    else if Div(t, MILLISECOND) <= MAX_TIMEOUT_VALUE then 'm'
    else if Div(t, SECOND) <= MAX_TIMEOUT_VALUE then 'S'
    else if Div(t, MINUTE) <= MAX_TIMEOUT_VALUE then 'M'
    else 'H'
  }

  lemma DivFits(t: Duration, r: int)
    requires r > 0
    ensures MIN_INT64 <= Div(t, r) <= MAX_INT64
  {
    if t >= 0 {
      DivRoundsUp(t, r);
    } else {
      var u: int := t;
      DivMod(-u, r);
      AtLeastItself(-u / r, r);
    }
  }

  /** Decoding reads off the unit and the count, and multiplies with wrap-around. */
  lemma DecodeEncoded(t: Duration)
    ensures var r := UnitOf(UnitFor(t)).value;
      EncodeTimeout(t) == Dec(Div(t, r)) + [UnitFor(t)] && DecodeTimeout(EncodeTimeout(t)) == Some(Wrap(r * Div(t, r)))
  {
    hide Div, Wrap;
    var r := UnitOf(UnitFor(t)).value;
    DivFits(t, r);
    ParseIntDec(Div(t, r), MIN_INT64, MAX_INT64);
    var s := EncodeTimeout(t);
    assert s == Dec(Div(t, r)) + [UnitFor(t)];
    assert s[..|s| - 1] == Dec(Div(t, r));
  }

  /** A count of any of the six units stands for that many of its length, in 64-bit arithmetic. */
  lemma DecodeUnits(n: int, c: char, length: int)
    requires (c, length) in [('H', 3_600_000_000_000), ('M', 60_000_000_000), ('S', 1_000_000_000),
                             ('m', 1_000_000), ('u', 1_000), ('n', 1)]
    ensures -0x8000_0000_0000_0000 <= n < 0x8000_0000_0000_0000 ==>
      match DecodeTimeout(Dec(n) + [c])
      case None => false
      case Some(d) => -0x8000_0000_0000_0000 <= d < 0x8000_0000_0000_0000 && WrapsTo(length * n, d)
    ensures !(-0x8000_0000_0000_0000 <= n < 0x8000_0000_0000_0000) ==> DecodeTimeout(Dec(n) + [c]) == None
  {
    hide Wrap;
    ParseIntDec(n, MIN_INT64, MAX_INT64);
    var s := Dec(n) + [c];
    assert s[..|s| - 1] == Dec(n) && UnitOf(c) == Some(length);
    WrapWraps(length * n);
  }

  /** Equal up to a multiple of 2 to the 64, and equal if x is a 64-bit number. */
  ghost predicate WrapsTo(x: int, d: int) {
    && (exists k: int :: d == x + k * 0x1_0000_0000_0000_0000)
    && (-0x8000_0000_0000_0000 <= x < 0x8000_0000_0000_0000 ==> d == x)
  }

  lemma WrapWraps(x: int)
    ensures WrapsTo(x, Wrap(x))
  {
    var k := (x + TWO_63) / TWO_64;
    assert Wrap(x) == x + (-k) * 0x1_0000_0000_0000_0000;
  }

  /** Any other unit is an error, and so is a text that is too short or has no number. */
  lemma DecodeErrors(s: string)
    ensures |s| < 2 ==> DecodeTimeout(s) == None
    ensures |s| >= 2 && s[|s| - 1] !in "HMSmun" ==> DecodeTimeout(s) == None
    ensures |s| >= 2 && ParseInt(s[..|s| - 1], MIN_INT64, MAX_INT64).None? ==> DecodeTimeout(s) == None
  {
    if |s| >= 2 && UnitOf(s[|s| - 1]).Some? {
      assert "HMSmun" == ['H', 'M', 'S', 'm', 'u', 'n'];
      assert s[|s| - 1] in ['H', 'M', 'S', 'm', 'u', 'n'];
    }
  }

  /** The longest timeout, in hours, that survives. */
  const MAX_HOURS: int := 2_562_047

  lemma WrapSame(x: int)
    ensures Wrap(x) == x <==> MIN_INT64 <= x <= MAX_INT64
  {
  }

  lemma WrapBelow(x: int)
    requires MAX_INT64 < x <= MAX_INT64 + HOUR
    ensures Wrap(x) < 0
  {
    assert (x + 0x8000_0000_0000_0000) % TWO_64 == x + 0x8000_0000_0000_0000 - TWO_64;
  }

  /** Negative timeouts are written in nanoseconds, whatever their length. */
  lemma NegativeExact(t: Duration)
    requires t < 0
    ensures UnitFor(t) == 'n' && DecodeTimeout(EncodeTimeout(t)) == Some(t)
  {
    DecodeEncoded(t);
    assert Quotient(t, NANOSECOND) == t;
    WrapSame(t);
  }

  /** A timeout is decoded as the least multiple of its unit that is at least as long, hence within
      one unit of it, exactly when it is at most 2562047 hours; a longer one is decoded as negative. */
  lemma RoundTrip(t: Duration)
    requires t >= 0
    ensures DecodeTimeout(EncodeTimeout(t)).Some?
    ensures var r, w := UnitOf(UnitFor(t)).value, DecodeTimeout(EncodeTimeout(t)).value;
      && (t <= MAX_HOURS * HOUR ==> t <= w < t + r && RoundedUp(t, r, Div(t, r)) && w == r * Div(t, r))
      && (t > MAX_HOURS * HOUR ==> w < 0)
      && (t < 100_000_000 ==> w == t)
  {
    DecodeEncoded(t);
    var r := UnitOf(UnitFor(t)).value;
    DivRoundsUp(t, r);
    UnitLength(t);
    hide Div, UnitOf, UnitFor, EncodeTimeout, DecodeTimeout, Wrap;
    Decoded(t, r, Div(t, r), r * Div(t, r));
  }

  lemma Decoded(t: int, r: int, n: int, whole: int)
    requires r > 0 && RoundedUp(t, r, n) && whole == r * n && whole <= MAX_INT64 + HOUR && t >= 0
    ensures whole <= MAX_INT64 ==> Wrap(whole) == whole && t <= whole < t + r
    ensures whole > MAX_INT64 ==> Wrap(whole) < 0
  {
    WrapSame(whole);
    if whole > MAX_INT64 {
      WrapBelow(whole);
    }
  }

  /** What is to be known about a timeout that is n units of length r, rounded up. */
  ghost predicate LengthOk(t: int, r: int, n: int) {
    && (t > MAX_HOURS * HOUR ==> r == HOUR && r * n > MAX_INT64)
    && (t <= MAX_HOURS * HOUR ==> r * n <= MAX_INT64)
    && r * n <= MAX_INT64 + HOUR
    && (t < 100_000_000 ==> r == 1)
    && n <= MAX_TIMEOUT_VALUE
  }

  lemma ShortUnitOk(t: int, r: int, n: int)
    requires 0 <= t <= MAX_INT64 && n <= MAX_TIMEOUT_VALUE && r > 0 && RoundedUp(t, r, n)
    requires r == NANOSECOND || (r in [MICROSECOND, MILLISECOND, SECOND, MINUTE] && t >= 100_000_000)
    ensures LengthOk(t, r, n)
  {
    MulMonotone(n, MAX_TIMEOUT_VALUE, r);
    assert n * r == r * n;
  }

  lemma HoursOk(t: int, n: int)
    requires 100_000_000 <= t <= MAX_INT64 && RoundedUp(t, HOUR, n)
    ensures LengthOk(t, HOUR, n)
  {
  }

  /** A unit short of an hour is used only while the rounded timeout fits 64 bits. */
  lemma UnitLength(t: Duration)
    requires t >= 0
    ensures LengthOk(t, UnitOf(UnitFor(t)).value, Div(t, UnitOf(UnitFor(t)).value))
  {
    var r := UnitOf(UnitFor(t)).value;
    DivRoundsUp(t, r);
    DivRoundsUp(t, NANOSECOND);
    hide Div, LengthOk;
    if r == HOUR {
      HoursOk(t, Div(t, HOUR));
    } else {
      ShortUnitOk(t, r, Div(t, r));
    }
  }

  /** The unit is the shortest one of which eight digits are enough. */
  lemma ShortestUnit(t: Duration, c: char)
    requires t >= 0 && UnitOf(c).Some?
    ensures UnitOf(c).value < UnitOf(UnitFor(t)).value ==> t > UnitOf(c).value * 99_999_999
    ensures t <= UnitOf(UnitFor(t)).value * 99_999_999
  {
    UnitLength(t);
    DivRoundsUp(t, UnitOf(c).value);
    DivRoundsUp(t, UnitOf(UnitFor(t)).value);
    if UnitOf(c).value < UnitOf(UnitFor(t)).value {
      assert Div(t, UnitOf(c).value) > 99_999_999;
      MulMonotone(99_999_999, Div(t, UnitOf(c).value) - 1, UnitOf(c).value);
    }
    MulMonotone(Div(t, UnitOf(UnitFor(t)).value), 99_999_999, UnitOf(UnitFor(t)).value);
    hide Div;
  }

  // ----- The header's form -----

  /** TimeoutValue TimeoutUnit: at most eight digits and a unit. */
  predicate WellFormed(s: string) {
    && 2 <= |s| <= 9 && UnitOf(s[|s| - 1]).Some?
    && forall i | 0 <= i < |s| - 1 :: IsDigit(s[i])
  }

  lemma {:induction false} DigitsOf(n: nat, k: nat, bound: int)
    requires bound == Power(k) && k >= 1
    ensures |DecNat(n)| <= k <==> n < bound
    decreases n
  {
    if n >= 10 {
      if k > 1 {
        DigitsOf(n / 10, k - 1, Power(k - 1));
        assert n < bound <==> n / 10 < Power(k - 1);
      } else {
        assert |DecNat(n / 10)| >= 1;
      }
    } else {
      PowerPositive(k);
    }
  }

  function Power(k: nat): int {
    if k == 0 then 1 else 10 * Power(k - 1)
  }

  lemma {:induction false} PowerPositive(k: nat)
    ensures k >= 1 ==> Power(k) >= 10
    ensures Power(k) >= 1
  {
    if k > 0 { PowerPositive(k - 1); }
  }

  /** The header is well formed exactly for timeouts that are not negative. */
  lemma HeaderWellFormed(t: Duration)
    ensures WellFormed(EncodeTimeout(t)) <==> t >= 0
  {
    DecodeEncoded(t);
    var r := UnitOf(UnitFor(t)).value;
    var s := EncodeTimeout(t);
    if t >= 0 {
      DivRoundsUp(t, r);
      UnitLength(t);
      assert Power(8) == 100_000_000 by { PowerEight(); }
      DigitsOf(Div(t, r), 8, Power(8));
    } else {
      NegativeExact(t);
      assert Div(t, NANOSECOND) == t;
      assert s[0] == '-';
    }
  }

  lemma PowerEight()
    ensures Power(8) == 100_000_000
  {
    assert Power(2) == 100;
    assert Power(4) == 10_000;
    assert Power(6) == 1_000_000;
  }
}
