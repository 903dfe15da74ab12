/**
 * Properties of the values index.js hands to `add` for the seconds and the
 * sub-second units, in exact arithmetic.
 */
module ValueProperties {
  import opened JsText
  import opened ParseMs
  import opened PrettyMs

  /** The seconds value is m milliseconds floored to d fraction digits: the largest such value not above m / 1000. */
  lemma SecondsValueFloors(m: nat, d: nat)
    ensures SecondsValue(m, d).digits * 1000 <= m * Pow10(d) < (SecondsValue(m, d).digits + 1) * 1000
  {
    ShiftIsProduct(m, d);
    DivBounds(m * Pow10(d), 1000);
  }

  /**
   * The floored seconds value lies in [0, 60) and its whole part is the
   * whole seconds of the minute: flooring to d digits never carries into the
   * whole second.
   */
  lemma SecondsValueWholePart(m: nat, d: nat)
    requires m < 60000
    ensures WholePart(SecondsValue(m, d)) == m / 1000
    ensures SecondsValue(m, d).digits < 60 * Pow10(d)
  {
    var p := Pow10(d);
    ShiftIsProduct(m, d);
    Parts(SecondsValue(m, d));
    var a, b := m / 1000, m % 1000;
    var ap, bp := a * p, b * p;
    var c, e := bp / 1000, bp % 1000;
    DivBounds(bp, 1000);
    MulMono(b, 999, p);
    assert c < p;
    MulAddRight(1000 * a, b, p);
    MulAssoc(1000, a, p);
    assert m * p == (ap + c) * 1000 + e;
    DivUnique(m * p, 1000, ap + c, e);
    assert SecondsValue(m, d).digits == ap + c;
    DivUnique(ap + c, p, a, c);
    MulMono(a, 59, p);
  }

  /** The seconds token in the default branch shows the whole seconds that parse-ms reports. */
  lemma SecondsValueMatchesParse(input: Input, d: nat)
    requires !input.NotFinite?
    ensures WholePart(SecondsValue(MillisWithinMinute(input), d)) == Parse(input.n).seconds
  {
    var n := input.n;
    NumberAndBigIntMinute(n);
    var k, m := n / 60000, n % 60000;
    var a, b := m / 1000, m % 1000;
    DivUnique(n, 1000, 60 * k + a, b);
    DivUnique(60 * k + a, 60, k, a);
    SecondsValueWholePart(m, d);
  }

  lemma ScaledWholeParts(ms: nat, digits: nat)
    ensures WholePart(Decimal(Shift(ms, digits), digits)) == ms
    ensures FractionPart(Decimal(Shift(ms, digits), digits)) == 0
  {
    ShiftIsProduct(ms, digits);
    Parts(Decimal(Shift(ms, digits), digits));
    DivUnique(ms * Pow10(digits), Pow10(digits), ms, 0);
  }

  lemma ScaledWholeZeroOne(ms: nat, f: nat)
    requires f >= 1
    ensures ms * f == 0 <==> ms == 0
    ensures ms * f == f <==> ms == 1
  {
    if ms != 0 {
      MulMono(1, ms, f);
    }
    if ms * f == f {
      DivUnique(ms * f, f, ms, 0);
      DivUnique(f, f, 1, 0);
    }
  }

  /** A whole number ms written with `digits` fraction digits, all zero. */
  lemma ScaledWhole(ms: nat, digits: nat)
    ensures DecimalString(Decimal(Shift(ms, digits), digits)) == NatString(ms)
    ensures IsZero(Decimal(Shift(ms, digits), digits)) <==> ms == 0
    ensures IsOne(Decimal(Shift(ms, digits), digits)) <==> ms == 1
    ensures digits != 0 ==> FixedString(Decimal(Shift(ms, digits), digits)) == NatString(ms) + "." + Zeros(digits)
  {
    ScaledWholeParts(ms, digits);
    assert Shift(ms, digits) == ms * Pow10(digits) by {
      ShiftIsProduct(ms, digits);
    }
    ScaledWholeZeroOne(ms, Pow10(digits));
    WholeStrings(Decimal(Shift(ms, digits), digits));
  }

  /** A value with no fraction is written as its whole part, and by `toFixed` with scale zeros after the point. */
  lemma WholeStrings(v: Decimal)
    requires FractionPart(v) == 0
    ensures DecimalString(v) == NatString(WholePart(v))
    ensures v.scale != 0 ==> FixedString(v) == NatString(WholePart(v)) + "." + Zeros(v.scale)
  {
    if v.scale != 0 {
      PadLeftZero(v.scale);
    }
  }

  lemma PadLeftZero(digits: nat)
    requires digits >= 1
    ensures PadLeft(NatString(0), digits) == Zeros(digits)
  {
    assert NatString(0) == "0";
    var r := PadLeft("0", digits);
    assert |r| == digits;
    assert forall i :: 0 <= i < digits ==> r[i] == '0';
  }

  /** With a whole number of milliseconds the rounding at index.js:67 changes nothing. */
  lemma CollapsedIsMilliseconds(p: Parsed, digits: nat)
    requires p.microseconds == 0 && p.nanoseconds == 0
    ensures DecimalString(CollapsedMilliseconds(p, digits)) == NatString(p.milliseconds)
    ensures IsZero(CollapsedMilliseconds(p, digits)) <==> p.milliseconds == 0
    ensures IsOne(CollapsedMilliseconds(p, digits)) <==> p.milliseconds == 1
    ensures digits != 0 ==> FixedString(CollapsedMilliseconds(p, digits)) == NatString(p.milliseconds) + "." + Zeros(digits)
  {
    CollapsedIsScaled(p, digits);
    ScaledWhole(p.milliseconds, digits);
  }

  lemma CollapsedIsScaled(p: Parsed, digits: nat)
    requires p.microseconds == 0 && p.nanoseconds == 0
    ensures CollapsedMilliseconds(p, digits) == Decimal(Shift(p.milliseconds, digits), digits)
  {
    var ms, x := p.milliseconds, Shift(p.milliseconds, digits);
    assert Pow10(6) == 1000000 && HalfUnit(6) == 500000;
    assert Shift(ms * 1000000, digits) == x * 1000000 by {
      ShiftIsProduct(ms * 1000000, digits);
      ShiftIsProduct(ms, digits);
      MulAssoc(ms, 1000000, Pow10(digits));
      MulAssoc(ms, Pow10(digits), 1000000);
    }
    DivUnique(x * 1000000 + 500000, 1000000, x, 500000);
  }

  /**
   * parse-ms inverts the recomposition: a duration built from parts within
   * their ranges is split back into exactly those parts.
   */
  lemma ParseCompose(days: nat, hours: nat, minutes: nat, seconds: nat, milliseconds: nat)
    requires hours < 24 && minutes < 60 && seconds < 60 && milliseconds < 1000
    ensures Parse(days * MsPerDay + hours * MsPerHour + minutes * MsPerMinute + seconds * MsPerSecond + milliseconds)
      == Parsed(days, hours, minutes, seconds, milliseconds, 0, 0)
  {
    var n := days * MsPerDay + hours * MsPerHour + minutes * MsPerMinute + seconds * MsPerSecond + milliseconds;
    var totalHours := days * 24 + hours;
    var totalMinutes := totalHours * 60 + minutes;
    var totalSeconds := totalMinutes * 60 + seconds;
    assert n == totalSeconds * 1000 + milliseconds;
    DivUnique(n, 1000, totalSeconds, milliseconds);
    assert n == totalMinutes * 60000 + (seconds * 1000 + milliseconds);
    DivUnique(n, 60000, totalMinutes, seconds * 1000 + milliseconds);
    assert n == totalHours * 3600000 + (minutes * 60000 + seconds * 1000 + milliseconds);
    DivUnique(n, 3600000, totalHours, minutes * 60000 + seconds * 1000 + milliseconds);
    assert n == days * 86400000 + (hours * 3600000 + minutes * 60000 + seconds * 1000 + milliseconds);
    DivUnique(n, 86400000, days, hours * 3600000 + minutes * 60000 + seconds * 1000 + milliseconds);
    DivUnique(totalSeconds, 60, totalMinutes, seconds);
    DivUnique(totalMinutes, 60, totalHours, minutes);
    DivUnique(totalHours, 24, days, hours);
  }

  /** Whole seconds floored to d fraction digits are those seconds with d zero digits. */
  lemma SecondsOfWhole(s: nat, d: nat)
    ensures SecondsValue(1000 * s, d) == Decimal(Shift(s, d), d)
  {
    var x := Shift(s, d);
    assert Shift(1000 * s, d) == 1000 * x by {
      ShiftIsProduct(1000 * s, d);
      ShiftIsProduct(s, d);
      MulAssoc(1000, s, Pow10(d));
    }
    DivUnique(1000 * x, 1000, x, 0);
  }

  /** k whole seconds are written as k, are zero or one exactly when k is, and `toFixed` appends d zeros. */
  lemma WholeSecondsValue(k: nat, d: nat)
    ensures var v := SecondsValue(1000 * k, d);
      && WholePart(v) == k && DecimalString(v) == NatString(k)
      && (IsZero(v) <==> k == 0) && (IsOne(v) <==> k == 1)
      && (d != 0 ==> FixedString(v) == NatString(k) + "." + Zeros(d))
  {
    SecondsOfWhole(k, d);
    ScaledWholeParts(k, d);
    ScaledWhole(k, d);
  }


  /** A bigint reduced modulo one day keeps its milliseconds within the minute. */
  lemma NumberAndBigIntMinute(n: nat)
    ensures MillisWithinMinute(BigInt(n)) == MillisWithinMinute(Number(n)) == n % 60000
  {
    var k, r := n / OneDayInMilliseconds, n % OneDayInMilliseconds;
    assert n == (1440 * k + r / 60000) * 60000 + r % 60000;
    DivUnique(n, 60000, 1440 * k + r / 60000, r % 60000);
  }

  /** `SECOND_ROUNDING_EPSILON` of index.js:3. */
  const SecondRoundingEpsilon: real := 0.0000001

  /** `(milliseconds / 1000) % 60` of index.js:71 in exact real arithmetic. */
  function RealSeconds(x: nat): real
  {
    var t := x as real / 1000.0;
    t - 60.0 * ((t / 60.0).Floor as real)
  }

  /**
   * In exact arithmetic the epsilon added before flooring at index.js:73
   * never changes the floor for an integer count of milliseconds: the scaled
   * seconds are a multiple of 1/1000, at most 0.999 below the next integer.
   */
  lemma EpsilonHasNoEffect(x: nat, d: nat)
    ensures (RealSeconds(x) * (Pow10(d) as real) + SecondRoundingEpsilon).Floor == SecondsValue(x % 60000, d).digits
    ensures (RealSeconds(x) * (Pow10(d) as real)).Floor == SecondsValue(x % 60000, d).digits
  {
    var m, p := x % 60000, Pow10(d);
    assert SecondsValue(m, d).digits == (m * p) / 1000 by {
      ShiftIsProduct(m, d);
    }
    assert RealSeconds(x) * (p as real) == (m as real / 1000.0) * (p as real) by {
      RealSecondsExact(x);
    }
    FloorOfScaled(m, p);
  }

  /** The real remainder at index.js:71 is the milliseconds within the minute, in seconds. */
  lemma RealSecondsExact(x: nat)
    ensures RealSeconds(x) == (x % 60000) as real / 1000.0
  {
    var k, m := x / 60000, x % 60000;
    var t := x as real / 1000.0;
    assert t == 60.0 * k as real + m as real / 1000.0;
    assert t / 60.0 == k as real + m as real / 60000.0;
    assert (t / 60.0).Floor == k;
  }

  lemma FloorOfScaled(m: nat, p: nat)
    requires p >= 1
    ensures ((m as real / 1000.0) * (p as real) + SecondRoundingEpsilon).Floor == (m * p) / 1000
    ensures ((m as real / 1000.0) * (p as real)).Floor == (m * p) / 1000
  {
    var n := m * p;
    var q, r := n / 1000, n % 1000;
    assert n as real == m as real * p as real;
    var y := (m as real / 1000.0) * (p as real);
    assert y == n as real / 1000.0;
    assert y == q as real + r as real / 1000.0;
    assert q as real <= y + SecondRoundingEpsilon < q as real + 1.0;
  }
}
