/** Option type shared by the modules below. */
module Wrappers {
  datatype Option<T> = None | Some(value: T)
}

/**
 * The pieces of JavaScript's string and number formatting that the formatter
 * relies on, over exact values: `String(n)` of a non-negative integer,
 * `String(x)` and `x.toFixed(d)` of an exact decimal, `'0'.repeat(n)`,
 * `split`, `join`, and the replacement in index.js that strips a fraction made
 * only of zeros.
 */
module JsText {

  function Max(a: int, b: int): (m: int)
    ensures m >= a && m >= b && (m == a || m == b)
  {
    if a < b then b else a
  }

  function Min(a: int, b: int): (m: int)
    ensures m <= a && m <= b && (m == a || m == b)
  {
    if a < b then a else b
  }

  /** 10 to the power n. */
  function Pow10(n: nat): (p: nat)
    ensures p >= 1
  {
    if n == 0 then 1 else 10 * Pow10(n - 1)
  }

  predicate IsDigit(c: char) { '0' <= c <= '9' }

  predicate AllDigits(s: string) { forall i :: 0 <= i < |s| ==> IsDigit(s[i]) }

  function DigitChar(d: nat): (c: char)
    requires d < 10
    ensures IsDigit(c) && (c == '0' <==> d == 0)
  {
    ('0' as int + d) as char
  }

  /** `String(n)` for a non-negative integer n (bigint or integral number): its decimal numeral. */
  function NatString(n: nat): (s: string)
    ensures |s| >= 1 && AllDigits(s)
    ensures s[0] == '0' <==> n == 0
    decreases n
  {
    if n < 10 then [DigitChar(n)] else NatString(n / 10) + [DigitChar(n % 10)]
  }

  /** The number a string of decimal digits denotes. */
  function DigitsValue(s: string): nat
    requires AllDigits(s)
  {
    if s == [] then 0 else 10 * DigitsValue(s[..|s| - 1]) + (s[|s| - 1] as int - '0' as int)
  }

  /** NatString writes n itself: reading its digits back gives n. */
  lemma {:induction false} NatStringRoundTrip(n: nat)
    ensures DigitsValue(NatString(n)) == n
    decreases n
  {
    if n >= 10 {
      var s := NatString(n);
      assert s[..|s| - 1] == NatString(n / 10);
      NatStringRoundTrip(n / 10);
    }
  }

  /** `'0'.repeat(n)`. */
  function Zeros(n: nat): (s: string)
    ensures |s| == n && forall i :: 0 <= i < n ==> s[i] == '0'
  {
    seq(n, _ => '0')
  }

  /** s preceded by zeros up to the given width, as `padStart(width, '0')`. */
  function PadLeft(s: string, width: nat): (r: string)
    ensures |r| == Max(width, |s|)
    ensures forall i :: 0 <= i < |r| - |s| ==> r[i] == '0'
  {
    Zeros(Max(0, width - |s|)) + s
  }

  /** s without its trailing zeros. */
  function TrimTrailingZeros(s: string): (r: string)
    ensures |r| <= |s| && r == s[..|r|]
    ensures r != [] ==> r[|r| - 1] != '0'
    ensures forall i :: |r| <= i < |s| ==> s[i] == '0'
    decreases |s|
  {
    if s != [] && s[|s| - 1] == '0' then TrimTrailingZeros(s[..|s| - 1]) else s
  }

  /** The exact non-negative number digits / 10^scale. */
  datatype Decimal = Decimal(digits: nat, scale: nat)

  function Int(n: nat): Decimal { Decimal(n, 0) }

  predicate IsZero(v: Decimal) { v.digits == 0 }

  predicate IsOne(v: Decimal) { v.digits == Pow10(v.scale) }

  /** Euclidean division of naturals, spelled out for the solver. */
  lemma DivBounds(n: nat, m: nat)
    requires m >= 1
    ensures 0 <= n / m && 0 <= n % m < m && (n / m) * m + n % m == n
    ensures (n / m) * m <= n < (n / m + 1) * m
  {
  }

  /** The quotient and remainder are the only ones with the remainder in range. */
  lemma DivUnique(n: int, m: int, q: int, r: int)
    requires m >= 1 && n == q * m + r && 0 <= r < m
    ensures n / m == q && n % m == r
  {
    var d := q - n / m;
    assert d * m == n % m - r;
    if d > 0 {
    } else if d < 0 {
    }
  }

  lemma MulAddRight(x: int, y: int, p: int)
    ensures (x + y) * p == x * p + y * p
  {
  }

  lemma MulAssoc(x: int, y: int, z: int)
    ensures (x * y) * z == x * (y * z)
  {
  }

  lemma MulMono(x: int, y: int, p: nat)
    requires x <= y
    ensures x * p <= y * p
  {
  }

  /** n followed by d zeros: n * 10^d. */
  function Shift(n: nat, d: nat): nat
    decreases d
  {
    if d == 0 then n else 10 * Shift(n, d - 1)
  }

  /** n without its last d decimal digits: n / 10^d. */
  function DropDigits(n: nat, d: nat): nat
    decreases d
  {
    if d == 0 then n else DropDigits(n / 10, d - 1)
  }

  /** The last d decimal digits of n: n % 10^d. */
  function LastDigits(n: nat, d: nat): nat
    decreases d
  {
    if d == 0 then 0 else n % 10 + 10 * LastDigits(n / 10, d - 1)
  }

  /** The digits of v before the point. */
  function WholePart(v: Decimal): nat
  {
    DropDigits(v.digits, v.scale)
  }

  /** The digits of v after the point, as a number. */
  function FractionPart(v: Decimal): nat
  {
    LastDigits(v.digits, v.scale)
  }

  lemma {:induction false} ShiftIsProduct(n: nat, d: nat)
    ensures Shift(n, d) == n * Pow10(d)
    decreases d
  {
    if d > 0 {
      ShiftIsProduct(n, d - 1);
      MulAssoc(n, Pow10(d - 1), 10);
    }
  }

  lemma {:induction false} DropLastDigits(n: nat, d: nat)
    ensures DropDigits(n, d) == n / Pow10(d) && LastDigits(n, d) == n % Pow10(d)
    decreases d
  {
    if d > 0 {
      var p := Pow10(d - 1);
      var q, r := (n / 10) / p, (n / 10) % p;
      DropLastDigits(n / 10, d - 1);
      DivBounds(n / 10, p);
      assert n == q * (10 * p) + (n % 10 + 10 * r) by {
        assert n == (n / 10) * 10 + n % 10;
        MulAssoc(q, p, 10);
        MulAddRight(q * p, r, 10);
      }
      DivUnique(n, 10 * p, q, n % 10 + 10 * r);
    }
  }

  /** The whole part and the fraction digits of v are its quotient and remainder by 10^scale. */
  lemma Parts(v: Decimal)
    ensures WholePart(v) == v.digits / Pow10(v.scale) && FractionPart(v) == v.digits % Pow10(v.scale)
    ensures WholePart(v) * Pow10(v.scale) + FractionPart(v) == v.digits && FractionPart(v) < Pow10(v.scale)
  {
    DropLastDigits(v.digits, v.scale);
    DivBounds(v.digits, Pow10(v.scale));
  }

  /** A value whose whole part is not zero is not zero. */
  lemma {:induction false} ZeroWholePart(d: nat)
    ensures DropDigits(0, d) == 0
    decreases d
  {
    if d > 0 {
      ZeroWholePart(d - 1);
    }
  }

  /**
   * `String(x)` for a number x of the exact value v: the whole part, then,
   * only when the fraction is not zero, a point and the fraction's digits
   * without trailing zeros. A number-typed value the formatter renders is
   * zero or a multiple of 0.001, and JavaScript writes no exponent for such a
   * value below 10^21; numbers that large lose precision and are not modelled
   * anyway. `String` of a bigint never writes an exponent.
   */
  function DecimalString(v: Decimal): string
  {
    var fraction := FractionPart(v);
    NatString(WholePart(v)) +
      if fraction == 0 then "" else "." + TrimTrailingZeros(PadLeft(NatString(fraction), v.scale))
  }

  /** `x.toFixed(v.scale)` for a number x of the exact value v: exactly scale fraction digits. */
  function FixedString(v: Decimal): string
  {
    NatString(WholePart(v)) +
      if v.scale == 0 then "" else "." + PadLeft(NatString(FractionPart(v)), v.scale)
  }

  /** One half, written with s fraction digits (zero when s is zero: nothing to round). */
  function HalfUnit(s: nat): nat
  {
    if s == 0 then 0 else 5 * Pow10(s - 1)
  }

  /**
   * v rounded to f fraction digits, halves upwards: `toFixed(f)` read back,
   * and `Math.round` when f is 0. Half a unit of v's last digit is added
   * before the digits beyond f are dropped.
   */
  function RoundTo(v: Decimal, f: nat): (r: Decimal)
    ensures r.scale == f
  {
    var n, p := Shift(v.digits, f) + HalfUnit(v.scale), Pow10(v.scale);
    DivBounds(n, p);
    Decimal(n / p, f)
  }

  /** The rounding is to the nearest value with f fraction digits, halves upwards. */
  lemma RoundToNearest(v: Decimal, f: nat)
    ensures var r, p := RoundTo(v, f), Pow10(v.scale);
      && r.digits * p <= v.digits * Pow10(f) + HalfUnit(v.scale) < (r.digits + 1) * p
      && (v.scale != 0 ==> 2 * HalfUnit(v.scale) == p)
  {
    var n := Shift(v.digits, f) + HalfUnit(v.scale);
    ShiftIsProduct(v.digits, f);
    DivBounds(n, Pow10(v.scale));
  }

  /** Index of the first c in s. */
  function IndexOf(s: string, c: char): (i: nat)
    requires c in s
    ensures i < |s| && s[i] == c && c !in s[..i]
  {
    if s[0] == c then 0 else assert s == [s[0]] + s[1..]; 1 + IndexOf(s[1..], c)
  }

  /** `s.split(c)` for a one-character separator. */
  function Split(s: string, c: char): (parts: seq<string>)
    ensures |parts| >= 1
    decreases |s|
  {
    if c !in s then [s] else
      var i := IndexOf(s, c);
      [s[..i]] + Split(s[i + 1..], c)
  }

  /** `ts.join(sep)` for a one-character separator. */
  function Join(ts: seq<string>, sep: char): string
  {
    if |ts| == 0 then "" else if |ts| == 1 then ts[0] else ts[0] + [sep] + Join(ts[1..], sep)
  }

  /** The number of characters before the first '.', or the length when there is none. */
  function WholeDigits(s: string): nat
    decreases |s|
  {
    if s == [] || s[0] == '.' then 0 else 1 + WholeDigits(s[1..])
  }

  /** Length of the run of '0' at the end of s. */
  function TrailingZeros(s: string): (k: nat)
    ensures k <= |s|
    ensures forall i :: |s| - k <= i < |s| ==> s[i] == '0'
    ensures k < |s| ==> s[|s| - 1 - k] != '0'
    decreases |s|
  {
    if s != [] && s[|s| - 1] == '0' then 1 + TrailingZeros(s[..|s| - 1]) else 0
  }

  /** The replacement at index.js:74: removes a point followed only by one or more zeros up to the end. */
  function StripZeroFraction(s: string): string
  {
    var k := TrailingZeros(s);
    if 0 < k < |s| && s[|s| - 1 - k] == '.' then s[..|s| - 1 - k] else s
  }

  // ---------------------------------------------------------------------------
  // Properties of the above

  lemma DecimalStringOfInt(n: nat)
    ensures DecimalString(Int(n)) == NatString(n)
  {
  }

  lemma {:induction false} IndexOfAppend(a: string, b: string, c: char)
    requires c !in a && c in b
    ensures c in a + b && IndexOf(a + b, c) == |a| + IndexOf(b, c)
    decreases |a|
  {
    if a != [] {
      assert (a + b)[1..] == a[1..] + b;
      IndexOfAppend(a[1..], b, c);
    } else {
      assert a + b == b;
    }
  }

  /**
   * The count of whole digits is what index.js:34 computes: the length of the
   * first part split off at '.' when there is a point, else the whole length.
   */
  lemma {:induction false} WholeDigitsIsSplit(s: string)
    ensures WholeDigits(s) == if '.' in s then |Split(s, '.')[0]| else |s|
    decreases |s|
  {
    if s != [] && s[0] != '.' {
      WholeDigitsIsSplit(s[1..]);
      assert s == [s[0]] + s[1..];
      assert '.' in s <==> '.' in s[1..];
      if '.' in s {
        assert IndexOf(s, '.') == 1 + IndexOf(s[1..], '.');
      }
    } else if s != [] {
      assert IndexOf(s, '.') == 0;
    }
  }

  /** The whole digits of a string are those before its first point. */
  lemma {:induction false} WholeDigitsAppend(a: string, b: string)
    requires '.' !in a
    ensures WholeDigits(a + b) == |a| + WholeDigits(b)
    decreases |a|
  {
    if a == [] {
      assert a + b == b;
    } else {
      assert (a + b)[0] == a[0];
      assert (a + b)[1..] == a[1..] + b;
      assert '.' !in a[1..];
      WholeDigitsAppend(a[1..], b);
    }
  }

  /** The whole-number digit count of `String(x)` is the length of the numeral of its whole part. */
  lemma WholeDigitsOfDecimalString(v: Decimal)
    ensures WholeDigits(DecimalString(v)) == |NatString(WholePart(v))|
  {
    var w := NatString(WholePart(v));
    assert '.' !in w;
    var rest := DecimalString(v)[|w|..];
    assert DecimalString(v) == w + rest;
    WholeDigitsAppend(w, rest);
    if rest != [] {
      assert rest[0] == '.';
      assert WholeDigits(rest) == 0;
    }
  }

  /** `String(x)` never ends in a point followed by zeros, so the replacement at index.js:74 leaves it alone. */
  lemma StripZeroFractionOfDecimalString(v: Decimal)
    ensures StripZeroFraction(DecimalString(v)) == DecimalString(v)
  {
    var s := DecimalString(v);
    var w := NatString(WholePart(v));
    var fraction := FractionPart(v);
    var k := TrailingZeros(s);
    if fraction == 0 {
      assert s == w;
      if 0 < k < |s| {
        assert IsDigit(s[|s| - 1 - k]);
      }
    } else {
      var digits := NatString(fraction);
      var padded := PadLeft(digits, v.scale);
      var t := TrimTrailingZeros(padded);
      assert s == w + "." + t;
      assert digits[0] != '0';
      assert padded[|padded| - |digits|] == digits[0] by {
        assert padded == Zeros(Max(0, v.scale - |digits|)) + digits;
      }
      assert s[|s| - 1] == t[|t| - 1];
      assert k == 0;
    }
  }

  /** A run of zeros after a point ends the string with exactly that many zeros. */
  lemma {:induction false} TrailingZerosAfterPoint(w: string, d: nat)
    ensures TrailingZeros(w + "." + Zeros(d)) == d
    decreases d
  {
    var s := w + "." + Zeros(d);
    if d > 0 {
      assert s[|s| - 1] == '0';
      assert s[..|s| - 1] == w + "." + Zeros(d - 1);
      TrailingZerosAfterPoint(w, d - 1);
    } else {
      assert s[|s| - 1] == '.';
    }
  }

  /** The replacement at index.js:74 removes a point followed by zeros only. */
  lemma StripZeroFractionOfZeros(w: string, d: nat)
    requires d >= 1
    ensures StripZeroFraction(w + "." + Zeros(d)) == w
  {
    var s := w + "." + Zeros(d);
    TrailingZerosAfterPoint(w, d);
    assert s[|s| - 1 - d] == '.';
    assert s[..|s| - 1 - d] == w;
  }

  lemma PadLeftDigits(s: string, width: nat)
    requires AllDigits(s)
    ensures AllDigits(PadLeft(s, width))
  {
    var r := PadLeft(s, width);
    assert r == Zeros(Max(0, width - |s|)) + s;
  }

  /** Every character of `String(x)` is a digit or the point. */
  lemma DecimalStringChars(v: Decimal)
    ensures forall i :: 0 <= i < |DecimalString(v)| ==> IsDigit(DecimalString(v)[i]) || DecimalString(v)[i] == '.'
  {
    var fraction := FractionPart(v);
    if fraction != 0 {
      var padded := PadLeft(NatString(fraction), v.scale);
      PadLeftDigits(NatString(fraction), v.scale);
      var t := TrimTrailingZeros(padded);
      assert AllDigits(t);
      assert DecimalString(v) == NatString(WholePart(v)) + "." + t;
    }
  }

  /** Joining tokens none of which holds the separator and splitting again gives the tokens back. */
  lemma {:induction false} SplitJoin(ts: seq<string>, sep: char)
    requires |ts| >= 1
    requires forall i :: 0 <= i < |ts| ==> sep !in ts[i]
    ensures Split(Join(ts, sep), sep) == ts
  {
    if |ts| > 1 {
      SplitAtFirst(ts[0], Join(ts[1..], sep), sep);
      SplitJoin(ts[1..], sep);
      assert ts == [ts[0]] + ts[1..];
    }
  }

  /** Splitting at a first separator puts the text before it in the first part. */
  lemma SplitAtFirst(a: string, b: string, sep: char)
    requires sep !in a
    ensures Split(a + [sep] + b, sep) == [a] + Split(b, sep)
  {
    var s := a + [sep] + b;
    assert s == a + ([sep] + b);
    IndexOfAppend(a, [sep] + b, sep);
    assert s[..|a|] == a;
    assert s[|a| + 1..] == b;
  }

  /** A join of non-empty strings is empty only when there are none. */
  lemma JoinNonEmpty(ts: seq<string>, sep: char)
    requires |ts| >= 1 && |ts[0]| >= 1
    ensures |Join(ts, sep)| >= 1
  {
  }
}
