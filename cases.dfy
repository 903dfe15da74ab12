/**
 * Durations of simple shapes formatted in full — whole seconds, less than a
 * second, minutes and seconds, whole days — and some examples as instances
 * of them.
 */
module WorkedCases {
  import opened Wrappers
  import opened JsText
  import opened ParseMs
  import opened FormatOptions
  import opened Accumulator
  import opened PrettyMs
  import opened TokenProperties
  import opened ValueProperties
  import opened FormatProperties

  /** A text of one token is that token, whatever the unit count. */
  lemma FormatOfOneToken(variant: Variant, input: Input, options: Options, token: string)
    requires !input.NotFinite? && DigitsInRange(options)
    requires Tokens(variant, Normalize(options), input) == [token]
    ensures Format(variant, input, options) == Ok(token)
  {
    assert Kept(Normalize(options), [token]) == [token];
  }

  /** Outside colon notation one non-zero unit among zeros gives one token. */
  lemma OneShown(variant: Variant, o: Options, zs1: seq<Candidate>, c: Candidate, zs2: seq<Candidate>)
    requires !o.colonNotation && AllZero(zs1) && AllZero(zs2) && !IsZero(c.value)
    ensures Accumulate(variant, o, [], zs1 + [c] + zs2) == [Render(variant, o, true, c)]
  {
    assert AllDropped(o, zs1);
    assert zs1 + [c] + zs2 == zs1 + ([c] + zs2);
    SkipDropped(variant, o, zs1, [c] + zs2);
    assert ([c] + zs2)[0] == c && ([c] + zs2)[1..] == zs2;
    assert AddStep(variant, o, [], c) == [Render(variant, o, true, c)];
    assert Accumulate(variant, o, [], [c] + zs2) == Accumulate(variant, o, [Render(variant, o, true, c)], zs2);
    SkipZeros(variant, o, [Render(variant, o, true, c)], zs2);
  }

  /**
   * The intended token outside colon notation: the pre-formatted string, then
   * the short name, or a space and the long name, plural unless the value is one.
   */
  lemma IntendedPlainRender(o: Options, first: bool, c: Candidate)
    requires !o.colonNotation && c.preformatted.Some?
    ensures Render(Intended, o, first, c) == c.preformatted.value +
      if o.verbose then " " + Long(c.unit) + (if IsOne(c.value) then "" else "s") else Short(c.unit)
  {
    if o.verbose && IsOne(c.value) {
      assert Long(c.unit) + "" == Long(c.unit);
    }
  }

  // ---------------------------------------------------------------------------
  // From one second up to a minute

  /** Between one second and one minute the seconds value is the floored seconds, and not zero. */
  lemma WithinMinuteValue(variant: Variant, n: nat, o: Options)
    requires 1000 <= n < 60000
    ensures SecondsCandidate(variant, o, Number(n)).value == SecondsValue(n, SecondsDigits(o))
    ensures !IsZero(SecondsValue(n, SecondsDigits(o)))
  {
    assert MillisWithinMinute(Number(n)) == n by {
      DivUnique(n, 60000, 0, n);
    }
    SecondsNotZero(variant, o, Number(n));
  }

  /** Between one second and one minute the larger units are zero and the default branch runs. */
  lemma WithinMinuteCandidates(variant: Variant, n: nat, o: Options)
    requires 1000 <= n < 60000 && !o.colonNotation && !o.separateMilliseconds && !o.formatSubMilliseconds
    ensures AllZero(LargerCandidates(Parse(n)))
    ensures Candidates(variant, o, Number(n)) == LargerCandidates(Parse(n)) + [SecondsCandidate(variant, o, Number(n))] + []
  {
    LargerZero(Parse(n));
  }

  /** Between one second and one minute only the seconds are shown, floored to the digit count. */
  lemma WithinMinuteShape(variant: Variant, n: nat, o: Options)
    requires 1000 <= n < 60000 && !o.colonNotation && !o.separateMilliseconds && !o.formatSubMilliseconds
    ensures SecondsCandidate(variant, o, Number(n)).value == SecondsValue(n, SecondsDigits(o))
    ensures !IsZero(SecondsValue(n, SecondsDigits(o)))
    ensures Tokens(variant, o, Number(n)) == [Render(variant, o, true, SecondsCandidate(variant, o, Number(n)))]
  {
    WithinMinuteValue(variant, n, o);
    WithinMinuteCandidates(variant, n, o);
    OneShown(variant, o, LargerCandidates(Parse(n)), SecondsCandidate(variant, o, Number(n)), []);
  }

  /** As written, between one second and one minute the text is `String` of the floored seconds and the unit. */
  lemma WithinMinuteAsWritten(n: nat, options: Options)
    requires 1000 <= n < 60000 && DigitsInRange(options)
    requires !options.colonNotation && !options.separateMilliseconds && !options.formatSubMilliseconds
    ensures Format(AsWritten, Number(n), options) ==
      Ok(DecimalString(SecondsValue(n, SecondsDigits(Normalize(options)))) + if options.verbose then "second" else "s")
  {
    var o := Normalize(options);
    WithinMinuteShape(AsWritten, n, o);
    FormatOfOneToken(AsWritten, Number(n), options, DecimalString(SecondsValue(n, SecondsDigits(o))) + if options.verbose then "second" else "s");
  }

  /** Compact mode floors to whole seconds below a minute. */
  lemma CompactWithinMinute(n: nat, options: Options)
    requires 1000 <= n < 60000 && DigitsInRange(options)
    requires options.compact && !options.colonNotation && !options.separateMilliseconds && !options.formatSubMilliseconds
    ensures Format(AsWritten, Number(n), options) == Ok(NatString(n / 1000) + if options.verbose then "second" else "s")
  {
    assert SecondsDigits(Normalize(options)) == 0;
    assert DecimalString(SecondsValue(n, 0)) == NatString(n / 1000) by {
      assert Pow10(0) == 1;
      assert SecondsValue(n, 0) == Int(n / 1000);
      DecimalStringOfInt(n / 1000);
    }
    WithinMinuteAsWritten(n, options);
  }

  /** As written, k whole seconds read k and the unit: no fraction digits, no space, no plural. */
  lemma WholeSecondsAsWritten(k: nat, options: Options)
    requires 1 <= k < 60 && DigitsInRange(options)
    requires !options.colonNotation && !options.separateMilliseconds && !options.formatSubMilliseconds
    ensures Format(AsWritten, Number(1000 * k), options) == Ok(NatString(k) + if options.verbose then "second" else "s")
  {
    var d := SecondsDigits(Normalize(options));
    WithinMinuteAsWritten(1000 * k, options);
    SecondsOfWhole(k, d);
    ScaledWhole(k, d);
  }

  /**
   * The intended text of k whole seconds: the fraction zeros when they are to
   * be kept, a space before the long name, and a plural unless k is one.
   */
  lemma WholeSecondsIntended(k: nat, options: Options)
    requires 1 <= k < 60 && DigitsInRange(options)
    requires !options.colonNotation && !options.separateMilliseconds && !options.formatSubMilliseconds
    ensures var o := Normalize(options);
      var d := SecondsDigits(o);
      Format(Intended, Number(1000 * k), options) ==
        Ok(NatString(k) + (if o.keepDecimalsOnWholeSeconds && d != 0 then "." + Zeros(d) else "") +
           (if options.verbose then " second" + (if k == 1 then "" else "s") else "s"))
  {
    var o := Normalize(options);
    var d := SecondsDigits(o);
    var n := 1000 * k;
    var shown := NatString(k) + (if o.keepDecimalsOnWholeSeconds && d != 0 then "." + Zeros(d) else "");
    var token := shown + (if options.verbose then " second" + (if k == 1 then "" else "s") else "s");
    WithinMinuteShape(Intended, n, o);
    WholeSecondsCandidate(k, o);
    IntendedSecondsRender(o, SecondsCandidate(Intended, o, Number(n)), shown, k);
    FormatOfOneToken(Intended, Number(n), options, token);
  }

  /** The intended seconds candidate of k whole seconds. */
  lemma WholeSecondsCandidate(k: nat, o: Options)
    requires 1 <= k < 60
    ensures var c, d := SecondsCandidate(Intended, o, Number(1000 * k)), SecondsDigits(o);
      && c.unit == Second
      && c.preformatted == Some(NatString(k) + (if o.keepDecimalsOnWholeSeconds && d != 0 then "." + Zeros(d) else ""))
      && (IsOne(c.value) <==> k == 1)
  {
    SecondsCandidateWithinMinute(Intended, 1000 * k, o);
    WholeSecondsShown(k, o);
    WholeSecondsValue(k, SecondsDigits(o));
  }

  /** Below a minute the seconds candidate carries the floored seconds of the whole input. */
  lemma SecondsCandidateWithinMinute(variant: Variant, n: nat, o: Options)
    requires n < 60000
    ensures var v := SecondsValue(n, SecondsDigits(o));
      SecondsCandidate(variant, o, Number(n)) == Candidate(v, Second, Some(SecondsString(variant, o, v)))
  {
    DivUnique(n, 60000, 0, n);
  }

  /** The intended seconds string of k whole seconds. */
  lemma WholeSecondsShown(k: nat, o: Options)
    ensures var d := SecondsDigits(o);
      SecondsString(Intended, o, SecondsValue(1000 * k, d)) ==
        NatString(k) + (if o.keepDecimalsOnWholeSeconds && d != 0 then "." + Zeros(d) else "")
  {
    var d := SecondsDigits(o);
    SecondsOfWhole(k, d);
    WholeSecondsString(o, k, d);
  }

  /** The intended token of a seconds value outside colon notation. */
  lemma IntendedSecondsRender(o: Options, c: Candidate, shown: string, k: nat)
    requires !o.colonNotation && c.unit == Second && c.preformatted == Some(shown) && (IsOne(c.value) <==> k == 1)
    ensures Render(Intended, o, true, c) == shown + (if o.verbose then " second" + (if k == 1 then "" else "s") else "s")
  {
    IntendedPlainRender(o, true, c);
    assert " " + Long(Second) == " second";
  }

  /** The intended seconds string of whole seconds: the zeros after the point only when they are kept. */
  lemma WholeSecondsString(o: Options, k: nat, d: nat)
    ensures SecondsString(Intended, o, Decimal(Shift(k, d), d)) ==
      NatString(k) + (if o.keepDecimalsOnWholeSeconds && d != 0 then "." + Zeros(d) else "")
  {
    ScaledWholeParts(k, d);
    WholeSecondsStringOf(o, Decimal(Shift(k, d), d));
  }

  lemma WholeSecondsStringOf(o: Options, v: Decimal)
    requires FractionPart(v) == 0
    ensures SecondsString(Intended, o, v) ==
      NatString(WholePart(v)) + (if o.keepDecimalsOnWholeSeconds && v.scale != 0 then "." + Zeros(v.scale) else "")
  {
    WholeStrings(v);
    if v.scale != 0 {
      StripZeroFractionOfZeros(NatString(WholePart(v)), v.scale);
    } else {
      StripZeroFractionOfDecimalString(v);
    }
  }

  // ---------------------------------------------------------------------------
  // Less than a second

  /** Below one second only the milliseconds are shown, rounded to the digit count. */
  lemma SubSecondShape(variant: Variant, n: nat, o: Options)
    requires 1 <= n < 1000 && !o.colonNotation && !o.formatSubMilliseconds
    ensures Parse(n) == Parsed(0, 0, 0, 0, n, 0, 0)
    ensures var value := CollapsedMilliseconds(Parse(n), MillisecondsDigits(o));
      Tokens(variant, o, Number(n)) ==
        [Render(variant, o, true, Candidate(value, Millisecond, Some(MillisecondsString(value, MillisecondsDigits(o)))))]
  {
    var digits := MillisecondsDigits(o);
    ParseCompose(0, 0, 0, 0, n);
    var p := Parse(n);
    LargerZero(p);
    var value := CollapsedMilliseconds(p, digits);
    assert !IsZero(value) by {
      CollapsedIsMilliseconds(p, digits);
    }
    var c := Candidate(value, Millisecond, Some(MillisecondsString(value, digits)));
    var zs := LargerCandidates(p) + [Candidate(Int(0), Second, None)];
    AllZeroAppend(LargerCandidates(p), [Candidate(Int(0), Second, None)]);
    assert Candidates(variant, o, Number(n)) == zs + [c] + [];
    OneShown(variant, o, zs, c, []);
  }

  /** As written, n milliseconds below a second read n and the unit, whatever the digit count. */
  lemma SubSecondAsWritten(n: nat, options: Options)
    requires 1 <= n < 1000 && DigitsInRange(options)
    requires !options.colonNotation && !options.formatSubMilliseconds
    ensures Format(AsWritten, Number(n), options) == Ok(NatString(n) + if options.verbose then "millisecond" else "ms")
  {
    var o := Normalize(options);
    var d := MillisecondsDigits(o);
    var value := CollapsedMilliseconds(Parsed(0, 0, 0, 0, n, 0, 0), d);
    SubSecondShape(AsWritten, n, o);
    CollapsedIsMilliseconds(Parsed(0, 0, 0, 0, n, 0, 0), d);
    PlainRender(o, true, Candidate(value, Millisecond, Some(MillisecondsString(value, d))));
    assert o.verbose == options.verbose;
    FormatOfOneToken(AsWritten, Number(n), options, NatString(n) + if options.verbose then "millisecond" else "ms");
  }

  /** The intended text of n milliseconds: the asked-for fraction zeros, a space and a plural in verbose mode. */
  lemma SubSecondIntended(n: nat, options: Options)
    requires 1 <= n < 1000 && DigitsInRange(options)
    requires !options.colonNotation && !options.formatSubMilliseconds
    ensures var d := MillisecondsDigits(Normalize(options));
      Format(Intended, Number(n), options) ==
        Ok(NatString(n) + (if d != 0 then "." + Zeros(d) else "") +
           (if options.verbose then " millisecond" + (if n == 1 then "" else "s") else "ms"))
  {
    var o := Normalize(options);
    var d := MillisecondsDigits(o);
    var shown := NatString(n) + (if d != 0 then "." + Zeros(d) else "");
    SubSecondShape(Intended, n, o);
    var value := CollapsedMilliseconds(Parsed(0, 0, 0, 0, n, 0, 0), d);
    CollapsedIsMilliseconds(Parsed(0, 0, 0, 0, n, 0, 0), d);
    assert MillisecondsString(value, d) == shown;
    IntendedMillisecondsRender(o, Candidate(value, Millisecond, Some(shown)), shown, n);
    FormatOfOneToken(Intended, Number(n), options,
      shown + (if options.verbose then " millisecond" + (if n == 1 then "" else "s") else "ms"));
  }

  /** The intended token of a milliseconds value outside colon notation. */
  lemma IntendedMillisecondsRender(o: Options, c: Candidate, shown: string, k: nat)
    requires !o.colonNotation && c.unit == Millisecond && c.preformatted == Some(shown) && (IsOne(c.value) <==> k == 1)
    ensures Render(Intended, o, true, c) == shown + (if o.verbose then " millisecond" + (if k == 1 then "" else "s") else "ms")
  {
    IntendedPlainRender(o, true, c);
    assert " " + Long(Millisecond) == " millisecond";
  }

  // ---------------------------------------------------------------------------
  // Minutes and seconds

  /** Joining two tokens puts one separator between them. */
  lemma JoinTwo(a: string, b: string, sep: char)
    ensures Join([a, b], sep) == a + [sep] + b
  {
    assert [a, b][1..] == [b];
  }

  /** Under colon notation a text of two tokens with no unit count is the two tokens around a colon. */
  lemma FormatOfColonTokens(variant: Variant, input: Input, options: Options, first: string, second: string)
    requires !input.NotFinite? && DigitsInRange(options) && options.colonNotation && options.unitCount.None?
    requires Tokens(variant, Normalize(options), input) == [first, second]
    ensures Format(variant, input, options) == Ok(first + ":" + second)
  {
    JoinTwo(first, second, ':');
  }

  /** Outside colon notation a text of two tokens with no unit count is the two tokens around a space. */
  lemma FormatOfSpacedTokens(variant: Variant, input: Input, options: Options, first: string, second: string)
    requires !input.NotFinite? && DigitsInRange(options) && !options.colonNotation && !options.compact && options.unitCount.None?
    requires Tokens(variant, Normalize(options), input) == [first, second]
    ensures Format(variant, input, options) == Ok(first + " " + second)
  {
    JoinTwo(first, second, ' ');
  }

  /** The duration n is m minutes and s whole seconds. */
  predicate MinutesAndSeconds(n: nat, m: nat, s: nat)
  {
    1000 <= n && Parse(n) == Parsed(0, 0, m, s, 0, 0, 0) && MillisWithinMinute(Number(n)) == 1000 * s
  }

  /** m minutes and s seconds (not both zero) are parsed into those two units, and the seconds within the minute are s. */
  lemma MinutesAndSecondsParse(m: nat, s: nat)
    requires m < 60 && s < 60 && 1 <= 60 * m + s
    ensures MinutesAndSeconds(60000 * m + 1000 * s, m, s)
  {
    ParseCompose(0, 0, m, s, 0);
    assert 0 * MsPerDay + 0 * MsPerHour + m * MsPerMinute + s * MsPerSecond + 0 == 60000 * m + 1000 * s;
    DivUnique(60000 * m + 1000 * s, 60000, m, 1000 * s);
  }

  /** The candidates of m minutes and s seconds in the default branch. */
  lemma MinutesAndSecondsCandidates(variant: Variant, n: nat, m: nat, s: nat, o: Options)
    requires MinutesAndSeconds(n, m, s) && !SubSecondBranch(o, n)
    ensures var v := SecondsValue(1000 * s, SecondsDigits(o));
      Candidates(variant, o, Number(n)) ==
        [Candidate(Int(0), Year, None), Candidate(Int(0), Day, None), Candidate(Int(0), Hour, None),
         Candidate(Int(m), Minute, None), Candidate(v, Second, Some(SecondsString(variant, o, v)))]
  {
  }

  /** As written, m minutes and s seconds under colon notation: a '0' before the minutes, the seconds padded to two digits. */
  lemma ColonMinutesAsWritten(n: nat, m: nat, s: nat, options: Options)
    requires n == 60000 * m + 1000 * s && m < 60 && s < 60 && 1 <= 60 * m + s && DigitsInRange(options) && options.colonNotation && options.unitCount.None?
    ensures Format(AsWritten, Number(n), options) ==
      Ok(("0" + NatString(m)) + ":" + (Zeros(Max(0, 2 - |NatString(s)|)) + NatString(s)))
  {
    MinutesAndSecondsParse(m, s);
    ColonMinutesAsWrittenAt(n, m, s, options);
  }

  lemma ColonMinutesAsWrittenAt(n: nat, m: nat, s: nat, options: Options)
    requires MinutesAndSeconds(n, m, s) && DigitsInRange(options) && options.colonNotation && options.unitCount.None?
    ensures Format(AsWritten, Number(n), options) ==
      Ok(("0" + NatString(m)) + ":" + (Zeros(Max(0, 2 - |NatString(s)|)) + NatString(s)))
  {
    var first, second := "0" + NatString(m), Zeros(Max(0, 2 - |NatString(s)|)) + NatString(s);
    ColonMinutesTokens(n, m, s, Normalize(options));
    FormatOfColonTokens(AsWritten, Number(n), options, first, second);
  }

  lemma ColonMinutesTokens(n: nat, m: nat, s: nat, o: Options)
    requires MinutesAndSeconds(n, m, s) && o.colonNotation && Normalized(o)
    ensures Tokens(AsWritten, o, Number(n)) == ["0" + NatString(m), Zeros(Max(0, 2 - |NatString(s)|)) + NatString(s)]
  {
    var d := SecondsDigits(o);
    var v := SecondsValue(1000 * s, d);
    MinutesAndSecondsCandidates(AsWritten, n, m, s, o);
    ColonTwoTokens(o, m, v, Some(SecondsString(AsWritten, o, v)));
    Pad2OfWholeSeconds(s, d);
  }

  /** As written, colon notation shows zero years, days and hours not at all, then the minutes and the seconds. */
  lemma ColonTwoTokens(o: Options, m: nat, v: Decimal, pre: Option<string>)
    requires o.colonNotation
    ensures Accumulate(AsWritten, o, [],
        [Candidate(Int(0), Year, None), Candidate(Int(0), Day, None), Candidate(Int(0), Hour, None),
         Candidate(Int(m), Minute, None), Candidate(v, Second, pre)]) ==
      ["0" + NatString(m), Pad2(v)]
  {
    var cs := [Candidate(Int(0), Year, None), Candidate(Int(0), Day, None), Candidate(Int(0), Hour, None),
               Candidate(Int(m), Minute, None), Candidate(v, Second, pre)];
    ColonAccumulate(o, cs);
    ColonTokensAt(cs, 3);
    DecimalStringOfInt(m);
  }

  /** The two-digit colon field of s whole seconds. */
  lemma Pad2OfWholeSeconds(s: nat, d: nat)
    ensures Pad2(SecondsValue(1000 * s, d)) == Zeros(Max(0, 2 - |NatString(s)|)) + NatString(s)
  {
    WholeSecondsValue(s, d);
    Pad2OfWhole(SecondsValue(1000 * s, d), s);
  }

  /** The two-digit colon field of a value written as the whole number k. */
  lemma Pad2OfWhole(v: Decimal, k: nat)
    requires WholePart(v) == k && DecimalString(v) == NatString(k)
    ensures Pad2(v) == Zeros(Max(0, 2 - |NatString(k)|)) + NatString(k)
  {
  }

  /** The intended colon text: the minutes unpadded, the seconds padded to two digits. */
  lemma ColonMinutesIntended(n: nat, m: nat, s: nat, options: Options)
    requires n == 60000 * m + 1000 * s && m < 60 && s < 60 && 1 <= 60 * m + s && DigitsInRange(options) && options.colonNotation && options.unitCount.None?
    requires !options.keepDecimalsOnWholeSeconds
    ensures Format(Intended, Number(n), options) ==
      Ok(NatString(m) + ":" + (Zeros(Max(0, 2 - |NatString(s)|)) + NatString(s)))
  {
    MinutesAndSecondsParse(m, s);
    ColonMinutesIntendedAt(n, m, s, options);
  }

  lemma ColonMinutesIntendedAt(n: nat, m: nat, s: nat, options: Options)
    requires MinutesAndSeconds(n, m, s) && DigitsInRange(options) && options.colonNotation && options.unitCount.None?
    requires !options.keepDecimalsOnWholeSeconds
    ensures Format(Intended, Number(n), options) ==
      Ok(NatString(m) + ":" + (Zeros(Max(0, 2 - |NatString(s)|)) + NatString(s)))
  {
    var first, second := NatString(m), Zeros(Max(0, 2 - |NatString(s)|)) + NatString(s);
    ColonMinutesIntendedTokens(n, m, s, Normalize(options));
    FormatOfColonTokens(Intended, Number(n), options, first, second);
  }

  lemma ColonMinutesIntendedTokens(n: nat, m: nat, s: nat, o: Options)
    requires MinutesAndSeconds(n, m, s) && o.colonNotation && Normalized(o) && !o.keepDecimalsOnWholeSeconds
    ensures Tokens(Intended, o, Number(n)) == [NatString(m), Zeros(Max(0, 2 - |NatString(s)|)) + NatString(s)]
  {
    var v := SecondsValue(1000 * s, SecondsDigits(o));
    MinutesAndSecondsCandidates(Intended, n, m, s, o);
    IntendedColonSeconds(o, s);
    IntendedColonTwoTokens(o, m, Candidate(v, Second, Some(SecondsString(Intended, o, v))));
  }

  /** The intended colon notation shows zero years, days and hours not at all, then the minutes and one more unit. */
  lemma IntendedColonTwoTokens(o: Options, m: nat, c: Candidate)
    requires o.colonNotation
    ensures Accumulate(Intended, o, [],
        [Candidate(Int(0), Year, None), Candidate(Int(0), Day, None), Candidate(Int(0), Hour, None),
         Candidate(Int(m), Minute, None), c]) ==
      [NatString(m), Render(Intended, o, false, c)]
  {
    var zs := [Candidate(Int(0), Year, None), Candidate(Int(0), Day, None), Candidate(Int(0), Hour, None)];
    var minute := Candidate(Int(m), Minute, None);
    assert zs + [minute, c] == [Candidate(Int(0), Year, None), Candidate(Int(0), Day, None), Candidate(Int(0), Hour, None), minute, c];
    assert AllDropped(o, zs);
    SkipDropped(Intended, o, zs, [minute, c]);
    var first := Render(Intended, o, true, minute);
    assert first == NatString(m) by {
      DecimalStringOfInt(m);
      WholeDigitsOfDecimalString(Int(m));
    }
    assert Accumulate(Intended, o, [], [minute, c]) == [first, Render(Intended, o, false, c)] by {
      assert [minute, c][0] == minute && [minute, c][1..] == [c];
      assert [c][1..] == [];
      assert AddStep(Intended, o, [], minute) == [first];
      assert Accumulate(Intended, o, [], [minute, c]) == Accumulate(Intended, o, [first], [c]);
      assert AddStep(Intended, o, [first], c) == [first, Render(Intended, o, false, c)];
      assert Accumulate(Intended, o, [first], [c]) == Accumulate(Intended, o, [first, Render(Intended, o, false, c)], []);
    }
  }

  /** The intended later colon token of s whole seconds without kept decimals. */
  lemma IntendedColonSeconds(o: Options, s: nat)
    requires o.colonNotation && !o.keepDecimalsOnWholeSeconds
    ensures var v := SecondsValue(1000 * s, SecondsDigits(o));
      Render(Intended, o, false, Candidate(v, Second, Some(SecondsString(Intended, o, v)))) ==
        Zeros(Max(0, 2 - |NatString(s)|)) + NatString(s)
  {
    var v := SecondsValue(1000 * s, SecondsDigits(o));
    var text := SecondsString(Intended, o, v);
    WholeSecondsShown(s, o);
    assert text == NatString(s) + "";
    assert text == NatString(s);
    IntendedColonWhole(o, Candidate(v, Second, Some(text)), s);
  }

  /** The intended later colon token of a whole number k: k padded to two digits. */
  lemma IntendedColonWhole(o: Options, c: Candidate, k: nat)
    requires o.colonNotation && c.preformatted == Some(NatString(k))
    ensures Render(Intended, o, false, c) == Zeros(Max(0, 2 - |NatString(k)|)) + NatString(k)
  {
    IntendedColonRender(o, false, c, NatString(k));
    WholeDigitsIsSplit(NatString(k));
  }

  /** The intended colon token: the pre-formatted string behind the padding its own width calls for. */
  lemma IntendedColonRender(o: Options, first: bool, c: Candidate, text: string)
    requires o.colonNotation && c.preformatted == Some(text)
    ensures Render(Intended, o, first, c) == Zeros(ColonPadding(Intended, first, WholeDigits(text))) + text
  {
  }

  /** Outside colon notation, n = m minutes and s seconds is two tokens separated by a space. */
  lemma MinutesAndSecondsAsWritten(n: nat, m: nat, s: nat, options: Options)
    requires n == 60000 * m + 1000 * s && 1 <= m < 60 && 1 <= s < 60 && DigitsInRange(options)
    requires !options.colonNotation && !options.compact && options.unitCount.None?
    requires !options.separateMilliseconds && !options.formatSubMilliseconds
    ensures Format(AsWritten, Number(n), options) ==
      Ok((NatString(m) + if options.verbose then "minute" else "m") + " " + (NatString(s) + if options.verbose then "second" else "s"))
  {
    MinutesAndSecondsParse(m, s);
    MinutesAndSecondsAt(n, m, s, options);
  }

  lemma MinutesAndSecondsAt(n: nat, m: nat, s: nat, options: Options)
    requires MinutesAndSeconds(n, m, s) && 1 <= m && 1 <= s && DigitsInRange(options)
    requires !options.colonNotation && !options.compact && options.unitCount.None?
    requires !options.separateMilliseconds && !options.formatSubMilliseconds
    ensures Format(AsWritten, Number(n), options) ==
      Ok((NatString(m) + if options.verbose then "minute" else "m") + " " + (NatString(s) + if options.verbose then "second" else "s"))
  {
    var first := NatString(m) + (if options.verbose then "minute" else "m");
    var second := NatString(s) + (if options.verbose then "second" else "s");
    assert Normalize(options) == options;
    MinutesAndSecondsTokens(n, m, s, options);
    FormatOfSpacedTokens(AsWritten, Number(n), options, first, second);
  }

  lemma MinutesAndSecondsTokens(n: nat, m: nat, s: nat, o: Options)
    requires MinutesAndSeconds(n, m, s) && 1 <= m && 1 <= s
    requires !o.colonNotation && !o.separateMilliseconds && !o.formatSubMilliseconds
    ensures Tokens(AsWritten, o, Number(n)) ==
      [NatString(m) + (if o.verbose then "minute" else "m"), NatString(s) + (if o.verbose then "second" else "s")]
  {
    var d := SecondsDigits(o);
    var v := SecondsValue(1000 * s, d);
    MinutesAndSecondsCandidates(AsWritten, n, m, s, o);
    WholeSecondsValue(s, d);
    DecimalStringOfInt(m);
    var zs := [Candidate(Int(0), Year, None), Candidate(Int(0), Day, None), Candidate(Int(0), Hour, None)];
    var a, b := Candidate(Int(m), Minute, None), Candidate(v, Second, Some(SecondsString(AsWritten, o, v)));
    assert Candidates(AsWritten, o, Number(n)) == zs + [a, b];
    assert AllZero(zs);
    PlainTwoTokens(o, zs, a, b);
  }

  /** Outside colon notation, as written, two non-zero units after zeros give their two plain tokens. */
  lemma PlainTwoTokens(o: Options, zs: seq<Candidate>, a: Candidate, b: Candidate)
    requires !o.colonNotation && AllZero(zs) && !IsZero(a.value) && !IsZero(b.value)
    ensures Accumulate(AsWritten, o, [], zs + [a, b]) == [PlainToken(o, a), PlainToken(o, b)]
  {
    PlainAccumulate(o, [], zs + [a, b]);
    PlainTokensAppend(o, zs, [a, b]);
    PlainTokensOfZeros(o, zs);
    assert [a, b][1..] == [b];
    assert [b][1..] == [];
    assert PlainTokens(o, [a, b]) == [PlainToken(o, a)] + PlainTokens(o, [b]);
    assert PlainTokens(o, [b]) == [PlainToken(o, b)] + PlainTokens(o, []);
  }

  // ---------------------------------------------------------------------------
  // Whole days

  /** Outside colon notation k whole days (fewer than a year) read k and the day unit. */
  lemma WholeDaysAsWritten(k: nat, options: Options)
    requires 1 <= k < 365 && DigitsInRange(options) && !options.colonNotation
    ensures Format(AsWritten, Number(k * MsPerDay), options) == Ok(NatString(k) + if options.verbose then "day" else "d")
  {
    var n := k * MsPerDay;
    ParseCompose(k, 0, 0, 0, 0);
    assert k * MsPerDay + 0 * MsPerHour + 0 * MsPerMinute + 0 * MsPerSecond + 0 == n;
    DivUnique(n, 60000, k * 1440, 0);
    assert Normalize(options).verbose == options.verbose;
    WholeDaysTokens(n, k, Normalize(options));
    FormatOfOneToken(AsWritten, Number(n), options, NatString(k) + if options.verbose then "day" else "d");
  }

  lemma WholeDaysTokens(n: nat, k: nat, o: Options)
    requires 1 <= k < 365 && !o.colonNotation
    requires Parse(n) == Parsed(k, 0, 0, 0, 0, 0, 0) && MillisWithinMinute(Number(n)) == 0
    ensures Tokens(AsWritten, o, Number(n)) == [NatString(k) + if o.verbose then "day" else "d"]
  {
    var p := Parse(n);
    DivUnique(k, 365, 0, k);
    var lower := LowerCandidates(AsWritten, o, Number(n));
    if SubSecondBranch(o, n) {
      SubSecondZero(o, p);
    } else {
      ShiftIsProduct(0, SecondsDigits(o));
    }
    assert AllZero(lower);
    var larger := LargerCandidates(p);
    var zs2 := larger[2..] + lower;
    AllZeroAppend(larger[2..], lower);
    assert Candidates(AsWritten, o, Number(n)) == larger[..1] + [larger[1]] + zs2;
    OneShown(AsWritten, o, larger[..1], larger[1], zs2);
    DecimalStringOfInt(k);
  }

  // ---------------------------------------------------------------------------
  // Examples, as the code is written

  lemma ZeroExamples()
    ensures Format(AsWritten, Number(0), Defaults) == Ok("0ms")
    ensures Format(AsWritten, Number(0), Defaults.(verbose := true)) == Ok("0 milliseconds")
  {
    FormatZero(AsWritten, Number(0), Defaults);
    FormatZero(AsWritten, Number(0), Defaults.(verbose := true));
  }

  lemma OneSecondExample()
    ensures Format(AsWritten, Number(1000), Defaults) == Ok("1s")
  {
    WholeSecondsAsWritten(1, Defaults);
    OneUnitText("s");
  }

  /** One of a unit written as digits and the unit's short name. */
  lemma OneUnitText(short: string)
    ensures NatString(1) + short == "1" + short
  {
    assert NatString(1) == "1";
  }

  lemma MinutesAndSecondsExample()
    ensures Format(AsWritten, Number(95000), Defaults) == Ok("1m 35s")
  {
    MinutesAndSecondsAsWritten(95000, 1, 35, Defaults);
    MinutesAndSecondsText();
  }

  lemma MinutesAndSecondsText()
    ensures (NatString(1) + "m") + " " + (NatString(35) + "s") == "1m 35s"
  {
    assert NatString(1) == "1";
    assert NatString(35) == "35";
  }

  lemma BigIntExample()
    ensures Format(AsWritten, BigInt(95000), Defaults) == Ok("1m 35s")
  {
    MinutesAndSecondsExample();
    NumberAndBigIntAgree(AsWritten, 95000, Defaults);
  }

  lemma OneDayExample()
    ensures Format(AsWritten, Number(86400000), Defaults) == Ok("1d")
  {
    WholeDaysAsWritten(1, Defaults);
    OneUnitText("d");
  }

  lemma CompactExample()
    ensures Format(AsWritten, Number(1234), Defaults.(compact := true)) == Ok("1s")
  {
    CompactWithinMinute(1234, Defaults.(compact := true));
    OneUnitText("s");
  }
}
