/**
 * Properties of the whole formatter (index.js:6-88): when it falls back to
 * zero, how its text splits back into the tokens, what compact mode and
 * colon notation produce, and which inputs and options it cannot tell apart.
 */
module FormatProperties {
  import opened Wrappers
  import opened JsText
  import opened ParseMs
  import opened FormatOptions
  import opened Accumulator
  import opened PrettyMs
  import opened TokenProperties
  import opened ValueProperties

  /** A bigint and a number of the same value are formatted alike (index.js:7, 44, 71). */
  lemma NumberAndBigIntAgree(variant: Variant, n: nat, options: Options)
    requires DigitsInRange(options)
    ensures Format(variant, Number(n), options) == Format(variant, BigInt(n), options)
  {
    NumberAndBigIntMinute(n);
    var o := Normalize(options);
    assert Candidates(variant, o, Number(n)) == Candidates(variant, o, BigInt(n));
  }

  /** Under colon notation only the default seconds branch (index.js:70-76) can run. */
  lemma ColonTakesSecondsBranch(variant: Variant, input: Input, options: Options)
    requires !input.NotFinite? && options.colonNotation
    ensures Candidates(variant, Normalize(options), input) ==
      LargerCandidates(Parse(input.n)) + [SecondsCandidate(variant, Normalize(options), input)]
  {
  }

  /** parse-ms splits zero, and only zero, into all-zero parts. */
  lemma ParseZero(n: nat)
    ensures var p := Parse(n);
      n == 0 <==> p.days == 0 && p.hours == 0 && p.minutes == 0 && p.seconds == 0 && p.milliseconds == 0
  {
  }

  /** The years and days are both zero exactly when the days are. */
  lemma LargerZero(p: Parsed)
    ensures AllZero(LargerCandidates(p)) <==> p.days == 0 && p.hours == 0 && p.minutes == 0
  {
    var cs := LargerCandidates(p);
    DivBounds(p.days, 365);
    assert p.days / 365 == 0 && p.days % 365 == 0 <==> p.days == 0;
    assert AllZero(cs) <==> IsZero(cs[0].value) && IsZero(cs[1].value) && IsZero(cs[2].value) && IsZero(cs[3].value);
  }

  /** The sub-second branch shows zero exactly when the seconds and milliseconds are zero. */
  lemma SubSecondZero(o: Options, p: Parsed)
    requires p.microseconds == 0 && p.nanoseconds == 0
    ensures AllZero(SubSecondCandidates(o, p)) <==> p.seconds == 0 && p.milliseconds == 0
  {
    var cs := SubSecondCandidates(o, p);
    if o.formatSubMilliseconds {
      assert AllZero(cs) <==> IsZero(cs[0].value) && IsZero(cs[1].value) && IsZero(cs[2].value) && IsZero(cs[3].value);
    } else {
      CollapsedIsMilliseconds(p, MillisecondsDigits(o));
      assert AllZero(cs) <==> IsZero(cs[0].value) && IsZero(cs[1].value);
    }
  }

  /** In the default branch, once the larger units are zero, the seconds are shown. */
  lemma SecondsNotZero(variant: Variant, o: Options, input: Input)
    requires !input.NotFinite? && 1000 <= input.n
    requires var p := Parse(input.n); p.days == 0 && p.hours == 0 && p.minutes == 0
    ensures !IsZero(SecondsCandidate(variant, o, input).value)
  {
    var p, d := Parse(input.n), SecondsDigits(o);
    assert input.n == p.seconds * MsPerSecond + p.milliseconds;
    assert p.seconds >= 1;
    var v := SecondsValue(MillisWithinMinute(input), d);
    assert SecondsCandidate(variant, o, input).value == v;
    SecondsValueMatchesParse(input, d);
    assert DropDigits(v.digits, d) == p.seconds;
    ZeroWholePart(d);
  }

  /** Outside colon notation, some value passed to `add` is not zero exactly when the duration is not. */
  lemma AllZeroIffZero(variant: Variant, o: Options, input: Input)
    requires !input.NotFinite? && !o.colonNotation
    ensures AllZero(Candidates(variant, o, input)) <==> input.n == 0
  {
    var n := input.n;
    var p := Parse(n);
    var larger := LargerCandidates(p);
    ParseZero(n);
    LargerZero(p);
    if SubSecondBranch(o, n) {
      var rest := SubSecondCandidates(o, p);
      assert Candidates(variant, o, input) == larger + rest;
      AllZeroAppend(larger, rest);
      SubSecondZero(o, p);
    } else {
      var rest := [SecondsCandidate(variant, o, input)];
      assert Candidates(variant, o, input) == larger + rest;
      AllZeroAppend(larger, rest);
      if p.days == 0 && p.hours == 0 && p.minutes == 0 {
        SecondsNotZero(variant, o, input);
      }
      assert AllZero(rest) <==> IsZero(rest[0].value);
    }
  }

  /**
   * The zero fallback of index.js:78-80 is taken exactly for a zero duration
   * outside colon notation; under colon notation the minutes are always shown.
   */
  lemma TokensEmptyIffZero(variant: Variant, input: Input, options: Options)
    requires !input.NotFinite? && DigitsInRange(options)
    ensures Tokens(variant, Normalize(options), input) == [] <==> !options.colonNotation && input.n == 0
  {
    var o := Normalize(options);
    var cs := Candidates(variant, o, input);
    AccumulateEmpty(variant, o, cs);
    if options.colonNotation {
      assert cs[3].unit == Minute;
      assert !Dropped(o, [], cs[3]);
    } else {
      AllZeroIffZero(variant, o, input);
      assert AllDropped(o, cs) <==> AllZero(cs);
    }
  }

  /** A zero duration outside colon notation reads "0ms", or "0 milliseconds" in verbose mode. */
  lemma FormatZero(variant: Variant, input: Input, options: Options)
    requires !input.NotFinite? && input.n == 0 && !options.colonNotation && DigitsInRange(options)
    ensures Format(variant, input, options) == Ok(if options.verbose then "0 milliseconds" else "0ms")
  {
    var o := Normalize(options);
    assert o.verbose == options.verbose;
    assert ZeroDuration(o) == if options.verbose then "0 milliseconds" else "0ms";
    TokensEmptyIffZero(variant, input, options);
    FormatOfNoTokens(variant, input, options);
  }

  lemma FormatOfNoTokens(variant: Variant, input: Input, options: Options)
    requires !input.NotFinite? && DigitsInRange(options)
    requires Tokens(variant, Normalize(options), input) == []
    ensures Format(variant, input, options) == Ok(ZeroDuration(Normalize(options)))
  {
  }

  /** The text is never empty. */
  lemma FormatNonEmpty(variant: Variant, input: Input, options: Options)
    requires !input.NotFinite? && DigitsInRange(options)
    ensures |Format(variant, input, options).value| >= 1
  {
    var o := Normalize(options);
    var t := Tokens(variant, o, input);
    AccumulateNonEmpty(variant, o, [], Candidates(variant, o, input));
    if |t| != 0 {
      JoinNonEmpty(Kept(o, t), Separator(o));
    }
  }

  /**
   * As written, the text splits at the separator back into the tokens kept by
   * the unit count, and there are never more of them than the unit count allows.
   */
  lemma FormatSplitsIntoTokens(input: Input, options: Options)
    requires !input.NotFinite? && DigitsInRange(options)
    requires options.colonNotation || input.n != 0
    ensures Split(Format(AsWritten, input, options).value, Separator(Normalize(options))) ==
      Kept(Normalize(options), Tokens(AsWritten, Normalize(options), input))
    ensures Normalize(options).unitCount.Some? ==>
      |Split(Format(AsWritten, input, options).value, Separator(Normalize(options)))| <= Max(Normalize(options).unitCount.value, 1)
  {
    var o := Normalize(options);
    var t := Tokens(AsWritten, o, input);
    TokensEmptyIffZero(AsWritten, input, options);
    AccumulateAvoidsSeparator(o, [], Candidates(AsWritten, o, input));
    var kept := Kept(o, t);
    assert forall i :: 0 <= i < |kept| ==> kept[i] == t[i];
    SplitJoin(kept, Separator(o));
  }

  /** Compact mode (without colon notation) shows only the largest unit present. */
  lemma CompactIsOneToken(variant: Variant, input: Input, options: Options)
    requires !input.NotFinite? && DigitsInRange(options)
    requires options.compact && !options.colonNotation && input.n != 0
    ensures |Tokens(variant, Normalize(options), input)| >= 1
    ensures Format(variant, input, options) == Ok(Tokens(variant, Normalize(options), input)[0])
  {
    TokensEmptyIffZero(variant, input, options);
    var t := Tokens(variant, Normalize(options), input);
    assert Kept(Normalize(options), t) == [t[0]];
  }

  /** The colon tokens when k is the first unit shown, token by token. */
  lemma ColonTokensAt(cs: seq<Candidate>, k: nat)
    requires k < |cs| && !SkippedInColon(cs[k])
    requires forall i :: 0 <= i < k ==> SkippedInColon(cs[i])
    ensures var t := ColonTokens(cs);
      && |t| == |cs| - k
      && t[0] == "0" + DecimalString(cs[k].value)
      && |t[0]| >= 2 && t[0][0] == '0' && WholeDigits(t[0]) >= 2
      && (forall i :: 1 <= i < |t| ==> t[i] == Pad2(cs[k + i].value) && WholeDigits(t[i]) >= 2)
  {
    ColonTokensFrom(cs, k);
    FirstColonWidth(cs[k].value);
    var t := ColonTokens(cs);
    forall i | 1 <= i < |t|
      ensures t[i] == Pad2(cs[k + i].value) && WholeDigits(t[i]) >= 2
    {
      Pad2Width(cs[k + i].value);
    }
  }

  /** The colon tokens of the four larger units followed by one more unit. */
  lemma ColonTokensShape(p: Parsed, s: Candidate)
    ensures var t := ColonTokens(LargerCandidates(p) + [s]);
      && 2 <= |t| <= 5
      && t[|t| - 1] == Pad2(s.value)
      && t[|t| - 2] == (if |t| == 2 then "0" + NatString(p.minutes) else Pad2(Int(p.minutes)))
      && |t[0]| >= 2 && t[0][0] == '0' && WholeDigits(t[0]) >= 2
      && (forall i :: 1 <= i < |t| ==> WholeDigits(t[i]) >= 2)
  {
    var cs := LargerCandidates(p) + [s];
    assert |cs| == 5 && cs[3] == Candidate(Int(p.minutes), Minute, None) && cs[4] == s;
    var k: nat := if !SkippedInColon(cs[0]) then 0 else if !SkippedInColon(cs[1]) then 1 else if !SkippedInColon(cs[2]) then 2 else 3;
    ColonTokensAt(cs, k);
    if k == 3 {
      DecimalStringOfInt(p.minutes);
    }
  }

  /**
   * Colon notation as written: before the `unitCount` slice of index.js:84
   * the list has two to five tokens, the seconds last and the
   * minutes before them; every token after the first has at least two whole
   * digits, and the first has a '0' put in front of it.
   */
  lemma ColonShape(input: Input, options: Options)
    requires !input.NotFinite? && DigitsInRange(options) && options.colonNotation
    ensures var o := Normalize(options);
      var t := Tokens(AsWritten, o, input);
      var minutes := Parse(input.n).minutes;
      && 2 <= |t| <= 5
      && t[|t| - 1] == Pad2(SecondsValue(MillisWithinMinute(input), SecondsDigits(o)))
      && t[|t| - 2] == (if |t| == 2 then "0" + NatString(minutes) else Pad2(Int(minutes)))
      && |t[0]| >= 2 && t[0][0] == '0' && WholeDigits(t[0]) >= 2
      && (forall i :: 1 <= i < |t| ==> WholeDigits(t[i]) >= 2)
  {
    var o := Normalize(options);
    var p := Parse(input.n);
    var s := SecondsCandidate(AsWritten, o, input);
    ColonTakesSecondsBranch(AsWritten, input, options);
    ColonAccumulate(o, LargerCandidates(p) + [s]);
    ColonTokensShape(p, s);
  }

  /** Two lists of calls of `add` that push the same tokens. */
  predicate SameRenderings(cs: seq<Candidate>, ds: seq<Candidate>)
  {
    |cs| == |ds| && forall i :: 0 <= i < |cs| ==> SameRendering(cs[i], ds[i])
  }

  lemma SameRenderingsAppend(a: seq<Candidate>, b: seq<Candidate>, c: seq<Candidate>, d: seq<Candidate>)
    requires SameRenderings(a, c) && SameRenderings(b, d)
    ensures SameRenderings(a + b, c + d)
  {
    forall i | 0 <= i < |a + b|
      ensures SameRendering((a + b)[i], (c + d)[i])
    {
      if i < |a| {
        assert (a + b)[i] == a[i] && (c + d)[i] == c[i];
      } else {
        assert (a + b)[i] == b[i - |a|] && (c + d)[i] == d[i - |a|];
      }
    }
  }

  /** As written, options that agree on colon notation and verbose mode and below the minutes push the same tokens. */
  lemma TokensAgree(o: Options, o': Options, input: Input)
    requires !input.NotFinite?
    requires o.colonNotation == o'.colonNotation && o.verbose == o'.verbose
    requires SameRenderings(LowerCandidates(AsWritten, o, input), LowerCandidates(AsWritten, o', input))
    ensures Tokens(AsWritten, o, input) == Tokens(AsWritten, o', input)
  {
    var larger := LargerCandidates(Parse(input.n));
    SameRenderingsAppend(larger, LowerCandidates(AsWritten, o, input), larger, LowerCandidates(AsWritten, o', input));
    AccumulateAgree(o, o', [], Candidates(AsWritten, o, input), Candidates(AsWritten, o', input));
  }

  /** Options whose normal forms push the same tokens and assemble them alike give the same text. */
  lemma FormatAgree(variant: Variant, input: Input, options: Options, options': Options)
    requires !input.NotFinite? && DigitsInRange(options) && DigitsInRange(options')
    requires var o, o' := Normalize(options), Normalize(options');
      o.colonNotation == o'.colonNotation && o.verbose == o'.verbose && o.unitCount == o'.unitCount &&
      Tokens(variant, o, input) == Tokens(variant, o', input)
    ensures Format(variant, input, options) == Format(variant, input, options')
  {
    var o, o' := Normalize(options), Normalize(options');
    assert Assemble(o, Tokens(variant, o, input)) == Assemble(o', Tokens(variant, o', input));
  }

  /** As written, `keepDecimalsOnWholeSeconds` changes nothing: the string it selects is discarded at index.js:32. */
  lemma KeepDecimalsIrrelevant(input: Input, options: Options, keep: bool)
    requires !input.NotFinite? && DigitsInRange(options)
    ensures Format(AsWritten, input, options.(keepDecimalsOnWholeSeconds := keep)) == Format(AsWritten, input, options)
  {
    var o, o' := Normalize(options), Normalize(options.(keepDecimalsOnWholeSeconds := keep));
    KeepLowerAgree(input, o, keep);
    assert o' == o.(keepDecimalsOnWholeSeconds := keep);
    TokensAgree(o, o', input);
    FormatAgree(AsWritten, input, options, options.(keepDecimalsOnWholeSeconds := keep));
  }

  lemma KeepLowerAgree(input: Input, o: Options, keep: bool)
    requires !input.NotFinite?
    ensures SameRenderings(LowerCandidates(AsWritten, o, input), LowerCandidates(AsWritten, o.(keepDecimalsOnWholeSeconds := keep), input))
  {
    var o' := o.(keepDecimalsOnWholeSeconds := keep);
    var lower, lower' := LowerCandidates(AsWritten, o, input), LowerCandidates(AsWritten, o', input);
    if SubSecondBranch(o, input.n) {
      assert lower == lower';
    } else {
      var c, c' := SecondsCandidate(AsWritten, o, input), SecondsCandidate(AsWritten, o', input);
      assert SecondsDigits(o) == SecondsDigits(o');
      assert c.value == c'.value && c.unit == c'.unit;
      assert SameRendering(c, c');
      assert lower == [c] && lower' == [c'];
    }
  }

  /**
   * As written, `millisecondsDecimalDigits` changes nothing either: an integer
   * count of milliseconds rounds to itself, and the fixed string is discarded.
   */
  lemma MillisecondsDigitsIrrelevant(input: Input, options: Options, digits: Option<nat>)
    requires !input.NotFinite? && DigitsInRange(options)
    requires digits.Some? ==> digits.value <= 100
    ensures Format(AsWritten, input, options.(millisecondsDecimalDigits := digits)) == Format(AsWritten, input, options)
  {
    var o, o' := Normalize(options), Normalize(options.(millisecondsDecimalDigits := digits));
    assert o' == o || o' == o.(millisecondsDecimalDigits := digits);
    MillisecondsLowerAgree(input, o, o');
    TokensAgree(o, o', input);
    FormatAgree(AsWritten, input, options, options.(millisecondsDecimalDigits := digits));
  }

  lemma MillisecondsLowerAgree(input: Input, o: Options, o': Options)
    requires !input.NotFinite?
    requires o' == o || o' == o.(millisecondsDecimalDigits := o'.millisecondsDecimalDigits)
    ensures SameRenderings(LowerCandidates(AsWritten, o, input), LowerCandidates(AsWritten, o', input))
  {
    var p := Parse(input.n);
    var lower, lower' := LowerCandidates(AsWritten, o, input), LowerCandidates(AsWritten, o', input);
    if SubSecondBranch(o, input.n) {
      if !o.formatSubMilliseconds {
        CollapsedIsMilliseconds(p, MillisecondsDigits(o));
        CollapsedIsMilliseconds(p, MillisecondsDigits(o'));
        assert SameRendering(lower[1], lower'[1]);
      }
    } else {
      assert lower == lower';
    }
  }
}
