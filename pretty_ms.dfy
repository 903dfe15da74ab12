/**
 * `prettyMilliseconds(milliseconds, options)` of index.js:6-88: the input
 * check, the sequence of `add` calls, and the assembly of the tokens.
 */
module PrettyMs {
  import opened Wrappers
  import opened JsText
  import opened ParseMs
  import opened FormatOptions
  import opened Accumulator

  /**
   * The input: a non-negative integer given as a JavaScript number or as a
   * bigint, or anything that is neither a bigint nor a finite number.
   */
  datatype Input = Number(n: nat) | BigInt(n: nat) | NotFinite

  datatype Error = TypeError(message: string)

  datatype Result = Ok(value: string) | Err(error: Error)

  /** `ONE_DAY_IN_MILLISECONDS` of index.js:4. */
  const OneDayInMilliseconds: nat := 24 * 60 * 60 * 1000

  /** The test of index.js:51 that selects the seconds-and-below branch. */
  predicate SubSecondBranch(o: Options, ms: nat)
  {
    o.separateMilliseconds || o.formatSubMilliseconds || (!o.colonNotation && ms < 1000)
  }

  /** `secondsDecimalDigits`, 1 when it is not a number (index.js:72). */
  function SecondsDigits(o: Options): nat
  {
    match o.secondsDecimalDigits
    case Some(d) => d
    case None => 1
  }

  /** `millisecondsDecimalDigits`, 0 when it is not a number (index.js:66). */
  function MillisecondsDigits(o: Options): nat
  {
    match o.millisecondsDecimalDigits
    case Some(d) => d
    case None => 0
  }

  /**
   * The milliseconds within the current minute that index.js:71 divides by
   * 1000 and reduces modulo 60; a bigint is first reduced modulo one day.
   */
  function MillisWithinMinute(input: Input): (m: nat)
    requires !input.NotFinite?
    ensures m < 60000
  {
    (if input.BigInt? then input.n % OneDayInMilliseconds else input.n) % 60000
  }

  /**
   * The seconds of index.js:71-73 floored to d fraction digits: the value
   * digits / 10^d with digits = floor(m * 10^d / 1000).
   */
  function SecondsValue(m: nat, d: nat): (v: Decimal)
    ensures v.scale == d
  {
    Decimal(Shift(m, d) / 1000, d)
  }

  /**
   * `millisecondsAndBelow` of index.js:65 rounded as index.js:67 rounds it:
   * to millisecondsDecimalDigits digits by `toFixed`, or by `Math.round` when
   * that count is zero.
   */
  function CollapsedMilliseconds(p: Parsed, digits: nat): Decimal
  {
    var millisecondsAndBelow := Decimal(p.milliseconds * 1000000 + p.microseconds * 1000 + p.nanoseconds, 6);
    RoundTo(millisecondsAndBelow, digits)
  }

  /** `millisecondsString` of index.js:67 (a number when the digit count is zero). */
  function MillisecondsString(value: Decimal, digits: nat): string
  {
    if digits != 0 then FixedString(value) else DecimalString(value)
  }

  /**
   * `secondsString` of index.js:73-74. As written, `secondsFixed` is the
   * number read back from `toFixed`, so its text is `String` of the value;
   * the intended text is the `toFixed` string itself.
   */
  function SecondsString(variant: Variant, o: Options, value: Decimal): string
  {
    var fixed := if variant == AsWritten then DecimalString(value) else FixedString(value);
    if o.keepDecimalsOnWholeSeconds then fixed else StripZeroFraction(fixed)
  }

  /** The calls of `add` for years, days, hours and minutes (index.js:44-49). */
  function LargerCandidates(p: Parsed): seq<Candidate>
  {
    [Candidate(Int(p.days / 365), Year, None),
     Candidate(Int(p.days % 365), Day, None),
     Candidate(Int(p.hours), Hour, None),
     Candidate(Int(p.minutes), Minute, None)]
  }

  /** The calls of `add` in the seconds-and-below branch (index.js:53-69). */
  function SubSecondCandidates(o: Options, p: Parsed): seq<Candidate>
  {
    [Candidate(Int(p.seconds), Second, None)] +
    if o.formatSubMilliseconds then
      [Candidate(Int(p.milliseconds), Millisecond, None),
       Candidate(Int(p.microseconds), Microsecond, None),
       Candidate(Int(p.nanoseconds), Nanosecond, None)]
    else
      var digits := MillisecondsDigits(o);
      var value := CollapsedMilliseconds(p, digits);
      [Candidate(value, Millisecond, Some(MillisecondsString(value, digits)))]
  }

  /** The call of `add` for the seconds in the default branch (index.js:71-75). */
  function SecondsCandidate(variant: Variant, o: Options, input: Input): Candidate
    requires !input.NotFinite?
  {
    var value := SecondsValue(MillisWithinMinute(input), SecondsDigits(o));
    Candidate(value, Second, Some(SecondsString(variant, o, value)))
  }

  /** The calls of `add` after the minutes: one branch or the other of index.js:51-76. */
  function LowerCandidates(variant: Variant, o: Options, input: Input): seq<Candidate>
    requires !input.NotFinite?
  {
    if SubSecondBranch(o, input.n) then SubSecondCandidates(o, Parse(input.n)) else [SecondsCandidate(variant, o, input)]
  }

  /** The calls of `add` that index.js:46-75 makes, in order, with their arguments. */
  function Candidates(variant: Variant, o: Options, input: Input): seq<Candidate>
    requires !input.NotFinite?
  {
    LargerCandidates(Parse(input.n)) + LowerCandidates(variant, o, input)
  }

  /** The result list once every unit has been offered to `add`. */
  function Tokens(variant: Variant, o: Options, input: Input): seq<string>
    requires !input.NotFinite?
  {
    Accumulate(variant, o, [], Candidates(variant, o, input))
  }

  /** The separator of index.js:82. */
  function Separator(o: Options): char { if o.colonNotation then ':' else ' ' }

  /** The tokens that survive the `unitCount` slice of index.js:83-85. */
  function Kept(o: Options, tokens: seq<string>): (kept: seq<string>)
    ensures |tokens| >= 1 ==> |kept| >= 1
    ensures o.unitCount.Some? ==> |kept| <= Max(o.unitCount.value, 1)
    ensures kept <= tokens
    ensures |kept| == if o.unitCount.Some? then Min(Max(o.unitCount.value, 1), |tokens|) else |tokens|
  {
    match o.unitCount
    case None => tokens
    case Some(count) => tokens[..Min(Max(count, 1), |tokens|)]
  }

  /** The zero fallback of index.js:78-80. */
  function ZeroDuration(o: Options): string
  {
    "0" + if o.verbose then " milliseconds" else "ms"
  }

  /** index.js:78-87: the zero fallback, or the kept tokens joined by the separator. */
  function Assemble(o: Options, tokens: seq<string>): string
  {
    if |tokens| == 0 then ZeroDuration(o) else Join(Kept(o, tokens), Separator(o))
  }

  /** The whole function: an error for an input that is not a bigint or finite number, else the text. */
  function Format(variant: Variant, input: Input, options: Options): (r: Result)
    requires DigitsInRange(options)
    ensures r.Err? <==> input.NotFinite?
  {
    if input.NotFinite? then Err(TypeError("Expected a finite number or bigint"))
    else
      var o := Normalize(options);
      Ok(Assemble(o, Tokens(variant, o, input)))
  }

  /** index.js:46-49 on the shared token list. */
  method AddLargerUnits(tokens: TokenList, parsed: Parsed)
    modifies tokens
    ensures tokens.result == Accumulate(AsWritten, tokens.options, old(tokens.result), LargerCandidates(parsed))
  {
    ghost var start := tokens.result;
    ghost var o := tokens.options;
    ghost var cs := LargerCandidates(parsed);
    var days := parsed.days;
    tokens.Add(Int(days / 365), Year, None);
    AccumulateSnoc(AsWritten, o, start, [], cs[0]);
    tokens.Add(Int(days % 365), Day, None);
    AccumulateSnoc(AsWritten, o, start, cs[..1], cs[1]);
    assert cs[..1] + [cs[1]] == cs[..2];
    tokens.Add(Int(parsed.hours), Hour, None);
    AccumulateSnoc(AsWritten, o, start, cs[..2], cs[2]);
    assert cs[..2] + [cs[2]] == cs[..3];
    tokens.Add(Int(parsed.minutes), Minute, None);
    AccumulateSnoc(AsWritten, o, start, cs[..3], cs[3]);
    assert cs[..3] + [cs[3]] == cs;
  }

  /** index.js:53-69 on the shared token list. */
  method AddSubSecondUnits(tokens: TokenList, parsed: Parsed)
    modifies tokens
    ensures tokens.result == Accumulate(AsWritten, tokens.options, old(tokens.result), SubSecondCandidates(tokens.options, parsed))
  {
    ghost var start := tokens.result;
    ghost var o := tokens.options;
    ghost var cs := SubSecondCandidates(o, parsed);
    tokens.Add(Int(parsed.seconds), Second, None);
    AccumulateSnoc(AsWritten, o, start, [], cs[0]);
    if tokens.options.formatSubMilliseconds {
      tokens.Add(Int(parsed.milliseconds), Millisecond, None);
      AccumulateSnoc(AsWritten, o, start, cs[..1], cs[1]);
      assert cs[..1] + [cs[1]] == cs[..2];
      tokens.Add(Int(parsed.microseconds), Microsecond, None);
      AccumulateSnoc(AsWritten, o, start, cs[..2], cs[2]);
      assert cs[..2] + [cs[2]] == cs[..3];
      tokens.Add(Int(parsed.nanoseconds), Nanosecond, None);
      AccumulateSnoc(AsWritten, o, start, cs[..3], cs[3]);
      assert cs[..3] + [cs[3]] == cs;
    } else {
      var digits := MillisecondsDigits(tokens.options);
      var value := CollapsedMilliseconds(parsed, digits);
      var millisecondsString := if digits != 0 then FixedString(value) else DecimalString(value);
      tokens.Add(value, Millisecond, Some(millisecondsString));
      AccumulateSnoc(AsWritten, o, start, cs[..1], cs[1]);
      assert cs[..1] + [cs[1]] == cs;
    }
  }

  /** index.js:71-75 on the shared token list. */
  method AddSeconds(tokens: TokenList, input: Input)
    requires !input.NotFinite?
    modifies tokens
    ensures tokens.result == AddStep(AsWritten, tokens.options, old(tokens.result), SecondsCandidate(AsWritten, tokens.options, input))
  {
    var withinDay := if input.BigInt? then input.n % OneDayInMilliseconds else input.n;
    var value := SecondsValue(withinDay % 60000, SecondsDigits(tokens.options));
    var shown := DecimalString(value);
    var secondsString := if tokens.options.keepDecimalsOnWholeSeconds then shown else StripZeroFraction(shown);
    tokens.Add(value, Second, Some(secondsString));
  }

  /** index.js:43-76: every unit offered to `add` in turn, starting from an empty list. */
  method AddUnits(tokens: TokenList, input: Input)
    requires !input.NotFinite? && tokens.result == []
    modifies tokens
    ensures tokens.result == Tokens(AsWritten, tokens.options, input)
  {
    ghost var o := tokens.options;
    var parsed := Parse(input.n);
    AddLargerUnits(tokens, parsed);
    ghost var larger, lower := LargerCandidates(parsed), LowerCandidates(AsWritten, o, input);
    ghost var afterLarger := tokens.result;
    if tokens.options.separateMilliseconds || tokens.options.formatSubMilliseconds || (!tokens.options.colonNotation && input.n < 1000) {
      AddSubSecondUnits(tokens, parsed);
      assert lower == SubSecondCandidates(o, parsed);
    } else {
      AddSeconds(tokens, input);
      assert lower == [SecondsCandidate(AsWritten, o, input)];
      assert Accumulate(AsWritten, o, afterLarger, lower) == Accumulate(AsWritten, o, tokens.result, []);
    }
    assert tokens.result == Accumulate(AsWritten, o, afterLarger, lower);
    AccumulateAppend(AsWritten, o, [], larger, lower);
  }

  /**
   * prettyMilliseconds as index.js runs it: normalise a copy of the options,
   * push the tokens through `add` one unit at a time, then assemble.
   */
  method PrettyMilliseconds(input: Input, options: Options) returns (r: Result)
    requires DigitsInRange(options)
    ensures r == Format(AsWritten, input, options)
  {
    if input.NotFinite? {
      return Err(TypeError("Expected a finite number or bigint"));
    }
    var o := NormalizeOptions(options);
    var tokens := new TokenList(o);
    AddUnits(tokens, input);
    ghost var all := tokens.result;
    assert all == Tokens(AsWritten, Normalize(options), input);

    if |tokens.result| == 0 {
      return Ok(ZeroDuration(o));
    }
    var separator := if o.colonNotation then ':' else ' ';
    if o.unitCount.Some? {
      tokens.Truncate(o.unitCount.value);
    }
    assert tokens.result == Kept(o, all);
    r := Ok(Join(tokens.result, separator));
  }
}
