/**
 * Four places where index.js does not do what its options and its unit names
 * promise. Each comes as a pair: the text the code as written produces for one
 * concrete input, and the text the corrected `Intended` variant produces for
 * the same input. The general statements behind each pair are in WorkedCases
 * and FormatProperties.
 */
module Findings {
  import opened Wrappers
  import opened JsText
  import opened FormatOptions
  import opened Accumulator
  import opened PrettyMs
  import opened WorkedCases

  const Colon := Defaults.(colonNotation := true)
  const Verbose := Defaults.(verbose := true)
  const KeepDecimals := Defaults.(keepDecimalsOnWholeSeconds := true)
  const TwoMillisecondDigits := Defaults.(millisecondsDecimalDigits := Some(2))

  // ---------------------------------------------------------------------------
  // index.js:35 pads the first colon token with a '0' whatever its width

  /** As written for any value: the first colon token is its value behind one '0'. */
  lemma FirstColonTokenAsWritten(o: Options, c: Candidate)
    requires o.colonNotation
    ensures Render(AsWritten, o, true, c) == "0" + DecimalString(c.value)
  {
  }

  /** Intended for a value without a pre-formatted string: the first colon token is the value alone. */
  lemma FirstColonTokenIntended(o: Options, c: Candidate)
    requires o.colonNotation && c.preformatted.None?
    ensures Render(Intended, o, true, c) == DecimalString(c.value)
  {
    WholeDigitsOfDecimalString(c.value);
    assert |NatString(WholePart(c.value))| >= 1;
  }

  /** 95 seconds in colon notation read "01:35". */
  lemma ColonLeadingZero()
    ensures Format(AsWritten, Number(95000), Colon) == Ok("01:35")
  {
    ColonMinutesAsWritten(95000, 1, 35, Colon);
    ColonText();
  }

  /** Intended: "1:35". */
  lemma ColonWithoutLeadingZero()
    ensures Format(Intended, Number(95000), Colon) == Ok("1:35")
  {
    ColonMinutesIntended(95000, 1, 35, Colon);
    ColonText();
  }

  lemma ColonText()
    ensures ("0" + NatString(1)) + ":" + (Zeros(Max(0, 2 - |NatString(35)|)) + NatString(35)) == "01:35"
    ensures NatString(1) + ":" + (Zeros(Max(0, 2 - |NatString(35)|)) + NatString(35)) == "1:35"
  {
    assert NatString(1) == "1";
    assert NatString(35) == "35";
    assert Zeros(0) == "";
  }

  // ---------------------------------------------------------------------------
  // index.js:37 tests a non-empty string, so verbose names get no space and no plural

  /** As written for any value: the verbose suffix is the bare long name. */
  lemma VerboseSuffixAsWritten(value: Decimal, long: string)
    ensures VerboseSuffix(AsWritten, value, long) == long
  {
    assert |" " + BoolString(IsOne(value))| != 0;
  }

  /** Intended for any value: a space, the long name, and an 's' unless the value is one. */
  lemma VerboseSuffixIntended(value: Decimal, long: string)
    ensures VerboseSuffix(Intended, value, long) == " " + long + (if IsOne(value) then "" else "s")
  {
    if IsOne(value) {
      assert long + "" == long;
    }
  }

  /** One second in verbose mode reads "1second", two seconds "2second". */
  lemma VerboseRunTogether()
    ensures Format(AsWritten, Number(1000), Verbose) == Ok("1second")
    ensures Format(AsWritten, Number(2000), Verbose) == Ok("2second")
  {
    WholeSecondsAsWritten(1, Verbose);
    WholeSecondsAsWritten(2, Verbose);
    VerboseAsWrittenText();
  }

  lemma VerboseAsWrittenText()
    ensures NatString(1) + "second" == "1second" && NatString(2) + "second" == "2second"
  {
    assert NatString(1) == "1" && NatString(2) == "2";
  }

  /** Intended: "1 second" and "2 seconds". */
  lemma VerboseSpacedAndPlural()
    ensures Format(Intended, Number(1000), Verbose) == Ok("1 second")
    ensures Format(Intended, Number(2000), Verbose) == Ok("2 seconds")
  {
    WholeSecondsIntended(1, Verbose);
    WholeSecondsIntended(2, Verbose);
    VerboseIntendedText();
  }

  lemma VerboseIntendedText()
    ensures NatString(1) + "" + (" second" + "") == "1 second"
    ensures NatString(2) + "" + (" second" + "s") == "2 seconds"
  {
    assert NatString(1) == "1" && NatString(2) == "2";
  }

  // ---------------------------------------------------------------------------
  // index.js:32 discards the seconds string that keepDecimalsOnWholeSeconds selects

  /** One second with keepDecimalsOnWholeSeconds reads "1s". */
  lemma WholeSecondDecimalsDropped()
    ensures Format(AsWritten, Number(1000), KeepDecimals) == Ok("1s")
  {
    WholeSecondsAsWritten(1, KeepDecimals);
    OneUnitText("s");
  }

  /** Intended: "1.0s", one fraction digit by default. */
  lemma WholeSecondDecimalsKept()
    ensures Format(Intended, Number(1000), KeepDecimals) == Ok("1.0s")
  {
    WholeSecondsIntended(1, KeepDecimals);
    assert SecondsDigits(Normalize(KeepDecimals)) == 1;
    KeptDecimalsText();
  }

  lemma KeptDecimalsText()
    ensures NatString(1) + ("." + Zeros(1)) + "s" == "1.0s"
  {
    assert NatString(1) == "1" && Zeros(1) == "0";
  }

  // ---------------------------------------------------------------------------
  // index.js:32 discards the fixed string that millisecondsDecimalDigits selects

  /** 500 milliseconds with two millisecond digits reads "500ms". */
  lemma MillisecondDigitsDropped()
    ensures Format(AsWritten, Number(500), TwoMillisecondDigits) == Ok("500ms")
  {
    SubSecondAsWritten(500, TwoMillisecondDigits);
    MillisecondsText();
  }

  /** Intended: "500.00ms". */
  lemma MillisecondDigitsKept()
    ensures Format(Intended, Number(500), TwoMillisecondDigits) == Ok("500.00ms")
  {
    SubSecondIntended(500, TwoMillisecondDigits);
    assert MillisecondsDigits(Normalize(TwoMillisecondDigits)) == 2;
    MillisecondsText();
  }

  lemma MillisecondsText()
    ensures NatString(500) + "ms" == "500ms"
    ensures NatString(500) + ("." + Zeros(2)) + "ms" == "500.00ms"
  {
    assert NatString(500) == "500" && Zeros(2) == "00";
  }
}
