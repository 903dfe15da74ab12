/**
 * What the tokens that `add` (index.js:29-41) pushes look like, stated by
 * reference definitions that do not go through its early return and its
 * branches: outside colon notation every non-zero unit gives its value and
 * unit name; in colon notation the leading zero units before the minutes
 * are skipped and every later unit is shown padded to two whole digits.
 */
module TokenProperties {
  import opened Wrappers
  import opened JsText
  import opened FormatOptions
  import opened Accumulator
  import opened PrettyMs

  /** Only the minutes have the short name that index.js:30 tests for. */
  lemma ShortNameOfMinute(u: Unit)
    ensures Short(u) == "m" <==> u == Minute
  {
  }

  // ---------------------------------------------------------------------------
  // Outside colon notation

  /** The token of a unit outside colon notation, as written: the value and, with no space, the name. */
  function PlainToken(o: Options, c: Candidate): string
  {
    DecimalString(c.value) + if o.verbose then Long(c.unit) else Short(c.unit)
  }

  /** Outside colon notation each unit whose value is not zero gives one token, in order. */
  function PlainTokens(o: Options, cs: seq<Candidate>): seq<string>
    decreases |cs|
  {
    if cs == [] then []
    else (if IsZero(cs[0].value) then [] else [PlainToken(o, cs[0])]) + PlainTokens(o, cs[1..])
  }

  lemma {:induction false} PlainAccumulate(o: Options, result: seq<string>, cs: seq<Candidate>)
    requires !o.colonNotation
    ensures Accumulate(AsWritten, o, result, cs) == result + PlainTokens(o, cs)
    decreases |cs|
  {
    if cs != [] {
      var head := if IsZero(cs[0].value) then [] else [PlainToken(o, cs[0])];
      var next := AddStep(AsWritten, o, result, cs[0]);
      PlainStep(o, result, cs[0]);
      PlainAccumulate(o, next, cs[1..]);
      assert Accumulate(AsWritten, o, result, cs) == (result + head) + PlainTokens(o, cs[1..]);
      assert PlainTokens(o, cs) == head + PlainTokens(o, cs[1..]);
      assert (result + head) + PlainTokens(o, cs[1..]) == result + (head + PlainTokens(o, cs[1..]));
    }
  }

  /** One call of `add` outside colon notation, as written. */
  lemma PlainStep(o: Options, result: seq<string>, c: Candidate)
    requires !o.colonNotation
    ensures AddStep(AsWritten, o, result, c) == result + if IsZero(c.value) then [] else [PlainToken(o, c)]
  {
    if !IsZero(c.value) {
      PlainRender(o, |result| == 0, c);
    }
  }

  /** As written, a token outside colon notation is the plain token, first or not. */
  lemma PlainRender(o: Options, first: bool, c: Candidate)
    requires !o.colonNotation
    ensures Render(AsWritten, o, first, c) == PlainToken(o, c)
  {
    assert |" " + BoolString(IsOne(c.value))| != 0;
  }

  predicate AllZero(cs: seq<Candidate>)
  {
    forall i :: 0 <= i < |cs| ==> IsZero(cs[i].value)
  }

  lemma AllZeroAppend(a: seq<Candidate>, b: seq<Candidate>)
    ensures AllZero(a + b) <==> AllZero(a) && AllZero(b)
  {
    assert forall i :: 0 <= i < |a| ==> (a + b)[i] == a[i];
    assert forall i :: 0 <= i < |b| ==> (a + b)[|a| + i] == b[i];
  }

  /** The plain tokens of two runs of calls are the tokens of each, in order. */
  lemma {:induction false} PlainTokensAppend(o: Options, a: seq<Candidate>, b: seq<Candidate>)
    ensures PlainTokens(o, a + b) == PlainTokens(o, a) + PlainTokens(o, b)
    decreases |a|
  {
    if a == [] {
      assert a + b == b;
    } else {
      assert (a + b)[0] == a[0];
      assert (a + b)[1..] == a[1..] + b;
      PlainTokensAppend(o, a[1..], b);
    }
  }

  /** Zero values give no plain token. */
  lemma {:induction false} PlainTokensOfZeros(o: Options, zs: seq<Candidate>)
    requires AllZero(zs)
    ensures PlainTokens(o, zs) == []
    decreases |zs|
  {
    if zs != [] {
      assert AllZero(zs[1..]) by {
        assert forall i :: 0 <= i < |zs| - 1 ==> zs[1..][i] == zs[i + 1];
      }
      PlainTokensOfZeros(o, zs[1..]);
    }
  }

  // ---------------------------------------------------------------------------
  // In colon notation

  /** A colon token after the first, as written: zeros up to two whole digits, then `String(value)`. */
  function Pad2(v: Decimal): string
  {
    Zeros(Max(0, 2 - |NatString(WholePart(v))|)) + DecimalString(v)
  }

  /** Once the list is not empty, every unit gives a padded token. */
  function LaterColonTokens(cs: seq<Candidate>): (ts: seq<string>)
    ensures |ts| == |cs|
    ensures forall i :: 0 <= i < |cs| ==> ts[i] == Pad2(cs[i].value)
  {
    seq(|cs|, i requires 0 <= i < |cs| => Pad2(cs[i].value))
  }

  /** A unit that colon notation skips while the list is still empty. */
  predicate SkippedInColon(c: Candidate)
  {
    c.unit != Minute && IsZero(c.value)
  }

  /**
   * The colon tokens: the leading skipped units give nothing, the first
   * shown unit gets one '0' in front whatever its width, and the rest are padded.
   */
  function ColonTokens(cs: seq<Candidate>): seq<string>
    decreases |cs|
  {
    if cs == [] then []
    else if SkippedInColon(cs[0]) then ColonTokens(cs[1..])
    else ["0" + DecimalString(cs[0].value)] + LaterColonTokens(cs[1..])
  }

  lemma LaterColonTokensCons(cs: seq<Candidate>)
    requires cs != []
    ensures LaterColonTokens(cs) == [Pad2(cs[0].value)] + LaterColonTokens(cs[1..])
  {
    var ts, rest := LaterColonTokens(cs), LaterColonTokens(cs[1..]);
    forall i | 0 <= i < |ts|
      ensures ts[i] == ([Pad2(cs[0].value)] + rest)[i]
    {
      if i > 0 {
        assert cs[1..][i - 1] == cs[i];
      }
    }
  }

  /** The rendering at index.js:34-35 of a later token is Pad2. */
  lemma LaterColonRender(o: Options, c: Candidate)
    requires o.colonNotation
    ensures Render(AsWritten, o, false, c) == Pad2(c.value)
  {
    WholeDigitsOfDecimalString(c.value);
  }

  /** Once the list is not empty, `add` in colon notation pushes the padded token. */
  lemma LaterColonStep(o: Options, result: seq<string>, c: Candidate)
    requires o.colonNotation && |result| >= 1
    ensures AddStep(AsWritten, o, result, c) == result + [Pad2(c.value)]
  {
    ShortNameOfMinute(c.unit);
    LaterColonRender(o, c);
  }

  lemma {:induction false} LaterColonAccumulate(o: Options, result: seq<string>, cs: seq<Candidate>)
    requires o.colonNotation && |result| >= 1
    ensures Accumulate(AsWritten, o, result, cs) == result + LaterColonTokens(cs)
    decreases |cs|
  {
    if cs != [] {
      var token, rest := Pad2(cs[0].value), LaterColonTokens(cs[1..]);
      calc {
        Accumulate(AsWritten, o, result, cs);
        Accumulate(AsWritten, o, AddStep(AsWritten, o, result, cs[0]), cs[1..]);
        { LaterColonStep(o, result, cs[0]); }
        Accumulate(AsWritten, o, result + [token], cs[1..]);
        { LaterColonAccumulate(o, result + [token], cs[1..]); }
        (result + [token]) + rest;
        result + ([token] + rest);
        { LaterColonTokensCons(cs); }
        result + LaterColonTokens(cs);
      }
    }
  }

  lemma {:induction false} ColonAccumulate(o: Options, cs: seq<Candidate>)
    requires o.colonNotation
    ensures Accumulate(AsWritten, o, [], cs) == ColonTokens(cs)
    decreases |cs|
  {
    if cs != [] {
      ShortNameOfMinute(cs[0].unit);
      if SkippedInColon(cs[0]) {
        assert AddStep(AsWritten, o, [], cs[0]) == [];
        ColonAccumulate(o, cs[1..]);
      } else {
        var first := ["0" + DecimalString(cs[0].value)];
        assert Zeros(1) == "0";
        assert AddStep(AsWritten, o, [], cs[0]) == first;
        LaterColonAccumulate(o, first, cs[1..]);
      }
    }
  }

  /** The colon tokens when k is the first unit shown. */
  lemma {:induction false} ColonTokensFrom(cs: seq<Candidate>, k: nat)
    requires k < |cs| && !SkippedInColon(cs[k])
    requires forall i :: 0 <= i < k ==> SkippedInColon(cs[i])
    ensures ColonTokens(cs) == ["0" + DecimalString(cs[k].value)] + LaterColonTokens(cs[k + 1..])
    decreases k
  {
    if k > 0 {
      assert SkippedInColon(cs[0]);
      ColonTokensFrom(cs[1..], k - 1);
      assert cs[1..][k - 1 + 1..] == cs[k + 1..];
    }
  }

  /** A later colon token has at least two whole digits, and exactly two unless the value needs more. */
  lemma Pad2Width(v: Decimal)
    ensures WholeDigits(Pad2(v)) == Max(2, |NatString(WholePart(v))|)
  {
    var z := Zeros(Max(0, 2 - |NatString(WholePart(v))|));
    assert '.' !in z by {
      assert forall i :: 0 <= i < |z| ==> z[i] == '0';
    }
    WholeDigitsAppend(z, DecimalString(v));
    WholeDigitsOfDecimalString(v);
  }

  /** As written, the first colon token has one whole digit more than its value needs. */
  lemma FirstColonWidth(v: Decimal)
    ensures WholeDigits("0" + DecimalString(v)) == 1 + |NatString(WholePart(v))|
  {
    WholeDigitsAppend("0", DecimalString(v));
    WholeDigitsOfDecimalString(v);
  }

  // ---------------------------------------------------------------------------
  // Properties common to any variant

  /** The early return only ever removes a unit; `add` pushes at most one token. */
  lemma {:induction false} AccumulateGrows(variant: Variant, o: Options, result: seq<string>, cs: seq<Candidate>)
    ensures result <= Accumulate(variant, o, result, cs)
    ensures |Accumulate(variant, o, result, cs)| <= |result| + |cs|
    decreases |cs|
  {
    if cs != [] {
      AccumulateGrows(variant, o, AddStep(variant, o, result, cs[0]), cs[1..]);
    }
  }

  /** The units that index.js:30 drops while the list is empty. */
  predicate AllDropped(o: Options, cs: seq<Candidate>)
  {
    forall i :: 0 <= i < |cs| ==> Dropped(o, [], cs[i])
  }

  /** No token comes out exactly when the early return fires for every unit. */
  lemma {:induction false} AccumulateEmpty(variant: Variant, o: Options, cs: seq<Candidate>)
    ensures Accumulate(variant, o, [], cs) == [] <==> AllDropped(o, cs)
    decreases |cs|
  {
    if cs != [] {
      if Dropped(o, [], cs[0]) {
        AccumulateEmpty(variant, o, cs[1..]);
        assert AllDropped(o, cs) <==> AllDropped(o, cs[1..]) by {
          assert forall i :: 1 <= i < |cs| ==> cs[i] == cs[1..][i - 1];
        }
      } else {
        AccumulateGrows(variant, o, AddStep(variant, o, [], cs[0]), cs[1..]);
      }
    }
  }

  /** Calls of `add` that all return early on the empty list leave it empty for the rest. */
  lemma {:induction false} SkipDropped(variant: Variant, o: Options, zs: seq<Candidate>, rest: seq<Candidate>)
    requires AllDropped(o, zs)
    ensures Accumulate(variant, o, [], zs + rest) == Accumulate(variant, o, [], rest)
  {
    AccumulateAppend(variant, o, [], zs, rest);
    AccumulateEmpty(variant, o, zs);
  }

  /** Outside colon notation zero values are dropped whatever the list holds. */
  lemma {:induction false} SkipZeros(variant: Variant, o: Options, result: seq<string>, zs: seq<Candidate>)
    requires !o.colonNotation && AllZero(zs)
    ensures Accumulate(variant, o, result, zs) == result
    decreases |zs|
  {
    if zs != [] {
      assert AllZero(zs[1..]) by {
        assert forall i :: 0 <= i < |zs| - 1 ==> zs[1..][i] == zs[i + 1];
      }
      SkipZeros(variant, o, result, zs[1..]);
    }
  }

  /** Two calls of `add` that push the same token, if any, whatever the list. */
  predicate SameRendering(c: Candidate, d: Candidate)
  {
    c.unit == d.unit && IsZero(c.value) == IsZero(d.value) && DecimalString(c.value) == DecimalString(d.value)
  }

  /**
   * As written, `add` sees a value only through `String(value)` and its test
   * for zero, and the options only through colon notation and verbose mode.
   */
  lemma {:induction false} AccumulateAgree(o: Options, o': Options, result: seq<string>, cs: seq<Candidate>, ds: seq<Candidate>)
    requires o.colonNotation == o'.colonNotation && o.verbose == o'.verbose
    requires |cs| == |ds|
    requires forall i :: 0 <= i < |cs| ==> SameRendering(cs[i], ds[i])
    ensures Accumulate(AsWritten, o, result, cs) == Accumulate(AsWritten, o', result, ds)
    decreases |cs|
  {
    if cs != [] {
      assert SameRendering(cs[0], ds[0]);
      assert AddStep(AsWritten, o, result, cs[0]) == AddStep(AsWritten, o', result, ds[0]);
      AccumulateAgree(o, o', AddStep(AsWritten, o, result, cs[0]), cs[1..], ds[1..]);
    }
  }

  predicate AllNonEmpty(ts: seq<string>)
  {
    forall i :: 0 <= i < |ts| ==> |ts[i]| >= 1
  }

  /** Every token pushed holds at least the value's digits. */
  lemma {:induction false} AccumulateNonEmpty(variant: Variant, o: Options, result: seq<string>, cs: seq<Candidate>)
    requires AllNonEmpty(result)
    ensures AllNonEmpty(Accumulate(variant, o, result, cs))
    decreases |cs|
  {
    if cs != [] {
      AccumulateNonEmpty(variant, o, AddStep(variant, o, result, cs[0]), cs[1..]);
    }
  }

  // ---------------------------------------------------------------------------
  // Separators

  lemma UnitNamesHaveNoSeparator(u: Unit)
    ensures ' ' !in Long(u) && ' ' !in Short(u)
  {
  }

  /** As written, no token holds the separator that index.js:82 joins with. */
  lemma RenderAvoidsSeparator(o: Options, first: bool, c: Candidate)
    ensures Separator(o) !in Render(AsWritten, o, first, c)
  {
    var s := DecimalString(c.value);
    DecimalStringChars(c.value);
    assert Separator(o) !in s;
    UnitNamesHaveNoSeparator(c.unit);
    if o.colonNotation {
      var z := Zeros(ColonPadding(AsWritten, first, WholeDigits(s)));
      assert ':' !in z by {
        assert forall i :: 0 <= i < |z| ==> z[i] == '0';
      }
      assert Render(AsWritten, o, first, c) == z + s;
    } else {
      var suffix := if o.verbose then VerboseSuffix(AsWritten, c.value, Long(c.unit)) else Short(c.unit);
      assert ' ' !in suffix;
      assert Render(AsWritten, o, first, c) == s + suffix;
    }
  }

  predicate AvoidSeparator(o: Options, ts: seq<string>)
  {
    forall i :: 0 <= i < |ts| ==> Separator(o) !in ts[i]
  }

  lemma {:induction false} AccumulateAvoidsSeparator(o: Options, result: seq<string>, cs: seq<Candidate>)
    requires AvoidSeparator(o, result)
    ensures AvoidSeparator(o, Accumulate(AsWritten, o, result, cs))
    decreases |cs|
  {
    if cs != [] {
      if !Dropped(o, result, cs[0]) {
        RenderAvoidsSeparator(o, |result| == 0, cs[0]);
      }
      AccumulateAvoidsSeparator(o, AddStep(AsWritten, o, result, cs[0]), cs[1..]);
    }
  }
}
