/**
 * The `add` closure of index.js:29-41: it drops a unit or renders it into a
 * token and pushes the token onto the shared result list.
 *
 * `Variant` selects between the code as written (`AsWritten`, which the
 * method `TokenList.Add` implements) and the behaviour the library evidently
 * intends (`Intended`). Inside `add` the two differ in three places: the
 * pre-formatted string is kept (index.js:32), only a later token is padded to
 * two whole digits (index.js:35), and verbose names are separated by a space
 * and pluralised (index.js:37). The fourth difference, the seconds string
 * passed at index.js:75, is in `PrettyMs.SecondsString`.
 */
module Accumulator {
  import opened Wrappers
  import opened JsText
  import opened FormatOptions

  datatype Variant = AsWritten | Intended

  /** The units the formatter can emit, largest first. */
  datatype Unit = Year | Day | Hour | Minute | Second | Millisecond | Microsecond | Nanosecond

  /** The `long` argument of each call of `add`. */
  function Long(u: Unit): string
  {
    match u
    case Year => "year"
    case Day => "day"
    case Hour => "hour"
    case Minute => "minute"
    case Second => "second"
    case Millisecond => "millisecond"
    case Microsecond => "microsecond"
    case Nanosecond => "nanosecond"
  }

  /** The `short` argument of each call of `add`. */
  function Short(u: Unit): string
  {
    match u
    case Year => "y"
    case Day => "d"
    case Hour => "h"
    case Minute => "m"
    case Second => "s"
    case Millisecond => "ms"
    case Microsecond => "µs"
    case Nanosecond => "ns"
  }

  /** One call of `add`: the value, the unit, and the optional pre-formatted string. */
  datatype Candidate = Candidate(value: Decimal, unit: Unit, preformatted: Option<string>)

  /** The early return of index.js:30. */
  predicate Dropped(o: Options, result: seq<string>, c: Candidate)
  {
    !(o.colonNotation && Short(c.unit) == "m") && IsZero(c.value) &&
    (|result| == 0 || !o.colonNotation)
  }

  /** `String(b)` for a boolean, as `' ' + b` writes it. */
  function BoolString(b: bool): string { if b then "true" else "false" }

  /** The number of zeros put before a colon token whose string has the given whole digits. */
  function ColonPadding(variant: Variant, first: bool, wholeDigits: nat): nat
  {
    match variant
    case AsWritten => if first then 1 else Max(0, 2 - wholeDigits)
    case Intended => Max(0, (if first then 1 else 2) - wholeDigits)
  }

  /**
   * What follows the value in verbose mode. As written, the conditional at
   * index.js:37 tests the string `' ' + (value is one)`, which is never empty,
   * so the plain long name follows with no space.
   */
  function VerboseSuffix(variant: Variant, value: Decimal, long: string): string
  {
    match variant
    case AsWritten =>
      var test := " " + BoolString(IsOne(value));
      if |test| != 0 then long else long + "s"
    case Intended => " " + if IsOne(value) then long else long + "s"
  }

  /** The token `add` pushes for a candidate it keeps (index.js:32-38). */
  function Render(variant: Variant, o: Options, first: bool, c: Candidate): (token: string)
    ensures |token| >= 1
  {
    var s :=
      if variant == AsWritten || c.preformatted.None? then DecimalString(c.value)
      else c.preformatted.value;
    if o.colonNotation then Zeros(ColonPadding(variant, first, WholeDigits(s))) + s
    else s + if o.verbose then VerboseSuffix(variant, c.value, Long(c.unit)) else Short(c.unit)
  }

  /** The result list after one call of `add`. */
  function AddStep(variant: Variant, o: Options, result: seq<string>, c: Candidate): seq<string>
  {
    if Dropped(o, result, c) then result else result + [Render(variant, o, |result| == 0, c)]
  }

  /** The result list after calling `add` on each candidate in turn. */
  function Accumulate(variant: Variant, o: Options, result: seq<string>, cs: seq<Candidate>): seq<string>
    decreases |cs|
  {
    if cs == [] then result else Accumulate(variant, o, AddStep(variant, o, result, cs[0]), cs[1..])
  }

  /** One more call of `add` at the end of the sequence. */
  lemma {:induction false} AccumulateSnoc(variant: Variant, o: Options, result: seq<string>, cs: seq<Candidate>, c: Candidate)
    ensures Accumulate(variant, o, result, cs + [c]) == AddStep(variant, o, Accumulate(variant, o, result, cs), c)
    decreases |cs|
  {
    if cs == [] {
      assert [c][1..] == [];
    } else {
      assert (cs + [c])[0] == cs[0];
      assert (cs + [c])[1..] == cs[1..] + [c];
      AccumulateSnoc(variant, o, AddStep(variant, o, result, cs[0]), cs[1..], c);
    }
  }

  /** Calling `add` on cs1 and then on cs2 is calling it on cs1 + cs2. */
  lemma {:induction false} AccumulateAppend(variant: Variant, o: Options, result: seq<string>, cs1: seq<Candidate>, cs2: seq<Candidate>)
    ensures Accumulate(variant, o, result, cs1 + cs2) == Accumulate(variant, o, Accumulate(variant, o, result, cs1), cs2)
    decreases |cs1|
  {
    if cs1 == [] {
      assert cs1 + cs2 == cs2;
    } else {
      assert (cs1 + cs2)[0] == cs1[0];
      assert (cs1 + cs2)[1..] == cs1[1..] + cs2;
      AccumulateAppend(variant, o, AddStep(variant, o, result, cs1[0]), cs1[1..], cs2);
    }
  }

  /**
   * The shared state of one call of the formatter: the normalised options the
   * closure reads and the result list it pushes onto.
   */
  class TokenList {
    const options: Options
    var result: seq<string>

    constructor (options: Options)
      ensures this.options == options && result == []
    {
      this.options := options;
      result := [];
    }

    /** `add(value, long, short, valueString)` of index.js:29-41, as written. */
    method Add(value: Decimal, unit: Unit, valueString: Option<string>)
      modifies this
      ensures result == AddStep(AsWritten, options, old(result), Candidate(value, unit, valueString))
    {
      if !(options.colonNotation && Short(unit) == "m") && IsZero(value) && (|result| == 0 || !options.colonNotation) {
        return;
      }
      var s := DecimalString(value);
      if options.colonNotation {
        var wholeDigits: int := if '.' in s then |Split(s, '.')[0]| else |s|;
        WholeDigitsIsSplit(s);
        s := Zeros(if |result| == 0 then 1 else Max(0, 2 - wholeDigits)) + s;
      } else {
        s := s + if options.verbose then VerboseSuffix(AsWritten, value, Long(unit)) else Short(unit);
      }
      result := result + [s];
    }

    /** `result = result.slice(0, Math.max(count, 1))` of index.js:84. */
    method Truncate(count: int)
      modifies this
      ensures result == old(result)[..Min(Max(count, 1), |old(result)|)]
    {
      result := result[..Min(Max(count, 1), |result|)];
    }
  }
}
