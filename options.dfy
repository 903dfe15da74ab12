/**
 * The option record of index.js and its normalisation (index.js:12-25):
 * colon notation switches off the options it cannot show, and compact mode
 * then forces one unit with no fraction digits.
 */
module FormatOptions {
  import opened Wrappers

  /**
   * The options index.js reads. A flag that is absent is false; a number
   * option that is absent (or not of type number) is None.
   */
  datatype Options = Options(
    compact: bool,
    unitCount: Option<int>,
    colonNotation: bool,
    secondsDecimalDigits: Option<nat>,
    millisecondsDecimalDigits: Option<nat>,
    formatSubMilliseconds: bool,
    verbose: bool,
    separateMilliseconds: bool,
    keepDecimalsOnWholeSeconds: bool)

  /** No option given. */
  const Defaults := Options(false, None, false, None, None, false, false, false, false)

  /** The digit counts `toFixed` accepts without a RangeError. */
  predicate DigitsInRange(o: Options)
  {
    (o.secondsDecimalDigits.Some? ==> o.secondsDecimalDigits.value <= 100) &&
    (o.millisecondsDecimalDigits.Some? ==> o.millisecondsDecimalDigits.value <= 100)
  }

  /**
   * The consistency that normalisation establishes: colon notation leaves no
   * compact, sub-millisecond, separate-millisecond or verbose request behind,
   * and compact mode comes with one unit and no fraction digits.
   */
  predicate Normalized(o: Options)
  {
    (o.colonNotation ==>
      !o.compact && !o.formatSubMilliseconds && !o.separateMilliseconds && !o.verbose) &&
    (o.compact ==>
      o.unitCount == Some(1) && o.secondsDecimalDigits == Some(0) &&
      o.millisecondsDecimalDigits == Some(0))
  }

  /** The options after index.js:12-25 have rewritten the caller's copy. */
  function Normalize(o: Options): (n: Options)
    ensures Normalized(n)
    ensures Normalized(o) ==> n == o
    ensures DigitsInRange(o) ==> DigitsInRange(n)
    ensures n.colonNotation == o.colonNotation && n.keepDecimalsOnWholeSeconds == o.keepDecimalsOnWholeSeconds
  {
    var afterColon :=
      if o.colonNotation
      then o.(compact := false, formatSubMilliseconds := false, separateMilliseconds := false, verbose := false)
      else o;
    if afterColon.compact
    then afterColon.(unitCount := Some(1), secondsDecimalDigits := Some(0), millisecondsDecimalDigits := Some(0))
    else afterColon
  }

  /**
   * The rewriting as index.js performs it: copy the record, then overwrite
   * its fields one by one.
   */
  method NormalizeOptions(options: Options) returns (o: Options)
    ensures o == Normalize(options)
    ensures options.colonNotation ==>
      o == options.(compact := false, formatSubMilliseconds := false, separateMilliseconds := false, verbose := false)
    ensures !options.colonNotation && options.compact ==>
      o == options.(unitCount := Some(1), secondsDecimalDigits := Some(0), millisecondsDecimalDigits := Some(0))
    ensures !options.colonNotation && !options.compact ==> o == options
  {
    o := options;
    if o.colonNotation {
      o := o.(compact := false);
      o := o.(formatSubMilliseconds := false);
      o := o.(separateMilliseconds := false);
      o := o.(verbose := false);
    }
    if o.compact {
      o := o.(unitCount := Some(1));
      o := o.(secondsDecimalDigits := Some(0));
      o := o.(millisecondsDecimalDigits := Some(0));
    }
  }

  /** Normalising twice changes nothing more. */
  lemma NormalizeIdempotent(o: Options)
    ensures Normalize(Normalize(o)) == Normalize(o)
  {
  }

  /**
   * Colon notation wins over compact mode: compact is cleared before it is
   * tested, so the unit count and the digit counts stay as the caller gave them.
   */
  lemma ColonOverridesCompact(o: Options)
    requires o.colonNotation
    ensures Normalize(o).unitCount == o.unitCount
    ensures Normalize(o).secondsDecimalDigits == o.secondsDecimalDigits
    ensures Normalize(o).millisecondsDecimalDigits == o.millisecondsDecimalDigits
    ensures !Normalize(o).verbose && !Normalize(o).compact
  {
  }
}
