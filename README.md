# format-ms in Dafny

A model of `prettyMilliseconds(milliseconds, options)` from the format-ms
library, with proofs about it. The function turns a count of milliseconds
into text such as `1m 35s`, `0 milliseconds` or `01:35`. It runs in four steps:

1. **Input check.** Anything that is neither a bigint nor a finite number is
   rejected with a `TypeError`.
2. **Option normalisation.** A copy of the options is rewritten. Colon
   notation switches off `compact`, `formatSubMilliseconds`,
   `separateMilliseconds` and `verbose`. Compact mode then forces one unit
   and no fraction digits.
3. **The `add` closure.** It is offered years, days, hours and minutes, and
   then either the seconds and sub-second units or the fractional seconds.
   For each unit it either drops it or renders a token and pushes it onto a
   shared result list.
4. **Assembly.** An empty list gives `0ms` (or `0 milliseconds`).
   Otherwise the list is cut to `unitCount` tokens and joined with `:` or a
   space.

The model follows the same structure:

- `FormatOptions` holds the option record and the normalisation. This is
  the method `NormalizeOptions`, specified by the function `Normalize`.
- `ParseMs` is the mixed-radix split that the external parse-ms package
  supplies.
- `Accumulator` holds the class `TokenList`. Its fields are the normalised
  options and the result list, and its methods `Add` and `Truncate` are the
  closure and the slice. The pure functions `Render`, `AddStep` and
  `Accumulate` specify them.
- `PrettyMs` lists the calls of `add`, in order and with their arguments,
  as `Candidates`. It defines the whole function as `Format`. Its method
  `PrettyMilliseconds` runs the steps on a `TokenList` and is proved equal
  to `Format(AsWritten, ...)`.
- `JsText` models the JavaScript numbers and strings the code uses.
  - `Decimal(digits, scale)` is the exact value digits / 10^scale.
  - `DecimalString` is `String(x)`: no trailing fraction zeros.
  - `FixedString` is `toFixed(scale)`.
  - Also: `Split`, `Join`, the `.0+$` replacement and the whole-digit count
    of index.js:34.
- `TokenProperties`, `ValueProperties`, `FormatProperties` and
  `WorkedCases` state what the tokens look like, what the values are,
  properties of the whole function, and worked inputs.
- `Findings` shows four places where the code does not do what its options
  and unit names promise.

`Format`, `Render` and `Accumulate` take a `Variant`.

- `AsWritten` is the code as it stands. `PrettyMilliseconds` and every
  general property use this variant.
- `Intended` is the corrected definition behind the findings:
  - the string passed as `valueString` is kept;
  - each colon token is padded to one whole digit if it is the first, two
    otherwise;
  - verbose names get a space and a plural `s`;
  - the seconds string is the `toFixed` string itself, not the number read
    back from it (index.js:73).

  The input check, normalisation and the assembly are the same for both
  variants. So are the calls of `add`, except for the seconds string passed
  at index.js:75.

The input is a non-negative integer, tagged as a JavaScript number or as a
bigint, or `NotFinite`. parse-ms splits it into days, hours (< 24), minutes
(< 60), seconds (< 60) and milliseconds (< 1000). Microseconds and
nanoseconds are zero, because the input is an integer. Only this contract
is modelled, not the package itself.

When both `compact` and `colonNotation` are set, index.js:15 clears
`compact` before index.js:21 tests it, so compact's forcing of the unit count
and of the digit counts never happens under colon notation
(`FormatOptions.ColonOverridesCompact`).

## Model

| member | source | states |
|---|---|---|
| FormatOptions.Normalize | index.js:12-25 | the normalised options are consistent: colon notation leaves no compact, sub-millisecond, separate-millisecond or verbose request, and compact comes with one unit and no fraction digits. Options that are already consistent are unchanged. The digit bounds, `colonNotation` and `keepDecimalsOnWholeSeconds` are kept |
| FormatOptions.NormalizeOptions | index.js:12-25 | the in-place rewrite of the copied options: under colon notation exactly the four flags are cleared; otherwise compact sets unitCount 1 and both digit counts 0; otherwise nothing changes |
| FormatOptions.NormalizeIdempotent | index.js:12-25 | normalising twice is normalising once |
| FormatOptions.ColonOverridesCompact | index.js:14-25 | under colon notation the unit count and both digit counts are the caller's, and neither compact nor verbose survives, so compact's forcing never applies |
| ParseMs.Parse | index.js:43 | the split is a mixed-radix decomposition: hours < 24, minutes < 60, seconds < 60, milliseconds < 1000, no micro- or nanoseconds, and the fields weighted by their unit sum back to the input |
| ValueProperties.ParseCompose | index.js:43 | the split of days·86400000 + hours·3600000 + minutes·60000 + seconds·1000 + ms, with each field in range, gives back exactly those fields |
| JsText.NatString | index.js:32 | `String(n)` of a natural is a non-empty run of digits, with a leading '0' only for zero |
| JsText.NatStringRoundTrip | index.js:32 | reading the digits of `String(n)` back gives n |
| JsText.TrimTrailingZeros | index.js:32 | the trimmed string is a prefix of the input, does not end in '0', and only zeros were removed |
| JsText.DecimalStringOfInt | index.js:32 | `String` of an integer value is the integer's digits |
| JsText.DecimalStringChars | index.js:32 | every character of `String(x)` is a digit or the point |
| JsText.WholeDigitsIsSplit | index.js:34 | the whole-digit count is the length of the part before the first '.' when there is one, else the whole length |
| JsText.WholeDigitsOfDecimalString | index.js:34 | the whole-digit count of `String(x)` is the number of digits of x's whole part |
| JsText.TrailingZeros | index.js:74 | the count is of the zeros at the end of the string: those characters are '0' and the one before them is not |
| JsText.StripZeroFractionOfZeros | index.js:74 | the replacement removes a point followed only by one or more zeros |
| JsText.StripZeroFractionOfDecimalString | index.js:74 | `String(x)` never ends in a point and zeros, so the replacement leaves it unchanged |
| JsText.Split | index.js:34 | splitting gives at least one part |
| JsText.SplitJoin | index.js:87 | joining tokens that avoid the separator and splitting again gives the tokens back |
| JsText.JoinNonEmpty | index.js:87 | joining a list whose first token is non-empty gives a non-empty string |
| JsText.RoundToNearest | index.js:67 | `RoundTo` rounds half up: the result r at f digits satisfies r·10^s ≤ v·10^f + half a unit < (r+1)·10^s |
| JsText.Parts | index.js:34 | the whole and fraction parts of a decimal are the quotient and remainder of its digits by 10^scale |
| JsText.DecimalString | index.js:32 | definition, no contract of its own; `String(x)`. `JsText.DecimalStringOfInt`, `JsText.DecimalStringChars`, `JsText.WholeDigitsOfDecimalString` and `JsText.StripZeroFractionOfDecimalString` characterise it |
| JsText.FixedString | index.js:67-73 | definition, no contract of its own; `toFixed`. `ValueProperties.ScaledWhole` and `ValueProperties.WholeStrings` characterise it |
| JsText.RoundTo | index.js:67 | the result has exactly the requested fraction digits; `JsText.RoundToNearest` states the rounding |
| JsText.Join | index.js:87 | definition, no contract of its own; `join`. `JsText.SplitJoin` and `JsText.JoinNonEmpty` characterise it |
| JsText.WholeDigits | index.js:34 | definition, no contract of its own; the whole-digit count. `JsText.WholeDigitsIsSplit` characterises it |
| JsText.StripZeroFraction | index.js:74 | definition, no contract of its own; the `/\.0+$/` replacement. `JsText.StripZeroFractionOfZeros` and `JsText.StripZeroFractionOfDecimalString` characterise it |
| Accumulator.Dropped | index.js:30 | definition, no contract of its own; the early-return test. `TokenProperties.PlainStep` (outside colon notation it holds exactly for a zero value), `TokenProperties.LaterColonStep` (in colon notation it never holds once the list is non-empty) and `TokenProperties.ColonAccumulate` characterise it |
| Accumulator.ColonPadding | index.js:35 | definition, no contract of its own; the zero count of `'0'.repeat(...)`. `TokenProperties.FirstColonWidth`, `TokenProperties.Pad2Width` and `WorkedCases.IntendedColonRender` characterise it |
| Accumulator.VerboseSuffix | index.js:37 | definition, no contract of its own; the text after the value in verbose mode. `Findings.VerboseSuffixAsWritten` and `Findings.VerboseSuffixIntended` characterise it |
| Accumulator.AddStep | index.js:29-41 | definition, no contract of its own; one call of `add`. `Accumulator.TokenList.Add` implements it, and `TokenProperties.PlainStep` and `TokenProperties.LaterColonStep` characterise it |
| Accumulator.Accumulate | index.js:46-75 | definition, no contract of its own; the calls of `add` in order. `Accumulator.AccumulateSnoc`, `Accumulator.AccumulateAppend`, `TokenProperties.PlainAccumulate`, `TokenProperties.ColonAccumulate` and `TokenProperties.AccumulateEmpty` characterise it |
| Accumulator.Render | index.js:32-38 | every token `add` pushes is non-empty |
| Accumulator.TokenList.constructor | index.js:12-27 | the list starts empty and holds the given options |
| Accumulator.TokenList.Add | index.js:29-41 | the new list is the old list after one `AddStep`: unchanged when index.js:30 returns early, else with the rendered token appended |
| Accumulator.TokenList.Truncate | index.js:83-85 | the new list is the first max(count, 1) tokens of the old one, or all of them when there are fewer |
| Accumulator.AccumulateSnoc | index.js:29-41 | one more `add` call at the end extends the fold by one step |
| Accumulator.AccumulateAppend | index.js:46-75 | calling `add` on two runs of units one after the other is calling it on their concatenation |
| PrettyMs.MillisWithinMinute | index.js:71 | the milliseconds used for the seconds are below one minute |
| PrettyMs.SecondsValue | index.js:73 | the seconds value has exactly d fraction digits |
| PrettyMs.SubSecondBranch | index.js:51 | definition, no contract of its own; the branch test. `FormatProperties.ColonTakesSecondsBranch` characterises it under colon notation |
| PrettyMs.SecondsDigits | index.js:72 | definition, no contract of its own; `secondsDecimalDigits`, 1 when not a number |
| PrettyMs.MillisecondsDigits | index.js:66 | definition, no contract of its own; `millisecondsDecimalDigits`, 0 when not a number |
| PrettyMs.CollapsedMilliseconds | index.js:65-67 | definition, no contract of its own; the rounded sub-second value. `ValueProperties.CollapsedIsScaled` and `ValueProperties.CollapsedIsMilliseconds` characterise it |
| PrettyMs.MillisecondsString | index.js:66-67 | definition, no contract of its own; `millisecondsString`. `FormatProperties.MillisecondsDigitsIrrelevant` shows that the code as written discards it |
| PrettyMs.SecondsString | index.js:73-74 | definition, no contract of its own; `secondsString`. `WorkedCases.WholeSecondsString` and `FormatProperties.KeepDecimalsIrrelevant` characterise it |
| PrettyMs.LargerCandidates | index.js:44-49 | definition, no contract of its own; the four larger calls of `add`. `FormatProperties.LargerZero` characterises their values |
| PrettyMs.SubSecondCandidates | index.js:53-69 | definition, no contract of its own; the calls of `add` in the seconds-and-below branch. `FormatProperties.SubSecondZero` characterises their values |
| PrettyMs.SecondsCandidate | index.js:71-75 | definition, no contract of its own; the default seconds call. `WorkedCases.SecondsCandidateWithinMinute` and `FormatProperties.SecondsNotZero` characterise it |
| PrettyMs.LowerCandidates | index.js:51-76 | definition, no contract of its own; one branch or the other. `FormatProperties.ColonTakesSecondsBranch` characterises it |
| PrettyMs.Candidates | index.js:44-76 | definition, no contract of its own; every call of `add`, in order. `FormatProperties.AllZeroIffZero` and `PrettyMs.AddUnits` characterise it |
| PrettyMs.Tokens | index.js:27-76 | definition, no contract of its own; the result list before the slice. `FormatProperties.TokensEmptyIffZero`, `FormatProperties.ColonShape` and `PrettyMs.AddUnits` characterise it |
| PrettyMs.Separator | index.js:82 | definition, no contract of its own; `':'` or `' '`. `TokenProperties.RenderAvoidsSeparator` and `FormatProperties.FormatSplitsIntoTokens` characterise it |
| PrettyMs.ZeroDuration | index.js:78-80 | definition, no contract of its own; the zero fallback. `FormatProperties.FormatZero` characterises it |
| PrettyMs.Assemble | index.js:78-87 | definition, no contract of its own; the fallback, slice and join. `FormatProperties.FormatOfNoTokens` and `FormatProperties.FormatSplitsIntoTokens` characterise it |
| PrettyMs.Kept | index.js:83-85 | the kept tokens are the prefix of the tokens of length min(max(unitCount, 1), number of tokens), and all the tokens when `unitCount` is absent; so they are non-empty when the tokens are |
| PrettyMs.Format | index.js:7-10 | the result is an error exactly when the input is neither a bigint nor a finite number |
| PrettyMs.AddLargerUnits | index.js:44-49 | the list after the year, day, hour and minute calls is the fold over those four candidates |
| PrettyMs.AddSubSecondUnits | index.js:53-69 | the list after the seconds call and the sub-second calls is the fold over those candidates, in both sub-branches |
| PrettyMs.AddSeconds | index.js:71-75 | the list after the default seconds call is one `AddStep` with the floored seconds value |
| PrettyMs.AddUnits | index.js:43-76 | from an empty list, the calls of `add` leave the fold over all the candidates, in both branches of index.js:51 |
| PrettyMs.PrettyMilliseconds | index.js:6-88 | the imperative run returns exactly `Format(AsWritten, input, options)` |
| TokenProperties.ShortNameOfMinute | index.js:30 | only the minutes have the short name `m` that the early return tests for |
| TokenProperties.PlainStep | index.js:30-38 | outside colon notation a zero unit is dropped and any other unit appends its value followed by its name |
| TokenProperties.PlainRender | index.js:32-38 | outside colon notation a token is `String(value)` followed directly by the long name (verbose) or the short name |
| TokenProperties.PlainAccumulate | index.js:29-41 | outside colon notation the fold appends exactly the tokens of the non-zero units, in order |
| TokenProperties.PlainTokensAppend | index.js:46-75 | the reference tokens of two runs of units are the concatenation of each run's tokens |
| TokenProperties.PlainTokensOfZeros | index.js:30 | a run of zero units gives no token |
| TokenProperties.AllZeroAppend | index.js:30 | a concatenation is all zero exactly when both parts are |
| TokenProperties.LaterColonTokens | index.js:34-35 | once the list is non-empty, one padded token for each unit |
| TokenProperties.LaterColonTokensCons | index.js:34-35 | the padded tokens are the first unit's token followed by the rest's |
| TokenProperties.LaterColonRender | index.js:34-35 | a colon token after the first is `String(value)` padded with zeros to two whole digits |
| TokenProperties.LaterColonStep | index.js:30-35 | in colon notation, once the list is non-empty, no unit is dropped and each appends its padded token |
| TokenProperties.LaterColonAccumulate | index.js:29-41 | in colon notation, from a non-empty list, the fold appends one padded token per unit |
| TokenProperties.ColonAccumulate | index.js:29-41 | in colon notation the fold skips zero units before the first shown one (never the minutes), gives that one a single '0', and pads every later one |
| TokenProperties.ColonTokensFrom | index.js:30-35 | when unit k is the first not skipped, the colon tokens are its '0'-prefixed string and the padded tokens of the units after it |
| TokenProperties.Pad2Width | index.js:34-35 | a padded later token has max(2, whole digits of the value) whole digits |
| TokenProperties.FirstColonWidth | index.js:35 | the first colon token has one more whole digit than its value, whatever that value's width |
| TokenProperties.AccumulateGrows | index.js:40 | `add` only appends: the old list is a prefix of the new, which grows by at most one token per call |
| TokenProperties.AccumulateEmpty | index.js:30-78 | the fold from an empty list stays empty exactly when every unit was dropped |
| TokenProperties.SkipDropped | index.js:30 | dropped units at the front do not change the fold |
| TokenProperties.SkipZeros | index.js:30 | outside colon notation zero units change nothing |
| TokenProperties.AccumulateAgree | index.js:29-41 | two runs whose units render alike, under the same colon and verbose settings, give the same list |
| TokenProperties.AccumulateNonEmpty | index.js:32-40 | every token in the list is non-empty |
| TokenProperties.UnitNamesHaveNoSeparator | index.js:46-68 | no unit name holds a space |
| TokenProperties.RenderAvoidsSeparator | index.js:32-82 | no token holds the separator of its own mode |
| TokenProperties.AccumulateAvoidsSeparator | index.js:29-82 | the fold keeps the list free of the separator |
| ValueProperties.SecondsValueFloors | index.js:73 | the seconds value at d digits is the floor of ms·10^d / 1000 |
| ValueProperties.SecondsValueWholePart | index.js:71-73 | within a minute, the whole part of the seconds value is ms div 1000, and its digits stay below 60·10^d |
| ValueProperties.SecondsValueMatchesParse | index.js:43-73 | the whole part of the seconds value is the seconds field of the split, for numbers and bigints |
| ValueProperties.NumberAndBigIntMinute | index.js:71 | reducing a bigint modulo one day first does not change its milliseconds within the minute |
| ValueProperties.EpsilonHasNoEffect | index.js:71-73 | in exact arithmetic the epsilon of index.js:3, added before the floor, never changes it for an integer input, and the floor equals the modelled seconds value |
| ValueProperties.RealSecondsExact | index.js:71 | the real remainder `(ms / 1000) % 60` is the milliseconds within the minute over 1000 |
| ValueProperties.FloorOfScaled | index.js:73 | the floor of (m / 1000)·10^d, with or without the epsilon, is (m·10^d) div 1000 |
| ValueProperties.ScaledWhole | index.js:32-73 | a whole number carried at d fraction digits prints as the integer; `toFixed(d)` gives the integer, a point and d zeros; it is zero or one exactly when the integer is |
| ValueProperties.WholeStrings | index.js:32-73 | a decimal with no fraction prints as its whole part, and its `toFixed` adds a point and zeros |
| ValueProperties.CollapsedIsMilliseconds | index.js:65-67 | for an integer input the collapsed sub-second value prints as the milliseconds field, is zero or one exactly when that field is, and its `toFixed` adds a point and zeros |
| ValueProperties.CollapsedIsScaled | index.js:65-67 | for an integer input the rounded sub-second value is the milliseconds field at the chosen digits |
| ValueProperties.WholeSecondsValue | index.js:71-73 | a whole number of seconds k gives the value k, printed as the integer, zero or one exactly when k is |
| ValueProperties.SecondsOfWhole | index.js:73 | a whole number of seconds is floored to itself |
| FormatProperties.NumberAndBigIntAgree | index.js:6-88 | a number and a bigint of the same value give the same result |
| FormatProperties.ColonTakesSecondsBranch | index.js:51-75 | under colon notation the calls are the four larger units and the default seconds call |
| FormatProperties.ParseZero | index.js:43 | the split is all zero exactly when the input is zero |
| FormatProperties.LargerZero | index.js:44-49 | the year, day, hour and minute values are all zero exactly when days, hours and minutes are |
| FormatProperties.SubSecondZero | index.js:53-69 | the seconds and sub-second values are all zero exactly when the seconds and milliseconds are |
| FormatProperties.SecondsNotZero | index.js:71-75 | with no larger units and at least one second, the seconds value is not zero |
| FormatProperties.AllZeroIffZero | index.js:30-75 | outside colon notation every unit value is zero exactly when the input is zero |
| FormatProperties.TokensEmptyIffZero | index.js:30-78 | the list ends empty exactly when colon notation is off and the input is zero |
| FormatProperties.FormatZero | index.js:78-79 | outside colon notation zero gives `0ms`, or `0 milliseconds` when verbose |
| FormatProperties.FormatOfNoTokens | index.js:78-80 | an empty list gives the zero fallback |
| FormatProperties.FormatNonEmpty | index.js:78-87 | the text is never empty |
| FormatProperties.FormatSplitsIntoTokens | index.js:82-87 | for a non-zero input, or under colon notation, splitting the text at the separator gives back the kept tokens, exactly the first min(max(unitCount, 1), number of tokens) of them (see `PrettyMs.Kept`), so at most max(unitCount, 1) |
| FormatProperties.CompactIsOneToken | index.js:21-85 | compact mode with a non-zero input gives exactly the first token |
| FormatProperties.ColonTokensAt | index.js:30-35 | the colon tokens from the first shown unit k: one per unit from k on, the first '0'-prefixed with at least two whole digits, the rest padded to at least two |
| FormatProperties.ColonTokensShape | index.js:30-75 | over the four larger units and the seconds, the colon tokens number 2 to 5 and end in the minutes and the padded seconds; every token has at least two whole digits |
| FormatProperties.ColonShape | index.js:30-75 | every colon token list (before the `unitCount` slice of index.js:84) has 2 to 5 tokens, the last two the minutes and the padded seconds, so the colon output never takes the zero fallback |
| FormatProperties.SameRenderingsAppend | index.js:46-75 | units that render alike stay alike when concatenated |
| FormatProperties.TokensAgree | index.js:46-75 | options with the same colon and verbose settings whose lower calls render alike give the same list |
| FormatProperties.FormatAgree | index.js:78-87 | options with the same colon, verbose and unit-count settings and the same list give the same text |
| FormatProperties.KeepLowerAgree | index.js:32-74 | `keepDecimalsOnWholeSeconds` leaves the rendering of every lower call unchanged |
| FormatProperties.KeepDecimalsIrrelevant | index.js:32-74 | as written, `keepDecimalsOnWholeSeconds` never changes the result |
| FormatProperties.MillisecondsLowerAgree | index.js:32-68 | the millisecond digit count leaves the rendering of every lower call unchanged |
| FormatProperties.MillisecondsDigitsIrrelevant | index.js:32-68 | as written, `millisecondsDecimalDigits` never changes the result |
| WorkedCases.FormatOfOneToken | index.js:78-87 | a single token is the whole text |
| WorkedCases.FormatOfColonTokens | index.js:82-87 | two colon tokens with no unit count are joined by ':' |
| WorkedCases.FormatOfSpacedTokens | index.js:82-87 | two tokens outside colon and compact mode, with no unit count, are joined by a space |
| WorkedCases.JoinTwo | index.js:87 | two tokens joined are the first, the separator and the second |
| WorkedCases.OneShown | index.js:30-75 | outside colon notation one non-zero unit among zeros gives exactly its token |
| WorkedCases.IntendedPlainRender | index.js:32-38 | corrected: a string passed as `valueString` is kept, followed by a space, the long name and a plural `s` when verbose |
| WorkedCases.WithinMinuteValue | index.js:71-73 | between one second and one minute the seconds value is the floored seconds, and not zero |
| WorkedCases.WithinMinuteCandidates | index.js:44-51 | between one second and one minute the larger units are zero and the default seconds branch runs |
| WorkedCases.WithinMinuteShape | index.js:30-75 | between one second and one minute the list is the single seconds token |
| WorkedCases.WithinMinuteAsWritten | index.js:32-75 | between one second and one minute the text is `String` of the floored seconds followed by `s`, or by `second` with no space when verbose |
| WorkedCases.CompactWithinMinute | index.js:21-75 | in compact mode between one second and one minute the text is the whole seconds followed by the unit name |
| WorkedCases.WholeSecondsAsWritten | index.js:32-75 | k whole seconds (1 ≤ k < 60) give k followed by `s`, or by `second` with no space or plural when verbose |
| WorkedCases.WholeSecondsIntended | index.js:32-75 | corrected: k whole seconds give k, then a point and d zeros when decimals are kept, then `s`, or ` second` plus a plural `s` unless k is 1 |
| WorkedCases.WholeSecondsCandidate | index.js:71-75 | the seconds call for k whole seconds passes k as its string (with `.0…` when decimals are kept), and its value is one exactly when k is |
| WorkedCases.SecondsCandidateWithinMinute | index.js:71-75 | within a minute the seconds call passes the floored value and its string |
| WorkedCases.WholeSecondsShown | index.js:73-74 | corrected: the seconds string of k whole seconds is k, followed by a point and d zeros when decimals are kept |
| WorkedCases.WholeSecondsString | index.js:73-74 | corrected: the seconds string of a whole value is its digits, with a point and zeros when decimals are kept |
| WorkedCases.WholeSecondsStringOf | index.js:73-74 | corrected: the seconds string of any value without a fraction is its whole part, with a point and zeros when decimals are kept |
| WorkedCases.IntendedSecondsRender | index.js:32-38 | corrected: a seconds token is its string and `s`, or ` second` plus a plural `s` unless the value is one |
| WorkedCases.SubSecondShape | index.js:43-68 | under one second the split is the milliseconds alone and the list is the single collapsed millisecond token |
| WorkedCases.SubSecondAsWritten | index.js:32-68 | n milliseconds (1 ≤ n < 1000) give n followed by `ms`, or by `millisecond` with no space when verbose, whatever the digit count |
| WorkedCases.SubSecondIntended | index.js:32-68 | corrected: n milliseconds give n, a point and d zeros when d digits are asked for, then `ms`, or ` millisecond` plus a plural `s` unless n is 1 |
| WorkedCases.IntendedMillisecondsRender | index.js:32-38 | corrected: a millisecond token is its string and `ms`, or ` millisecond` plus a plural `s` unless the value is one |
| WorkedCases.MinutesAndSecondsParse | index.js:43 | 60000·m + 1000·s splits into m minutes and s seconds |
| WorkedCases.MinutesAndSecondsCandidates | index.js:44-75 | for m minutes and s seconds the calls are three zero units, the minutes and the seconds |
| WorkedCases.ColonMinutesAsWritten | index.js:30-35 | in colon notation m minutes and s whole seconds give '0' and m, a colon, and s padded to two digits |
| WorkedCases.ColonMinutesAsWrittenAt | index.js:30-35 | the same, for an input already known to split into m minutes and s seconds |
| WorkedCases.ColonMinutesTokens | index.js:30-35 | in colon notation the list for m minutes and s seconds is '0' and m, then s padded to two digits |
| WorkedCases.ColonTwoTokens | index.js:30-35 | in colon notation, three zero units, minutes and a seconds value give the '0'-prefixed minutes and the padded seconds |
| WorkedCases.Pad2OfWholeSeconds | index.js:34-35 | the padded token of s whole seconds is s padded to two digits |
| WorkedCases.Pad2OfWhole | index.js:34-35 | the padded token of a whole value is its digits padded to two |
| WorkedCases.ColonMinutesIntended | index.js:30-35 | corrected: in colon notation m minutes and s whole seconds give m alone, a colon, and s padded to two digits |
| WorkedCases.ColonMinutesIntendedAt | index.js:30-35 | the same, for an input already known to split into m minutes and s seconds |
| WorkedCases.ColonMinutesIntendedTokens | index.js:30-35 | corrected: the list for m minutes and s seconds is m, then s padded to two digits |
| WorkedCases.IntendedColonTwoTokens | index.js:30-35 | corrected: three zero units and the minutes give the minutes unpadded, then the seconds rendered as a later token |
| WorkedCases.IntendedColonSeconds | index.js:32-74 | corrected: the seconds token of s whole seconds, after the first, is s padded to two digits |
| WorkedCases.IntendedColonWhole | index.js:32-35 | corrected: a later colon token whose string is the digits of k is k padded to two digits |
| WorkedCases.IntendedColonRender | index.js:32-35 | corrected: a colon token is its string behind zeros up to one whole digit for the first token and two for later ones |
| WorkedCases.MinutesAndSecondsAsWritten | index.js:30-87 | without colon notation, compact mode, a unit count, `separateMilliseconds` or `formatSubMilliseconds`, m minutes and s seconds (both non-zero) give m with `m` and s with `s`, joined by a space; verbose gives `minute` and `second` with no space |
| WorkedCases.MinutesAndSecondsAt | index.js:30-87 | the same, for an input already known to split into m minutes and s seconds |
| WorkedCases.MinutesAndSecondsTokens | index.js:30-75 | the list for m minutes and s seconds is the two plain tokens |
| WorkedCases.PlainTwoTokens | index.js:30-41 | outside colon notation zero units followed by two non-zero units give their two tokens |
| WorkedCases.WholeDaysAsWritten | index.js:44-87 | without colon notation, k whole days (1 ≤ k < 365) give k followed by `d`, or by `day` when verbose |
| WorkedCases.WholeDaysTokens | index.js:44-75 | the list for k whole days is the single day token |
| WorkedCases.ZeroExamples | index.js:78-79 | 0 gives `0ms`, and `0 milliseconds` when verbose |
| WorkedCases.OneSecondExample | index.js:71-75 | 1000 gives `1s` |
| WorkedCases.MinutesAndSecondsExample | index.js:46-87 | 95000 gives `1m 35s` |
| WorkedCases.BigIntExample | index.js:6-88 | the bigint 95000 gives `1m 35s` |
| WorkedCases.OneDayExample | index.js:44-47 | 86400000 gives `1d` |
| WorkedCases.CompactExample | index.js:21-75 | 1234 in compact mode gives `1s` |
| Findings.FirstColonTokenAsWritten | index.js:35 | as written, the first colon token is its value behind exactly one '0' |
| Findings.FirstColonTokenIntended | index.js:35 | corrected: the first colon token is the value alone |
| Findings.ColonLeadingZero | index.js:35 | as written, 95000 in colon notation gives `01:35` |
| Findings.ColonWithoutLeadingZero | index.js:35 | corrected: 95000 in colon notation gives `1:35` |
| Findings.VerboseSuffixAsWritten | index.js:37 | as written, the verbose suffix is the bare long name |
| Findings.VerboseSuffixIntended | index.js:37 | corrected: the verbose suffix is a space and the long name, plural unless the value is one |
| Findings.VerboseRunTogether | index.js:37 | as written, 1000 and 2000 in verbose mode give `1second` and `2second` |
| Findings.VerboseSpacedAndPlural | index.js:37 | corrected: they give `1 second` and `2 seconds` |
| Findings.WholeSecondDecimalsDropped | index.js:32-74 | as written, 1000 with `keepDecimalsOnWholeSeconds` gives `1s` |
| Findings.WholeSecondDecimalsKept | index.js:32-74 | corrected: it gives `1.0s` |
| Findings.MillisecondDigitsDropped | index.js:32-68 | as written, 500 with two millisecond digits gives `500ms` |
| Findings.MillisecondDigitsKept | index.js:32-68 | corrected: it gives `500.00ms` |

## Left out

- The external parse-ms package (index.js:1) is left out. Only its split of a non-negative integer is modelled (`ParseMs.Parse`).
- Non-integer and negative numbers are out of scope: the input is a natural number. JavaScript doubles are modelled by exact decimals. So `String(x)`, `toFixed`, `parseFloat`, `Math.round` and `Math.floor` are modelled on exact values, and `SECOND_ROUNDING_EPSILON` plays no part in `Format`. `ValueProperties.EpsilonHasNoEffect` shows that in exact arithmetic the epsilon never changes the floor of an integer input.
- Precision loss above 2^53 is not modelled. A large number is exact in the model, as a bigint is.
- `Number.isFinite` sees only the tag `NotFinite`. NaN, infinities and non-numeric arguments all fall there.
- The `RangeError` that `toFixed` throws for a digit count above 100 is excluded by the precondition `DigitsInRange` on the caller's options. The precondition is wider than the error: it also excludes digit counts above 100 that never reach `toFixed`, such as a `secondsDecimalDigits` that compact mode resets (index.js:22-23), or a `millisecondsDecimalDigits` when the default seconds branch runs. A negative or fractional digit count cannot be expressed, because the counts are natural numbers.
- A `unitCount` that is not a number fails the test at index.js:83 and is taken as absent (`None`). A numeric one is an integer.
- A NaN `unitCount` is left out. `typeof NaN` is `'number'`, so index.js:84 runs `slice(0, Math.max(NaN, 1))`, which is `slice(0, NaN)` and keeps no token. On that input the source returns the empty string for every duration with at least one token. `FormatProperties.FormatNonEmpty` holds only because a NaN `unitCount` cannot be expressed in the model.
- Microseconds and nanoseconds are always zero for an integer input. So with `formatSubMilliseconds` their units are always dropped, and the collapsed sub-second value has no fraction.
- index.d.js holds type declarations only and is not part of this model. Its `minutesDecimalDigits` appears nowhere in index.js.
- `Format(Intended, ...)` is a corrected reading for the findings below, not another code path. Its choices are: a first colon token padded to one whole digit; a pre-formatted string kept as given; verbose with a space and an `s` unless the value is one; the seconds string taken as the `toFixed` string itself rather than the number read back from it (index.js:73). These follow the unit names and options, not any code in this repository.

## Findings

`Format`, `Render` and `Accumulate` with `AsWritten` model the code as
written. With `Intended` they are the corrected definition. Each finding
below names a lemma exhibiting the code's behaviour on one input, and a
lemma proving the corrected behaviour. The general statements behind each
are in the "## Model" table: `Findings.FirstColonTokenAsWritten` and
`Findings.FirstColonTokenIntended`, `Findings.VerboseSuffixAsWritten` and
`Findings.VerboseSuffixIntended`, `WorkedCases.ColonMinutesIntended`,
`WorkedCases.WholeSecondsIntended` and `WorkedCases.SubSecondIntended`.

| source | as written | input that shows it | evidently intended | confidence | as-written member | corrected member |
|---|---|---|---|---|---|---|
| index.js:35 | the first colon token always gets one leading '0', so a one-digit first unit reads as two digits | 95000 with `colonNotation` gives `01:35` | `1:35`: no padding on the first token | medium (the leading zero may be a deliberate style), not executed | Findings.ColonLeadingZero | Findings.ColonWithoutLeadingZero |
| index.js:37 | `' ' + (value === 1)` is a non-empty string, so the conditional always picks the bare long name | 1000 and 2000 with `verbose` give `1second` and `2second` | `1 second` and `2 seconds` | high, not executed | Findings.VerboseRunTogether | Findings.VerboseSpacedAndPlural |
| index.js:32, 73-74 | `valueString` is overwritten by `String(value)`, so the seconds string that `keepDecimalsOnWholeSeconds` selects is lost. index.js:73 also reads the `toFixed` string back as a number, which drops the `.0` before index.js:74 sees it | 1000 with `keepDecimalsOnWholeSeconds` gives `1s` | `1.0s` | high, not executed | Findings.WholeSecondDecimalsDropped | Findings.WholeSecondDecimalsKept |
| index.js:32, 66-68 | the same overwrite loses the `toFixed` string of the milliseconds | 500 with `millisecondsDecimalDigits: 2` gives `500ms` | `500.00ms` | high, not executed | Findings.MillisecondDigitsDropped | Findings.MillisecondDigitsKept |
