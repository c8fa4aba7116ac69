# Experience calculator — Dafny model

The modelled system is a browser calculator for games. The user enters three amounts:
- the experience needed for the next level;
- the experience already held;
- the experience gained per hour.

The user also picks a timezone. The calculator then reports:
- how much experience is left;
- how many hours that takes, broken into days, hours and minutes;
- the moment the level will be reached, shown in the chosen timezone.

This model covers the computational core:

- **Number parsing** (`JsText`, `JsNumber`, `Formatting.ParseNumber`).
  - The input fields are cleaned by regular-expression replacement.
  - They are then read with JavaScript's `parseFloat`, which is the longest-valid-prefix parse of section 19.2.4 of ECMA-262.
  - Over the cleaned alphabet {0-9, '.', '-'}, the scanner model is proved to return the value of the longest prefix of the form `-?(digits[.digits?] | .digits)`, and NaN (here `None`) when there is none.
- **Validation and display helpers** (`Formatting`, `TimeCalculation`):
  - `validateAndFormat` and `validateInput`;
  - the suffix choice of `formatExperience`;
  - both `formatDuration` functions, modelled as methods that push parts into a list before joining them.
- **The upgrade-time engine** (`TimeCalculation.CalculateUpgradeTime`):
  - the two error exits, in their order;
  - the hours needed;
  - the completion instant, `now` plus the hours in milliseconds, as a `Date`: an Invalid Date beyond 8.64·10^15 ms either side of the epoch (the TimeClip operation of ECMA-262), on which both `format` calls throw, so the engine throws;
  - the days/hours/minutes breakdown, with its bounds and its reassembly within one minute.
- **The timezone catalogue** (`TimezoneData`).
  - The 64-entry table and the six region headings are transcribed.
  - The grouping loop is a method proved equal to a declarative grouping, which is in turn proved to be a stable partition of the table.
  - Lookup by id returns the first match.
- **The timezone dropdown** (`TimeZoneSelector`): the grouped options, and the search predicate that the selector applies to each option.
- **The form state** (`Calculator`), as a class with the component's `formData`, `errors` and `result` state:
  - per-field validation, including the rule that compares the two experience fields;
  - the two-step error-map update on every edit;
  - the validation pass before calculating;
  - reset.

  The class invariant says that the cross-field message sits on `currentExp` exactly while the entered amounts conflict. Every edit keeps it, and an edit of either experience amount re-establishes it from any state. A form restored from storage at mount can break it, because the error map stays empty.

Conventions:
- Numbers are Dafny `real`s, so NaN cannot arise; the NaN branches of the source are therefore unreachable.
- `undefined`/`null` results are `Option.None`. An absent key in the error map stands for an undefined entry.
- The host's `Intl.NumberFormat` output is kept symbolic, as `NumberText.Localized(value, decimals)`.
- The current instant is a parameter.
- The date-fns zone conversion and formatting are two function parameters. `toZoned` returns `None` where the library throws or yields an Invalid Date. `format` renders a valid instant; on an Invalid Date the model makes it throw, as date-fns does. A function that can throw returns an `Option`, with `None` for the throw.

A worked case: 10000 experience at 300 an hour is 33⅓ hours. Its fractional hour is a third, so the breakdown is 1 day, 9 hours and 20 minutes; in IEEE doubles `(h % 1) * 60` is 20.000000000000142, whose floor is also 20 (`TimeCalculation.ExampleOneDayNineHours`).

## Model

| member | source | states |
|---|---|---|
| JsText.FilterContents | src/utils/formatting.ts:29 | every character of the cleaned string comes from the input, and every digit, '.' and (for this pattern) '-' of the input is still there |
| JsText.FilterDropsOther | src/utils/timeCalculation.ts:127 | a character outside the kept class is removed |
| JsText.FilterConcat | src/utils/formatting.ts:29 | the global replacement works character by character: cleaning a concatenation concatenates the cleaned parts |
| JsText.FilterIdempotent | src/utils/formatting.ts:29 | cleaning an already cleaned string changes nothing |
| JsText.FilterKeepsKept | src/utils/timeCalculation.ts:127 | a string made only of kept characters is left unchanged; with `FilterConcat` and `FilterDropsOther` this fixes the cleaned string of every input, character by character in order |
| JsText.LowerChar | src/components/TimeZoneSelector.tsx:62 | the result is never an upper-case ASCII letter; an upper-case letter becomes the lower-case letter at the same place in the alphabet; any other character is unchanged |
| JsText.ToLower | src/components/TimeZoneSelector.tsx:62 | lower-casing keeps the length and lower-cases each character in place |
| JsText.ToLowerIdempotent | src/components/TimeZoneSelector.tsx:62-66 | lower-casing twice is lower-casing once |
| JsText.IncludesIffOccurs | src/components/TimeZoneSelector.tsx:64-66 | `includes` is true exactly when the needle occurs at some position of the haystack |
| JsText.IncludesEmpty | src/components/TimeZoneSelector.tsx:64-66 | the empty needle is found in every string |
| JsText.Includes | src/components/TimeZoneSelector.tsx:64-66 | a match needs a haystack at least as long as the needle (the full characterisation is `IncludesIffOccurs`) |
| JsText.ConcatEmpty | src/utils/formatting.ts:99 | `parts.join('')` is empty exactly when every part is, and no shorter than any part |
| JsText.ConcatPieces | src/utils/timeCalculation.ts:176 | joining one, two or three parts concatenates them in order, and joining none gives '' |
| JsText.NatText | src/utils/formatting.ts:88 | the template-literal text of a natural number is non-empty, all digits, and has no leading zero |
| JsNumber.NatTextValue | src/utils/formatting.ts:88 | reading the digits of that text back gives the number |
| JsNumber.ParseFloatIsLongestLiteralPrefix | src/utils/formatting.ts:30 | `parseFloat` gives NaN exactly when no prefix is a decimal literal, and otherwise the value of the longest literal prefix |
| JsNumber.NaNAsZeroIsLongestPrefix | src/utils/formatting.ts:30-32 | with NaN read as 0, the result is 0 when no prefix is a decimal literal and otherwise the value of the longest literal prefix |
| JsNumber.ParseFloatNatText | src/utils/formatting.ts:30 | `parseFloat` of a natural number's text is that number |
| JsNumber.ParseFloat | src/utils/formatting.ts:30 | a negative number is read only from a string starting with '-' (see `ParseFloatIsLongestLiteralPrefix` for the value) |
| JsNumber.Trunc | src/utils/timeCalculation.ts:77-78 | rounding toward zero: for x ≥ 0 the result r is a natural number with r ≤ x < r + 1, for x < 0 it is at most 0 with r − 1 < x ≤ r |
| JsNumber.Rem | src/utils/timeCalculation.ts:77-78 | `a % b` (Number::remainder, section 6.1.6.1.6 of ECMA-262) for b ≠ 0: the result has the sign of the dividend, a magnitude below |b|, and the dividend minus it is a whole multiple of b |
| JsNumber.BreakDownBounds | src/utils/timeCalculation.ts:76-78 | for non-negative hours, `BreakDown` (the three floors): days ≥ 0, 0 ≤ hours < 24, 0 ≤ minutes < 60, and days·24 + hours + minutes/60 ≤ h < days·24 + hours + (minutes+1)/60 |
| Formatting.ParseNumber | src/utils/formatting.ts:25-33 | the empty string gives 0 (and the result is always a number) |
| Formatting.ParseNumberByFilter | src/utils/formatting.ts:26-32 | the empty-string shortcut agrees with cleaning and `parseFloat`, NaN read as 0 |
| Formatting.ParseNumberOfFiltered | src/utils/formatting.ts:29-32 | the result depends only on the digits, dots and minus signs of the input, in order |
| Formatting.ParseNumberIgnoresInsertion | src/utils/formatting.ts:29 | inserting any other character (a thousands separator, a space) leaves the result unchanged |
| Formatting.ParseNumberIsLongestPrefix | src/utils/formatting.ts:29-32 | on the cleaned input the result is the value of the longest prefix of the form -?digits[.digits?] or -?.digits, or 0 when there is none |
| Formatting.ParseNumberNatText | src/utils/formatting.ts:25-33 | a natural number's text parses back to the number |
| Formatting.ValidateAndFormat | src/utils/formatting.ts:118-151 | invalid exactly when the parsed number is negative, then value 0, text '0' and the negative-number error; otherwise valid, the parsed value, no error, and the value localized with 2 decimals for the rate and 0 otherwise |
| Formatting.FormatExperience | src/utils/formatting.ts:40-49 | suffix B iff ≥ 1e9, M iff in [1e6, 1e9), K iff in [1e3, 1e6), none below 1e3; the shown number times the suffix's scale is the amount, with 2, 2, 1, 0 decimals; a scaled M or K number is in [1, 1000) |
| Formatting.FormatDuration | src/utils/formatting.ts:78-100 | the parts pushed and joined are the duration text of the hours |
| Formatting.DurationTextNegative | src/utils/formatting.ts:79 | negative hours read '0分钟' |
| Formatting.DurationTextParts | src/utils/formatting.ts:81-99 | for non-negative hours the text is non-empty; a day unit appears iff there is a whole day, an hour unit iff the hour remainder is at least one, and a minute unit iff there are minutes or no earlier part |
| TimeCalculation.MakeDate | src/utils/timeCalculation.ts:70 | `new Date(t)` is an Invalid Date exactly when t is more than 8.64·10^15 ms from the epoch; otherwise a whole number of milliseconds within that range and less than 1 ms from t |
| TimeCalculation.ConvertToTimezone | src/utils/timeCalculation.ts:97-109 | it throws exactly on an Invalid Date (the fallback `format` at line 107 is not guarded); if the zone conversion throws, the instant is formatted as it is |
| TimeCalculation.CalculateUpgradeTime | src/utils/timeCalculation.ts:27-89 | remaining ≤ 0 gives the already-complete error, empty time and all zeros; otherwise a rate ≤ 0 gives the rate error with the remaining amount kept and other numbers 0; it throws exactly when remaining > 0, rate > 0 and now + (remaining / rate)·3 600 000 ms is out of `Date`'s range; any result echoes the timezone and has no error exactly when remaining > 0 and rate > 0, and then hours = remaining / rate and the rest is as `Completed` states |
| TimeCalculation.Completed | src/utils/timeCalculation.ts:61-88 | for positive hours: it throws exactly when now + hours·3 600 000 ms is out of `Date`'s range; otherwise no error, the timezone kept, the remaining amount and hours stored, days ≥ 0, 0 ≤ hours < 24, 0 ≤ minutes < 60, days·24 + hours + minutes/60 ≤ hours needed < days·24 + hours + (minutes+1)/60, and the completion text is the conversion of that instant |
| TimeCalculation.TimezoneOnlyAffectsDisplay | src/utils/timeCalculation.ts:64-73 | changing only the timezone changes neither whether it throws, nor the numbers, nor the error, and the completion text renders the same instant |
| TimeCalculation.ExampleEightHours | src/utils/timeCalculation.ts:31-78 | 1000 required, 200 held, 100 an hour: it throws only if now + 8 hours is out of `Date`'s range, and otherwise gives 800 left, 8 hours, breakdown (0, 8, 0) |
| TimeCalculation.ExampleOneDayNineHours | src/utils/timeCalculation.ts:76-78 | 10000 at 300 an hour: breakdown (1, 9, 20) whenever it does not throw |
| TimeCalculation.ExampleBeyondDateRange | src/utils/timeCalculation.ts:61-73 | 10^10 experience at 1 an hour throws from every valid clock reading: 3.6·10^16 ms is beyond `Date`'s range |
| TimeCalculation.ValidateInput | src/utils/timeCalculation.ts:138-148 | the "must be non-negative" message iff negative; the "cannot be 0" message iff it is the rate field with 0; null otherwise |
| TimeCalculation.ParseFormattedNumber | src/utils/timeCalculation.ts:125-130 | with '-' removed, the result is never negative; which number it is, is stated by `ParseFormattedNumberIsLongestPrefix` |
| TimeCalculation.ParseFormattedNumberIsLongestPrefix | src/utils/timeCalculation.ts:127-129 | on the input with everything but digits and '.' removed, the result is the value of the longest prefix of the form digits[.digits?] or .digits, or 0 when there is none |
| TimeCalculation.ParseFormattedNumberIgnoresInsertion | src/utils/timeCalculation.ts:127 | inserting any character other than a digit or '.' (a separator, a space, a minus sign) leaves the result unchanged |
| TimeCalculation.FormatDuration | src/utils/timeCalculation.ts:157-177 | '不到1分钟' when no part is positive, otherwise the positive parts joined in the order days, hours, minutes |
| TimeCalculation.LessThanAMinuteExactly | src/utils/timeCalculation.ts:160-176 | the joined parts are empty exactly when days, hours and minutes are all ≤ 0, and never equal '不到1分钟', so that text means nothing positive |
| TimezoneData.GroupKeys | src/utils/timezoneData.ts:99-101 | the keys are exactly the groups occurring in the entries, each once |
| TimezoneData.Members | src/utils/timezoneData.ts:102 | every member of a group's list belongs to that group |
| TimezoneData.Positions | src/utils/timezoneData.ts:98-102 | a group's list is the group's entries at increasing positions of the entries, and every entry of the group is among them (order kept) |
| TimezoneData.GetTimezonesByGroup | src/utils/timezoneData.ts:95-106 | the create-if-missing-then-push loop yields the declarative grouping |
| TimezoneData.MembersOfAbsent | src/utils/timezoneData.ts:99-101 | a group that does not occur has no list entries |
| TimezoneData.MembersCount | src/utils/timezoneData.ts:98-103 | each occurrence of an entry is counted in its own group's list and in no other |
| TimezoneData.MembersNonEmpty | src/utils/timezoneData.ts:99-102 | a group's list is non-empty exactly when the group is a key |
| TimezoneData.GroupByKeys | src/utils/timezoneData.ts:95-106 | in `GroupBy`, the keys are exactly the groups of the entries, distinct, and no list is empty |
| TimezoneData.GroupByMembership | src/utils/timezoneData.ts:98-103 | an entry is in a list exactly when the list is its group's |
| TimezoneData.GroupByPermutation | src/utils/timezoneData.ts:95-106 | the lists taken in key order are a permutation of the entries |
| TimezoneData.FindTimezoneByValue | src/utils/timezoneData.ts:108-110 | undefined exactly when no entry has the id; otherwise the first entry with that id |
| TimezoneData.TableShape | src/utils/timezoneData.ts:8-93 | the table has 64 entries and there are six region headings, under the keys asia, europe, northAmerica, southAmerica, oceania and africa |
| TimezoneData.TableGroupsNamed | src/utils/timezoneData.ts:8-93 | every table entry's group is a key of the region headings |
| TimezoneData.TableValuesNonEmpty | src/utils/timezoneData.ts:17-93 | every table id is non-empty |
| TimezoneData.DefaultTimezoneListed | src/utils/timezoneData.ts:19 | 'Asia/Shanghai' is found, as the first entry, with offset 'UTC+8' |
| TimeZoneSelector.RenderAll | src/components/TimeZoneSelector.tsx:19-30 | each entry renders (`RenderOption`), in order, to an item valued and keyed by its id with its label and offset |
| TimeZoneSelector.Options | src/components/TimeZoneSelector.tsx:32-39 | one option group per key, in key order, headed by the region heading and listing that key's entries |
| TimeZoneSelector.OptionsFollowGrouping | src/components/TimeZoneSelector.tsx:17-39 | built from the grouping, each option group lists exactly its region's entries in table order, non-empty, keyed by id |
| TimeZoneSelector.TableOptionsHeaded | src/components/TimeZoneSelector.tsx:32-39 | with the real table every option group has a heading |
| TimeZoneSelector.FilterOption | src/components/TimeZoneSelector.tsx:57-68 | false for a missing option or an empty value; false when the id is not found |
| TimeZoneSelector.FilterUnknownValue | src/components/TimeZoneSelector.tsx:59-60 | an id absent from the entries never matches |
| TimeZoneSelector.FilterMatchesSubstring | src/components/TimeZoneSelector.tsx:62-67 | an option matches iff the lower-cased input occurs in the lower-cased label, id or offset of its entry |
| TimeZoneSelector.EmptySearchMatches | src/components/TimeZoneSelector.tsx:62-67 | the empty search matches every entry with a non-empty id |
| TimeZoneSelector.EmptySearchMatchesTable | src/components/TimeZoneSelector.tsx:62-67 | the empty search matches every table entry |
| TimeZoneSelector.FilterIgnoresCase | src/components/TimeZoneSelector.tsx:62 | inputs that lower-case alike get the same answer |
| Calculator.FormData.With | src/components/Calculator.tsx:82 | the edited field takes the new text and no other field changes |
| Calculator.ValidateField | src/components/Calculator.tsx:57-78 | negative-number error iff the value is negative; non-zero error iff the rate is 0; cross-field error iff an experience field is edited into a conflict (both positive, current ≥ required); null iff none of these; every error is non-empty |
| Calculator.ErrorsAfterInput | src/components/Calculator.tsx:86-109 | other entries are kept; the field gets its validation result or ''; an experience edit into a conflict puts the cross message on `currentExp`; otherwise a `requiredExp` edit clears `currentExp` only if it holds exactly that message and keeps any other `currentExp` error |
| Calculator.InputKeepsConsistent | src/components/Calculator.tsx:81-110 | every edit keeps the cross message on `currentExp` exactly while the amounts conflict, and an edit of either experience amount puts it in step from any state |
| Calculator.RestoredFormCanConflict | src/components/Calculator.tsx:35-46 | a restored form can start out of step: the initial state is consistent, but a saved form with current 500 and required 100 and the empty error map is not |
| Calculator.StaleMessageOnRequired | src/components/Calculator.tsx:94-109 | current 500, required 100, then current 50: no conflict remains, `currentExp` is cleared, but `requiredExp` still shows the cross message |
| Calculator.CalculationErrors | src/components/Calculator.tsx:123-137 | the timezone is never checked; an empty amount gets its "please enter" message whatever else applies; any other amount gets its validation error, if any; all messages are non-empty |
| Calculator.ValidateAll | src/components/Calculator.tsx:123-137 | the per-entry loop followed by the required checks yields exactly those errors |
| Calculator.CalculationErrorsConsistent | src/components/Calculator.tsx:123-139 | after the pass the cross message is on `currentExp` exactly when the amounts conflict |
| Calculator.ValidFormReachesEngine | src/components/Calculator.tsx:141-159 | a form that passes has a positive rate, non-negative amounts and no conflict; the engine, on the amounts parsed by `InputOf`, then never reports an invalid rate, throws exactly when the required amount is positive and the completion instant is out of `Date`'s range, and otherwise succeeds iff the required amount is positive, reporting "already complete" when it is not |
| Calculator.ValidFormCanThrow | src/components/Calculator.tsx:141-169 | the form with required "10000000000", current "0" and rate "1" passes every check, and the engine then throws from every valid clock reading |
| Calculator.NoFieldErrors | src/components/Calculator.tsx:123-137 | filled-in, non-negative amounts with a positive rate and no conflict leave the pass without a message |
| Calculator.CalculatorForm.constructor | src/components/Calculator.tsx:24-32 | empty amounts, timezone 'Asia/Shanghai', no errors, no result |
| Calculator.CalculatorForm.RestoreSaved | src/components/Calculator.tsx:35-46 | a saved form, when one was found and parsed, replaces the form; errors and result are unchanged |
| Calculator.CalculatorForm.HandleInputChange | src/components/Calculator.tsx:81-110 | the form gets the edit, the error map becomes the two-step update, the result is untouched; the invariant is kept, and re-established by an edit of either experience amount |
| Calculator.CalculatorForm.HandleCalculate | src/components/Calculator.tsx:121-169 | the form is unchanged; the errors become the pass's; it calculates iff no error text is non-empty (equivalently, none was recorded) and then stores the engine's result on the parsed form, except that an engine that throws is caught and the old result stays, as it does when the pass fails |
| Calculator.CalculatorForm.HandleReset | src/components/Calculator.tsx:176-190 | empty amounts, timezone 'Asia/Shanghai', no errors, no result |

## Left out

- IEEE-754 rounding: numbers are exact reals, so at float boundaries JavaScript can floor to one minute less or more than the model.
- Date range: `now` is a parameter, taken as a valid time value where a lemma needs it.
- date-fns `utcToZonedTime` and `format` are function parameters. Only the throws follow from the model: the fallback to the local rendering when the conversion throws, and the throw on an Invalid Date. `console.error` is dropped.
- `Intl.NumberFormat` (thousands separators, rounding to the requested decimals) and `Intl.DateTimeFormat` are host library output. They are represented symbolically, so the `formatNumber` wrappers in both utility files have no contract of their own.
- `formatDateTime`, `formatPercentage`, `getTimezoneDisplayName` and the component's `formatInputValue` are display formatting through `Intl`, and are not modelled.
- `toLowerCase` is modelled on ASCII letters only. The table's strings are ASCII or CJK, which full Unicode lower-casing also leaves alone, but a search input with other cased letters is lower-cased differently.
- Template-literal rendering of numbers is modelled for natural numbers only, because printing fractional numbers is not modelled. `TimeCalculation.FormatDuration` has no caller in the program (the result display uses the formatter of `src/utils/formatting.ts`); the model limits it to integer parts. Exponent-form renderings (1e21 and above) are not modelled.
- `parseFloat`'s whitespace skipping, exponents, `Infinity` and `+` sign are not modelled: the character filters remove them before parsing.
- `JsNumber.ParseFloatIsLongestLiteralPrefix` states the result for strings that have already passed one of the character filters, which is the only way the calculator calls it.
- `debounce`, `throttle`, the 500 ms delay, the async flow, the loading flag, `copyToClipboard`, localStorage saving, and `antd` toasts: all are timers, browser storage or user interface with no effect on the modelled state. Reading and parsing the saved form is a parameter of `Calculator.CalculatorForm.RestoreSaved`.
- `Calculator.ErrorsAfterInput`: a `currentExp` entry that was undefined stays absent when it is cleared. The source writes an explicit `undefined` there, which is indistinguishable for every reader of the map.
- `Calculator.CalculatorForm.HandleCalculate`: the toasts are not modelled. These are the failure toast of the `catch` at Calculator.tsx:167-169, and the success and error toasts after `setResult`. Only the result kept or stored is stated.
- Rendering and JSX in `src/App.tsx`, `src/main.tsx`, `src/components/ResultDisplay.tsx`, `src/components/ThemeToggle.tsx`, and the markup of `Calculator.tsx` and `TimeZoneSelector.tsx` (except the option structure) are not part of this model.
