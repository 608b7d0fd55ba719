# Time-tracking dashboard: duration normaliser, working calendar and pay

This project models the two computing engines of a small time-tracking
dashboard.

The first engine, in `src/services/teamLogger.js`, normalises a
time-tracking report payload into one "total worked" duration. It covers:

- the ordered key-name rules that decide a duration's unit;
- unit conversion;
- `hh:mm:ss` and ISO 8601 `PT…` duration strings;
- the recursive walk over the JSON payload that keeps a running maximum;
- extraction of the first report item's statistics;
- the max-of-candidates total;
- the `suppressDetails` flag normaliser;
- the `0h 0m` duration formatter.

The second engine, in `src/App.jsx`, covers the dashboard component:

- the working-calendar hook, which counts the working days of the month and
  those up to today;
- the pacing figures derived from the calendar;
- the compensation block: expected base, effective rate, capped and
  prorated base pay, four gated bonuses, and the total;
- the salary currency code;
- the component's state, with the weekend-day toggle, the holiday editor
  and sign-out as in-place updates of a `Dashboard.App` object.

The model has one module per concern:

| Module | What it holds |
|---|---|
| `Wrappers` | `Option` and `Result` |
| `Text` | digits, JavaScript `trim`, ASCII case mapping |
| `Json` | payload values and JavaScript truthiness |
| `DurationRules` | key rules and units |
| `DurationString` | duration-string grammar |
| `DurationExtractor` | the payload walk and its reference set of candidates |
| `TeamLogger` | the normaliser's remaining operations |
| `WorkingCalendar` | the working-calendar hook |
| `Compensation` | the pay computation |
| `Currency` | the salary currency code |
| `SortedLists` | the sorted-list edits |
| `Dashboard` | the component's state |

Each pure operation has a partner it is proved against:

- The payload walk is compared with the set of every candidate duration in
  the payload. The walk returns the least upper bound of that set and the
  starting value.
- The duration-string parser is proved sound and complete against
  rendering functions of the two grammars.
- The calendar counts are compared with the set of positions of working
  days.
- The sorted-list edits are compared with set membership and multisets.

Each imperative operation (`WorkingCalendar.UseWorkingCalendar` and the
methods of `Dashboard.App`) is proved against the pure function that
specifies it.

## Model

| member | source | states |
|---|---|---|
| DurationRules.ToMilliseconds | src/services/teamLogger.js:55-68 | the result divided by the unit's factor (1, 1000, 60000, 3600000) gives back the value; the sign is kept |
| DurationRules.ToMillisecondsMonotone | src/services/teamLogger.js:55-68 | conversion preserves order |
| DurationRules.UnitForKey | src/services/teamLogger.js:39-48 | no unit iff none of the eight rules matches the key; otherwise the unit is the unit of a matching rule |
| DurationRules.RuleDecides | src/services/teamLogger.js:101-106 | the first matching rule in list order decides the unit |
| DurationRules.NoRuleMatchesEmptyKey | src/services/teamLogger.js:100 | the empty key (top level) matches no rule |
| DurationRules.TotalTrackedMillisecondsKey | src/services/teamLogger.js:40 | `totalTrackedMilliseconds` is read in milliseconds |
| DurationRules.SpanHoursKey | src/services/teamLogger.js:39-48 | `spanHours` matches no rule |
| DurationRules.TrackedHoursKey | src/services/teamLogger.js:47 | `trackedHours` is read in hours |
| DurationString.ClockMilliseconds | src/services/teamLogger.js:78 | hours, minutes and seconds sum to their millisecond conversions |
| DurationString.ParseHmsComplete | src/services/teamLogger.js:51 | every `h:mm:ss` or `hh:mm:ss` text parses to its value, with minutes and seconds unchecked |
| DurationString.ParseHmsSound | src/services/teamLogger.js:75-79 | whatever the clock parser accepts is such a text, with that value |
| DurationString.ParseIsoComplete | src/services/teamLogger.js:52 | every `PT[nH][nM][nS]` text, case-insensitively, parses to its value |
| DurationString.ParseIsoSound | src/services/teamLogger.js:81-89 | whatever the ISO parser accepts is such a text, with that value |
| DurationString.ParseDurationStringSound | src/services/teamLogger.js:70-92 | an accepted string is, after trimming, a clock text or an ISO text, and the result is its value |
| DurationString.ParseDurationStringHms | src/services/teamLogger.js:73-79 | surrounding whitespace is ignored for clock texts |
| DurationString.ParseDurationStringIso | src/services/teamLogger.js:81-89 | surrounding whitespace and letter case are ignored for ISO texts |
| DurationString.HalfPastTwoExample | src/services/teamLogger.js:75-79 | "02:30:00" is 9000000 ms |
| DurationString.UncheckedMinutesExample | src/services/teamLogger.js:51 | "1:99:99" is accepted |
| DurationString.LongHoursRejectedExample | src/services/teamLogger.js:51 | three hour digits are refused |
| DurationString.HourAndHalfIsoExample | src/services/teamLogger.js:81-89 | "PT1H30M" is 5400000 ms |
| DurationString.LowerCaseIsoExample | src/services/teamLogger.js:73-89 | " pt45s\n" is 45000 ms |
| DurationString.BarePtExample | src/services/teamLogger.js:83 | a bare "PT" is 0 |
| DurationExtractor.FindBestDurationCandidate | src/services/teamLogger.js:94-141 | the walk never returns less than the running best |
| DurationExtractor.ScanPayload | src/services/teamLogger.js:266 | the walk started at 0 with an empty path is non-negative |
| DurationExtractor.WalkIsBest | src/services/teamLogger.js:94-141 | the walk returns the least value at least the running best and every candidate duration of the payload |
| DurationExtractor.ElementsAreBest | src/services/teamLogger.js:126-131 | folding an array's elements under the array's key gives the least upper bound of their candidates |
| DurationExtractor.MembersAreBest | src/services/teamLogger.js:133-138 | folding an object's entries, each under its own key, gives the least upper bound of their candidates |
| DurationExtractor.ElementCandidatesMembership | src/services/teamLogger.js:126-131 | an array's candidates are exactly its elements' candidates |
| DurationExtractor.MemberCandidatesMembership | src/services/teamLogger.js:133-138 | an object's candidates are exactly its entries' candidates |
| DurationExtractor.ArrayOrderIrrelevant | src/services/teamLogger.js:126-131 | reordering an array's elements does not change the result |
| DurationExtractor.MemberOrderIrrelevant | src/services/teamLogger.js:133-138 | reordering an object's entries does not change the result |
| DurationExtractor.ScanIdempotent | src/services/teamLogger.js:94-141 | walking again from the walk's own result changes nothing |
| DurationExtractor.TopLevelNumberIgnored | src/services/teamLogger.js:99-107 | a bare number at top level contributes nothing |
| DurationExtractor.TrackedHoursStringExample | src/services/teamLogger.js:109-118 | `trackedHours: "02:30:00"` is read through `parseFloat` as 2 h, not as a duration string |
| DurationExtractor.TrackedMillisecondsExample | src/services/teamLogger.js:94-141 | a payload with `totalTrackedMilliseconds: 7200000` and `spanHours: 1.5` scans to 7200000 |
| TeamLogger.NormaliseSuppressionFlag | src/services/teamLogger.js:143-151 | booleans pass through; a string is true iff it is "true" after trimming and lower-casing; anything else is false |
| TeamLogger.SuppressionFlagIdempotent | src/services/teamLogger.js:143-151 | normalising a normalised flag changes nothing |
| TeamLogger.SuppressionFlagIgnoresPadding | src/services/teamLogger.js:146 | surrounding whitespace does not change the flag |
| TeamLogger.UpperCaseTrueExample | src/services/teamLogger.js:146-147 | " TRUE\n" is true |
| TeamLogger.ToMillisecondsFromHours | src/services/teamLogger.js:153-156 | null stays null; hours convert with the hour factor |
| TeamLogger.ToMillisecondsFromSeconds | src/services/teamLogger.js:158-161 | null stays null; seconds convert with the second factor |
| TeamLogger.SanitiseNumber | src/services/teamLogger.js:191 | a finite number is kept; anything else is null, never 0 |
| TeamLogger.ReportItems | src/services/teamLogger.js:164-165 | items exist iff the report is truthy and its `timeReportItems` is an array |
| TeamLogger.FirstObjectLike | src/services/teamLogger.js:169 | the index of the first non-null object (or array) element, or none when there is no such element |
| TeamLogger.ReadStats | src/services/teamLogger.js:174-211 | numeric stats are sanitised fields; title, email and las are copied or null |
| TeamLogger.ExtractEmployeeReportStats | src/services/teamLogger.js:163-213 | item and stats are both present or both null; they are null iff there are no items or no object element; otherwise the item is the first object element and the stats are read from it |
| TeamLogger.NoObjectItemNoStats | src/services/teamLogger.js:169-172 | a report with no object element yields no stats |
| TeamLogger.CandidateDurations | src/services/teamLogger.js:260-266 | six candidates in source order: total, on-computer and span hours in milliseconds, total and active seconds in milliseconds (all null without stats), then the payload scan |
| TeamLogger.Surviving | src/services/teamLogger.js:267 | exactly the non-null, non-negative candidates survive |
| TeamLogger.MaxOf | src/services/teamLogger.js:270 | the maximum is one of the values and bounds them all |
| TeamLogger.TotalWorkedMilliseconds | src/services/teamLogger.js:269-270 | the total is non-negative, at least every surviving candidate, and either one of them or 0 when none survives |
| TeamLogger.FetchTeamLoggerTotalTime | src/services/teamLogger.js:227-279 | a falsy token, company id or account id fails with the source's messages; otherwise the total milliseconds are the largest surviving candidate of the five stats conversions and the payload scan (so at least the scan), hours times 3600000 equal them, and the raw payload, report, item and stats are returned |
| TeamLogger.TotalIsLargestCandidate | src/services/teamLogger.js:260-270 | the total is the largest surviving candidate |
| TeamLogger.TotalCoversTotalHours | src/services/teamLogger.js:261 | a non-negative `totalHours` bounds the total from below |
| TeamLogger.NegativeCandidateIgnored | src/services/teamLogger.js:267 | a negative candidate does not change the total |
| TeamLogger.DurationParts | src/services/teamLogger.js:282-291 | 0 h 0 m for missing or non-positive input; otherwise minutes are below 60 and hours times 60 plus minutes is the floor of ms / 60000 |
| TeamLogger.FormatDuration | src/services/teamLogger.js:283-285 | "0h 0m" for missing or non-positive input |
| TeamLogger.FormatDurationInjective | src/services/teamLogger.js:287-290 | equal texts mean equal hours and minutes |
| TeamLogger.HalfPastTwoFormatExample | src/services/teamLogger.js:287-290 | 9000000 ms is 2 h 30 m |
| WorkingCalendar.DaysInMonth | src/App.jsx:147-148 | a Gregorian month has 28 to 31 days, and 29 exactly for February of a leap year |
| WorkingCalendar.WeekdaysAdvance | src/App.jsx:153-158 | consecutive dates have consecutive weekdays modulo 7 |
| WorkingCalendar.DateStringInjective | src/App.jsx:159 | distinct dates format to distinct `YYYY-MM-DD` strings |
| WorkingCalendar.UseWorkingCalendar | src/App.jsx:144-178 | the loop counts the working days of the month and those up to today, with target hours as the counts times the daily target |
| WorkingCalendar.CountIsSetSize | src/App.jsx:158-162 | the working-day count is the number of days that are neither weekend nor holiday |
| WorkingCalendar.CalendarBounds | src/App.jsx:150-166 | working days to date are at most the working days of the month, which are at most the days of the month |
| WorkingCalendar.ToDateMonotone | src/App.jsx:163-165 | working days to date never decrease as today advances |
| WorkingCalendar.CountDependsOnListedDates | src/App.jsx:159 | holiday lists that agree on the month's dates give the same count |
| WorkingCalendar.HolidayOutsideMonthIgnored | src/App.jsx:159 | a holiday in another month or year changes no count |
| WorkingCalendar.EveryDayWorks | src/App.jsx:158-162 | with no weekend days and no holidays, every day is a working day |
| WorkingCalendar.TargetHours | src/App.jsx:168-169 | a non-negative daily target gives non-negative target hours |
| WorkingCalendar.WorkingDaysRemaining | src/App.jsx:546-549 | the remaining days are the difference clamped at 0 |
| WorkingCalendar.HoursToTarget | src/App.jsx:550 | the hours to target are the difference clamped at 0 |
| WorkingCalendar.HourDelta | src/App.jsx:539 | the delta is non-negative iff the logged hours reach the expected hours |
| WorkingCalendar.RemainingAreAfterToday | src/App.jsx:546-549 | the remaining working days are exactly the working days after today |
| WorkingCalendar.TargetSplitsAtToday | src/App.jsx:168-169 | the month's target is the hours expected by today plus the remaining days' hours |
| Compensation.OrZero | src/App.jsx:404 | `parseFloat(x)` or 0: a parsed number is kept, NaN becomes 0 |
| Compensation.ReadInputs | src/App.jsx:404-411 | each text field through `parseFloat(x)` or 0, a non-finite month target as 0, the toggles copied |
| Compensation.NoRateNoPay | src/App.jsx:404-492 | when neither the rate nor the base salary parses, the monthly base, base pay and total are 0 whatever the hours, target and toggles |
| Compensation.ExpectedMonthlyBase | src/App.jsx:412-417 | the base salary when positive; otherwise positive iff rate and target are both positive; never negative |
| Compensation.EffectiveHourlyRate | src/App.jsx:418-421 | the base salary over the target when both are positive, otherwise the hourly rate |
| Compensation.RateEarnsBaseOverTarget | src/App.jsx:412-421 | the effective rate times the target is the expected base |
| Compensation.CappedHours | src/App.jsx:422-423 | the logged hours, capped at a positive target |
| Compensation.MeetsMonthlyTarget | src/App.jsx:424-427 | met iff salary is on, the target is positive and the logged hours are within 0.01 h of it |
| Compensation.HourlyPay | src/App.jsx:432-434 | the effective rate times the hours at a positive rate, nothing otherwise; never negative for non-negative hours |
| Compensation.BasePay | src/App.jsx:428-453 | 0 with salary off; without a target, the base salary or else the hourly rate times the logged hours (0 at a non-positive rate); the expected base when the target is met; 0 under a positive target with no monthly base, so the hourly fallbacks at 437-440 and 442-451 pay nothing there; never negative for non-negative hours |
| Compensation.BasePayAtMostBase | src/App.jsx:444-450 | with a positive target and base, base pay never exceeds the expected base |
| Compensation.BasePayProrated | src/App.jsx:444-447 | short of the target, base pay is the expected base prorated by logged over target hours, negative hours included |
| Compensation.NegativeHoursNegativePay | src/App.jsx:404-447 | negative logged hours short of a positive target, with a positive base, give a negative base pay, which is then the total |
| Compensation.OverTargetEarnsBase | src/App.jsx:444-447 | over-target hours earn exactly the expected base |
| Compensation.ActiveBonuses | src/App.jsx:454-474 | each bonus is active iff its toggle is on and salary is on, the target is met and the base is positive; performance also needs the other three |
| Compensation.BonusAmountsOf | src/App.jsx:475-486 | each amount is 0 or its share (5 %, 5 %, 3 %, 3 %) of the expected base, bounded by that share, positive iff its bonus is active; a performance amount implies the other three |
| Compensation.BonusSubtotal | src/App.jsx:487-491 | the subtotal is between 0 and 16 % of the expected base, and 0 unless the target is met |
| Compensation.TotalCompensation | src/App.jsx:444-492 | 0 with salary off; otherwise at least the base pay, exactly the base pay unless the target is met with a positive base, then between the base and 116 % of it; never above 116 % of a positive base under a positive target |
| Compensation.SalaryDisabledPaysNothing | src/App.jsx:429 | with salary off, no bonus is active and base pay and total are 0 |
| Compensation.FullMonthExample | src/App.jsx:404-492 | base 4000, target 160, logged 160, all toggles on: total 4640 |
| Compensation.ThreeQuarterMonthExample | src/App.jsx:404-492 | the same month with 120 h logged: base pay 3000, total 3000 |
| Currency.UpperString | src/App.jsx:406 | upper-casing never shortens a string and leaves no ASCII lower-case letter |
| Currency.NormalizeCurrencyAsWritten | src/App.jsx:405-406 | slice then upper-case: never empty, and "USD" when the trimmed code is empty |
| Currency.AsWrittenCanExceedThree | src/App.jsx:405-406 | "ßab" gives the four-character "SSAB" |
| Currency.NormalizeCurrency | src/App.jsx:377-379 | 1 to 3 characters with no ASCII lower-case letter; "USD" when the trimmed code is empty; otherwise the first three characters of the upper-cased trimmed code |
| Currency.CorrectedCutsAsWritten | src/App.jsx:405-406 | the corrected code is the as-written code cut to three characters |
| Currency.SameCodeWithoutSharpS | src/App.jsx:405-406 | without `ß` in the first three characters, both orders agree |
| SortedLists.Remove | src/App.jsx:573 | exactly the other elements remain |
| SortedLists.Insert | src/App.jsx:574 | the result is the list plus the new element, as multisets |
| SortedLists.Toggle | src/App.jsx:572-574 | the element's membership flips; every other element's is kept |
| SortedLists.ToggleTwice | src/App.jsx:570-576 | toggling twice restores a strictly sorted list |
| SortedLists.InsertKeepsSorted | src/App.jsx:574 | inserting a new element keeps the list strictly sorted |
| SortedLists.RemoveKeepsSorted | src/App.jsx:589 | removing keeps the list strictly sorted |
| SortedLists.RemoveInsert | src/App.jsx:583-589 | removing a just-inserted new element restores the list |
| SortedLists.StringLessIsStrictOrder | src/App.jsx:583 | string order is irreflexive, transitive and total |
| Dashboard.InitialState | src/App.jsx:181-186 | weekend days [0, 6], no holidays, an empty holiday input, 8 daily target hours, the overview section, empty logged hours, salary hidden, empty login form and error, nothing loading, no totals and no sync time; the stored salary preferences and credentials are used |
| Dashboard.SignOutOfInitialState | src/App.jsx:627-637 | signing out of the first render's state gives the first render's state without stored credentials |
| Dashboard.ToggledWeekend | src/App.jsx:570-576 | the day's membership flips, every other day's is kept, and nothing else changes |
| Dashboard.ToggleWeekendTwice | src/App.jsx:570-576 | toggling the same day twice restores the state |
| Dashboard.HolidayAdded | src/App.jsx:578-586 | empty or unreadable input changes nothing; otherwise the date joins the holidays, a listed date leaves them unchanged, the input is cleared and nothing else changes |
| Dashboard.HolidayAddedInOrder | src/App.jsx:582-584 | the holiday list stays sorted and free of duplicates |
| Dashboard.HolidayAddedGrowsByOne | src/App.jsx:582-584 | the list grows by one date, or by none for a listed date |
| Dashboard.HolidayRemoved | src/App.jsx:588-590 | exactly that date leaves the list; nothing else changes |
| Dashboard.HolidayRemovedExactlyOne | src/App.jsx:588-590 | a listed date removes one entry; an unlisted one changes nothing |
| Dashboard.AddThenRemoveHoliday | src/App.jsx:578-590 | removing a just-added date restores the holiday list |
| Dashboard.SignedOut | src/App.jsx:627-637 | credentials, sync results, logged hours, salary view and login form reset; calendar, salary preferences, section and login flag kept |
| Dashboard.SignOutIdempotent | src/App.jsx:627-637 | signing out twice is signing out once |
| Dashboard.SignOutForgetsSession | src/App.jsx:627-637 | after sign-out the state depends only on what sign-out keeps |
| Dashboard.App.constructor | src/App.jsx:180-186 | the component starts in the initial state with both lists in order |
| Dashboard.App.ToggleWeekend | src/App.jsx:570-576 | updates the weekend days as `ToggledWeekend` says, keeping both lists in order |
| Dashboard.App.AddHoliday | src/App.jsx:578-586 | updates the holidays and input as `HolidayAdded` says, keeping both lists in order |
| Dashboard.App.RemoveHoliday | src/App.jsx:588-590 | updates the holidays as `HolidayRemoved` says, keeping both lists in order |
| Dashboard.App.SignOut | src/App.jsx:627-637 | updates the state as `SignedOut` says, keeping both lists in order |

## Left out

- The network: sign-in, the HTTP request, URL building and response
  decoding in `src/services/teamLogger.js` are not modelled. The fetch
  operation takes the decoded payload as a parameter, and its token and id
  guards are kept.
- The async effect that syncs totals with its stale-response guard, and the
  login submit handler: these concern concurrent I/O.
- Browser storage: reading and writing preferences and credentials. The
  stored values are constructor parameters of `Dashboard.App`.
- Number and currency formatting through `Intl`, all rendering, labels and
  styling.
- The date library: the month is a Gregorian year, month and first weekday,
  and today is a day-of-month index. The holiday input's date parsing is a
  `format` parameter of the add-holiday operation.
- `parseFloat` is a parameter of type `string -> Option<real>`, where
  `None` stands for NaN; a text it would read as Infinity is not represented.
- Json.Num: a numeric literal beyond the double range, such as `1e400`,
  becomes Infinity under `JSON.parse`, and the source then drops it
  (teamLogger.js:99 and 191). The model holds it as a finite real, so such a
  payload field yields a very large candidate where the source yields none.
- Arithmetic is on exact reals and naturals. IEEE-754 rounding is not
  modelled; the 0.01-hour tolerance is kept as written.
- DurationRules.UnitForKey: each case-insensitive key regex is modelled as
  ordered substring groups with ASCII case folding, and `.*` may not cross a
  line terminator. Unicode case folding is not modelled.
- Strings are sequences of characters, not UTF-16 code units. Keys,
  `trim` and sorting therefore differ from JavaScript only on characters
  outside the Basic Multilingual Plane.
- Currency.UpperString: JavaScript's `toUpperCase` is modelled only on
  Basic Latin and Latin-1, the range where `ß` becomes `SS`.
- Payload objects are sequences of entries, and duplicate keys are not
  collapsed as `JSON.parse` would collapse them.
- Currency.NormalizeCurrency: a code whose first three characters contain
  an inner space keeps it, so "ab cd" gives "AB ". The code is not trimmed
  again after cutting, as in the source.
- Dashboard.App: only the handlers named above are modelled. Edits to
  single form fields, navigation, and the sync effect's updates are left
  out.
- `useWorkingCalendar` reads the current date from the clock. Here it is the
  `today` parameter.

## Findings

| source | as written | input that shows it | evidently intended | confidence | as-written member | corrected member |
|---|---|---|---|---|---|---|
| src/App.jsx:377-379 and 405-406 | the currency code is cut to three characters and then upper-cased, and upper-casing can lengthen it | a stored preference "ßab" (read back unchanged at App.jsx:226) becomes "SSAB", a four-character code; typed input is upper-cased on every change (App.jsx:1123), so it is already "SSAB" before the cut and gives "SSA" | a code of at most three characters | not executed | Currency.AsWrittenCanExceedThree | Currency.NormalizeCurrency |
