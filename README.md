# Agendum core, modelled in Dafny

Agendum turns university timetable feeds (iCalendar files) into a teaching
agenda. A Rust core decodes each feed into raw events, then normalises each
summary into a course type and a subject. It also gives the start and end as
local ISO times and the duration in hours. A TypeScript frontend then derives
everything it shows from those events:

- rename and hide rules applied to teachers, promos and subjects;
- duplicate flags for shared sessions;
- the filtered and searched lists;
- the teacher menu;
- session ordinals such as `TD3`;
- teaching-hour statistics per teacher and per course;
- the "fix" screen's entry counts;
- agenda date and ISO-week arithmetic;
- subject colours;
- the UI reducer and persisted-state defaults;
- calendar list edits;
- manual-refresh rate limiting and proxy addresses.

This project models that core as Dafny functions, methods and lemmas and
proves its properties.

Modules follow the source files:

| module | models |
|---|---|
| `SummaryPatterns`, `Normalizer` | `agendum-core/src/normalizer.rs`: the three summary patterns as explicit predicates, the date-time forms, the ISO rendering and the durations |
| `NormalizerScenarios` | the two unit tests of `normalizer.rs`, as lemmas |
| `IcsParser` | `agendum-core/src/parser.rs`: text unescaping, the property loop, the diagnostics loop over the decoder's stream, and its two tests |
| `JsTime` | JavaScript `Date` arithmetic with a fixed host offset, and the compact branch of `parseIcsDateTime` |
| `DerivedEvents` | `frontend/src/hooks/useDerivedEvents.ts` |
| `SessionOrdinals` | `frontend/src/utils/sessionOrdinals.ts` |
| `RemoteCalendars` | `frontend/src/utils/remoteCalendars.ts` |
| `ServiceDashboard`, `CourseExplorer`, `FixScreen`, `Agenda` | the computations of the four views |
| `Colors`, `StorageNamespace`, `ParseDiagnostics` | the small utilities |
| `UiState`, `Persistence`, `AppHandlers`, `RuleEdits`, `AdvancedFilters`, `FilterBar` | the state reducer, persisted-state defaults, the application's handlers and the filter components |
| `Base`, `Lists`, `Text`, `Civil`, `OrderedMaps`, `FrontendTypes` | shared helpers: options, sequences, strings, the proleptic Gregorian calendar, insertion-ordered maps (JavaScript `Map`) and the frontend's records |

Modelling choices:

- The reference offset of the normaliser (`local_offset`) is a parameter.
  The unit tests fix it to zero.
- The frontend's host time zone is a fixed offset in milliseconds.
- Time values are integers: seconds in the core, milliseconds in the frontend.
- The core's `f32` hours are the whole minutes of the signed duration divided by sixty, as a `real`.
- `localeCompare` is read as code-point order on strings, not a locale collation.
  The default array sort compares UTF-16 code units; the model compares code points, which agree except between a character above U+FFFF and one in U+E000-U+FFFF.
- The `URL` parser, `decodeURIComponent`, `Date.parse` and stored settings are function parameters.
- Rule order follows the code: type then subject, then subject-dash-type, then subject then type (`agendum-core/src/normalizer.rs:77-85`).
  The comments at `agendum-core/src/normalizer.rs:58` ("2) SUBJECT + TYPE") and `agendum-core/src/normalizer.rs:64` ("3) SUBJECT - TYPE") number the rules in the other order; the code tries the dash rule second.
- The type tokens are those of the code; there is no `CC` among them.
  The frontend's buckets still test for `CC`.
- A trailing `Z` is read as UTC in `Normalizer.ReadIcalDateTime`, as the code's comment and its test intend.
  As written, chrono rejects it (see "## Findings"); `Normalizer.ReadIcalDateTimeAsWritten` models that reading.
  Leap seconds and daylight-saving transitions are not modelled.
- `toWeekInputValue` (`frontend/src/views/Agenda.tsx:49-57`) numbers the week from the instant it is given.
  - For an afternoon instant, its rounding can give the following week.
    `Agenda.WeekAsWrittenAfternoon` exhibits this for Wednesday 2021-01-06 at 13:00 UTC, which gives week 2.
  - Both callers pass local midnights, where `Agenda.WeekAsWrittenAtMidnight` proves the ISO week correct.
- Session ordinals are dense per series (`SessionOrdinals.OrdinalsOneToCount`), but they are not monotone along the sorted order.
  A repeated occurrence reuses its earlier ordinal.
- A promo literally named `__nogroup` shares its group key with events that have no promo.

## Model

| member | source | states |
|---|---|---|
| Normalizer.TokensValid | agendum-core/src/normalizer.rs:55-84 | the nine course-type alternatives are upper-case words of token letters, and none of them is `AUTRE`, the fallback type |
| Normalizer.OpeningsDistinct | agendum-core/src/normalizer.rs:55 | no two alternatives open with the same two letters once case is folded, so at most one can match at a position |
| Normalizer.TypeAtOpening | agendum-core/src/normalizer.rs:55 | a type matches at a position only where the two letters there are the opening of some alternative |
| Normalizer.TypeAtToken | agendum-core/src/normalizer.rs:55 | when an alternative matches at a position, the type matcher returns exactly that alternative's length |
| Normalizer.ParseCompact | agendum-core/src/normalizer.rs:43 | a text read as `%Y%m%dT%H%M%S` yields a valid calendar date and time of day |
| Normalizer.ParseOffset | agendum-core/src/normalizer.rs:38 | `%z` as chrono reads it (leading white space, a sign, two hour digits, any run of `:` and white space, two minute digits below 60): an offset that parses is strictly less than a day in magnitude |
| Normalizer.OffsetOfParts | agendum-core/src/normalizer.rs:38 | every offset written as white space, a sign, hours below 24, separators and minutes below 60 parses, to the seconds east those digits spell |
| Normalizer.OffsetShape | agendum-core/src/normalizer.rs:38 | conversely every offset that parses is written that way, and its value is the one its digits spell |
| Normalizer.OffsetEndsInDigit | agendum-core/src/normalizer.rs:38 | an offset that parses ends with a digit, so it is never `Z` or empty |
| Normalizer.ReadSuffix | agendum-core/src/normalizer.rs:32-46 | in the intended reading, after the compact date-time the text is accepted exactly when the rest is `Z`, an offset, or nothing, and the date-time is kept as read |
| Normalizer.ReadSuffixAsWritten | agendum-core/src/normalizer.rs:32-46 | as written, the rest is accepted exactly when it is an offset or nothing; on every rest but `Z` this agrees with the intended reading |
| Normalizer.ReadIcalDateTime | agendum-core/src/normalizer.rs:29-49 | in the intended reading, a parsed time is a valid date-time together with an offset of less than a day |
| Normalizer.ToLocal | agendum-core/src/normalizer.rs:34-45 | an instant shown in a fixed offset is always a valid date-time |
| Normalizer.AtTimeOfDay | agendum-core/src/normalizer.rs:100-101 | the hour, minute and second of a second-of-day are in range and add back to that second |
| Normalizer.WholeMinutesBounds | agendum-core/src/normalizer.rs:97 | `num_minutes` truncates toward zero: the whole minutes lie within one minute of the seconds, on the side of zero |
| Normalizer.LocalRoundTrip | agendum-core/src/normalizer.rs:45 | a local wall-clock time read in an offset and shown again in that offset is the same time |
| Normalizer.ToLocalLocalSeconds | agendum-core/src/normalizer.rs:34-39 | showing an instant in an offset moves its seconds by exactly that offset |
| Normalizer.TwoDigitsRoundTrip | agendum-core/src/normalizer.rs:100-101 | two digits written by `%H`-style formatting read back as the same number |
| Normalizer.FourDigitsRoundTrip | agendum-core/src/normalizer.rs:100-101 | four-digit year formatting splits into two pairs and reads back as the same number |
| Normalizer.CompactRoundTrip | agendum-core/src/normalizer.rs:43 | every valid date-time of a four-digit year, written compact, parses back to itself |
| Normalizer.CompactRendered | agendum-core/src/normalizer.rs:43 | every compact text that parses is the compact rendering of what it parses to, so the reading is injective |
| Normalizer.IsoOfCompact | agendum-core/src/normalizer.rs:100-101 | the ISO rendering is the compact rendering with `-` and `:` separators inserted |
| Normalizer.CompactThenSuffix | agendum-core/src/normalizer.rs:30-46 | a trimmed compact date-time followed by a suffix is read by reading the suffix alone |
| Normalizer.UtcForm | agendum-core/src/normalizer.rs:32-35 | in the intended reading, a compact time with `Z` is read as that wall-clock time in UTC |
| Normalizer.OffsetForm | agendum-core/src/normalizer.rs:37-40 | a compact time with an explicit offset is read in that offset |
| Normalizer.FloatingForm | agendum-core/src/normalizer.rs:42-46 | a compact time without suffix is read in the reference offset |
| Normalizer.IsoOfParsed | agendum-core/src/normalizer.rs:100-101 | the ISO text of a parsed compact time is the input with separators inserted |
| Normalizer.ShownInOwnOffset | agendum-core/src/normalizer.rs:43-45 | a floating time read in the reference offset is shown unchanged |
| Normalizer.RenderIsoShape | agendum-core/src/normalizer.rs:100-101 | the ISO rendering has the shape `YYYY-MM-DDTHH:MM:SS`, digits in the digit places |
| Normalizer.ParseIcalDateTimeForms | agendum-core/src/normalizer.rs:29-49 | only three forms are accepted: once trimmed, a compact time alone, followed by `Z`, or followed by an offset that parses |
| Normalizer.AsWrittenReading | agendum-core/src/normalizer.rs:29-49 | the code as written reads every text as the intended reading does, except a compact time followed by `Z`, which it does not read |
| Normalizer.ZuluAsWritten | agendum-core/src/normalizer.rs:32-35 | a compact time with `Z` is not read as written, while the intended reading gives that time in UTC |
| Normalizer.DurationHoursSpec | agendum-core/src/normalizer.rs:96-97 | the hours are the whole minutes over sixty: zero for equal instants, at least zero for a forward span, negative for a backward span of a minute or more |
| Normalizer.Normalize | agendum-core/src/normalizer.rs:71-113 | in the corrected reading (`Z` is UTC), one normalised event per raw event, in order, each carrying its raw event |
| Normalizer.NormalizeAsWritten | agendum-core/src/normalizer.rs:71-113 | as written (`Z` not read), one normalised event per raw event, in order, each carrying its raw event |
| Normalizer.ParseReadingsAgree | agendum-core/src/normalizer.rs:29-49 | off the `Z` suffix, the code as written reads every time as the corrected reading does |
| Normalizer.NormalizeReadingsAgree | agendum-core/src/normalizer.rs:71-113 | the two readings of `normalize` give the same event when neither time ends in `Z`, and always the same type and subject |
| Normalizer.TypeAndSubjectOf | agendum-core/src/normalizer.rs:74-106 | the type is the matched type upper-cased, the subject the matched subject trimmed |
| Normalizer.TypeAndSubjectSpec | agendum-core/src/normalizer.rs:74-106 | the type is an alternative or `AUTRE`; it is `AUTRE` exactly when no rule matches the trimmed summary, and then the subject is that summary; the subject is trimmed and not blank for a non-blank summary |
| Normalizer.NormalizeEventKind | agendum-core/src/normalizer.rs:74-111 | the type and subject depend on the summary alone and the raw event is kept |
| Normalizer.NormalizeStartIso | agendum-core/src/normalizer.rs:95-100 | in the corrected reading, when both times parse, the start is the start instant shown in the reference offset |
| Normalizer.NormalizeEndIso | agendum-core/src/normalizer.rs:95-101 | in the corrected reading, when both times parse, the end is the end instant shown in the reference offset |
| Normalizer.NormalizeDuration | agendum-core/src/normalizer.rs:95-97 | in the corrected reading, when both times parse, the duration is the signed distance of the instants, not clamped |
| Normalizer.NormalizeZuluAsWritten | agendum-core/src/normalizer.rs:88-95 | as written, an event whose start carries `Z` keeps both raw times verbatim and lasts zero hours, with its type and subject unaffected |
| Normalizer.NormalizeEventUnparsed | agendum-core/src/normalizer.rs:88-95 | when either time does not parse, both raw times are kept verbatim and the duration is zero |
| SummaryPatterns.SpellsIff | agendum-core/src/normalizer.rs:55 | a word is spelt at a position exactly when each character there folds to the word's letter (the `(?i)` flag) |
| SummaryPatterns.SpelledUpper | agendum-core/src/normalizer.rs:106 | a type spelt in any case upper-cases to the alternative itself |
| SummaryPatterns.AltFromSpec | agendum-core/src/normalizer.rs:55 | the alternation search succeeds exactly when some later alternative matches, and returns a matching one |
| SummaryPatterns.TypeAtSpec | agendum-core/src/normalizer.rs:55-67 | a type matches at a position exactly when some alternative does, followed by a word boundary, and the length returned is that alternative's |
| SummaryPatterns.RunSpec | agendum-core/src/normalizer.rs:55-67 | a `\s`/`[\s-]` run is greedy: every character of it belongs, the next does not |
| SummaryPatterns.RunUnique | agendum-core/src/normalizer.rs:55-67 | the greedy run is the only maximal run from its start |
| SummaryPatterns.LineFreeIff | agendum-core/src/normalizer.rs:55-67 | a suffix can be matched by `.` exactly when it holds no line feed |
| SummaryPatterns.TypeThenSubjectSpec | agendum-core/src/normalizer.rs:54-78 | rule 1 matches exactly when the summary opens with a type, a separator run and a non-empty line-free rest, and captures that type and rest |
| SummaryPatterns.TailAtParts | agendum-core/src/normalizer.rs:60-69 | a tail found after a subject is made of the separator (dash or spaces) and a type at the reported place |
| SummaryPatterns.PartsTailAt | agendum-core/src/normalizer.rs:60-69 | conversely a separator followed by a type is found as the tail at that place |
| SummaryPatterns.LazyFromSpec | agendum-core/src/normalizer.rs:61-67 | the lazy `(.+?)` search returns the shortest line-free subject followed by a tail, and none when there is none |
| SummaryPatterns.SubjectThenSpec | agendum-core/src/normalizer.rs:60-82 | rules 2 and 3 match exactly when some subject length leads to a tail, and then capture the shortest such subject and its type |
| SummaryPatterns.LazyFromType | agendum-core/src/normalizer.rs:61-67 | the type captured by rules 2 and 3 upper-cases to an alternative |
| SummaryPatterns.ClassifyType | agendum-core/src/normalizer.rs:77-85 | rule order: the type is an alternative or `AUTRE`, `AUTRE` exactly when no rule matches, and then the subject is the summary |
| SummaryPatterns.ClassifySubject | agendum-core/src/normalizer.rs:77-105 | a non-blank trimmed summary never yields a blank subject |
| SummaryPatterns.NoDashNoDashRule | agendum-core/src/normalizer.rs:66-69 | a summary without `-` never matches the dash rule |
| SummaryPatterns.LazyHit | agendum-core/src/normalizer.rs:61-67 | the lazy search stops at the first position where a tail is found |
| SummaryPatterns.LazyStep | agendum-core/src/normalizer.rs:61-67 | where no tail is found the lazy search moves on by one character |
| NormalizerScenarios.CmProresEvent | agendum-core/src/normalizer.rs:135-156 | `CM PRORES` from 08:00 to 10:00 is type `CM`, subject `PRORES`, two hours, with the ISO times the test expects |
| NormalizerScenarios.IpdTpClaEvent | agendum-core/src/normalizer.rs:136-163 | in the intended reading, `IPD TP Cla 1` in UTC is type `TP`, subject `IPD`, one and a half hours, 10:00 to 11:30, as the test expects |
| NormalizerScenarios.IpdTpClaAsWritten | agendum-core/src/normalizer.rs:136-163 | as written, the same event is type `TP`, subject `IPD`, but keeps its raw `...Z` times and lasts zero hours, against the test's 1.5 |
| NormalizerScenarios.TdStandardEvent | agendum-core/src/normalizer.rs:137-167 | `TD Standard résidentiel` is type `TD` with the accented subject, three hours |
| NormalizerScenarios.ReunionPedagogiqueEvent | agendum-core/src/normalizer.rs:142-171 | `Réunion pédagogique …` is type `RÉUNION` upper-cased with its accent, three quarters of an hour |
| NormalizerScenarios.AutreChoseEvent | agendum-core/src/normalizer.rs:147-175 | `Autre chose` matches no rule: type `AUTRE`, the summary as subject, zero hours |
| NormalizerScenarios.PparTdEventKind | agendum-core/src/normalizer.rs:180-187 | `PPAR TD` is type `TD`, subject `PPAR` (subject then type) |
| NormalizerScenarios.Bdl2CoworkingEventKind | agendum-core/src/normalizer.rs:181-190 | `BDL2 TD - Coworking space - PNRB` is type `TD`, subject `BDL2` |
| NormalizerScenarios.HeuristicsAndDuration | agendum-core/src/normalizer.rs:133-176 | in the intended reading, the five events of the test normalise, together, to the types, subjects, hours and ISO times it asserts |
| NormalizerScenarios.AdditionalPatterns | agendum-core/src/normalizer.rs:178-194 | the three summaries of the test normalise to `TD`/`PPAR`, `TD`/`BDL2` and `RÉUNION`/`pédagogique …` |
| IcsParser.UnescapeIcal | agendum-core/src/parser.rs:29-35 | the replacement chain as written never lengthens the text |
| IcsParser.UnescapeIcalNoBackslash | agendum-core/src/parser.rs:29-35 | a text without backslash is left unchanged by the chain |
| IcsParser.UnescapeIcalEscapedBackslash | agendum-core/src/parser.rs:29-35 | an escaped backslash followed by `n` becomes backslash and line feed under the chain, but backslash and `n` under the corrected unescaping |
| IcsParser.UnescapeTextShorter | agendum-core/src/parser.rs:29-35 | the corrected single-pass unescaping never lengthens the text |
| IcsParser.UnescapeEscape | agendum-core/src/parser.rs:29-35 | unescaping undoes iCalendar text escaping for every text, line feeds, commas, semicolons and backslashes included |
| IcsParser.UnescapeTextNoBackslash | agendum-core/src/parser.rs:29-35 | a text without backslash is left unchanged by the corrected unescaping |
| IcsParser.LastValueIsLast | agendum-core/src/parser.rs:59-69 | the value read for a name is the value of the occurrence at some index, and no later property has that name |
| IcsParser.LastValueAbsent | agendum-core/src/parser.rs:59-69 | the value read for a name no property has is empty |
| IcsParser.FieldsOfLastValue | agendum-core/src/parser.rs:52-70 | each field of an event is the last value of its property, the three text fields unescaped (by the replace chain as written, or by the corrected single pass) and the others verbatim; other properties are ignored |
| IcsParser.OnePassFieldsRoundTrip | agendum-core/src/parser.rs:63-65 | with the corrected unescaping, text fields escaped per RFC 5545 come back exactly |
| IcsParser.AsWrittenSummaryEscapedBackslash | agendum-core/src/parser.rs:63 | a `SUMMARY` holding the escaped text `\\n` gives backslash and line feed as written, backslash and `n` when corrected |
| IcsParser.UnescapeIcalLineBreak | agendum-core/src/parser.rs:29-35 | the replace chain turns an escaped line feed in backslash-free surroundings into a line feed |
| IcsParser.UnescapeIcalComma | agendum-core/src/parser.rs:29-35 | the replace chain turns an escaped comma in backslash-free surroundings into a comma |
| IcsParser.ExtractFields | agendum-core/src/parser.rs:52-70 | the property loop yields the fields of the component: the last value of each recognised property, the text ones unescaped by the replace chain as written (by `FieldsOfLastValue`) |
| IcsParser.ParseIcsContentWithDiagnostics | agendum-core/src/parser.rs:41-99 | the nested loops over decoder items and components, with the replace chain as written, yield the output whose counts `ParseSpecCounts` states |
| IcsParser.ParseIcsContent | agendum-core/src/parser.rs:37-39 | the events alone are the events of the diagnostics variant |
| IcsParser.AddComponentsEffect | agendum-core/src/parser.rs:51-84 | a calendar's components are appended in order when they have a UID and counted as skipped otherwise; every component is one or the other |
| IcsParser.ParseSpecCounts | agendum-core/src/parser.rs:47-93 | calendars parsed counts decoded items, parser errors counts error items, the messages are the first five errors in order, and emitted plus skipped equals the component count |
| IcsParser.EmittedHaveUid | agendum-core/src/parser.rs:72-83 | every emitted event has a non-empty UID |
| IcsParser.TwoEventScenario | agendum-core/src/parser.rs:105-138 | the two-event calendar yields one calendar, no errors, one skipped event and the single event with unescaped description and location, both as written and corrected |
| IcsParser.TruncatedScenario | agendum-core/src/parser.rs:140-153 | a stream whose only item is a parse error yields no events, one error and its message |
| DerivedEvents.NormalizeValue | frontend/src/hooks/useDerivedEvents.ts:51-60 | the result is trimmed; empty when the trimmed value is hidden, else the trimmed non-empty replacement, else the trimmed value |
| DerivedEvents.NormalizeValueTrim | frontend/src/hooks/useDerivedEvents.ts:56 | surrounding white space of the value never changes the outcome |
| DerivedEvents.NormalizeValueFree | frontend/src/hooks/useDerivedEvents.ts:56-59 | a trimmed value with no rule and no hide flag is kept as is |
| DerivedEvents.NormalizeList | frontend/src/hooks/useDerivedEvents.ts:62-70 | the list holds no duplicate, holds a name exactly when it is a non-empty normalised value of the input, and lists the names in the order of their first occurrence |
| Lists.DedupOrder | frontend/src/hooks/useDerivedEvents.ts:66-70 | `Array.from(new Set(...))` keeps each value at its first occurrence: the kept values come in the order they first appear |
| DerivedEvents.NormalizeListClean | frontend/src/hooks/useDerivedEvents.ts:62-70 | every listed name is non-empty and trimmed |
| DerivedEvents.NormalizeListFree | frontend/src/hooks/useDerivedEvents.ts:62-70 | a list of distinct, trimmed, non-empty names without rules comes back unchanged, in order |
| DerivedEvents.ComputedDuration | frontend/src/hooks/useDerivedEvents.ts:76-80 | the computed hours are never negative, and positive exactly when both times parse and the end is after the start |
| DerivedEvents.Duration | frontend/src/hooks/useDerivedEvents.ts:81 | a positive stored duration is kept, otherwise the computed one is used; never negative |
| DerivedEvents.ComputedWholeHours | frontend/src/hooks/useDerivedEvents.ts:78-79 | a span of a whole number of hours in milliseconds counts as that many hours |
| DerivedEvents.TeacherSource | frontend/src/hooks/useDerivedEvents.ts:83-85 | the teacher source is never empty |
| DerivedEvents.Enrich | frontend/src/hooks/useDerivedEvents.ts:72-120 | the enriched event takes its timestamps from the parsed ISO times; its hours are the stored duration when positive, else the computed one; its subject is the normalised subject, its teachers the normalised list of the stored teachers (or the placeholder), its promos the normalised promo list, and the teacher and promo texts those lists joined with `, `; it takes the calendar's colour, inclusion, name, id and visibility, not marked duplicate, and keeps the raw event, type and ISO times |
| DerivedEvents.PlaceholderTeacher | frontend/src/hooks/useDerivedEvents.ts:83-117 | an event without teachers shows the placeholder `—` unless a rule renames or hides it |
| DerivedEvents.EnrichCalendar | frontend/src/hooks/useDerivedEvents.ts:73 | one enriched event per event of the calendar, in order |
| DerivedEvents.RawEvents | frontend/src/hooks/useDerivedEvents.ts:72-73 | the events of the first calendar come first, followed by those of the rest |
| DerivedEvents.RawEventsCount | frontend/src/hooks/useDerivedEvents.ts:72-120 | there are as many enriched events as events in all calendars |
| DerivedEvents.MarkDuplicates | frontend/src/hooks/useDerivedEvents.ts:122-131 | the loop with its set of seen keys marks each event as the first-seen-key rule defines |
| DerivedEvents.SeenIffBefore | frontend/src/hooks/useDerivedEvents.ts:122-131 | the seen set at an event holds its key exactly when an earlier included event has that key |
| DerivedEvents.ExcludedNotDuplicate | frontend/src/hooks/useDerivedEvents.ts:124 | an event excluded from statistics is never marked duplicate |
| DerivedEvents.FirstOfKeyKept | frontend/src/hooks/useDerivedEvents.ts:125-128 | of two included events with the same key, the later is marked duplicate |
| DerivedEvents.MarkedKeepsEvents | frontend/src/hooks/useDerivedEvents.ts:123-131 | marking changes nothing but the duplicate flag |
| DerivedEvents.AllEvents | frontend/src/hooks/useDerivedEvents.ts:50-132 | all events are the enriched events of every calendar, marked |
| DerivedEvents.ServiceEvents | frontend/src/hooks/useDerivedEvents.ts:134-136 | the service events are exactly the events included in statistics |
| DerivedEvents.CountTeachers | frontend/src/hooks/useDerivedEvents.ts:139-147 | the counting loop yields each listed name once, in first-appearance order, with its number of occurrences |
| DerivedEvents.CountStep | frontend/src/hooks/useDerivedEvents.ts:146 | counting one more name keeps the counts and first-appearance order exact |
| DerivedEvents.TeacherOptions | frontend/src/hooks/useDerivedEvents.ts:138-152 | the menu is sorted by descending count, then by name, and is a permutation of the tally of the listed names |
| DerivedEvents.TallyEntries | frontend/src/hooks/useDerivedEvents.ts:141-150 | the menu names are distinct, exactly the listed names that occur, never the placeholder or "unknown teacher", each counted at least once |
| DerivedEvents.TokensListed | frontend/src/hooks/useDerivedEvents.ts:141-145 | every counted token is non-empty, not the placeholder, and not "unknown teacher" in any case |
| DerivedEvents.SourceStage | frontend/src/hooks/useDerivedEvents.ts:156-171 | the source stage keeps the included events, the main calendar's events (none without a main calendar), the visible events, or all of them |
| DerivedEvents.DateStartStage | frontend/src/hooks/useDerivedEvents.ts:173-179 | the lower date bound filters the source's events only when set |
| DerivedEvents.DateEndStage | frontend/src/hooks/useDerivedEvents.ts:180-186 | the upper date bound filters only when set |
| DerivedEvents.TimeStage | frontend/src/hooks/useDerivedEvents.ts:188-204 | the time window filters only when a bound is set |
| DerivedEvents.DaysStage | frontend/src/hooks/useDerivedEvents.ts:206-214 | the weekday filter applies only when some day is chosen |
| DerivedEvents.SourceEvents | frontend/src/hooks/useDerivedEvents.ts:158-171 | the switch keeps exactly the events the source test accepts |
| DerivedEvents.ApplyFilters | frontend/src/hooks/useDerivedEvents.ts:154-217 | the staged filtering keeps exactly the events that pass every set stage, in their order |
| DerivedEvents.MainWithoutId | frontend/src/hooks/useDerivedEvents.ts:163 | the "main" source without a main calendar yields no events |
| DerivedEvents.BothTimeBounds | frontend/src/hooks/useDerivedEvents.ts:194-198 | with both time bounds, an event is kept when it has both times, starts by the end bound and ends from the start bound on |
| DerivedEvents.NotANumberKeepsNothing | frontend/src/hooks/useDerivedEvents.ts:29-31 | a start bound that reads as `NaN` keeps no event, as every comparison with `NaN` is false |
| DerivedEvents.SundayIsSeven | frontend/src/hooks/useDerivedEvents.ts:210-212 | a Sunday event is kept by the weekday filter exactly when day 7 is chosen |
| DerivedEvents.NoFiltersKeepSource | frontend/src/hooks/useDerivedEvents.ts:154-217 | with no date, time or weekday set, an event is kept exactly when it is in the source |
| DerivedEvents.ParseTimeOfInput | frontend/src/hooks/useDerivedEvents.ts:29-33 | a time input `HH:MM` reads as its minutes since midnight |
| DerivedEvents.ParseTimeNoColon | frontend/src/hooks/useDerivedEvents.ts:30-31 | a number without colon has no minutes part and reads as `NaN` |
| DerivedEvents.SearchResults | frontend/src/hooks/useDerivedEvents.ts:223-231 | no results for an empty query; otherwise exactly the filtered events whose subject, type or teacher contains the lower-cased query |
| DerivedEvents.SearchIgnoresCase | frontend/src/hooks/useDerivedEvents.ts:225 | the results do not depend on the query's case |
| JsTime.LocalHours | frontend/src/hooks/useDerivedEvents.ts:195-196 | `getHours` of any instant is an hour of the day |
| JsTime.LocalMinuteOfDay | frontend/src/hooks/useDerivedEvents.ts:195-196 | the minute of the day compared by the time filter lies within one day |
| JsTime.LocalWeekday | frontend/src/hooks/useDerivedEvents.ts:210 | `getDay` of any instant is a weekday from 0 (Sunday) to 6 |
| JsTime.StripSeparators | frontend/src/hooks/useDerivedEvents.ts:19 | removing `-` and `:` keeps every other character and no separator |
| JsTime.MatchCompact | frontend/src/hooks/useDerivedEvents.ts:20-22 | the pattern accepts only eight leading digits with an optional time of hour and minute, optional seconds and optional `Z` (any case); a missing time reads as midnight, and the `Z` decides UTC |
| JsTime.ParseIcsDateTime | frontend/src/hooks/useDerivedEvents.ts:11-27 | a blank input gives no time; a time is read exactly when the trimmed input, without separators, matches the compact pattern |
| JsTime.StripSeparated | frontend/src/hooks/useDerivedEvents.ts:19 | stripping separators from the core's ISO text gives back its compact text |
| JsTime.MatchCoreCompact | frontend/src/hooks/useDerivedEvents.ts:20-22 | the compact text of the core always matches, with its own fields and no `Z` |
| JsTime.ReadsCoreIso | frontend/src/hooks/useDerivedEvents.ts:11-27 | the ISO text the core writes is read as the local wall-clock time of its fields |
| JsTime.FieldsTime | frontend/src/hooks/useDerivedEvents.ts:26 | for years from 100 on, that local time is the core's local seconds in milliseconds, shifted by the host offset |
| JsTime.RenderedFields | frontend/src/hooks/useDerivedEvents.ts:20-22 | the fields read from a compact rendering are the fields of the date-time rendered |
| JsTime.ParseSeparated | frontend/src/hooks/useDerivedEvents.ts:11-27 | a separated compact text is read as the local time of its fields |
| JsTime.LocalTimeOfCivil | frontend/src/hooks/useDerivedEvents.ts:26 | `new Date(y, m - 1, d, h, mi, s)` agrees with the core's seconds count for a real date |
| JsTime.LocalFieldsOf | frontend/src/hooks/useDerivedEvents.ts:8-9 | the local date, hours and minutes of the instant of a wall-clock time are that time's own |
| SessionOrdinals.NormalizeTextFacts | frontend/src/utils/sessionOrdinals.ts:10 | the normalised text is trimmed, its only white space is single spaces, and it is empty exactly when the input is blank |
| SessionOrdinals.NormalizeTextIdempotent | frontend/src/utils/sessionOrdinals.ts:10 | normalising twice is normalising once |
| SessionOrdinals.PromoTokensFacts | frontend/src/utils/sessionOrdinals.ts:12-27 | the promo tokens are sorted and distinct, and are exactly the non-empty normalised entries of the promo list and of the comma-separated promo text |
| SessionOrdinals.SortedSetFacts | frontend/src/utils/sessionOrdinals.ts:26 | a sorted set holds each element of its input once, in order |
| SessionOrdinals.PromoTokensIgnoreOrder | frontend/src/utils/sessionOrdinals.ts:12-27 | two events with the same promos, in whatever order, and the same promo text have the same tokens |
| SessionOrdinals.NormalizePromoTokens | frontend/src/utils/sessionOrdinals.ts:12-27 | the loops over listed and inline promos compute those tokens |
| SessionOrdinals.BlankPromosNoGroup | frontend/src/utils/sessionOrdinals.ts:29-33 | an event whose promos are all blank belongs to the no-group marker |
| SessionOrdinals.CoreSessionTypeCases | frontend/src/utils/sessionOrdinals.ts:75-81 | the core type is `CM` when the upper-cased type contains `CM`, else `TD`, else `TP`, else none, both directions |
| SessionOrdinals.SeriesTextSeparates | frontend/src/utils/sessionOrdinals.ts:57-63 | for one subject key, equal series texts have the same kind, and for tutorials and practicals the same group |
| SessionOrdinals.SeriesKeySeparates | frontend/src/utils/sessionOrdinals.ts:57-63 | two events with the same subject and series key have the same kind and, unless lectures, the same group |
| SessionOrdinals.LabelReadsBack | frontend/src/utils/sessionOrdinals.ts:83 | a label is the two-letter kind followed by the decimal ordinal |
| SessionOrdinals.LabelInjective | frontend/src/utils/sessionOrdinals.ts:83 | distinct sessions get distinct labels |
| SessionOrdinals.EventLeTotalPreorder | frontend/src/utils/sessionOrdinals.ts:86-106 | the comparator is a total preorder, so the sort is well defined |
| SessionOrdinals.SortedEvents | frontend/src/utils/sessionOrdinals.ts:86-106 | the sorted events are a permutation of the events |
| SessionOrdinals.SortedByStart | frontend/src/utils/sessionOrdinals.ts:87-88 | the sorted events come in non-decreasing start timestamp |
| SessionOrdinals.UntimedLast | frontend/src/utils/sessionOrdinals.ts:35-88 | an event whose start cannot be read sorts after every event with a known start |
| SessionOrdinals.ComputeSessionOrdinals | frontend/src/utils/sessionOrdinals.ts:85-138 | the sort and loop give each sorted event the session the ordinal rule defines |
| SessionOrdinals.NumberSessions | frontend/src/utils/sessionOrdinals.ts:108-135 | the loop with its counters and per-series maps gives each event no session when its type is not core, and otherwise its kind and ordinal |
| SessionOrdinals.TrackSeen | frontend/src/utils/sessionOrdinals.ts:127 | an occurrence already in its series map gets its recorded ordinal, and the maps stay exact |
| SessionOrdinals.TrackNew | frontend/src/utils/sessionOrdinals.ts:128-132 | a new occurrence gets the series counter plus one, and the maps stay exact |
| SessionOrdinals.SameOccurrenceSameOrdinal | frontend/src/utils/sessionOrdinals.ts:127-132 | repeated occurrences of a series share one ordinal |
| SessionOrdinals.SameOrdinalSameOccurrence | frontend/src/utils/sessionOrdinals.ts:127-132 | within a series, equal ordinals mean the same occurrence |
| SessionOrdinals.NewOccurrenceNextOrdinal | frontend/src/utils/sessionOrdinals.ts:128-131 | a first-seen occurrence is numbered one past the distinct occurrences of its series before it |
| SessionOrdinals.OrdinalsOneToCount | frontend/src/utils/sessionOrdinals.ts:119-132 | the ordinals of a series run from one to its number of distinct occurrences, each taken |
| SessionOrdinals.OrdinalsIdentifyOccurrences | frontend/src/utils/sessionOrdinals.ts:119-134 | two events of one series have the same ordinal exactly when they are the same occurrence |
| RemoteCalendars.ParseCalendarUrl | frontend/src/utils/remoteCalendars.ts:14-20 | a blank address is refused as empty; an address is accepted exactly when its trimmed text parses with protocol `http:` or `https:`, and then it is that parse |
| RemoteCalendars.ProxyBaseUrl | frontend/src/utils/remoteCalendars.ts:6-8 | the proxy base is the trimmed setting when not blank, and empty exactly outside development when there is no such setting |
| RemoteCalendars.TrimTrailingSlashes | frontend/src/utils/remoteCalendars.ts:46 | the result is a prefix not ending in `/`, and only slashes were removed |
| RemoteCalendars.CollapseSlashes | frontend/src/utils/remoteCalendars.ts:51 | the result has no double slash, the same non-slash characters, is no longer, and keeps the first character |
| RemoteCalendars.CollapseSlashesNoop | frontend/src/utils/remoteCalendars.ts:51 | a path without double slash is left unchanged |
| RemoteCalendars.ProxyBasePath | frontend/src/utils/remoteCalendars.ts:46-49 | the proxy base path ends in `/p`, not in `/`, and is a prefix of the trimmed base path followed by `/p` |
| RemoteCalendars.ProxiedPathShape | frontend/src/utils/remoteCalendars.ts:51 | the proxied path has no double slash, starts with the proxy base path and a slash, and holds the base and source paths' non-slash characters in order |
| RemoteCalendars.FetchTarget | frontend/src/utils/remoteCalendars.ts:26-28 | an address refused by the parser is refused with the same error |
| RemoteCalendars.FetchTargetCases | frontend/src/utils/remoteCalendars.ts:29-53 | off the planning site the source is fetched as is; on it the fetch is refused exactly when the proxy is unconfigured or unparsable, and otherwise goes to the proxy's host with the source query and a proxied path |
| RemoteCalendars.StripExtension | frontend/src/utils/remoteCalendars.ts:59 | only a final extension after a last dot, non-empty and dot-free, is removed; a name without one is kept |
| RemoteCalendars.LastSegmentOfHost | frontend/src/utils/remoteCalendars.ts:58 | a path without any non-empty segment names the calendar after the host |
| RemoteCalendars.LastSegmentOfPath | frontend/src/utils/remoteCalendars.ts:58 | otherwise the name comes from the last non-empty path segment |
| RemoteCalendars.CalendarName | frontend/src/utils/remoteCalendars.ts:56-60 | a refused address is refused with its error; otherwise a name is given exactly when the last segment decodes, and it is a prefix of the decoded segment |
| RemoteCalendars.RecentMembers | frontend/src/utils/remoteCalendars.ts:66 | every retained entry is finite, later than the window start, and from the history |
| RemoteCalendars.RecentCount | frontend/src/utils/remoteCalendars.ts:66 | the filter keeps every occurrence of each recent finite entry |
| RemoteCalendars.PruneHistory | frontend/src/utils/remoteCalendars.ts:62-69 | the pruned history holds at most twenty entries, ascending, each a finite entry of the history later than an hour ago |
| RemoteCalendars.SortedSuffixLargest | frontend/src/utils/remoteCalendars.ts:67-68 | the last entries of a sorted list are a sub-multiset no smaller than any entry dropped |
| RemoteCalendars.PruneKeepsLatest | frontend/src/utils/remoteCalendars.ts:62-69 | the pruned history is the twenty latest recent refreshes, or all of them when fewer |
| RemoteCalendars.PruneIdempotent | frontend/src/utils/remoteCalendars.ts:62-69 | pruning a pruned history at the same time changes nothing |
| RemoteCalendars.MsUntilManualRefreshAllowed | frontend/src/utils/remoteCalendars.ts:71-86 | the wait is never negative and covers both the cooldown and the hourly limit |
| RemoteCalendars.RefreshAllowedIff | frontend/src/utils/remoteCalendars.ts:71-86 | a manual refresh is allowed at once exactly when the cooldown since the last one has passed (or there was none) and fewer than twenty were made in the last hour |
| RemoteCalendars.CooldownFloor | frontend/src/utils/remoteCalendars.ts:76-78 | within the cooldown the wait is at least what is left of it |
| RemoteCalendars.WindowFloor | frontend/src/utils/remoteCalendars.ts:80-85 | with twenty retained refreshes the oldest is the first, the wait covers the rest of its hour, and a refresh is not allowed |
| ServiceDashboard.AddHours | frontend/src/views/ServiceDashboard.tsx:122-128 | booking `d` hours under a bucket grows that bucket by `d` and leaves the six others unchanged |
| ServiceDashboard.AddHoursAll | frontend/src/views/ServiceDashboard.tsx:118-128 | booking `d` hours under any bucket grows the sum of all buckets by exactly `d` |
| ServiceDashboard.ScopesPartition | frontend/src/views/ServiceDashboard.tsx:98-113 | no event is both done and to do; an event is in one of the two scopes exactly when it has a valid end or start instant |
| ServiceDashboard.BaseEvents | frontend/src/views/ServiceDashboard.tsx:84-114 | an event is among the base events exactly when it is among the input events, passes the teacher filter (selected teacher named in any case, or only unknown teachers) and is in the time scope |
| ServiceDashboard.SummaryConserves | frontend/src/views/ServiceDashboard.tsx:116-129 | each non-duplicate event lands in exactly one bucket: the seven bucket totals add up to the hours of all non-duplicate events |
| ServiceDashboard.Summary | frontend/src/views/ServiceDashboard.tsx:116-133 | the loop yields the per-bucket sums over non-duplicate events, the core total CM+TD+TP and the teaching total core+projects |
| ServiceDashboard.CreditedWhenSelected | frontend/src/views/ServiceDashboard.tsx:147-156 | with a selected teacher an event credits at most one name, and that name is the selected teacher or the dash |
| ServiceDashboard.CreditedWithoutSelection | frontend/src/views/ServiceDashboard.tsx:157-159 | with no selection an event credits every teacher it names, or the translated unknown-teacher label when all its names are unknown |
| ServiceDashboard.CreditsOf | frontend/src/views/ServiceDashboard.tsx:143-176 | a duplicate event credits nobody; otherwise one credit per credited name, each with the trimmed subject (or unknown-subject label), the type's bucket and the event's hours |
| ServiceDashboard.Bump | frontend/src/views/ServiceDashboard.tsx:178-186 | one more credit adds its hours to its own bucket only and adds one to the entry's count |
| ServiceDashboard.EntryCount | frontend/src/views/ServiceDashboard.tsx:161-187 | the count of a (teacher, subject) entry is the number of credits booked on that pair |
| ServiceDashboard.BookCredit | frontend/src/views/ServiceDashboard.tsx:161-187 | booking one credit (creating the teacher table and the subject entry when missing) keeps the nested tables equal to the accumulation of all credits so far |
| ServiceDashboard.BookNames | frontend/src/views/ServiceDashboard.tsx:161-187 | the inner loop books one credit per credited name and keeps the tables in step with the credits |
| ServiceDashboard.BookEvent | frontend/src/views/ServiceDashboard.tsx:138-188 | one event's body books exactly that event's credits (none for a duplicate) |
| ServiceDashboard.TeacherTables | frontend/src/views/ServiceDashboard.tsx:135-188 | the accumulation loop leaves teachers in order of first credit, each teacher's subjects in order of first credit, and every entry summing exactly the credits of its pair |
| ServiceDashboard.AccumulatedValid | frontend/src/views/ServiceDashboard.tsx:135-188 | accumulated tables are well formed ordered maps at both levels |
| ServiceDashboard.RowsOf | frontend/src/views/ServiceDashboard.tsx:195-205 | one row per subject, in the table's order, carrying its entry and its CM+TD+TP+project total |
| ServiceDashboard.RowLeTotalPreorder | frontend/src/views/ServiceDashboard.tsx:211 | ordering rows by decreasing filtered total is a total preorder |
| ServiceDashboard.SectionOf | frontend/src/views/ServiceDashboard.tsx:191-213 | a teacher section's rows are a permutation of the rows with core hours or hours in a switched-on extra column, sorted by decreasing filtered total, and its grand total and totals are taken over all rows, shown or not |
| ServiceDashboard.SectionLeTotalPreorder | frontend/src/views/ServiceDashboard.tsx:217-228 | the section comparison (selected teacher, then unknown label, then by grand total) is a total preorder |
| ServiceDashboard.SectionsOf | frontend/src/views/ServiceDashboard.tsx:191-214 | one section per teacher, in the table's order and named after it, no two equal; each is the section of the teacher it names, and every teacher yields its section |
| ServiceDashboard.OrderSections | frontend/src/views/ServiceDashboard.tsx:215-228 | the result is a permutation of the sections with a shown row, sorted in section order |
| ServiceDashboard.Sections | frontend/src/views/ServiceDashboard.tsx:191-228 | every teacher whose section has a shown row appears exactly once, every section shown is the section of a teacher of the table and has rows, and the sections are in section order |
| ServiceDashboard.DistinctNames | frontend/src/views/ServiceDashboard.tsx:191-214 | distinct sections each determined by their teacher have distinct names |
| ServiceDashboard.SelectedSectionFirst | frontend/src/views/ServiceDashboard.tsx:218-226 | with a selection, the selected teacher's section precedes every other section, and the dash section precedes all but the selected teacher's |
| ServiceDashboard.SelectedFirstIn | frontend/src/views/ServiceDashboard.tsx:218-226 | the same precedence holds in any sequence of sections sorted in section order |
| ServiceDashboard.TeacherStats | frontend/src/views/ServiceDashboard.tsx:135-229 | `teacherStats` accumulates exactly the credits of all events and returns the ordered sections of those tables |
| CourseExplorer.OfferedSubjects | frontend/src/views/CourseExplorer.tsx:28-30 | a string is listed exactly when some event has it as subject and it is longer than two UTF-16 code units |
| CourseExplorer.CollectSubjects | frontend/src/views/CourseExplorer.tsx:27-30 | the `Set` filled by the loop holds each offered subject once, in order of first appearance |
| CourseExplorer.Subjects | frontend/src/views/CourseExplorer.tsx:26-35 | the subject list is sorted, has no repeats, and holds exactly the offered subjects whose lower-cased form contains the lower-cased filter (all of them when no filter is typed) |
| CourseExplorer.TsLeTotalPreorder | frontend/src/views/CourseExplorer.tsx:43-47 | comparing events by `start_ts ?? 0` is a total preorder |
| CourseExplorer.SubjectEvents | frontend/src/views/CourseExplorer.tsx:39-47 | no events while no subject is picked; otherwise exactly the events of the picked subject, sorted by start instant |
| CourseExplorer.ItemsWithMember | frontend/src/views/CourseExplorer.tsx:62-70 | an item belongs to a key's group exactly when some event with that key lists it |
| CourseExplorer.AddAll | frontend/src/views/CourseExplorer.tsx:49-56 | adding items to a `Set` appends the new ones, keeping first-appearance order without repeats |
| CourseExplorer.MergeStep | frontend/src/views/CourseExplorer.tsx:62-70 | one more event keeps the merged map equal to one group per key, each holding its first event and its items |
| CourseExplorer.MergeOne | frontend/src/views/CourseExplorer.tsx:63-69 | one iteration (find or create the key's entry, add the event's promos) keeps the merged map in step with the events seen |
| CourseExplorer.MergeGroups | frontend/src/views/CourseExplorer.tsx:60-70 | the loop leaves one group per merge key, keys in order of first appearance, each with its first event and the union of its promos |
| CourseExplorer.FlattenedGroups | frontend/src/views/CourseExplorer.tsx:72-76 | the flattened list has one element per key of the map, each the shown form of its key's group |
| CourseExplorer.SortedKeys | frontend/src/views/CourseExplorer.tsx:72-81 | sorting a list whose keys are distinct keeps them distinct and keeps the same set of keys |
| CourseExplorer.MergedList | frontend/src/views/CourseExplorer.tsx:60-81 | merge, flatten and sort: one element per key of the input, no two sharing a key, each its key's group as shown, sorted |
| CourseExplorer.CourseEvents | frontend/src/views/CourseExplorer.tsx:38-82 | `courseEvents` is empty with no subject picked; otherwise it is sorted by start, has one entry per start/end/type/teacher key of the subject's events and each entry is that key's first event with the group's promos joined |
| CourseExplorer.MergedPromos | frontend/src/views/CourseExplorer.tsx:49-69 | a merged entry's promos have no repeats and are exactly the comma items listed by the events merged into it |
| CourseExplorer.MergedBase | frontend/src/views/CourseExplorer.tsx:63-67 | a merged entry is based on the first event with its key |
| CourseExplorer.AddTally | frontend/src/views/CourseExplorer.tsx:153-163 | adding hours to a bucket keeps the total equal to CM+TD+TP+project, adds the hours to the sum of all buckets, and adds them to the total only for a counted bucket |
| CourseExplorer.TotalsBalanced | frontend/src/views/CourseExplorer.tsx:141-163 | the view-wide total is CM+TD+TP+project, and the six buckets together hold every event's hours |
| CourseExplorer.Targets | frontend/src/views/CourseExplorer.tsx:97-103 | an event always credits at least one name, each one either a teacher it lists or the unknown label |
| CourseExplorer.TallyBalanced | frontend/src/views/CourseExplorer.tsx:169-183 | every teacher's total is their CM+TD+TP+project hours |
| CourseExplorer.TallyAbsent | frontend/src/views/CourseExplorer.tsx:169-172 | a teacher never credited has zero counters |
| CourseExplorer.CreditsForTally | frontend/src/views/CourseExplorer.tsx:169-183 | every listed teacher gets the event's full duration in its bucket, once per listing, and no other teacher's counters change |
| CourseExplorer.UnknownCredited | frontend/src/views/CourseExplorer.tsx:166-183 | an event that names nobody is credited in full to the unknown label and to nobody else |
| CourseExplorer.TallyStep | frontend/src/views/CourseExplorer.tsx:170-183 | one credit keeps the teacher map equal to the counters of all credits so far |
| CourseExplorer.BookTargets | frontend/src/views/CourseExplorer.tsx:169-183 | the inner loop credits every target teacher with the event's hours and keeps the teacher map in step |
| CourseExplorer.Stats | frontend/src/views/CourseExplorer.tsx:137-188 | `stats` returns the view-wide counters over the events and, for each credited teacher in order of first credit, exactly that teacher's counters |
| CourseExplorer.CreditedTeachers | frontend/src/views/CourseExplorer.tsx:166-171 | a teacher is listed in the statistics exactly when some event credits them |
| FixScreen.KeysOf | frontend/src/views/Fix.tsx:41-43 | the names `add` stores are never blank |
| FixScreen.KeysTrimmed | frontend/src/views/Fix.tsx:42-43 | every stored name is trimmed and not blank |
| FixScreen.FirstFew | frontend/src/views/Fix.tsx:47 | at most three contexts are kept, and they are the first ones seen |
| FixScreen.EntryOf | frontend/src/views/Fix.tsx:44-47 | an entry carries its own name and at most three contexts |
| FixScreen.EntrySnoc | frontend/src/views/Fix.tsx:41-48 | one more sighting adds at most its own key and leaves every other key's entry unchanged |
| FixScreen.EntryOwn | frontend/src/views/Fix.tsx:45-47 | a sighting of a key adds one to its count and adds its context while fewer than three are kept |
| FixScreen.AddBlank | frontend/src/views/Fix.tsx:43 | a blank name leaves the map unchanged |
| FixScreen.AddPut | frontend/src/views/Fix.tsx:44-47 | a non-blank name bumps its entry, which is created empty on first sight, and the map stays in step with the sightings |
| FixScreen.Add | frontend/src/views/Fix.tsx:41-48 | `add` keeps the map equal to one entry per non-blank trimmed name, in order of first sighting, with its count and first three contexts |
| FixScreen.AddAll | frontend/src/views/Fix.tsx:56-60 | a run of `add` calls keeps the map in step with all sightings so far |
| FixScreen.TeacherSightings | frontend/src/views/Fix.tsx:55-60 | each comma-separated teacher is one sighting, with the event's subject as context |
| FixScreen.EntryLeTotalPreorder | frontend/src/views/Fix.tsx:68 | by decreasing count, then by name, is a total preorder |
| FixScreen.EntriesAsMapOf | frontend/src/views/Fix.tsx:41-66 | any map that agrees with the sightings is the map they build |
| FixScreen.MapOfValid | frontend/src/views/Fix.tsx:41-66 | the built map lists each name once |
| FixScreen.ToArray | frontend/src/views/Fix.tsx:68 | `toArray` is sorted by decreasing count, then by name |
| FixScreen.ToArrayEntries | frontend/src/views/Fix.tsx:41-68 | the sorted entries are exactly one per non-blank name sighted, each with its count and first contexts, and no name appears twice |
| FixScreen.Collect | frontend/src/views/Fix.tsx:40-75 | the three lists are the sorted entries for the teachers (subject as context), the whole promo string (subject as context) and the subject (promo or teacher as context) |
| FixScreen.FilteredEntries | frontend/src/views/Fix.tsx:78-85 | the search keeps exactly the entries whose name or one of whose contexts contains the trimmed lower-cased term, keeps all of them for a blank term, and keeps the order so a sorted list stays sorted |
| FixScreen.SelectedKey | frontend/src/views/Fix.tsx:87-95 | the effect clears the key for an empty list, keeps a key that is still listed, and otherwise picks a listed one |
| FixScreen.FindEntry | frontend/src/views/Fix.tsx:97 | the entry found is the first one with that name, and there is none exactly when no entry has the name |
| FixScreen.SelectionShown | frontend/src/views/Fix.tsx:87-97 | after the effect an entry is selected exactly when the list is not empty |
| FixScreen.TeacherPlaceholder | frontend/src/views/Fix.tsx:100-103 | a teacher name with a space suggests a suffix of itself made of its last two space-separated parts |
| FixScreen.TeacherPlaceholderOneWord | frontend/src/views/Fix.tsx:100-107 | a one-word teacher name suggests nothing |
| FixScreen.SubjectPlaceholder | frontend/src/views/Fix.tsx:104-106 | a subject ending in white space and IDBCI (any case) suggests the trimmed text before it |
| FixScreen.SubjectPlaceholderPlain | frontend/src/views/Fix.tsx:104-106 | any other subject suggests itself trimmed; every subject suggestion is trimmed |
| FixScreen.Apply | frontend/src/views/Fix.tsx:110-114 | a rule is only emitted towards a trimmed, non-blank name different from `from` |
| FixScreen.ApplyEmits | frontend/src/views/Fix.tsx:110-114 | a rule is emitted exactly when the trimmed proposal (override, then draft, then existing rule) is neither blank nor `from`, and it targets that proposal |
| FixScreen.ApplyOverride | frontend/src/views/Fix.tsx:111 | a non-blank trimmed override wins over drafts and rules |
| FixScreen.ToggleSelected | frontend/src/views/Fix.tsx:116-118 | the flag of the value flips (a missing flag counts as unset) and no other flag changes |
| FixScreen.Picks | frontend/src/views/Fix.tsx:123 | the picks are exactly the names whose flag is set |
| FixScreen.MergeStep | frontend/src/views/Fix.tsx:124 | merging one more pick adds a rule from it to the target unless it is the target itself |
| FixScreen.MergeSelected | frontend/src/views/Fix.tsx:120-126 | a blank target changes nothing; otherwise every pick other than the target maps to the target, all other rules and the hidden flags are unchanged, and the selection is cleared |
| Agenda.DigitsNumber | frontend/src/views/Agenda.tsx:31 | `Number` of a non-empty digit string is its decimal value |
| Agenda.SplitThree | frontend/src/views/Agenda.tsx:31 | three digit fields joined by `-` split back into the same three fields |
| Agenda.ParseFields | frontend/src/views/Agenda.tsx:30-34 | three non-zero digit fields read as the local day `new Date(y, m - 1, d)` falls on |
| Agenda.ParseToDateInput | frontend/src/views/Agenda.tsx:29-34 | `parseYMD` reads back what `toDateInput` wrote, for every day from year 100 on |
| Agenda.ReadDate | frontend/src/views/Agenda.tsx:29-34 | a valid calendar date from year 100 on, written out, reads as its own day number |
| Agenda.ShiftBack | frontend/src/views/Agenda.tsx:35-47 | for any reader and writer that read back what they write, shifting by `k` and back returns the text, and the difference is `k` |
| Agenda.ShiftSpan | frontend/src/views/Agenda.tsx:35-47 | for any such reader and writer, shifting both ends by the same amount keeps their difference |
| Agenda.AddDays | frontend/src/views/Agenda.tsx:35-40 | an unreadable string comes back unchanged |
| Agenda.DiffDays | frontend/src/views/Agenda.tsx:41-47 | the difference is 0 when either end is unreadable |
| Agenda.DateInputReadsBack | frontend/src/views/Agenda.tsx:29-34 | every day from year 100 on is read back from its written form |
| Agenda.AddDaysWritten | frontend/src/views/Agenda.tsx:35-40 | shifting a written day by `k` gives the day `k` later, written |
| Agenda.DiffDaysWritten | frontend/src/views/Agenda.tsx:41-47 | the difference of two written days is the difference of the days |
| Agenda.AddDaysRoundTrip | frontend/src/views/Agenda.tsx:35-47 | `addDays(addDays(s, k), -k) == s` and `diffDays(s, addDays(s, k)) == k` for a written day |
| Agenda.ShiftKeepsSpan | frontend/src/views/Agenda.tsx:35-47 | shifting both ends by the same amount keeps `diffDays` between them |
| Agenda.DaysSinceMonday | frontend/src/views/Agenda.tsx:51 | `(getDay() + 6) % 7` lies in 0..6 |
| Agenda.ThursdayIsThursday | frontend/src/views/Agenda.tsx:51-52 | moving back by that count and forward by three lands on a Thursday; moving back lands on a Monday |
| Agenda.IsoWeek | frontend/src/views/Agenda.tsx:49-57 | the ISO 8601 week number the helper is meant to compute lies in 1..53 |
| Agenda.YearStart | frontend/src/views/Agenda.tsx:53 | a day lies within the 365 or 366 days of its year |
| Agenda.RoundFromJan4 | frontend/src/views/Agenda.tsx:53-55 | rounding whole days counted from January 4 into weeks is flooring days counted from January 1 |
| Agenda.WeekAsWrittenAtMidnight | frontend/src/views/Agenda.tsx:49-57 | for an instant at local midnight (what both callers pass), `toWeekInputValue` gives the ISO 8601 week of its day |
| Agenda.WeekAsWrittenAfternoon | frontend/src/views/Agenda.tsx:49-57 | for an instant later in the day the computation can round up: Wednesday 2021-01-06 13:00 UTC gives week 2 although the day is in week 1 |
| Agenda.MondayNear | frontend/src/views/Agenda.tsx:64-68 | the day `weekToDate` settles on is a Monday: that of its own week for Monday to Thursday, the next one otherwise |
| Agenda.WeekToDate | frontend/src/views/Agenda.tsx:59-70 | a week value that reads at all reads as a Monday |
| Agenda.WeekStart | frontend/src/views/Agenda.tsx:64-68 | the start of a week is a Monday |
| Agenda.WeekFieldsOf | frontend/src/views/Agenda.tsx:60 | a year and a week written as digits around `-W` split back into those two fields |
| Agenda.ReadWeekValue | frontend/src/views/Agenda.tsx:59-70 | a written week value from year 100 on reads back as the day computed for that year and week |
| Agenda.MondayOfThursday | frontend/src/views/Agenda.tsx:64-68 | from any of the seven days ending on a Thursday, `weekToDate`'s step reaches that Thursday's Monday |
| Agenda.WeekRoundTrip | frontend/src/views/Agenda.tsx:49-70 | `weekToDate` of the ISO week value of an instant is the Monday of its local week |
| Agenda.ListDays | frontend/src/views/Agenda.tsx:102-106 | the list shows at least one day, and seven when no range is in force |
| Agenda.ListVisibleRange | frontend/src/views/Agenda.tsx:108-112 | a visible range exists exactly in the list view with a range in force, and runs from its first day to the day after its last |
| Agenda.VisibleEndExclusive | frontend/src/views/Agenda.tsx:108-112 | the visible end is exactly one day after the range's last day |
| Agenda.EnsureRange | frontend/src/views/Agenda.tsx:84-91 | outside the list view, or with both ends set, the range is left as it is |
| Agenda.DefaultRangeDays | frontend/src/views/Agenda.tsx:84-106 | the range the list opens with spans seven days |
| Agenda.EditRange | frontend/src/views/Agenda.tsx:302-333 | after an edit the range applies exactly when both ends are set, its ends are in order when it applies, and they are the two values given, swapped exactly when both are set and the start comes after the end |
| Agenda.SetStart | frontend/src/views/Agenda.tsx:302-314 | the start handler edits the range with the new start and the old end |
| Agenda.SetEnd | frontend/src/views/Agenda.tsx:321-333 | the end handler edits the range with the old start and the new end |
| Agenda.Shift | frontend/src/views/Agenda.tsx:240-272 | without a range in force the range is unchanged (the calendar pages); with one, the moved range is in force |
| Agenda.PagingWritten | frontend/src/views/Agenda.tsx:241-267 | paging a written range by its length moves both ends to the adjacent block of days, back or forward |
| Agenda.ShiftKeepsLength | frontend/src/views/Agenda.tsx:241-267 | paging keeps the range's length and moves its start by that length |
| Agenda.Disable | frontend/src/views/Agenda.tsx:254-257 | the today and reset buttons switch the range off and keep its ends |
| Agenda.Midnight | frontend/src/views/Agenda.tsx:116-120 | the instant found for a day falls on that local day at midnight |
| Agenda.EventsForViewOverlap | frontend/src/views/Agenda.tsx:114-127 | outside the list view or without a range every event is kept; otherwise exactly the events with valid times that start before the day after the last day and end no earlier than the first day's midnight |
| Colors.ToInt32 | frontend/src/utils/colors.ts:38 | the 32-bit conversion gives a signed 32-bit value congruent to its argument modulo 2^32, and leaves 32-bit values unchanged |
| Colors.ToInt32Congruent | frontend/src/utils/colors.ts:37-38 | numbers congruent modulo 2^32 convert to the same 32-bit value |
| Colors.HashStep | frontend/src/utils/colors.ts:37-38 | one hash step is `31 h + c` reduced to a signed 32-bit value |
| Colors.LoopStep | frontend/src/utils/colors.ts:37-38 | the loop body `((h << 5) - h) + c` followed by `h & h` is exactly that step |
| Colors.Hash | frontend/src/utils/colors.ts:33-41 | the hash is at most 2^31 |
| Colors.HashString | frontend/src/utils/colors.ts:33-41 | the loop over the code units returns the absolute value of the folded 32-bit hash, which is never negative |
| Colors.SubjectColor | frontend/src/utils/colors.ts:48-56 | a blank subject is grey; any other gets the palette entry at its key's hash modulo 20 |
| Colors.GrayOnlyForBlank | frontend/src/utils/colors.ts:7-56 | a subject is grey exactly when it is blank, and every colour is grey or a palette entry |
| Colors.SameKeySameColor | frontend/src/utils/colors.ts:53 | subjects equal once trimmed and lower-cased get the same colour |
| Colors.PaletteEntries | frontend/src/utils/colors.ts:7-50 | every palette background is `#` and six hexadecimal digits, and grey is not in the palette |
| Colors.HexPair | frontend/src/utils/colors.ts:65-67 | two hexadecimal digits parse to a value below 256 |
| Colors.Components | frontend/src/utils/colors.ts:64-67 | the three components of a well-formed background are each in 0..255 |
| Colors.SubjectColorsAreHex | frontend/src/utils/colors.ts:48-56 | every colour a subject can get has a well-formed background |
| Colors.ComponentsInvert | frontend/src/utils/colors.ts:65-67 | each component's two hexadecimal digits are the background's own digits |
| Colors.SubjectColorLight | frontend/src/utils/colors.ts:61-69 | the light colour is `rgba(` with the background's red, green and blue in decimal, separated by `, `, ending in `0.1)` |
| StorageNamespace.Sanitize | frontend/src/utils/storageNamespace.ts:3-4 | the sanitised text has only `[a-z0-9_-]` characters and is no longer than the input |
| StorageNamespace.SanitizeAllowed | frontend/src/utils/storageNamespace.ts:3-4 | a text made only of allowed characters is left unchanged |
| StorageNamespace.SanitizeIdempotent | frontend/src/utils/storageNamespace.ts:3-4 | sanitising twice is sanitising once |
| StorageNamespace.SanitizeKeeps | frontend/src/utils/storageNamespace.ts:3-4 | allowed characters survive, and upper-case ASCII letters survive as lower case |
| StorageNamespace.Namespace | frontend/src/utils/storageNamespace.ts:1-6 | the namespace has only allowed characters |
| StorageNamespace.NamespacedStorageKey | frontend/src/utils/storageNamespace.ts:9-12 | the key is unchanged exactly when there is no namespace; otherwise it is `ns__` followed by the key |
| StorageNamespace.NamespacedDbName | frontend/src/utils/storageNamespace.ts:14-17 | the name is unchanged exactly when there is no namespace; otherwise it is the name followed by `__ns` |
| StorageNamespace.PrefixDetermines | frontend/src/utils/storageNamespace.ts:11 | a prefixed key determines its namespace |
| StorageNamespace.SuffixDetermines | frontend/src/utils/storageNamespace.ts:16 | a suffixed name determines its namespace |
| StorageNamespace.NamespacesSeparate | frontend/src/utils/storageNamespace.ts:1-17 | builds with different namespaces never share a storage key or a database name |
| ParseDiagnostics.WarningMessage | frontend/src/utils/parseDiagnostics.ts:4-15 | there is no warning exactly when the diagnostics are missing or report no error; a warning names both the error count and the skipped-event count |
| ParseDiagnostics.FatalDetail | frontend/src/utils/parseDiagnostics.ts:23-24 | the detail is non-empty exactly when a first, non-empty error message exists, and is then a space followed by it |
| ParseDiagnostics.FatalMessage | frontend/src/utils/parseDiagnostics.ts:17-35 | the fatal message starts with its language and context's template, contains the error count (0 without diagnostics) and ends with the detail |
| ParseDiagnostics.FatalMessageTells | frontend/src/utils/parseDiagnostics.ts:25-34 | equal fatal messages come from the same language and context |
| ParseDiagnostics.FatalMessageStart | frontend/src/utils/parseDiagnostics.ts:25-34 | the first characters of a fatal message tell its language and its context |
| UiState.Reduce | frontend/src/state/uiState.tsx:94-128 | each `set_*` action writes its own field to the given value and leaves every other field; `reset_after_purge` yields the purged state (settings view, nothing selected, filters reset, panels closed) keeping language and theme; an unknown action changes nothing |
| UiState.ReduceIdempotent | frontend/src/state/uiState.tsx:94-128 | dispatching the same action twice is dispatching it once |
| UiState.PurgeForgets | frontend/src/state/uiState.tsx:114-124 | the state after a purge depends only on the language and theme before it |
| UiState.IndependentActionsCommute | frontend/src/state/uiState.tsx:96-113 | actions writing different fields commute |
| UiState.InitialLang | frontend/src/state/uiState.tsx:52-60 | a stored `fr` or `en` wins; anything else gives the detected language |
| UiState.InitialThemeMode | frontend/src/state/uiState.tsx:62-70 | a stored `light` or `dark` wins; anything else gives `system` |
| UiState.InitialSelectedTeacher | frontend/src/state/uiState.tsx:72-78 | the stored teacher, or empty when none is stored |
| UiState.CreateInitialState | frontend/src/state/uiState.tsx:80-92 | start-up opens the agenda with nothing selected, panels closed, initial filters, and the stored language, teacher and theme |
| UiState.PurgeAfterStart | frontend/src/state/uiState.tsx:80-124 | a purge right after start-up only moves to the settings view and clears the restored teacher |
| Persistence.WithEventDefaults | frontend/src/hooks/useCalendarPersistence.ts:35-40 | malformed teacher and promo lists become empty, a missing description the empty string, and every other field is kept |
| Persistence.EventDefaultsKeep | frontend/src/hooks/useCalendarPersistence.ts:35-40 | a complete event comes back unchanged |
| Persistence.EventDefaultsIdempotent | frontend/src/hooks/useCalendarPersistence.ts:35-40 | applying the event defaults twice is applying them once |
| Persistence.RemoteDefaults | frontend/src/hooks/useCalendarPersistence.ts:47-56 | the last attempt falls back to the last sync; the other remote fields are kept |
| Persistence.EventsDefaults | frontend/src/hooks/useCalendarPersistence.ts:46 | each stored event gets its defaults, in order |
| Persistence.WithCalendarDefaults | frontend/src/hooks/useCalendarPersistence.ts:42-57 | both switches default to on, a non-array event list becomes empty, each event gets its defaults, and a remote part exists exactly when one was stored and gets its defaults |
| Persistence.CalendarDefaultsKeep | frontend/src/hooks/useCalendarPersistence.ts:42-57 | a calendar written back loads unchanged except that a missing last attempt takes the last sync time |
| Persistence.CalendarDefaultsIdempotent | frontend/src/hooks/useCalendarPersistence.ts:42-57 | applying the calendar defaults twice is applying them once |
| Persistence.DefaultRules | frontend/src/hooks/useCalendarPersistence.ts:59-64 | every mapping and every hidden map is empty |
| Persistence.CoerceRules | frontend/src/hooks/useCalendarPersistence.ts:66-74 | a missing input gives the default rules; otherwise missing parts become empty and present parts are kept |
| Persistence.CoerceKeeps | frontend/src/hooks/useCalendarPersistence.ts:66-74 | complete rules are unchanged by coercion |
| Persistence.CoerceIdempotent | frontend/src/hooks/useCalendarPersistence.ts:66-74 | coercing twice is coercing once |
| Persistence.Load | frontend/src/hooks/useCalendarPersistence.ts:88-94 | the loaded rules are the coerced saved rules, or the defaults when none were saved |
| Persistence.LegacyMigration | frontend/src/hooks/useCalendarPersistence.ts:100-112 | a non-empty flat event list becomes one visible, counted calendar `legacy` named "Imported Schedule", in the legacy colour, holding the events with their defaults in order, and it becomes the main calendar |
| Persistence.LoadCalendars | frontend/src/hooks/useCalendarPersistence.ts:90-118 | otherwise the saved main id is used exactly when it is a non-empty string, saved calendars each get their defaults in order, and nothing saved gives no calendars |
| AppHandlers.InactiveIsInitial | frontend/src/App.tsx:144-149 | the filters are inactive exactly when they equal the initial filters apart from which days are listed, and seven days are listed |
| AppHandlers.ToggleDayActivates | frontend/src/App.tsx:144-149 | toggling one weekday of the initial filters puts a filter in force, and toggling it back lifts it |
| AppHandlers.ToggleListedDay | frontend/src/App.tsx:147 | toggling a listed weekday leaves six days, and toggling it again gives seven |
| AppHandlers.ToggleUnlistedDay | frontend/src/App.tsx:147 | toggling any other number appends it, and toggling it again drops it |
| AppHandlers.HandleImport | frontend/src/App.tsx:243-276 | the new calendar is appended after the old ones with the time as id, the given name and events, the next colour in turn, visible only when first, counted when from the service, and a remote part exactly when a source URL is given; it becomes the main calendar when first; the calendars saved are the new list, with a main id exactly when one exists |
| AppHandlers.RemoveKeepsOrder | frontend/src/App.tsx:290 | removal keeps the other calendars in their order |
| AppHandlers.RemoveAbsent | frontend/src/App.tsx:290 | removing an id nobody has changes nothing |
| AppHandlers.HandleRemove | frontend/src/App.tsx:289-294 | exactly the calendars without that id remain; the main id is cleared (saved as the empty string) when it named them, and otherwise kept and not saved |
| AppHandlers.ImportThenRemove | frontend/src/App.tsx:243-294 | removing a calendar just imported gives back the calendars before, and the main id too (none when there were no calendars) |
| AppHandlers.UpdateWhere | frontend/src/App.tsx:297-309 | updating the calendars with an id keeps their number |
| AppHandlers.HandleToggleVisible | frontend/src/App.tsx:296-300 | only the calendars with that id flip their visibility; the list is saved and the main id is untouched |
| AppHandlers.HandleToggleStats | frontend/src/App.tsx:302-306 | only the calendars with that id flip their counting switch; the list is saved and the main id is untouched |
| AppHandlers.HandleRename | frontend/src/App.tsx:308-312 | only the calendars with that id take the new name; the list is saved and the main id is untouched |
| AppHandlers.TogglesUndo | frontend/src/App.tsx:296-312 | toggling twice restores the calendars, and renaming twice to the same name is renaming once |
| AppHandlers.EditsKeepIds | frontend/src/App.tsx:296-312 | none of the three edits changes any calendar's id or place |
| AppHandlers.CourseSubjectJump | frontend/src/App.tsx:100-104 | an empty subject changes nothing; otherwise the course explorer opens on that subject and nothing else changes |
| RuleEdits.UpdateRule | frontend/src/App.tsx:419-425 | the category's mapping gets `from := to`; the other mappings and the hidden flags are unchanged |
| RuleEdits.RemoveRule | frontend/src/App.tsx:426-432 | the category's mapping loses exactly the key `from`; everything else is unchanged |
| RuleEdits.ToggleHide | frontend/src/App.tsx:433-444 | the value's hidden flag in that category flips (a missing flag counts as unset); mappings and other categories are unchanged |
| RuleEdits.ResetRules | frontend/src/App.tsx:445 | every mapping and every hidden map is empty |
| RuleEdits.UpdateThenRemove | frontend/src/App.tsx:419-432 | removing a rule just set gives the old mapping without that key, and the hidden flags as they were |
| RuleEdits.ToggleFlips | frontend/src/App.tsx:433-444 | toggling hides a value exactly when it was shown, leaves every other value, and toggling twice restores every flag |
| AdvancedFilters.InitialDays | frontend/src/components/AdvancedFilters.tsx:20-27 | the initial filters list each weekday 1..7 exactly once and nothing else |
| AdvancedFilters.ToggleDayIn | frontend/src/components/AdvancedFilters.tsx:40-46 | after a toggle the day is listed exactly when it was not, and every other day is listed as before |
| AdvancedFilters.ToggleDay | frontend/src/components/AdvancedFilters.tsx:40-46 | a toggle changes only the local copy's list of days |
| AdvancedFilters.ToggleTwice | frontend/src/components/AdvancedFilters.tsx:40-46 | toggling the same day twice restores which days are selected |
| AdvancedFilters.ToggleDayOrder | frontend/src/components/AdvancedFilters.tsx:44 | removing a day keeps the other days in order; adding one puts it last |
| AdvancedFilters.HandleReset | frontend/src/components/AdvancedFilters.tsx:53-58 | both the local copy and the applied filters become the initial filters |
| AdvancedFilters.ResetForgetsToggles | frontend/src/components/AdvancedFilters.tsx:40-58 | a reset gives the same result whatever days were toggled before |
| AdvancedFilters.ToggleAll | frontend/src/components/AdvancedFilters.tsx:40-46 | toggles never change the source or the date and time bounds |
| FilterBar.Subjects | frontend/src/components/FilterBar.tsx:31 | only non-empty subjects are collected |
| FilterBar.SubjectsMembers | frontend/src/components/FilterBar.tsx:29-32 | a subject is collected exactly when some event carries it and it is not empty |
| FilterBar.DistinctStep | frontend/src/components/FilterBar.tsx:31 | the `Set` grows by an event's subject exactly when it is new and non-empty |
| FilterBar.FullPrefix | frontend/src/components/FilterBar.tsx:30 | once twenty subjects are collected they are the first twenty distinct subjects of all the events |
| FilterBar.Collect | frontend/src/components/FilterBar.tsx:27-32 | the loop, with its early exit, collects the first twenty distinct non-empty subjects in event order, and stops early only when it has twenty |
| FilterBar.Suggestions | frontend/src/components/FilterBar.tsx:26-34 | the suggestions are those subjects, sorted |
| FilterBar.FirstDistinctFacts | frontend/src/components/FilterBar.tsx:26-34 | at most twenty subjects, each once, each the non-empty subject of some event, in order of first appearance, and all of them when there are at most twenty |
| FilterBar.SuggestionsDistinct | frontend/src/components/FilterBar.tsx:33 | sorted suggestions have no repeats, at most twenty entries, none of them empty |

## Left out

- The `ical` crate's grammar (line folding, `BEGIN`/`END`, property syntax): the parser works on an abstract stream of decoded calendars and decode errors, and an error's text is given.
- The `u32` diagnostics counters are unbounded naturals; wrap-around after 2^32 items is not modelled.
- `local_offset` in production (`Local::now()`), `Date.now()` and the host time zone are parameters; daylight-saving changes within one run are not modelled.
- Floating point: `f32` and JavaScript number rounding of hours, and `toFixed` display, are replaced by exact `real` and integer arithmetic.
- chrono's and `regex`'s own implementations: the patterns and formats are explicit predicates; leap second 60 is not accepted.
- JsTime.ParseIcsDateTime: the native `new Date(value)` branch is left out (host parser); only the compact-pattern branch is modelled, and years 0-99 follow the `new Date` rule of 1900 + y.
- WASM and worker glue: `agendum-core/src/lib.rs`, `useIcsParserWorker.ts`, `icsParser.worker.ts` (foreign calls, message passing, concurrency).
- Network and timers: `useRemoteCalendars.ts` (fetch, refresh scheduling, re-entrancy); its rate-limit arithmetic is modelled through `remoteCalendars.ts`.
- Storage I/O: IndexedDB and `localStorage` reads and writes (the `localStorage` fallback of `loadPersistedState`, saving and purging), the purge confirmation dialog; the stored values are parameters of the modelled helpers.
- Browser effects in `App.tsx`: history and `popstate` handling, `matchMedia`, theme and DOM effects.
- Rendering: JSX components, `toLocaleDateString`/`toLocaleTimeString`, tab switching on the fix screen, week-input support detection.
- The agenda's calendar widget calls (`gotoDate`, `prev`, `next`): the model computes the range they are given.
- `localeCompare` is read as code-point order, not a locale collation; `detectLang` and `import.meta.env` are parameters.
- Case mapping: `toLowerCase`, `toUpperCase` and Rust's `to_uppercase` are modelled character by character over ASCII and Latin-1 (plus long s to `S`, `Text.LowerChar` and `Text.UpperChar`); other scripts, Œ/œ, the Kelvin sign, dotted İ, final sigma and mappings to several characters are left unchanged.
- DerivedEvents.SearchResults: the lower-cased comparison covers only the Latin-1 case mapping above, so a query and a subject that differ in case outside Latin-1 (Greek, Cyrillic, Œ) are not matched as JavaScript would match them.
- DerivedEvents.SearchIgnoresCase: holds for case differences in ASCII and Latin-1 only, for the same reason.
- ServiceDashboard.BaseEvents: the selected teacher is compared case-insensitively with the Latin-1 case mapping only.
- CourseExplorer.Subjects: the filter's lower-cased containment test uses the Latin-1 case mapping only.
- FixScreen.FilteredEntries: the lower-cased search term and names use the Latin-1 case mapping only.
- Colors.SubjectColor: the colour key is lower-cased with the Latin-1 case mapping only, so subjects differing in case outside Latin-1 may get different keys where JavaScript gives one.
- Colors.SameKeySameColor: equal keys are those equal under the Latin-1 case mapping, a subset of those equal under JavaScript's `toLowerCase`.
- StorageNamespace.Sanitize: lower-cases with the Latin-1 mapping before filtering, so the Kelvin sign (U+212A) and dotted İ, which `toLowerCase` maps to ASCII letters, are dropped instead of kept as `k` and `i`.
- SummaryPatterns.TypeAtSpec: the word boundary `\b` uses ASCII digits, letters and underscore and the Latin-1 and Latin Extended-A/B letters (`SummaryPatterns.IsWordChar`), not the full Unicode `\w` of the `regex` crate, so a type followed by a Greek letter, a combining mark or another non-Latin letter is read as at a boundary.
- SessionOrdinals.SortedSetFacts: the `.sort()` calls at `frontend/src/utils/sessionOrdinals.ts:26` and `frontend/src/utils/sessionOrdinals.ts:47` compare UTF-16 code units, the model code points; the sorted tokens only form keys compared for equality, and equal sets sort alike under either order, so which events share a series is unaffected.
- FilterBar.Suggestions: the default `.sort()` compares UTF-16 code units, the model code points; the two disagree only between a character above U+FFFF and one in U+E000-U+FFFF.
- Text.ToNumber: `Number(s)` is modelled on blank and decimal-digit strings only; signs, fractions, exponents, hexadecimal and `Infinity` read as not a number.
- JavaScript `Date` range: instants beyond ±8.64e15 ms are an Invalid Date in JavaScript, while `JsTime` and `Agenda` compute on unbounded integers.
- Normalizer.ParseCompact: a strict 15-character `YYYYMMDDTHHMMSS` form; chrono's numeric items also accept shorter digit runs, signed years and white space before a number, which the model rejects.
- DerivedEvents.NormalizeValue: the rename and hide Records are read as maps of their own keys; a key that `Object.prototype` supplies (`constructor`, `toString`, `valueOf`, `hasOwnProperty`) is present and truthy in JavaScript, so such a value is hidden there and kept by the model.
- FixScreen.Apply: drafts and rules are read as maps of their own keys; for a name such as `toString` with no draft, JavaScript finds the inherited function and `.trim()` throws a TypeError, while the model returns no rule.
- FixScreen.ApplyEmits: the emitted-rule condition ranges over own keys only; for an inherited prototype key the source throws instead of emitting nothing.
- FixScreen.ToggleSelected: the selection Record is read as a map of its own keys; `!prev[val]` reads an inherited key such as `constructor` as set and stores `false`, where the model stores `true`.
- RuleEdits.ToggleHide: the hidden Record is read as a map of its own keys; `!prev.hidden[category][value]` reads an inherited key as set and stores `false`, where the model stores `true`.
- Normalizer.ParseOffset: the minus sign U+2212, which recent chrono releases accept for `%z`, is rejected.
- Teacher and promo extraction, description cleaning and trailing-date stripping are not in the core code; `teachers`, `promos` and `cleaned_description` are opaque inputs with defaults.

## Findings

| source | as written | input that shows it | evidently intended | confidence | as-written member | corrected member |
|---|---|---|---|---|---|---|
| agendum-core/src/parser.rs:29-35 | the chain of `replace` calls rewrites `\n` before `\\`, so an escaped backslash followed by `n` becomes backslash and line feed | the value `\\n` (backslash, backslash, n) | unescaping in one left-to-right pass as section 3.3.11 of RFC 5545 describes, giving backslash and `n` | not executed | IcsParser.UnescapeIcalEscapedBackslash | IcsParser.UnescapeEscape |
| agendum-core/src/parser.rs:63-65 | `SUMMARY`, `DESCRIPTION` and `LOCATION` go through that chain, so an escaped backslash followed by `n` in a field becomes a line break | the `SUMMARY` value `\\n` | the field holds backslash and `n` | not executed | IcsParser.AsWrittenSummaryEscapedBackslash | IcsParser.OnePassFieldsRoundTrip |
| agendum-core/src/normalizer.rs:33 | the format `%Y%m%dT%H%M%SZ` matches `Z` as a literal and sets no offset, so chrono cannot build a `DateTime` and the UTC reading always fails; the `%z` reading does not take `Z` either, so the time is kept raw | `20250101T100000Z`, the start of the test's second event | read as UTC, as the comment says and as the test's 1.5 hours expect | not executed | NormalizerScenarios.IpdTpClaAsWritten | NormalizerScenarios.IpdTpClaEvent |
