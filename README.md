# Blood-glucose log: a verified model of its analytics, backup and request logic

The system is a web application for a personal blood-glucose log. Readings are stored with an
Oslo-local day key ("YYYY-MM-DD") and flagged as fasting and/or post-meal. Post-meal readings
can also carry a meal type. This project models the logic that decides what the user sees and
what the server accepts:

- the dashboard statistics, with the thresholds 5.3 mmol/L (fasting) and 6.7 mmol/L (post-meal);
- the per-meal breakdown;
- the smoothed daily trend and its label;
- the statistics block of the PDF report;
- the validation of an uploaded backup;
- the constant-time token comparison and the hex encoding of the session code;
- the week and range arithmetic of `GET /api/readings`;
- the routing decision of the request middleware.

Conventions:

- A glucose value is an integer number of tenths of mmol/L, because the column is numeric(4,1).
  So 5.3 is `53`, and every threshold is compared exactly.
- Means are exact `real`s in the same unit.
- Day keys are strings, and their order is the order in which JavaScript compares strings
  (`Lex.Less`). The model proves that this order is chronological for well-formed keys.
- Calendar dates follow the proleptic Gregorian calendar. Day numbers count from 1970-01-01,
  and the weekday is the one `getUTCDay` gives.

Where the source takes input from outside, the model takes that input as a parameter:

- the civil date of a parsed instant;
- the current day;
- whether the session cookie is valid.

Behaviour that is modelled exactly as the code is written:

- The meal-order list contains "Annet". But labels are lower-cased before the lookup, so "annet"
  is never found. The "Annet" group therefore has rank 99, like every label that is not in the
  list (`MealBreakdown.RankOther`).
- The middleware has a redirect for a signed-in user on "/login". It can never run, because
  "/login" is exempt and passes first (`Middleware.Decide` proves `r != Redirect("/")`).
- The report and the dashboard use different compliance rules (`ReportStats.RulesDiverge`).
- The range check compares keys only by their shape. A key such as "2026-13-45" passes the
  format test, and the model records this (`DayKey.ShapeOnly`).

Modules:

- `Domain`: readings, filters, sums and means.
- `Grouping`: first-seen-order grouping, the model of a JavaScript `Map` filled by `forEach`.
- `Lex`: JavaScript string order and the default `sort()`.
- `StableSort`: the stable sort by a numeric key.
- `Dashboard`, `MealBreakdown`, `DailyTrends`: the three analytics functions.
- `ReportStats`: the report statistics.
- `Backup`: backup validation.
- `EdgeCrypto`: token comparison and hex encoding.
- `CivilDate`: the calendar.
- `DayKey`: the key format, its parse and its formatting.
- `ReadingsRoute`: `GET /api/readings`.
- `Middleware`: the routing decision.
- `Fixtures`: the test data of the analytics tests.

`MealBreakdown.ComputeMealBreakdown`, `DailyTrends.ComputeDailyTrends`, `EdgeCrypto.SafeCompare`
and `ReadingsRoute.Get` are methods with loops or early returns, as in the source. The first two
are proved equal to the specification functions that the property lemmas are about.

## Model

| member | source | states |
|---|---|---|
| Dashboard.Max | src/lib/domain/analytics.ts:122 | `Math.max` of a non-empty list is one of its elements and no element exceeds it |
| Dashboard.Min | src/lib/domain/analytics.ts:122 | `Math.min` of a non-empty list is one of its elements and no element is below it |
| Dashboard.LastLoggedAt | src/lib/domain/analytics.ts:43-45 | null exactly for no readings; otherwise the latest `measuredAt` of some reading, at least every reading's |
| Dashboard.WeekCompleteness | src/lib/domain/analytics.ts:52-53 | seven times the completeness is the number of distinct day keys of the 7-day list, at most its length |
| Dashboard.Average | src/lib/domain/analytics.ts:56-65 | null exactly when no reading has the flag; otherwise the mean times the count is the sum of that kind's values |
| Dashboard.CompliancePercentage | src/lib/domain/analytics.ts:68-77 | 100 for no readings; always within 0..100; otherwise the percentage of compliant readings |
| Dashboard.Coverage | src/lib/domain/analytics.ts:91-96 | the number of distinct days with a reading of the kind, never more than the distinct days overall |
| Dashboard.WithinTarget | src/lib/domain/analytics.ts:102-108 | null exactly when no reading has the flag; otherwise `total` is that kind's count and `within` counts those at or under the limit |
| Dashboard.HighLow | src/lib/domain/analytics.ts:118-123 | null exactly when no reading has the flag; otherwise `high` and `low` are values of that kind that bound all of them |
| Dashboard.ComputeDashboardStats | src/lib/domain/analytics.ts:36-145 | average and within-target are null together; the over-target and compliant counts add up to all readings; the untyped count is at most the compliant count; coverage is at most the days of the week |
| Dashboard.CompliantOverComplement | src/lib/domain/analytics.ts:68-88 | every reading is either compliant or over target, never both |
| Dashboard.UntypedAreCompliant | src/lib/domain/analytics.ts:68-73 | a reading with neither flag always passes the compliance filter, so the untyped count is at most the compliant count |
| Dashboard.AverageAgreesWithWithin | src/lib/domain/analytics.ts:59-108 | the average is null exactly when the within-target figure is |
| Dashboard.TypeCountIdentity | src/lib/domain/analytics.ts:56-99 | untyped, fasting and post-meal counts add up to the total plus the readings flagged both ways |
| Dashboard.FastingWithinComplementsOver | src/lib/domain/analytics.ts:80-108 | for fasting readings, within-target plus over-target is the total |
| Dashboard.FastingSplit | src/lib/domain/analytics.ts:80-88 | a list of fasting readings splits into those at or under 5.3 and those over it |
| Dashboard.DoublyFlaggedWithinAndOver | src/lib/domain/analytics.ts:80-108 | a reading flagged both ways at 6.0 is over target (checked as fasting) and also within target among the post-meal readings |
| Dashboard.FixtureFasting | src/lib/domain/analytics.test.ts:6-63 | the fasting readings of the test fixture are its first and third |
| Dashboard.FixturePostMeal | src/lib/domain/analytics.test.ts:6-63 | the post-meal readings of the fixture are its second and fourth |
| Dashboard.FixtureOver | src/lib/domain/analytics.test.ts:70 | the over-target readings of the fixture are 5.5 and 7.0 |
| Dashboard.FixtureAverages | src/lib/domain/analytics.test.ts:66-69 | the fixture averages are 5.25 and 6.75 |
| Dashboard.FixtureCounts | src/lib/domain/analytics.test.ts:70-72 | two readings over target; coverage 2 and 2 |
| Dashboard.FixtureWithinAndHighLow | src/lib/domain/analytics.test.ts:82-101 | within 1 of 2 for both kinds; high/low 5.5/5.0 and 7.0/6.5 |
| Dashboard.FixtureMissingType | src/lib/domain/analytics.test.ts:103-110 | one appended untyped reading gives a missing-type count of 1 |
| Dashboard.EmptyStats | src/lib/domain/analytics.test.ts:75-80 | no readings: null averages, no over-target, no coverage, 100 percent, no last-logged time |
| MealBreakdown.MealLabel | src/lib/domain/analytics.ts:160 | the label is "Annet" exactly when the meal type is missing, empty or "Annet"; otherwise it is the meal type |
| MealBreakdown.LowerChar | src/lib/domain/analytics.ts:186 | only A-Z are lowered, by 32 code points; the result has no capital |
| MealBreakdown.Lower | src/lib/domain/analytics.ts:186 | lower-casing preserves length and works character by character |
| MealBreakdown.IndexOf | src/lib/domain/analytics.ts:186-187 | -1 exactly for an absent string; otherwise the first position holding it |
| MealBreakdown.StatOf | src/lib/domain/analytics.ts:170-180 | the row names its group and counts it; the over-target count is at most the count |
| MealBreakdown.ComputeMealBreakdown | src/lib/domain/analytics.ts:154-190 | the grouping loop, the gating loop and the sort give exactly `MealBreakdownOf` |
| MealBreakdown.StatAverage | src/lib/domain/analytics.ts:171-172 | the average times the count is the sum of the group's values |
| MealBreakdown.StatOverTarget | src/lib/domain/analytics.ts:173 | every reading is over 6.7 iff the over-target count equals the count; none is iff it is zero |
| MealBreakdown.GroupIsFilter | src/lib/domain/analytics.ts:159-164 | a label's group is exactly the post-meal readings with that label, in input order |
| MealBreakdown.CollectStatsMember | src/lib/domain/analytics.ts:167-181 | each kept row comes from a group of at least three |
| MealBreakdown.CollectStatsComplete | src/lib/domain/analytics.ts:167-181 | every group of at least three gives a row |
| MealBreakdown.CollectStatsTypes | src/lib/domain/analytics.ts:167-181 | no two rows share a meal type |
| MealBreakdown.MealBreakdownSound | src/lib/domain/analytics.ts:154-190 | every row is the statistic of the post-meal readings with its label, and there are at least three of them |
| MealBreakdown.MealBreakdownComplete | src/lib/domain/analytics.ts:154-190 | every label with at least three post-meal readings has its row |
| MealBreakdown.MealBreakdownDistinct | src/lib/domain/analytics.ts:158-181 | the result lists each meal type at most once |
| MealBreakdown.MealBreakdownOrdered | src/lib/domain/analytics.ts:184-189 | rows are in non-decreasing rank, unknown labels (99) last |
| MealBreakdown.MealBreakdownStable | src/lib/domain/analytics.ts:185-189 | rows of equal rank keep their first-seen order |
| MealBreakdown.RankIgnoresCase | src/lib/domain/analytics.ts:186 | "Frokost" ranks first |
| MealBreakdown.RankLunch | src/lib/domain/analytics.ts:184-186 | "LUNCH" ranks at position 3 |
| MealBreakdown.RankOther | src/lib/domain/analytics.ts:184-188 | "Annet" is lowered to "annet", which is not in the list, so it ranks 99 |
| MealBreakdown.MockBreakdownEmpty | src/lib/domain/analytics.test.ts:114-117 | the fixture has no meal group of three, so the result is empty |
| MealBreakdown.ManyBreakfastsLabels | src/lib/domain/analytics.test.ts:119-124 | the labels of the extended fixture are frokost, lunsj, frokost, frokost |
| MealBreakdown.ManyBreakfastsOnlyBreakfast | src/lib/domain/analytics.test.ts:125-127 | every row of the extended fixture is "frokost" |
| MealBreakdown.ManyBreakfastsOne | src/lib/domain/analytics.test.ts:126 | the extended fixture has exactly one row |
| MealBreakdown.ManyBreakfastsBreakdown | src/lib/domain/analytics.test.ts:119-129 | that row is frokost, count 3, average 7.0, all three over target |
| DailyTrends.Latest | src/lib/domain/analytics.ts:210 | `slice(-7)` keeps min(n, 7) elements |
| DailyTrends.RawAverages | src/lib/domain/analytics.ts:217-220 | one point per day, each the mean of that day's values |
| DailyTrends.Smooth | src/lib/domain/analytics.ts:223-228 | dates kept; the first two points unchanged; every later point is the mean of its three-point window |
| DailyTrends.Classify | src/lib/domain/analytics.ts:231-237 | rising iff the difference exceeds 0.3, falling iff it is below -0.3, stable otherwise |
| DailyTrends.SelectDays | src/lib/domain/analytics.ts:210 | at most seven of the day keys, all taken from the input |
| DailyTrends.ComputeDailyTrends | src/lib/domain/analytics.ts:197-240 | the grouping loop and the rest give exactly `DailyTrendsOf` |
| DailyTrends.DistinctDaysCount | src/lib/domain/analytics.ts:202-210 | the map has as many keys as there are distinct day keys |
| DailyTrends.SelectDaysAscending | src/lib/domain/analytics.ts:210 | the kept days are strictly ascending |
| DailyTrends.SelectDaysLatest | src/lib/domain/analytics.ts:210 | a dropped day is earlier than every kept day |
| DailyTrends.TrendsLength | src/lib/domain/analytics.ts:212-214 | fewer than three days gives no data and no label; otherwise min(days, 7) points and a label |
| DailyTrends.TrendsPoints | src/lib/domain/analytics.ts:210-228 | the points are dated by the kept days, in order |
| DailyTrends.TrendsAscending | src/lib/domain/analytics.ts:210 | the dates are strictly ascending |
| DailyTrends.TrendsOnDays | src/lib/domain/analytics.ts:202-210 | every date is the day key of some reading |
| DailyTrends.TrendsLatest | src/lib/domain/analytics.ts:210 | a day with readings that is not shown is earlier than every day shown |
| DailyTrends.DayMeans | src/lib/domain/analytics.ts:217-220 | one point per given day, each that day's mean |
| DailyTrends.RawIsDayMeans | src/lib/domain/analytics.ts:202-220 | the averages taken from the grouping map are the day means of the readings |
| DailyTrends.TrendsRaw | src/lib/domain/analytics.ts:197-228 | the data is the smoothing of the day means of the kept days |
| DailyTrends.TrendsAverages | src/lib/domain/analytics.ts:217-228 | the first two points are their day's mean; each later one is the mean of three consecutive day means |
| DailyTrends.TrendsLabel | src/lib/domain/analytics.ts:230-237 | the label classifies the last smoothed point minus the first |
| DailyTrends.FiveTrendDays | src/lib/domain/analytics.test.ts:139-148 | the five-day fixture keeps all five of its day keys |
| DailyTrends.DayAverageSingle | src/lib/domain/analytics.ts:217-220 | a day with one reading averages to that reading's value |
| DailyTrends.FiveDaysExample | src/lib/domain/analytics.test.ts:139-151 | five points; the first is 5.0 and the last is 8.0 smoothed; the label is rising |
| DailyTrends.MockTrendsShort | src/lib/domain/analytics.test.ts:133-137 | the two-day fixture gives no data and no label |
| ReportStats.MeanOrNull | src/lib/report/report-data.ts:48-50 | null exactly for an empty list; otherwise the mean times the count is the sum |
| ReportStats.MealTypeStatOf | src/lib/report/report-data.ts:53-60 | the row counts the post-meal readings whose meal type equals the label exactly, and averages them (null when there are none) |
| ReportStats.MealTypeStats | src/lib/report/report-data.ts:52-61 | one row per label, in list order |
| ReportStats.Percent | src/lib/report/report-data.ts:75 | within 0..100, and the share of compliant readings |
| ReportStats.CalculateStats | src/lib/report/report-data.ts:41-77 | null exactly for no readings; otherwise the total, five rows in table order, and the compliant share |
| ReportStats.CountsBound | src/lib/report/report-data.ts:52-61 | with distinct labels, the row counts add up to at most the readings given |
| ReportStats.MealCountsBound | src/lib/report/report-data.ts:46-61 | the row counts add up to at most the post-meal readings |
| ReportStats.MealRow | src/lib/report/report-data.ts:52-61 | row i is the exact-match count of post-meal readings for the i-th label |
| ReportStats.AvgFastingAgrees | src/lib/report/report-data.ts:45-50 | the report's fasting average is the dashboard's, null iff no reading is fasting |
| ReportStats.RulesDiverge | src/lib/report/report-data.ts:64-69 | a fasting 6.0 complies in the report but not on the dashboard; a post-meal 8.0 likewise |
| ReportStats.LabelsCaseSensitive | src/lib/report/report-data.ts:53 | a "frokost" reading is not counted in the "Frokost" row |
| Backup.Or | src/lib/backup/validate.ts:20 | the logical or of two values is truthy iff either side is |
| Backup.Coalesce | src/lib/backup/validate.ts:21 | `a ?? b` is nullish iff both are, and is `a` when `a` is not nullish |
| Backup.FirstFault | src/lib/backup/validate.ts:18-26 | none iff every entry passes; otherwise the first failing entry |
| Backup.ValidateBackup | src/lib/backup/validate.ts:3-45 | succeeds exactly for a well-formed backup and then returns it unchanged |
| Backup.RejectsNonObject | src/lib/backup/validate.ts:4-6 | a falsy value or a non-object is "Not an object" |
| Backup.RejectsVersion | src/lib/backup/validate.ts:8-10 | an object whose version is not 1 or 2 is refused, naming the version |
| Backup.ArrayHasNoVersion | src/lib/backup/validate.ts:4-10 | an array passes the object test and fails on its undefined version |
| Backup.RejectsMissingReadings | src/lib/backup/validate.ts:12-14 | a supported version without a readings array is refused |
| Backup.RejectsFirstBadReading | src/lib/backup/validate.ts:18-26 | the first bad reading decides the error |
| Backup.RejectsFirstBadDose | src/lib/backup/validate.ts:29-41 | with all readings good, the first bad dose decides the error |
| Backup.RejectsDosesNotArray | src/lib/backup/validate.ts:29-32 | truthy doses that are not an array are refused |
| Backup.FalsyDosesIgnored | src/lib/backup/validate.ts:29 | falsy doses are never checked |
| Backup.AcceptsCamelCase | src/lib/backup/validate.test.ts:5-24 | a camelCase reading is accepted |
| Backup.AcceptsSnakeCase | src/lib/backup/validate.test.ts:26-45 | a snake_case reading is accepted |
| Backup.RejectsMissingFields | src/lib/backup/validate.test.ts:47-61 | a reading with only an id is refused |
| Backup.VersionExamples | src/lib/backup/validate.test.ts:63-70 | version 999 is refused; versions 1 and 2 are accepted |
| Backup.RejectsNoReadings | src/lib/backup/validate.test.ts:72-78 | a backup without readings is refused |
| Backup.OrVersusCoalesce | src/lib/backup/validate.ts:20-23 | the logical or lets an empty `measuredAt` fall back to `measured_at` and `??` lets a null value fall back; an empty-string value is kept and passes, a `false` value is kept and fails |
| Backup.NullReadingThrows | src/lib/backup/validate.ts:18-19 | a null reading fails on reading its `id` |
| EdgeCrypto.SafeCompare | src/lib/auth/edge-crypto.ts:32-42 | true iff the strings are equal; different lengths return at once; equal lengths visit every position |
| EdgeCrypto.AccumulatedZero | src/lib/auth/edge-crypto.ts:37-41 | the OR of the XORs is zero iff the prefixes agree |
| EdgeCrypto.CompareSymmetric | src/lib/auth/edge-crypto.ts:37-41 | the comparison is symmetric |
| EdgeCrypto.ByteHex | src/lib/auth/edge-crypto.ts:49 | each byte becomes exactly two hex digits, high nibble first |
| EdgeCrypto.BufferToHex | src/lib/auth/edge-crypto.ts:47-51 | twice as many characters as bytes, all lowercase hex digits |
| EdgeCrypto.HexRoundTrip | src/lib/auth/edge-crypto.ts:47-51 | decoding the hex text gives back the bytes |
| EdgeCrypto.HexInjective | src/lib/auth/edge-crypto.ts:47-51 | different buffers give different text |
| EdgeCrypto.HexExample | src/lib/auth/edge-crypto.ts:49 | [0, 10, 255] gives "000aff" |
| CivilDate.DayNumberOrder | src/app/api/readings/route.ts:61-71 | calendar order is day-number order, and different valid dates have different numbers |
| CivilDate.AddDays | src/app/api/readings/route.ts:64 | `addDays` gives a valid date exactly k days later |
| DayKey.MakeDate | src/app/api/readings/route.ts:61 | a month outside 1..12 or a day outside 1..31 is an invalid date; otherwise the day rolls over from the 1st of the month |
| DayKey.ParseNoon | src/app/api/readings/route.ts:69 | a parsed key is a valid date |
| DayKey.Format | src/app/api/readings/route.ts:65 | a date in years 0..9999 formats to a text that the day-key test accepts |
| DayKey.ParseFormat | src/app/api/readings/route.ts:61-71 | parsing a formatted date gives it back, for years up to six digits |
| DayKey.DigitsLess | src/app/api/readings/route.ts:22 | digit strings of equal length compare as their numbers |
| DayKey.KeyOrder | src/app/api/readings/route.ts:22 | for well-formed keys, string order is year-month-day order |
| DayKey.LexIsChronological | src/lib/utils/day-key-grouping.test.ts:37-55 | for keys naming real dates, string order is day-number order, and the keys parse to those dates |
| DayKey.FormatExamples | src/lib/utils/week-key.test.ts:48-65 | "2026-01-05" passes the format test; short, slashed, reversed, timed and empty texts fail it |
| DayKey.ShapeOnly | src/app/api/readings/route.ts:37 | "2026-13-45" passes the format test but is not a date |
| ReadingsRoute.MondayOffsetLands | src/app/api/readings/route.ts:62-64 | the offset is 0..-6 and lands on a Monday |
| ReadingsRoute.WeekStart | src/app/api/readings/route.ts:59-65 | a Monday at most six days before the date |
| ReadingsRoute.WeekStartUnique | src/app/api/readings/route.ts:59-65 | it is the only such Monday |
| ReadingsRoute.DerivedWeek | src/app/api/readings/route.ts:60-69 | the key of the date and of its Monday read back as those dates |
| ReadingsRoute.Get | src/app/api/readings/route.ts:10-84 | range mode first, with format and order errors; then a given week start checked only for shape; then an invalid date refused; otherwise Monday to Sunday of the date's week, for every date a JavaScript `Date` can hold |
| ReadingsRoute.WeekOfJan5 | src/lib/utils/week-key.test.ts:20-32 | every day from 2026-01-05 to 2026-01-11 has week start 2026-01-05 |
| ReadingsRoute.WeekOfJan12 | src/lib/utils/week-key.test.ts:67-79 | 2026-01-12 starts the next week |
| ReadingsRoute.WeekEndExample | src/lib/utils/week-key.test.ts:34-46 | the week of 2026-01-05 ends at "2026-01-11" |
| ReadingsRoute.WeekIncludesJan8 | src/lib/utils/week-key.test.ts:34-46 | "2026-01-08" lies between the week's keys |
| Middleware.Decide | src/middleware.ts:4-33 | passes iff the path is exempt or the session is valid; 401 "Unauthorized" iff it is an unauthenticated API path; otherwise a redirect to "/login"; never a redirect to "/" |
| Middleware.ExactMatchOnly | src/middleware.ts:4-15 | exempt paths match exactly: a sub-path or a trailing slash is guarded, while "/_next" is matched as a prefix |

## Left out

- `hasLoggedToday` (src/lib/domain/analytics.ts:48) depends on the wall clock and the server's time zone. It is not in the `DashboardStats` datatype.
- `computeDayKey` and the Europe/Oslo time zone are not part of this model. A reading's `dayKey` is a given field, and `GET` receives the Oslo civil date of the parsed `date` (or of now) as a parameter.
- `parseISO` is not modelled. Its result is given as an optional date, where none stands for an invalid date.
- Floating point is not modelled: values are exact tenths and means are exact reals. `parseFloat` of a malformed value (NaN) is not modelled, and the tests' `toBeCloseTo` becomes exact equality.
- `toLowerCase` folds only A-Z. Other letters are left as they are.
- JavaScript strings are code units in `EdgeCrypto` and `char`s elsewhere. Surrogate pairs play no role in the modelled logic.
- The JSON text of an offending entry in backup errors is not modelled; the error carries the entry instead. The message of an unsupported version is modelled without the interpolated version.
- The middleware's `matcher` configuration (src/middleware.ts:35-37) is not modelled. Neither is `isValidSession`, whose HMAC check is given as `authenticated`. Redirects are modelled as paths, not absolute URLs.
- `hmacSign` (WebCrypto), `getReportData`, `POST /api/readings`, the database calls and the Cache-Control headers are I/O and are not part of this model. A successful `GET` is the `Fetch(start, end)` outcome, and database errors are not modelled.
- The correlation engine and the rest of the application (UI, settings, insulin doses, export) are not part of this model.
- ReadingsRoute.Get: `computeDayKey` (src/lib/utils/day-key.ts:3-14) is not part of this model. Its Oslo day key is taken to be written the way `toISOString` writes a date (`DayKey.Format`). The two agree for years 1000..9999. The model does not capture how `Intl.DateTimeFormat` writes other years, or the 500 answer when that text fails to parse.
- CivilDate.AddDays: it is calendar-day arithmetic on the noon instant. It matches the source only when the server's UTC offset is under twelve hours, so that date-fns `addDays` in local time keeps the UTC calendar day.
- DayKey.ParseNoon: it covers the texts the route builds or checks: "YYYY-MM-DD" and the six-digit extended year. For a day past the end of its month, it follows V8's roll-over into the next month, not a stricter engine.
- The rising trend label "Økende" is written `Okende`. The test's expected text is the mis-encoded "Ã˜kende" (src/lib/domain/analytics.test.ts:151), which the model does not reproduce.
