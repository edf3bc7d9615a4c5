# narcolepsy-buddy core in Dafny

A model of the deterministic logic of narcolepsy-buddy, a personal tracker for people
with narcolepsy. Users log nights of sleep, naps, sleepiness check-ins (Stanford
Sleepiness Scale, SSS), medication intakes and two-arm self-experiments.

The model covers these parts of the application:

- the time helpers of `src/lib/db.ts`, and their copies in `src/lib/supabase-db.ts`:
  - total sleep across midnight;
  - nap duration;
  - the check-in context of an hour;
  - the `Xh Ym` rendering;
  - the logical sleep date;
- the row mappings and defaults of the store module, and the rows its `add*` functions insert;
- experiment creation in `src/pages/Experiments.tsx`:
  - validation;
  - the end date;
  - the A/B block schedule;
  - the status badges;
  - the list order;
- `generateSummary` of `src/pages/WeeklySummary.tsx`:
  - range filters and means;
  - the arm dates and arm values;
  - the observation rule;
- the chart data of `src/pages/Graphs.tsx`:
  - the date range;
  - check-in grouping with label counts;
  - sleep and nap rows;
  - medication counts;
- the dashboard of `src/pages/Index.tsx`:
  - the seven-day series;
  - today's naps;
  - last night's sleep and the latest score;
  - the active experiment and today's arm;
- the quick sleep form of `src/components/QuickSleepLog.tsx`:
  - the required fields;
  - the onset derived from bedtime plus a delay.

Representation:

- Dates are day numbers, `Calendar.Day`, with day 0 = 1970-01-01. `Calendar.IsoOrder`
  proves that comparing two ISO `YYYY-MM-DD` strings, as the application does, orders
  them the way their day numbers do. So every string comparison of dates is modelled as
  an integer comparison.
- Times of day are the text of an `<input type="time">`: empty, or `HH:MM`. They are
  read into minutes 0..1439.
- Means are `real`.
- Store reads are sequences passed in, in the order the store returns them.
- The pages read two different stores, and the model keeps each page's functions over
  the lists that page reads:
  - the dashboard reads every list from the remote (Supabase) store;
  - the weekly summary and the experiments page read the local IndexedDB store;
  - the graphs page reads sleep, naps and medication intakes locally, and check-ins and
    medications remotely;
  - the quick sleep form writes remotely, while the nap, check-in and medication forms
    and the experiments page write locally.

  A lemma that feeds one page's output into another page's input states what the
  functions do over shared lists, not something the application does.

Modules, one per file:

| module | file |
|---|---|
| `Optional` | `optional.dfy` |
| `Text` | `text.dfy` |
| `Js` | `js.dfy` |
| `Calendar` | `calendar.dfy` |
| `Clock` | `clock.dfy` |
| `Records` | `records.dfy` |
| `Metrics` | `metrics.dfy` |
| `Store` | `store.dfy` |
| `Stats` | `stats.dfy` |
| `Sorting` | `sorting.dfy` |
| `Experiments` | `experiments.dfy` |
| `Summary` | `summary.dfy` |
| `Graphs` | `graphs.dfy` |
| `Dashboard` | `dashboard.dfy` |
| `SleepLog` | `sleep_log.dfy` |

What the library modules hold:

- `Text`: decimal text and lexicographic order.
- `Js`: the JavaScript built-ins the code relies on: `trim`, `parseInt`, the truncating `%`, and `Math.round`.
- `Calendar`: civil dates, ISO text, `Mon D` labels, and the `setMonth`/`setFullYear` shifts.
- `Clock`: `HH:MM` text.
- `Records`: the entities.
- `Stats`: sums, means and filters.
- `Sorting`: an insertion sort by key under a total preorder, standing in for `Array.prototype.sort`.

The code tests `diff >= 0.5 || diff >= 45`. The first disjunct makes the second one
dead, so the threshold in effect is 0.5 for every metric, minutes included.
`Summary.Observation` states that threshold.

Behaviours of the code that the contracts make explicit:

- The observation names the arm with the higher value "better". It does so for every
  metric, including sleepiness, where lower is better.
- Graph label counts come from check-ins read through the store module. Its
  `getAllCheckIns` never copies `selected_data_points`, so every label column is 0
  (`Graphs.StoredCheckInsCountNoLabels`).
- Graph medication counts are keyed by the local intake's numeric `medication_id`
  (as text) but looked up by the remote medication's id, a uuid string. The two never
  match, so every medication column of the program is 0. The model gives both ids the
  one type `Id`. So `Graphs.ColumnFor` and `Graphs.MedRows` state the count the page
  evidently intends, over ids that match.
- A nap that crosses midnight has a negative duration. It enters the summary total, the
  dashboard total and the nap chart as a negative number.
- The `all` chart range starts on today's month and day in the year 2000. Only for a
  `today` in 2000 or later does the start come no later than the end.
- An experiment without an end date behaves differently on each page:
  - the experiment cards give it no badge;
  - the dashboard never treats it as running;
  - the weekly summary treats it as overlapping any range that ends on or after its start.
- The dashboard imports `formatMinutesAsTime` from the store module. So a missing total
  is shown with that copy's placeholder, which is the em dash's UTF-8 bytes read as
  Windows-1252, and not with an em dash (`Metrics.MisdecodedEmDash`).

## Model

| member | source | states |
|---|---|---|
| Metrics.TotalSleepMinutes | src/lib/db.ts:195-211 | no total exactly when onset or wake is missing or empty; otherwise a value in 0..1439 that leads from onset to wake on the clock, crossing midnight when wake is earlier |
| Metrics.ForwardMinutes | src/lib/db.ts:201-208 | the wrapped difference lies in 0..1439 and, added to the start, reaches the end modulo a day |
| Metrics.ForwardMinutesUnique | src/lib/db.ts:201-208 | no other duration under a day leads from the same start to the same end, so the total is the only one possible |
| Metrics.SameOnsetAndWakeIsZero | src/lib/db.ts:205-208 | equal onset and wake give 0 minutes, not a whole day |
| Metrics.NapDuration | src/lib/db.ts:213-223 | no duration exactly when start or end is empty; otherwise start plus the duration is the end, with no wrap |
| Metrics.NapAcrossMidnight | src/lib/db.ts:213-223 | a nap's duration is the sleep-style forward difference less a whole day when it crosses midnight; it is negative exactly then |
| Metrics.NapFromTenToMidnight | src/lib/db.ts:222 | a nap from 23:50 to 00:10 lasts -1420 minutes |
| Metrics.AutoDetectContext | src/lib/db.ts:225-230 | Morning iff hour < 11, Midday iff 11 <= hour < 16, Evening iff hour >= 16, never Other |
| Metrics.SplitMinutes | src/lib/db.ts:234-235 | floor division with a truncating remainder: parts in range and signed like the input, summing to the input, or to an hour less for a negative value that is not a whole number of hours |
| Metrics.FormatMinutesAsTime | src/lib/db.ts:232-237 | the em dash exactly for a missing value; for m >= 0 the hours m div 60 in decimal, `h `, the minutes m mod 60 in decimal, `m` |
| Metrics.FormatMinutesInjective | src/lib/db.ts:232-237 | two non-negative durations are shown alike iff they are equal |
| Metrics.NegativeHalfHour | src/lib/db.ts:234-235 | -30 minutes is shown as `-1h -30m` |
| Metrics.StoreFormatMinutesAsTime | src/lib/supabase-db.ts:525-530 | the store's copy shows its placeholder exactly for a missing value and otherwise agrees with the local helper |
| Metrics.MisdecodedEmDash | src/lib/supabase-db.ts:526 | the store's placeholder is the three UTF-8 bytes of the em dash, each read as a Windows-1252 character |
| Metrics.LogicalSleepDate | src/lib/db.ts:239-249 | the day before `now` iff hour < 12, `now`'s own day iff hour >= 12, across month and year ends |
| Clock.FormatClock | src/components/QuickSleepLog.tsx:50-54 | the `HH:MM` text of a minute of the day is well-formed and reads back as that minute |
| Clock.FormatClockOfClockMinutes | src/components/QuickSleepLog.tsx:50-54 | a well-formed time is written back exactly as it was read |
| Store.OrText | src/lib/supabase-db.ts:85 | `s \|\| fallback`: the value when present and non-empty, else the fallback |
| Store.OrNumber | src/lib/supabase-db.ts:88 | `n \|\| fallback`: the value when present and non-zero, else the fallback |
| Store.MapSleepRow | src/lib/supabase-db.ts:82-90 | the sleep mapping: `bedtime` preferred over `bed_time` when truthy, quality 3 when null or 0, the other fields copied |
| Store.SleepRowOf | src/lib/supabase-db.ts:97-106 | the inserted row writes a missing bedtime or wake time as '' to `bed_time` and `wake_time` and copies the quality unchanged |
| Store.SleepEntryRoundTrip | src/lib/supabase-db.ts:82-106 | reading back an inserted entry gives the entry, except that a missing bedtime or wake time comes back as '' and a zero quality as 3 |
| Store.SleepRoundTripKeepsTotal | src/lib/supabase-db.ts:82-106 | storing an entry never changes its total sleep |
| Store.MapNapRow | src/lib/supabase-db.ts:146-163 | the nap mapping: planned iff the stored flag is true, score = `refreshing \|\| quality \|\| 3` |
| Store.NapRowOf | src/lib/supabase-db.ts:165-197 | the inserted row writes the score to both `refreshing` and `quality` and the planned flag as given |
| Store.NapRoundTrip | src/lib/supabase-db.ts:146-197 | a stored nap comes back unchanged, except that a score of 0 reads as 3 |
| Store.MapCheckInRow | src/lib/supabase-db.ts:200-214 | the check-in mapping: context 'Other' when missing or empty, SSS 4 when null or 0, and no labels |
| Store.CheckInRowOf | src/lib/supabase-db.ts:216-239 | the inserted row carries the time, context and score |
| Store.CheckInRoundTrip | src/lib/supabase-db.ts:200-239 | a stored check-in comes back with its time, its context (empty reads as Other) and its score (0 reads as 4), and without labels |
| Store.StoredCheckInsHaveNoLabels | src/lib/supabase-db.ts:207-213 | every check-in read from the store lists no labels |
| Store.MapMedIntakeRow | src/lib/supabase-db.ts:293-308 | `taken` is true when the column is undefined, passes null through, and is otherwise copied |
| Store.MedIntakeRowOf | src/lib/supabase-db.ts:310-338 | the inserted row carries the medication, time and dose, with a missing `taken` written as null |
| Store.MedIntakeRoundTrip | src/lib/supabase-db.ts:293-338 | a stored intake comes back exactly as it was |
| Store.MapArmRow | src/lib/supabase-db.ts:403-417 | the date falls back to `start_date`; a falsy arm gives A iff `arm_name` is 'A', otherwise B |
| Store.ArmRowOf | src/lib/supabase-db.ts:419-447 | the inserted row writes the date to `date` and `start_date` and the arm to `arm` and `arm_name` |
| Store.ArmRoundTrip | src/lib/supabase-db.ts:403-447 | a stored assignment with arm A or B comes back exactly as it was |
| Store.GetSettings | src/lib/supabase-db.ts:450-466 | nothing iff there is no row; timezone and reminder time default to 'America/New_York' and '22:30' when falsy; reminders are enabled when undefined, and null passes through |
| Store.EmptySettingsAreInitial | src/lib/supabase-db.ts:458-465 | a row with no values reads as the settings the local database starts with |
| Js.Trim | src/pages/Experiments.tsx:51-58 | `trim()`: the text between the leading and trailing whitespace, starting and ending with no whitespace |
| Js.BlankIffAllWhitespace | src/pages/Experiments.tsx:51-58 | a text trims to '' iff it is all whitespace |
| Js.ParseInt | src/components/QuickSleepLog.tsx:47 | `parseInt` of the delay field: after leading whitespace, an optional sign and an optional `0x`/`0X` prefix that selects base 16, a number exactly when a digit of that base follows; a negative number only after a minus sign |
| Js.ParseIntOfIntToString | src/components/QuickSleepLog.tsx:47-48 | the decimal text of any integer parses back to that integer |
| Js.ParseIntOfDigitsThen | src/components/QuickSleepLog.tsx:47-48 | the decimal text of an integer followed by non-digits parses to that integer |
| Js.Rem | src/lib/db.ts:235 | JavaScript's `%`: the remainder takes the dividend's sign and the quotient truncates toward zero |
| Js.MathRound | src/pages/Index.tsx:99 | `Math.round`: the integer whose half-open interval [n - 0.5, n + 0.5) holds the value |
| Calendar.ToDayOrder | src/pages/Index.tsx:86-90 | day numbers order valid dates chronologically and name each date once |
| Calendar.NextDay | src/pages/Index.tsx:86-90 | the following date is valid and one day number later |
| Calendar.PrevDay | src/lib/db.ts:244-246 | `setDate(getDate() - 1)`: the preceding date is valid and one day number earlier |
| Calendar.FromDayToDay | src/pages/Index.tsx:86-90 | every valid date survives the trip through its day number |
| Calendar.IsoOrder | src/pages/WeeklySummary.tsx:34-35 | comparing ISO date strings lexicographically agrees with comparing day numbers |
| Calendar.ParseIsoOfIsoDate | src/pages/Index.tsx:89 | reading an ISO date that was written gives the date back |
| Calendar.IsoDateOfParseIso | src/pages/Index.tsx:89 | writing back a date that was read gives the same text |
| Calendar.LabelOrderIsNotChronological | src/pages/Graphs.tsx:133 | 'Jan 10' sorts before 'Jan 9' although it is the later day |
| Calendar.SixMonthsBack | src/pages/Graphs.tsx:63-65 | `setMonth(getMonth() - 6)` moves between 181 and 184 days back |
| Calendar.OneYearBack | src/pages/Graphs.tsx:66-68 | `setFullYear(getFullYear() - 1)` moves 365 or 366 days back |
| Calendar.WithEarlierYear | src/pages/Graphs.tsx:69-71 | moving a date to an earlier or the same year never moves it later |
| Sorting.SortBy | src/pages/Experiments.tsx:43 | a permutation of the input, ordered by the key |
| Sorting.TextLeIsTotalPreorder | src/pages/Graphs.tsx:133 | `localeCompare` order on labels is a total preorder |
| Experiments.ArmADays | src/pages/Experiments.tsx:80-101 | 4 days of arm A for 7 days, 7 for 14 |
| Experiments.EndDay | src/pages/Experiments.tsx:63-65 | the block from start to end day holds exactly `duration` days |
| Experiments.Schedule | src/pages/Experiments.tsx:79-102 | one assignment per day from the start, `duration` of them, arm A iff the day index is below the A count, arm B otherwise |
| Experiments.GenerateAssignments | src/pages/Experiments.tsx:79-102 | the two loops build exactly the schedule |
| Experiments.ScheduleArmCounts | src/pages/Experiments.tsx:80-101 | 7 days give 4 A and 3 B, 14 days 7 A and 7 B |
| Experiments.ScheduleCoversBlock | src/pages/Experiments.tsx:83-96 | a day is assigned iff it lies between start and end; dates strictly ascend, so no day is assigned twice |
| Experiments.Create | src/pages/Experiments.tsx:51-102 | refused, with nothing written, iff the title or an arm is blank after trimming (the required-fields toast) or, failing that, the start date is empty (`new Date("")` makes `toISOString` throw before the record is stored); otherwise the record and its schedule |
| Experiments.NewExperiment | src/pages/Experiments.tsx:67-76 | title and arms trimmed, a blank goal left out and any other goal trimmed, end = start + duration - 1 |
| Experiments.TrimmedOrNone | src/pages/Experiments.tsx:69 | `s.trim() \|\| undefined`: nothing iff blank, else the trimmed non-empty text |
| Experiments.CreatedAssignmentsWithinExperiment | src/pages/Experiments.tsx:63-102 | every assignment of a created experiment lies between its start and end dates |
| Experiments.Badges | src/pages/Experiments.tsx:273-275 | Active iff start <= today <= end, Completed iff end < today, Upcoming iff today < start |
| Experiments.ExactlyOneBadge | src/pages/Experiments.tsx:273-275 | an experiment ending no earlier than it starts shows exactly one badge |
| Experiments.CreatedExperimentHasOneBadge | src/pages/Experiments.tsx:63-76 | every created experiment shows exactly one badge on every day |
| Experiments.OpenEndedShowsNoBadge | src/pages/Experiments.tsx:273-275 | a started experiment without an end date shows no badge |
| Experiments.ListOrder | src/pages/Experiments.tsx:43 | the same experiments, ordered by start date, latest first |
| Summary.Within | src/pages/WeeklySummary.tsx:34-36 | keeps exactly the records dated within the range, inclusive at both ends, with their multiplicities |
| Summary.AvgTst | src/pages/WeeklySummary.tsx:38-44 | the sum of the nights' totals divided by their number, over the nights that have one; 0 when no night has one; within 0..1439 |
| Summary.AvgQuality | src/pages/WeeklySummary.tsx:45-49 | the sum of the qualities divided by the number of nights; 0 for no nights; on the 1..5 scale when every quality is |
| Summary.AvgSss | src/pages/WeeklySummary.tsx:58-62 | the sum of the scores divided by the number of check-ins; 0 for no check-ins; on the 1..7 scale when every score is |
| Summary.ContextSss | src/pages/WeeklySummary.tsx:64-86 | the sum of the scores of the check-ins made in that context divided by their number; 0 when there is none |
| Summary.NapTotalAppend | src/pages/WeeklySummary.tsx:93-96 | the nap total of two lists is the sum of their totals |
| Summary.NapTotalNonNegative | src/pages/WeeklySummary.tsx:93-96 | naps that all end no earlier on the clock than they start give a total of at least 0 |
| Summary.MidnightNapMakesTotalNegative | src/pages/WeeklySummary.tsx:93-96 | a single nap from 23:50 to 00:10 makes the total -1420 minutes |
| Summary.OverlapsIffSharedDay | src/pages/WeeklySummary.tsx:99-103 | an experiment with an end date overlaps the range iff some day lies in both |
| Summary.OpenEndedOverlaps | src/pages/WeeklySummary.tsx:99-103 | an experiment without an end date overlaps any range ending on or after its start |
| Summary.FirstOverlapping | src/pages/WeeklySummary.tsx:106-107 | nothing iff no experiment overlaps; otherwise the first overlapping one in stored order |
| Summary.ArmDates | src/pages/WeeklySummary.tsx:114-119 | a date is listed iff the experiment assigns it to that arm within the range |
| Summary.ArmValue | src/pages/WeeklySummary.tsx:121-177 | 'Midday SSS avg' is the mean score of the midday check-ins on the arm's dates, 'Sleep quality avg' the mean quality of the nights on them, any other metric the mean total of those nights that have one; 0 when no record qualifies; a total-sleep value lies in 0..1439 |
| Summary.ArmValueIgnoresOtherDays | src/pages/WeeklySummary.tsx:121-177 | records on days outside the arm's dates never change the arm's value |
| Summary.Observation | src/pages/WeeklySummary.tsx:179-183 | emitted iff the values differ by at least 0.5; names A iff A exceeds B by that much, B iff B exceeds A by that much |
| Summary.ObservationSwapsWithArms | src/pages/WeeklySummary.tsx:179-183 | swapping the two values swaps the arm named and keeps whether one is named |
| Summary.TstExampleFavoursB | src/pages/WeeklySummary.tsx:158-183 | means of 435 and 490 minutes name arm B |
| Summary.OneMinuteGapIsObserved | src/pages/WeeklySummary.tsx:179-183 | a one-minute difference in sleep is already reported |
| Summary.GenerateSummary | src/pages/WeeklySummary.tsx:34-183 | each average (total sleep, quality, SSS, and SSS per Morning, Midday and Evening context) is that of the in-range records; nap count and total of the in-range naps; a comparison iff some experiment overlaps, of the first such experiment |
| Summary.Compare | src/pages/WeeklySummary.tsx:114-183 | arm A's value is the metric over the in-range records on arm A's in-range dates, and likewise for B; the observation is that of the two values |
| Graphs.DateRange | src/pages/Graphs.tsx:43-78 | ends today; starts 1, 2, 3, 7 or 30 days back, 181 to 184 days back, 365 or 366 days back, or on today's month and day in 2000; start <= end except for 'all' before 2000 |
| Graphs.YearBackKeepsDate | src/pages/Graphs.tsx:66-68 | when the date exists a year earlier, the one-year range starts on it |
| Graphs.ChartRows | src/pages/Graphs.tsx:121-133 | one row per distinct day, each built from its day, ordered by the `Mon D` label |
| Graphs.LabelCountListing | src/pages/Graphs.tsx:116-118 | a label's count is the number of check-ins listing it, when no check-in repeats a label |
| Graphs.StoredCheckInsCountNoLabels | src/pages/Graphs.tsx:116-118 | every label count of check-ins read from the store is 0 |
| Graphs.CheckInPointOf | src/pages/Graphs.tsx:121-131 | a day's row holds the mean SSS and the label counts of that day's check-ins |
| Graphs.LabelCounts | src/pages/Graphs.tsx:128-130 | one count per selected label, and none for unselected labels |
| Graphs.CheckInRows | src/pages/Graphs.tsx:100-133 | exactly one row per day in range with a check-in: every such day has a row and every row's day has a check-in; each row is the grouping of that day's check-ins; in label order; no rows when no check-in falls in the range |
| Graphs.SleepPointOf | src/pages/Graphs.tsx:140-143 | the total sleep, or 0 when there is none, with the night's quality |
| Graphs.SleepRows | src/pages/Graphs.tsx:138-145 | one row per night in range, ungrouped, in label order |
| Graphs.NapPointOf | src/pages/Graphs.tsx:150-153 | the nap duration, or 0 when there is none, with negative durations passed through |
| Graphs.NapRows | src/pages/Graphs.tsx:148-155 | one row per nap in range, ungrouped, in label order |
| Graphs.MidnightNapChartedNegative | src/pages/Graphs.tsx:152 | a nap across midnight is charted with a negative duration |
| Graphs.FindMed | src/pages/Graphs.tsx:181 | nothing iff no medication has the id, else the first that has it |
| Graphs.MedCountStep | src/pages/Graphs.tsx:164-173 | one more intake of the medication on the day adds one to the count, and any other intake adds nothing |
| Graphs.ColumnFor | src/pages/Graphs.tsx:180-185 | a column iff the medication exists, named after it and holding that day's intake count, with intake and medication ids taken as one domain (see above) |
| Graphs.MedColumns | src/pages/Graphs.tsx:180-186 | exactly the columns of the selected medications that exist |
| Graphs.MedRows | src/pages/Graphs.tsx:158-189 | exactly one row per day in range with an intake: every such day has a row and every row's day has an intake; each row holds that day's columns; in label order; no rows when no intake falls in the range |
| Graphs.SameColumnsInRange | src/pages/Graphs.tsx:159-162 | restricting intakes to the range does not change the columns of a day inside it |
| Dashboard.Last7Days | src/pages/Index.tsx:86-90 | seven consecutive ascending days ending today |
| Dashboard.Last7DaysCoverWeek | src/pages/Index.tsx:86-90 | a day is listed iff it lies within the six days before today or is today |
| Dashboard.DailySss | src/pages/Index.tsx:92-100 | 0 with no check-in that day; otherwise the whole number of tenths m with mean - 0.05 < m <= mean + 0.05, which is the one `Math.round(avg * 10) / 10` gives |
| Dashboard.FirstNightOn | src/pages/Index.tsx:105 | nothing iff no entry has that date; otherwise the first entry with it |
| Dashboard.DailyTst | src/pages/Index.tsx:104-109 | the total sleep of the first entry of that date, or 0 for no entry or no total |
| Dashboard.NapSumIsSummaryTotal | src/pages/Index.tsx:72-76 | the dashboard's nap sum agrees with the weekly summary's nap total |
| Dashboard.TodayNapsAgreeWithSummary | src/pages/Index.tsx:71-77 | today's nap minutes are the summary total over the one-day range of today |
| Dashboard.RunningIsActiveBadge | src/pages/Index.tsx:113-116 | the dashboard's active experiment test is the Active badge of the experiment cards |
| Dashboard.ActiveExperiment | src/pages/Index.tsx:113-116 | nothing iff no experiment is running today; otherwise the first that is |
| Dashboard.AssignmentOn | src/pages/Index.tsx:118-119 | nothing iff no assignment of the experiment is dated today; otherwise the first that is |
| Dashboard.ArmToday | src/pages/Index.tsx:113-123 | set only for the active experiment with an id and an assignment dated today, and then that assignment's arm |
| Dashboard.ArmTodayOfCreatedExperiment | src/pages/Index.tsx:113-123 | over one list holding a created experiment and its schedule, today's arm on each day of the block is the arm the schedule gives that day; the application's dashboard reads another store, so this relates the two pages' functions, not the running pages |
| Dashboard.LastTst | src/pages/Index.tsx:64-68 | a dash with no entries; the store's placeholder when the latest entry has no total; otherwise its `Xh Ym` |
| Dashboard.LatestSss | src/pages/Index.tsx:80-83 | a dash iff there is no check-in; otherwise the latest score as text |
| Dashboard.SssWeek | src/pages/Index.tsx:92-101 | seven values, the daily SSS of each of the last seven days |
| Dashboard.TstWeek | src/pages/Index.tsx:104-110 | seven values, the daily total sleep of each of the last seven days, each in 0..1439 |
| Dashboard.LoadDashboard | src/pages/Index.tsx:59-123 | the two seven-day series, today's naps as the summary total of today, last night, the latest score and today's arm |
| SleepLog.NewForm | src/components/QuickSleepLog.tsx:24-28 | the form opens on the logical sleep date with quality 3 and the other fields empty |
| SleepLog.DerivedOnset | src/components/QuickSleepLog.tsx:45-56 | no onset iff the delay is empty, unparseable or negative; otherwise a well-formed time at bedtime plus the delay, modulo a day (within JavaScript's Date range; see Left out) |
| SleepLog.DelayInMinutes | src/components/QuickSleepLog.tsx:45-56 | a delay typed as a whole number of minutes gives bedtime plus that many minutes |
| SleepLog.NegativeDelayIgnored | src/components/QuickSleepLog.tsx:48 | a negative delay derives no onset |
| SleepLog.Save | src/components/QuickSleepLog.tsx:33-65 | refused iff bedtime or wake time is empty; otherwise the fields passed through, the derived onset, and empty notes left out |
| SleepLog.SavedTotalSleep | src/components/QuickSleepLog.tsx:45-65 | a saved night has a total iff an onset was derived, and then it runs from bedtime plus delay to wake |
| SleepLog.SavedNightExample | src/components/QuickSleepLog.tsx:45-65 | bedtime 23:00, delay 30 and wake 07:00 give 450 minutes of sleep |
| SleepLog.SavedEntryRoundTrip | src/components/QuickSleepLog.tsx:58-65 | the store gives back exactly the entry the form saved |

## Left out

- Store I/O is left out because it is the boundary of the model. That covers Supabase queries, authentication and the `Not authenticated` errors, and IndexedDB opening, schema and upgrades. Store reads are sequences passed in.
- The order in which the store returns lists is taken as given. Newest first matters for last night's sleep and the latest score. The queries' `order` clauses are not modelled.
- Updating and deleting records, and reading experiments and medications back from the store, are left out because they are plain field copies with no defaults.
- React state, effects, dialogs, toasts and the `saving` flag are not part of this model, because they hold no logic of their own.
- The other pages and forms (data, profile, settings, and the nap, medication and check-in forms) are not part of this model.
- CSV/JSON export and the iCalendar reminder download are left out, because their output depends on object key order and browser APIs.
- JavaScript `Date` and time zones are left out. Dates are day numbers, and `toISOString` is taken to give the local calendar day, so the UTC/local difference near midnight is not modelled. Daylight-saving shifts are ignored in the onset computation, and in Experiments.EndDay, Experiments.Schedule and Experiments.ScheduleCoversBlock. Those step through days with local `setDate` from a start parsed as UTC midnight, so across a spring-forward change west of UTC the program can name one day twice, and end a day early.
- Calendar.DayLabel: a chart label is taken as the `Mon D` of the row's own day. The program builds it with `new Date(date).toLocaleDateString(...)` (src/pages/Graphs.tsx:123, 141, 151, 177), which parses the ISO date as UTC midnight and formats it in local time. West of UTC, for instance in the default `America/New_York` zone, every label names the day before. That also changes the row order across a month end: the program sorts Jan 31 and Feb 1 as "Jan 30" < "Jan 31", while the model sorts them as "Feb 1" < "Jan 31".
- ISO date text is modelled for years 0..9999 only.
- `localeCompare` is modelled as code-unit lexicographic order.
- Malformed time text is not modelled: a time field is empty or a well-formed `HH:MM`, so JavaScript's `NaN` never arises.
- Floating point is left out: means are exact reals.
- `toFixed` and the text of the summary are left out.
- The default range of the weekly summary page is not modelled. The range is a parameter.
- Chart rows are modelled as sequences of fields, not objects keyed by name. Two selected medications with the same name, or a label equal to `date`, would overwrite each other's keys in the source; that collision is not modelled.
- Sorting.SortBy: states the order and the permutation, not stability. JavaScript's sort keeps tied rows in their original order; the model leaves that order open.
- Experiments.ListOrder: two experiments with the same start date may appear in either order; the program keeps their stored order.
- Graphs.CheckInRows: rows with the same `Mon D` label (the same day in two years) may appear in either order; the program keeps their grouping order.
- Graphs.SleepRows: rows with the same `Mon D` label (the same day in two years, or two nights logged for one day) may appear in either order; the program keeps their stored order.
- Graphs.NapRows: rows with the same `Mon D` label (the same day in two years, or two naps on one day) may appear in either order; the program keeps their stored order.
- Graphs.MedRows: rows with the same `Mon D` label (the same day in two years) may appear in either order; the program keeps their grouping order.
- SleepLog.DerivedOnset: a delay so large that bedtime plus the delay leaves JavaScript's Date range (8.64e15 ms either side of 1970, so delays above about 1.44e11 minutes) makes the program's `Date` invalid, and `toTimeString().slice(0, 5)` then hands the text `Inval` to the store as the onset. The model still gives bedtime plus the delay modulo a day. The exact bound depends on the current time, which is not modelled.
- SleepLog.Save: the sleep date box can be cleared, and the program then hands an empty date to the store. The model's sleep date is always a day, so that save is not modelled; what the store does with an empty date is outside the model.
- Graphs.DateRange: the six-month and one-year starts are stated as ranges of days, 181..184 and 365..366, rather than as the exact calendar shift; YearBackKeepsDate pins the one-year start when the date exists.
