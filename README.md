# Pomodoro menu-bar app: verified model of the core

This project models the non-UI core of a macOS menu-bar pomodoro timer and proves properties of that model in Dafny.

- **Session timer (`Sources/Services/TimerManager.swift`).**
  - It is a state machine with four phases (idle, focus, short break, long break) and a separate paused flag.
  - It keeps an absolute deadline and the time left when paused.
  - It counts the pomodoros completed in the current cycle.
  - Expiry emits `focusCompleted` or `breakCompleted`.
- **Log store (`Sources/Services/PomodoroStore.swift`).**
  - It keeps the logged pomodoro entries newest first, and supports add, edit notes, edit type and delete.
  - It groups the log by calendar day and counts today's entries.
  - On startup it loads the log, falling back to an empty log.
- **Analytics (`Sources/Services/AnalyticsCalculator.swift`).**
  - It computes Monday-based week ranges and the per-day, per-type minute buckets behind the weekly chart.
  - It computes the daily average, with elapsed days as the divisor in the current week.
  - It compares one week with the week before.
- **Formatters (`Sources/Utilities/Formatters.swift`).**
  - They produce the `M:SS` countdown, the `sec`/`min` and `h`/`m` duration texts, and the Today/Yesterday day label.

Modules:

- `Common` holds the record types: `Entry` (a pomodoro log entry), `TimerEvent`, `Option` and a few generic sequence facts.
- `Calendar` reduces the platform calendar to integer arithmetic:
  - instants are whole seconds since 1970-01-01 00:00, and every day has 86400 seconds;
  - weekdays are numbered 1 = Sunday … 7 = Saturday, as the platform numbers them.
- `Formatters` holds the four formatters.
  - The countdown, duration and long-duration formatters state the exact text they print, with numerals that have no leading zero.
  - Each of those three is also paired with a reader; for a non-negative argument the reader is proved to recover the number printed.
  - The relative-day label has no reader: it is characterised by the day interval the date falls in.
- `TimerModel` gives each timer operation as a pure transition on a `TimerState` value. The lemmas about the timer are stated over these transitions.
- `Timer` holds the class `TimerManager`:
  - its fields are the app's timer fields, and its methods assign them step by step as the app does;
  - each method is proved to reach exactly the state the matching transition in `TimerModel` describes.
  - The periodic tick is the explicit method `UpdateRemaining(now, …)`.
- `Store` holds:
  - the class `PomodoroStore`, whose `entries` sequence is updated in place by the four editing methods;
  - the pure functions and lemmas for grouping and counting.
- `Analytics` holds:
  - week ranges;
  - the chart aggregation, as the method `Aggregate` with its two loops, proved equal to a reference function `AggregateRows`;
  - the daily average and the week summary.

The clock (`now`, `referenceDate`) and the user settings (a `Config` record) are parameters everywhere.

## Model

| member | source | states |
|---|---|---|
| Calendar.StartOfDay | Sources/Services/PomodoroStore.swift:63-65 | start of day is a midnight (a multiple of 86400) and the instant lies in the 86400 seconds after it |
| Calendar.Weekday | Sources/Services/AnalyticsCalculator.swift:27-28 | the calendar weekday of an instant is in 1..7 |
| Calendar.DayIndex | Sources/Services/AnalyticsCalculator.swift:29 | `(weekday + 5) % 7` lies in 0..6 and determines the weekday back (`weekday == (r + 1) % 7 + 1`) |
| Calendar.DayIndexBijective | Sources/Services/AnalyticsCalculator.swift:29 | two weekdays get the same day index iff they are equal; Monday maps to 0 and Sunday to 6 |
| Calendar.DayIndexOnto | Sources/Services/AnalyticsCalculator.swift:56 | every index 0..6 is the day index of some weekday, so the map is onto |
| Calendar.WeekdayNextDay | Sources/Services/AnalyticsCalculator.swift:27-28 | one day later the weekday advances by one, wrapping Saturday to Sunday |
| Calendar.DaysBetween | Sources/Services/AnalyticsCalculator.swift:106 | the whole days from a to b are non-negative and bracket b - a |
| Calendar.DayNumberMonotone | Sources/Services/PomodoroStore.swift:68 | a later instant never falls on an earlier day or start of day |
| Calendar.SameDay | Sources/Services/PomodoroStore.swift:63-65 | two instants have the same start of day iff they have the same day number (the grouping key) |
| Calendar.Feb19_2026IsThursday | Tests/AnalyticsTests.swift:194-208 | 2026-02-19 12:00 is weekday 5 (Thursday), day index 3 |
| Formatters.DigitValue | Sources/Utilities/Formatters.swift:8 | reading a digit character gives 0..9 and inverts writing it |
| Formatters.Decimal | Sources/Utilities/Formatters.swift:8 | decimal text is canonical (non-empty, all digits, no leading zero unless it is "0"), one digit below 10 and two for 10..99 |
| Formatters.DecimalRoundTrip | Sources/Utilities/Formatters.swift:8 | parsing the decimal text of n gives back n |
| Formatters.ParseDecimalLead | Sources/Utilities/Formatters.swift:8 | a numeral that parses starts with a digit, and its value is at least that digit's |
| Formatters.DecimalUnique | Sources/Utilities/Formatters.swift:8 | a canonical numeral that parses as n is exactly the decimal text of n, so the printed text is the only one without leading zeros |
| Formatters.IntString | Sources/Utilities/Formatters.swift:44-46 | Swift's `"\(i)"` text: for i >= 0 a canonical numeral reading back as i; for i < 0 a '-' followed by a canonical numeral reading back as -i |
| Formatters.TruncDiv | Sources/Utilities/Formatters.swift:6 | Swift integer division truncates toward zero: for a >= 0, q*b <= a < q*b + b; for a < 0, q*b - b < a <= q*b |
| Formatters.TruncDivNonNegative | Sources/Utilities/Formatters.swift:6 | truncating division agrees with floor division on non-negative dividends and is odd in the dividend |
| Formatters.TruncMod | Sources/Utilities/Formatters.swift:7 | the Swift remainder completes the quotient (a == q*b + r) and takes the dividend's sign |
| Formatters.TwoDigits | Sources/Utilities/Formatters.swift:8 | `%02d` of 0..99 is exactly two digits |
| Formatters.TwoDigitsValue | Sources/Utilities/Formatters.swift:8 | the two digits of v in 0..99 read back as v |
| Formatters.TwoDigitsTens | Sources/Utilities/Formatters.swift:7-8 | for a seconds value below 60 the tens digit is v / 10 |
| Formatters.FormatCountdown | Sources/Utilities/Formatters.swift:5-9 | for n >= 0 the text is exactly the decimal minutes n/60, ':', and the two-digit seconds n%60, whose first digit is below 6 |
| Formatters.CountdownFields | Sources/Utilities/Formatters.swift:5-9 | text of the form minutes ':' two-digit seconds reads back as minutes*60 + seconds |
| Formatters.CountdownRoundTrip | Sources/Utilities/Formatters.swift:5-9 | for every n >= 0 the countdown text reads back as n, so minutes are not capped and seconds are exact |
| Formatters.CountdownExamples | Tests/FormattersTests.swift:12-31 | 5 s gives "0:05" and 3661 s gives "61:01" |
| Formatters.WithSuffixRoundTrip | Sources/Utilities/Formatters.swift:44-46 | a number followed by a unit suffix reads back as that number |
| Formatters.IntSuffixRoundTrip | Sources/Utilities/Formatters.swift:44-46 | the same for Swift's `"\(i)"` text of a non-negative Int |
| Formatters.FormatDuration | Sources/Utilities/Formatters.swift:41-47 | the exact text: "<s> sec" for 0 <= s < 60, "<s/60> min" for s >= 60, "-<-s> sec" for -60 < s < 0, "-<-s/60> min" for s <= -60, numerals without leading zeros; for s >= 0 it also reads back as s or s/60 |
| Formatters.DurationExamples | Tests/FormattersTests.swift:80-96 | 0, 45, 60 and 1500 s give "0 sec", "45 sec", "1 min" and "25 min" |
| Formatters.IndexOf | Sources/Utilities/Formatters.swift:58-60 | the index found holds the character and nothing before it does; None means the character is absent |
| Formatters.WholeHoursRoundTrip | Sources/Utilities/Formatters.swift:57-58 | "<h>h" reads back as h*60 minutes |
| Formatters.IndexOfAfterDigits | Sources/Utilities/Formatters.swift:60 | in digits + "h" + rest the first 'h' is the one after the digits |
| Formatters.EndsInM | Sources/Utilities/Formatters.swift:60 | text ending in 'm' is not mistaken for the " min" or "h" form |
| Formatters.HoursMinutesBranch | Sources/Utilities/Formatters.swift:60 | the "<h>h <m>m" branch of the reader returns h*60 + m |
| Formatters.HoursMinutesFields | Sources/Utilities/Formatters.swift:60 | "<h>h <m>m" with h >= 1 and 1 <= m < 60 reads back as h*60 + m |
| Formatters.HoursMinutesRoundTrip | Sources/Utilities/Formatters.swift:60 | the same for the decimal texts of h and m |
| Formatters.FormatLongDuration | Sources/Utilities/Formatters.swift:50-61 | the exact text: "<m> min" for 0 <= s and m = s/60 < 60; "<m/60>h" for whole hours; "<m/60>h <m%60>m" otherwise; "0 min" for -60 < s < 0 and "-<-s/60> min" for s <= -60 |
| Formatters.LongDurationRoundTrip | Sources/Utilities/Formatters.swift:50-61 | for every s >= 0 the long-duration text reads back as s/60 whole minutes, in whichever of the three forms it was printed |
| Formatters.LongDurationExamples | Sources/Utilities/Formatters.swift:49-61 | 1500, 7200 and 9000 s give "25 min", "2h" and "2h 30m" |
| Formatters.FormatRelativeDay | Sources/Utilities/Formatters.swift:12-24 | a date in today's 86400 seconds is "Today"; in the 86400 seconds before it, "Yesterday"; anything else gets the medium date text |
| TimerModel.FocusSeconds | Sources/Services/TimerManager.swift:32-33 | a focus lasts the given minutes, else the configured minutes, replaced by 25 when not positive; always a positive whole number of minutes |
| TimerModel.LongBreakInterval | Sources/Services/TimerManager.swift:46-47 | the configured interval when positive, else 4; never below 1 |
| TimerModel.BreakSeconds | Sources/Services/TimerManager.swift:50-53 | a break lasts the configured long or short minutes, replaced by 15 or 5 when not positive |
| TimerModel.StartFocus | Sources/Services/TimerManager.swift:31-43 | no own contract; stated by `StartFocusEffect` |
| TimerModel.StartBreak | Sources/Services/TimerManager.swift:45-59 | no own contract; stated by `StartBreakChoice` |
| TimerModel.IsLongBreak | Sources/Services/TimerManager.swift:46-48 | no own contract; stated by `StartBreakChoice` and `BreakChoiceExamples` |
| TimerModel.Pause | Sources/Services/TimerManager.swift:61-67 | no own contract; stated by `PauseEffect` |
| TimerModel.Resume | Sources/Services/TimerManager.swift:69-74 | no own contract; stated by `ResumeEffect`, `PauseResumeShiftsDeadline`, `ResumeWhenRunningIsNoOp`, `PauseResumeSameInstant` and `ResumeWithNothingLeftExpires` |
| TimerModel.CancelTimer | Sources/Services/TimerManager.swift:76-88 | no own contract; stated by `CancelTimerEffect` |
| TimerModel.Snooze | Sources/Services/TimerManager.swift:90-97 | no own contract; stated by `SnoozeEffect` |
| TimerModel.UpdateRemaining | Sources/Services/TimerManager.swift:112-124 | no own contract; stated by `UpdateRemainingEffect` and `RefreshesDoNotDrift` |
| TimerModel.HandleTimerExpiry | Sources/Services/TimerManager.swift:126-156 | no own contract; stated by `FocusExpiry`, `BreakExpiry` and `IdleExpiry` |
| TimerModel.StartFocusEffect | Sources/Services/TimerManager.swift:31-43 | after startFocus: focus phase, unpaused, given type or focus, empty notes, started now, deadline and remaining = now + the focus length; counter kept |
| TimerModel.StartBreakChoice | Sources/Services/TimerManager.swift:45-59 | the break is long iff the counter is positive and a multiple of the interval, otherwise short; it lasts the configured long or short minutes, or 15 or 5 when not positive; unpaused; deadline = now + that length; counter, session type, notes, focus start, focus length and stored time kept |
| TimerModel.BreakChoiceExamples | Tests/TimerManagerTests.swift:113-139 | with interval 4, counts 0..3 give short breaks and 4 and 8 give long ones |
| TimerModel.PauseEffect | Sources/Services/TimerManager.swift:61-67 | pause is a no-op when paused, idle or without deadline; otherwise only the paused flag and the stored time change, and the stored time is max(0, deadline - now) |
| TimerModel.ResumeWhenRunningIsNoOp | Sources/Services/TimerManager.swift:69-70 | resume leaves the state untouched and emits nothing unless paused and not idle |
| TimerModel.ResumeEffect | Sources/Services/TimerManager.swift:69-74 | resuming a pause with time left sets deadline = now + stored time and remaining = stored time, unpaused, reports nothing, all else kept |
| TimerModel.PauseResumeShiftsDeadline | Sources/Services/TimerManager.swift:61-74 | a pause at t1 and a resume at t2 move the deadline later by exactly t2 - t1 and keep the time left at the pause; nothing is reported and all else is kept |
| TimerModel.PauseResumeSameInstant | Sources/Services/TimerManager.swift:61-74 | pausing and resuming at the same instant restores the same deadline |
| TimerModel.CancelTimerEffect | Sources/Services/TimerManager.swift:76-88 | cancel from any state gives idle, unpaused, no deadline, nothing remaining or stored, focus type, empty notes, counter kept |
| TimerModel.SnoozeEffect | Sources/Services/TimerManager.swift:90-97 | snooze from any phase gives an unpaused short break ending now + 300, 300 s remaining; counter kept |
| TimerModel.UpdateRemainingEffect | Sources/Services/TimerManager.swift:112-124 | a tick does nothing when paused or without deadline; recomputes remaining = deadline - now while it is positive; otherwise sets 0 and runs expiry |
| TimerModel.RefreshesDoNotDrift | Sources/Services/TimerManager.swift:112-124 | two ticks before the deadline end where a single tick at the later instant ends: the remaining time is always recomputed from the deadline |
| TimerModel.FocusExpiry | Sources/Services/TimerManager.swift:128-138 | focus expiry is `StartBreak` on the counter plus one: the break kind and length chosen from the new count, deadline = now + that length, session fields kept; it emits focusCompleted with the original start, duration and type |
| TimerModel.BreakExpiry | Sources/Services/TimerManager.swift:140-151 | break expiry emits breakCompleted and starts focus when auto-start is on, else goes idle with no deadline and 0 remaining; counter kept |
| TimerModel.IdleExpiry | Sources/Services/TimerManager.swift:153-154 | expiry while idle changes nothing and emits nothing |
| TimerModel.ResumeWithNothingLeftExpires | Sources/Services/TimerManager.swift:69-74 | resuming a pause taken after the deadline runs the expiry at once |
| TimerModel.InitialIsValid | Sources/Services/TimerManager.swift:7-20 | the initial field values satisfy the timer invariant |
| TimerModel.ExpiryPreservesValid | Sources/Services/TimerManager.swift:126-156 | expiry keeps the invariant: counts non-negative, a deadline exactly when not idle, never paused while idle |
| TimerModel.OperationsPreserveValid | Sources/Services/TimerManager.swift:31-124 | every public operation and the tick keep the invariant, so remaining time is never negative |
| TimerModel.ValidRunningHasDeadline | Sources/Services/TimerManager.swift:62 | in a valid state every non-idle phase has a deadline |
| TimerModel.CounterChangesOnlyOnFocusExpiry | Sources/Services/TimerManager.swift:132 | no operation but focus expiry changes the completed counter, and that one adds exactly one |
| Timer.TimerManager.constructor | Sources/Services/TimerManager.swift:7-27 | the new timer is idle with all fields at their initial values, and is valid |
| Timer.TimerManager.StartFocus | Sources/Services/TimerManager.swift:31-43 | from a valid state, the fields end as `TimerModel.StartFocus` describes, and the state stays valid |
| Timer.TimerManager.StartBreak | Sources/Services/TimerManager.swift:45-59 | from a valid state, the fields end as `TimerModel.StartBreak` describes, and the state stays valid |
| Timer.TimerManager.Pause | Sources/Services/TimerManager.swift:61-67 | from a valid state, the fields end as `TimerModel.Pause` describes, and the state stays valid |
| Timer.TimerManager.Resume | Sources/Services/TimerManager.swift:69-74 | from a valid state, the fields and the emitted event are those of `TimerModel.Resume`, and the state stays valid |
| Timer.TimerManager.CancelTimer | Sources/Services/TimerManager.swift:76-88 | from a valid state, the fields end as `TimerModel.CancelTimer` describes, and the state stays valid |
| Timer.TimerManager.Snooze | Sources/Services/TimerManager.swift:90-97 | from a valid state, the fields end as `TimerModel.Snooze` describes, and the state stays valid |
| Timer.TimerManager.UpdateRemaining | Sources/Services/TimerManager.swift:112-124 | from a valid state, the fields and the emitted event are those of `TimerModel.UpdateRemaining`, and the state stays valid |
| Timer.TimerManager.HandleTimerExpiry | Sources/Services/TimerManager.swift:126-156 | from a valid, unpaused state (its one caller, the tick, runs it only when not paused), the fields and the emitted event are those of `TimerModel.HandleTimerExpiry`, and the state stays valid |
| Store.InsertDesc | Sources/Services/PomodoroStore.swift:32 | inserting adds exactly the new entry: one longer, same multiset plus the entry |
| Store.InsertDescKeepsOrder | Sources/Services/PomodoroStore.swift:32 | inserting into a newest-first log keeps it newest first |
| Store.SortByStartDesc | Sources/Services/PomodoroStore.swift:32 | the sorted log is a permutation of the input, newest first |
| Store.FirstIndexOf | Sources/Services/PomodoroStore.swift:37 | the index found holds the id and no earlier entry does; None means no entry has the id |
| Store.RemoveAll | Sources/Services/PomodoroStore.swift:49 | no entry with the id survives, and nothing is removed when none had it |
| Store.RemoveAllKeepsOrder | Sources/Services/PomodoroStore.swift:49 | removal keeps a newest-first log newest first |
| Store.RemoveAllKeepsOthers | Sources/Services/PomodoroStore.swift:49 | every entry with another id keeps its number of occurrences |
| Store.RemoveAllAppend | Sources/Services/PomodoroStore.swift:49 | removal works piecewise over a concatenation, so the survivors keep their relative order |
| Store.WithNotes | Sources/Services/PomodoroStore.swift:36-40 | editing notes keeps the length and every start time |
| Store.WithType | Sources/Services/PomodoroStore.swift:42-46 | editing the type keeps the length and every start time |
| Store.SameStartTimesKeepOrder | Sources/Services/PomodoroStore.swift:36-46 | a log with the same start times position by position is newest first when the original is |
| Store.LoadEntries | Sources/Services/PomodoroStore.swift:85-100 | a missing file or a failed decode gives the empty log; otherwise the decoded entries |
| Store.PrependKeepsDecreasing | Sources/Services/PomodoroStore.swift:68 | a group for a later day in front of strictly decreasing groups keeps them strictly decreasing |
| Store.RunLength | Sources/Services/PomodoroStore.swift:63-65 | the leading run of entries on one day is maximal |
| Store.GroupRuns | Sources/Services/PomodoroStore.swift:61-76 | no more groups than entries; the first group is the first entry's day |
| Store.GroupRunsFlatten | Sources/Services/PomodoroStore.swift:61-76 | the groups' entries, read in order, are exactly the input log |
| Store.GroupRunsWellFormed | Sources/Services/PomodoroStore.swift:69-74 | on a newest-first log each group is non-empty, all on its day, newest first, and labelled with that day's relative-day text |
| Store.GroupRunsDecreasing | Sources/Services/PomodoroStore.swift:68 | on a newest-first log the group days strictly decrease |
| Store.CountOnDay | Sources/Services/PomodoroStore.swift:80 | the number of entries on a day is at most the log size |
| Store.CountOnDayAppend | Sources/Services/PomodoroStore.swift:80 | counting on a day adds up over a concatenation |
| Store.CountOnDaySort | Sources/Services/PomodoroStore.swift:80 | sorting does not change how many entries fall on a day |
| Store.CountOnDayOfGroups | Sources/Services/PomodoroStore.swift:61-81 | for groups that each lie on one day, the count on a day is the size of that day's group |
| Store.PomodoroStore.constructor | Sources/Services/PomodoroStore.swift:25 | the store starts with the loaded log, empty when the file is missing or undecodable |
| Store.PomodoroStore.AddEntry | Sources/Services/PomodoroStore.swift:30-34 | the log grows by exactly the new entry, keeps every previous one and is newest first |
| Store.PomodoroStore.UpdateNotes | Sources/Services/PomodoroStore.swift:36-40 | only the notes of the first entry with the id change; an unknown id changes nothing; newest-first order is kept |
| Store.PomodoroStore.UpdateType | Sources/Services/PomodoroStore.swift:42-46 | only the type of the first entry with the id changes; an unknown id changes nothing; newest-first order is kept |
| Store.PomodoroStore.DeleteEntry | Sources/Services/PomodoroStore.swift:48-51 | every entry with the id goes, all others keep their counts and order, an unknown id changes nothing, newest-first order is kept |
| Store.PomodoroStore.EntriesGroupedByDay | Sources/Services/PomodoroStore.swift:61-76 | every entry is in exactly one group (same multiset); each group is non-empty, on one day, newest first and labelled; group days strictly decrease |
| Store.PomodoroStore.TodayCount | Sources/Services/PomodoroStore.swift:78-81 | the count is the number of entries on today's day and at most the log size |
| Store.PomodoroStore.TodayCountIsTodayGroupSize | Sources/Services/PomodoroStore.swift:61-81 | today's count equals the size of today's group in the grouped log |
| Analytics.LexIrreflexive | Sources/Services/AnalyticsCalculator.swift:71 | the string order used to sort type names is irreflexive |
| Analytics.LexAsymmetric | Sources/Services/AnalyticsCalculator.swift:71 | and asymmetric |
| Analytics.LexTotal | Sources/Services/AnalyticsCalculator.swift:71 | and total on distinct strings |
| Analytics.LexTransitive | Sources/Services/AnalyticsCalculator.swift:71 | and transitive |
| Analytics.LeastExists | Sources/Services/AnalyticsCalculator.swift:71 | every non-empty set of type names has a least element |
| Analytics.LeastUnique | Sources/Services/AnalyticsCalculator.swift:71 | that least element is unique |
| Analytics.SortedSeq | Sources/Services/AnalyticsCalculator.swift:71 | `sorted()` of a set is strictly ascending and holds exactly the set's elements |
| Analytics.MondayOfWeek | Sources/Services/AnalyticsCalculator.swift:26-31 | stepping back from a midnight by its day index and then by offset weeks lands on a Monday midnight |
| Analytics.WeekRange | Sources/Services/AnalyticsCalculator.swift:24-35 | the range starts at a Monday midnight, holds the reference's midnight shifted by offset weeks, and ends one second before the next Monday |
| Analytics.CurrentWeekHoldsReference | Sources/Services/AnalyticsCalculator.swift:24-35 | the current week's range contains the reference instant |
| Analytics.WeeksAreAdjacent | Sources/Services/AnalyticsCalculator.swift:31-33 | the previous week ends one second before the next one starts |
| Analytics.SameWeekSameRange | Sources/Services/AnalyticsCalculator.swift:24-35 | any two references in the same week give the same range at every offset (a Monday or Sunday reference maps to the same Monday) |
| Analytics.WeekRangeOfDay | Sources/Services/AnalyticsCalculator.swift:26-31 | for an instant on day d the range starts at day d - (d+3)%7 + 7*offset |
| Analytics.WeekRangeExamples | Tests/AnalyticsTests.swift:34-88 | for 2026-02-19 the week starts Monday Feb 16 and ends Sunday Feb 22 23:59:59; the week before starts Feb 9; Monday 08:00 and Sunday 20:00 map to Feb 16 |
| Analytics.EntryDayIndex | Sources/Services/AnalyticsCalculator.swift:55-56 | every entry's day index lies in 0..6 |
| Analytics.InRangeMinutes | Sources/Services/AnalyticsCalculator.swift:97-100 | the in-range minutes are non-negative for non-negative durations and zero when nothing is in range |
| Analytics.TypesInRange | Sources/Services/AnalyticsCalculator.swift:52-60 | a type is collected iff some in-range entry has it |
| Analytics.ChartTypes | Sources/Services/AnalyticsCalculator.swift:62-65 | the chart types are the collected types, or just "focus" when there are none; never empty |
| Analytics.SortedChartTypes | Sources/Services/AnalyticsCalculator.swift:71 | the chart types in strictly ascending order, at least one |
| Analytics.MondayBasedDayLabels | Sources/Services/AnalyticsCalculator.swift:151-155 | seven labels, Monday first and Sunday last, each weekday's symbol at its day index |
| Analytics.BucketMinutes | Sources/Services/AnalyticsCalculator.swift:51-60 | no own contract; stated by `FillBuckets`, `TypeSumStep` and `WeekSumIsTotal` |
| Analytics.AggregateRows | Sources/Services/AnalyticsCalculator.swift:68-81 | the reference chart has 7 × (number of chart types) rows, so at least 7 |
| Analytics.DayRows | Sources/Services/AnalyticsCalculator.swift:71-80 | one row per type, in type order, for a day |
| Analytics.FillBuckets | Sources/Services/AnalyticsCalculator.swift:43-60 | the loop collects exactly the in-range types, and each bucket holds the in-range minutes of its day and type |
| Analytics.EmitRows | Sources/Services/AnalyticsCalculator.swift:67-83 | the nested loops emit exactly the reference rows for days 0..6 |
| Analytics.Aggregate | Sources/Services/AnalyticsCalculator.swift:41-84 | the method returns the reference chart rows |
| Analytics.RowsBeforeLength | Sources/Services/AnalyticsCalculator.swift:68-81 | the rows for the first k days number k times the number of types |
| Analytics.ChartIndex | Sources/Services/AnalyticsCalculator.swift:68-81 | the position of (day, type) lies in that day's block of rows |
| Analytics.RowsBeforeAt | Sources/Services/AnalyticsCalculator.swift:68-81 | row d*n + j is the row for day d and the j-th type |
| Analytics.ChartShape | Sources/Services/AnalyticsCalculator.swift:68-81 | the chart has exactly 7 × types rows, ordered by day index, then type ascending |
| Analytics.SumRowsAppend | Sources/Services/AnalyticsCalculator.swift:78 | summing rows adds up over a concatenation |
| Analytics.DayRowsSum | Sources/Services/AnalyticsCalculator.swift:71-80 | a day's rows sum to that day's buckets over the listed types |
| Analytics.RowsBeforeSum | Sources/Services/AnalyticsCalculator.swift:68-81 | the chart rows sum to the week's buckets over the listed types |
| Analytics.TypeSumStep | Sources/Services/AnalyticsCalculator.swift:54-59 | one more entry adds its minutes to exactly its own day-type cell |
| Analytics.WeekSumStep | Sources/Services/AnalyticsCalculator.swift:54-59 | one more entry adds its minutes to the week's grid once, if in range and of a listed type |
| Analytics.WeekSumIsTotal | Sources/Services/AnalyticsCalculator.swift:43-59 | when every collected type is listed once, the grid total is the in-range minutes |
| Analytics.ChartTotal | Sources/Services/AnalyticsCalculator.swift:41-84 | the chart's minutes add up to the minutes of the entries in range: each one lands in exactly one row |
| Analytics.ElapsedDays | Sources/Services/AnalyticsCalculator.swift:102-109 | the divisor is at least 1 |
| Analytics.ElapsedDaysOfWeek | Sources/Services/AnalyticsCalculator.swift:102-109 | for the current week the divisor is the reference's day index + 1; for any other week it is 7; always 1..7 |
| Analytics.ElapsedDaysExample | Tests/AnalyticsTests.swift:194-209 | at 2026-02-19 the current week has 4 elapsed days and the previous week 7 |
| Analytics.DailyAverage | Sources/Services/AnalyticsCalculator.swift:91-112 | average × elapsed-day divisor = the in-range minutes; zero with no entries in range; non-negative for non-negative durations |
| Analytics.PercentChange | Sources/Services/AnalyticsCalculator.swift:139 | pct × prior = (current − prior) × 100, and it is positive iff the current average is higher |
| Analytics.PercentChangeExamples | Tests/AnalyticsTests.swift:230-266 | 30 over 20 is +50 and 20 over 40 is −50 |
| Analytics.Compare | Sources/Services/AnalyticsCalculator.swift:138-145 | keeps both averages; a change is given iff there is a prior average above zero, and then it is the percent change |
| Analytics.Summarize | Sources/Services/AnalyticsCalculator.swift:117-146 | no own contract; stated by `SummaryOver` and `SummaryDivisors` |
| Analytics.SummaryOver | Sources/Services/AnalyticsCalculator.swift:117-146 | the current average is the week's daily average; the prior average is absent iff the prior week has no entries, otherwise it is that week's daily average; the change is present iff the prior average is positive |
| Analytics.SummaryDivisors | Sources/Services/AnalyticsCalculator.swift:117-146 | for a week offset, the summary divides by elapsed days in the current week and by 7 in other weeks, for both the current and the prior average |

## Left out

- The app's windows, popovers, overlay, menu-bar title, sound playback and the settings screen are presentation code. They are not part of this model.
- Writing the log to disk (Sources/Services/PomodoroStore.swift:102-119) and the JSON encoding and decoding are file and library code.
  - Loading takes "does the file exist" and "the decoded entries, if decoding succeeded" as parameters.
  - Each editing method would then save. The save is not modelled.
- The Combine ticker, the wake and clock-change subscriptions and `@Published` observation are run-loop plumbing (Sources/Services/TimerManager.swift:101-110, 160-176).
  - The model calls `UpdateRemaining(now, …)` explicitly wherever the app would tick.
  - The events are returned as `Option<TimerEvent>` instead of sent through a subject.
- The settings store is replaced by a `Config` record parameter: focus, short and long break minutes, the long-break interval and auto-start. The clock is a `now` parameter.
  - `startFocus` reads the clock twice (start time and deadline); the model uses one instant for both.
- PauseResumeSameInstant: covers only a resume at the pause instant; the general case, a deadline shifted by the paused time, is `PauseResumeShiftsDeadline`.
- Timer.TimerManager.UpdateRemaining: times are whole seconds, so `ceil` of the remaining time is the difference itself. Fractions of a second are not modelled.
- Time zones, daylight-saving changes and locale calendars are not modelled. Every day has 86400 seconds, counted from 1970-01-01 00:00 in the local zone.
- The date formatters `formatTime` and `formatMediumDate`, and the date branch of `formatRelativeDay`, are locale library behaviour.
  - The medium date text is a function parameter `mediumDate`.
  - `formatTime` is not modelled.
- `Double` / `TimeInterval` arithmetic is modelled as exact `real` arithmetic; durations are whole seconds. Rounding differences of IEEE-754 are not modelled.
- Store.SortByStartDesc: the app's `sort` is not stable, so entries with equal start times may come out in any order.
  - The model sorts by insertion, which gives one of the orders the app's sort may produce; `AddEntry` is stated against that one order.
  - The properties proved about it hold for every such order: a permutation, newest first.
- Store.PomodoroStore.EntriesGroupedByDay: groups by cutting the newest-first log into runs of one day, not through a dictionary.
  - It proves the same observable shape: a partition of the log, one day per group, newest first within a group, strictly decreasing days.
  - Within a group, the order of entries with the same start time is not pinned down, as above.
- The `DayGroup.id` (an ISO-8601 text of the day) and the `DayTypeAggregate.id` text are not modelled.
  - The group keeps its day as an instant.
  - The bucket key `"<dayIndex>-<type>"` is modelled as the pair (day index, type).
- `DayTypeAggregate.date` (the day's date added to the range start) is kept as range start + day index × 86400.
- Analytics.ShortWeekdaySymbols: fixed to the English short names "Sun" … "Sat". The locale's weekday symbols are not modelled.
- Analytics.LexLt: type names are compared character by character. Unicode collation and canonical equivalence in Swift's `String` comparison are not modelled.
- Analytics.Aggregate: split into `FillBuckets` (the bucket loop) and `EmitRows` (the nested emission loops).
  - The range filter on lines 43-45 is applied inside the bucket loop.
- Analytics.Summarize: the week summary as the app computes it. It has no own contract; `SummaryOver` and `SummaryDivisors` state its properties.
- The comment at Tests/AnalyticsTests.swift:35 calls 2026-02-19 a Wednesday. It is a Thursday (`Calendar.Feb19_2026IsThursday`), which is why the test at lines 206-208 expects 4 elapsed days.
- Swift `Int` is 64 bits wide and traps on overflow or on an out-of-range conversion; the model's `int` is unbounded, so these traps are not modelled:
  - `completedPomosInCycle += 1` (Sources/Services/TimerManager.swift:132) past the largest Int;
  - `Int(ceil(remaining))` (Sources/Services/TimerManager.swift:122) and `Int(seconds)` (Sources/Utilities/Formatters.swift:42, 44, 51) on a non-finite or out-of-range `Double`;
  - `String(format: "%d:%02d")` (Sources/Utilities/Formatters.swift:8) passes 64-bit Ints to `%d`, which reads 32 bits; the model prints the full value.
