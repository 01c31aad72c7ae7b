# e-timetable: calendar and lesson presentation core

The e-timetable server shows a school's timetable for the next school day on a
dashboard. This project models the logic inside its single server file,
`server/app.js`, that decides which day to show and how its lessons are shaped
for display:

- **Calendar** (`calendar.dfy`). Days are whole numbers counted from 1970-01-01. The
  weekday is moment's `day()`, where 0 is Sunday and 6 is Saturday. The module has the
  weekend test and the holiday test over inclusive `[start, end]` periods. A failed
  holiday lookup makes the holiday test answer "no holiday". The module also has the
  holiday fetch with its two fallback periods and the search for the next school day.
  That search returns the reference day itself when it is a school day before 18:00.
  Otherwise it steps forward one day at a time, and it provably ends: the holiday list
  is finite and a weekend lasts two days. The holiday test and the search exist twice.
  One version tests the moment itself, as the server does. The other tests whole days,
  which is what the server evidently intends (see "## Findings").
- **Presentation** (`presentation.dfy`). HHMM clock integers go through
  `toString().padStart(4, '0')`. That string becomes `"HH:MM"`, or it is cut in two
  and read back with `parseInt` as minutes since midnight. Teacher codes are resolved
  through the teacher table and fall back to the code itself.
- **Timetable** (`timetable.dfy`). A fetched lesson gets its cancelled and changed
  flags. When the fetch fails, four fallback lessons are used. The lessons are sorted by
  start time in a copy. The dashboard then adds the running flag, the formatted times
  and the teacher's display name.
- **Outcomes** (`outcomes.dfy`). These are the result types for a value that may be
  missing and for an API call that may fail.

Some inputs come from outside the core. Each becomes a parameter:
- the current time is a `Moment` (a day and the milliseconds since its midnight) or an
  hour and a minute;
- the teacher table is a `map<string, string>`;
- the API's answers are `Fetch` values;
- "a client object exists, or creating one and logging in succeeded" is a boolean.
  The source tests only that the object exists. After a failed login the object stays
  set, so later fetches do not throw and fall back to their defaults instead.

The JSON timetable endpoint (`server/app.js:362-374`) returns the lessons in fetched
order. Only the dashboard page sorts them (`server/app.js:317`), so the sort is
modelled there.

## Model

| member | source | states |
|---|---|---|
| `Calendar.IsWeekend` | server/app.js:91-94 | a day is a weekend day when moment's `day()` is 0 (Sunday) or 6 (Saturday) |
| `Calendar.WeekdayWithinThreeDays` | server/app.js:91-94 | with weekend meaning weekday 0 (Sunday) or 6 (Saturday), at least one of any three consecutive days is not a weekend day |
| `Calendar.WeekendPeriodic` | server/app.js:91-94 | the weekend test gives the same answer for days a whole number of weeks apart |
| `Calendar.FallbackHolidays` | server/app.js:122-133 | the fallback list has two periods, and each ends no earlier than it starts |
| `Calendar.FetchHolidays` | server/app.js:97-135 | the fetch throws exactly when the client is not ready; otherwise it yields the fetched periods, or the fallback periods when the API call fails |
| `Calendar.FallbackDayNumbers` | server/app.js:125-131 | the fallback dates 2025-07-01, 2025-08-31, 2025-12-23, 2026-01-01 and 2026-01-06 are days 20270, 20331, 20445, 20454 and 20459 after 1970-01-01 |
| `Calendar.FallbackHolidayDays` | server/app.js:115-133 | after a failed fetch, a day is a holiday exactly when it lies in 2025-07-01..2025-08-31 or 2025-12-23..2026-01-06 |
| `Calendar.FallbackPeriods` | server/app.js:122-133 | the fallback has exactly two periods: Sommerferien, 62 days from Tuesday 2025-07-01, and Weihnachtsferien, 15 days from Tuesday 2025-12-23, crossing into 2026 |
| `Calendar.CheckHoliday` | server/app.js:138-158 | corrected version (Findings row 1): the scan with early return answers true exactly when the lookup succeeded and some period covers the day with both ends included; a failed lookup answers false |
| `Calendar.NextSchoolDay` | server/app.js:161-175 | corrected version (Findings row 1), searching with the whole-day holiday test: if the reference day is a school day and the hour is below 18, the result is the reference moment itself; otherwise the result is a later school day and every day in between is a weekend or holiday day; the time of day is kept |
| `Calendar.CheckHolidayAtMoment` | server/app.js:138-158 | the holiday scan as written answers true exactly when the moment lies between the midnights that begin some period's first and last day, compared to the millisecond |
| `Calendar.MomentTestInDays` | server/app.js:145-148 | in whole days, the test as written covers the first day through the day before the last, and the last day only at exactly 00:00:00.000 |
| `Calendar.MomentTestAgreesAtMidnight` | server/app.js:145-148 | the test as written never reports a holiday that the inclusive day test does not, and the two agree at midnight |
| `Calendar.LastHolidayDayMissed` | server/app.js:145-148 | at 10:00 on 2026-01-06, the last fallback holiday day, the test as written says no holiday and the inclusive test says holiday |
| `Calendar.NextSchoolDayAsWritten` | server/app.js:161-175 | the search as written, with the holiday test made on the moment: if the reference moment is on no weekend, in no period and before 18:00, it is the result; otherwise the result is a later day whose moment at the same time of day passes both tests, and every day in between fails one of them |
| `Calendar.WrittenSearchStopsOnLastHolidayDay` | server/app.js:145-175 | any result the search as written may give at 19:00 on Monday 2026-01-05 with the fallback holidays is on Tuesday 2026-01-06, the last holiday day |
| `Calendar.CorrectedSearchSkipsLastHolidayDay` | server/app.js:161-175 | any result the corrected search may give for the same moment and holidays is on Wednesday 2026-01-07 |
| `Presentation.ParseDigits` | server/app.js:328-333 | `parseInt` of a digit string: its value is below 10 to the power of the string's length |
| `Presentation.NatToString` | server/app.js:305 | the decimal string of a number is non-empty, made of digits, and reads back as the number |
| `Presentation.PadStart` | server/app.js:305 | padding gives the larger of the two lengths, ends with the original string and has only fill characters in front of it |
| `Presentation.Padded` | server/app.js:305 | `toString().padStart(4, '0')`: at least four characters, all of them digits |
| `Presentation.PaddedReadsBack` | server/app.js:305 | for 0..9999 the padded string has exactly four digits and reads back as the value |
| `Presentation.PaddedHalves` | server/app.js:328-334 | the first two padded digits read as `t / 100` and the rest as `t % 100` |
| `Presentation.FormatTime` | server/app.js:304-307 | for every value the result is two digits, a colon and at least two more digits |
| `Presentation.FormatTimeReadsBack` | server/app.js:304-307 | for 0..9999 the formatted string has length 5 and a colon at index 2; its halves are digits that read back as the hours and minutes of the value |
| `Presentation.FormatTimeExamples` | server/app.js:304-307 | 800 is formatted as "08:00" and 1330 as "13:30" |
| `Presentation.ClockMinutes` | server/app.js:328-334 | minutes since midnight are `parseInt` of the first two padded digits times 60, plus `parseInt` of the rest |
| `Presentation.ClockMinutesArithmetic` | server/app.js:328-334 | the minutes computed through the padded string equal `(t / 100) * 60 + t % 100` for 0..9999 |
| `Presentation.ClockMinutesOrdered` | server/app.js:328-334 | for valid clock values (hour below 24, minutes below 60) the minutes are below 1440 and keep the order of the values in both directions |
| `Presentation.ResolveTeacher` | server/app.js:51-53 | the table's non-empty name for a known code, otherwise the code itself; the result is the code or the table's entry for it, and it is empty only for the empty code |
| `Timetable.Flag` | server/app.js:224-230 | a lesson keeps its fields; it is cancelled when its code is "cancelled" and changed when it has a substitution or info text |
| `Timetable.FlagAll` | server/app.js:224-230 | every fetched lesson is flagged, in order |
| `Timetable.MockTimetable` | server/app.js:240-282 | the four fallback lessons: Mathematik, Deutsch, Englisch (cancelled) and Physik (substituted), from 08:00 to 11:35 |
| `Timetable.FetchTimetable` | server/app.js:178-284 | corrected version (Findings row 2), which flags the fallback lessons too: the fetch throws exactly when the client is not ready; otherwise each fetched lesson, or each fallback lesson after a failed call, keeps its fields; it is flagged cancelled exactly when its code is "cancelled" and changed exactly when it has a substitution or info text |
| `Timetable.FetchTimetableAsWritten` | server/app.js:233-282 | as written, a failed call yields the four fallback lessons with neither flag set |
| `Timetable.FallbackFlagsMissing` | server/app.js:224-282 | as written, the cancelled third fallback lesson and the substituted fourth one are unflagged, whereas the corrected fetch flags them |
| `Timetable.SortByStartTime` | server/app.js:317 | the array ends up in non-decreasing start-time order and is a permutation of its old contents |
| `Timetable.InsertIntoSorted` | server/app.js:317 | one insertion step: with the first `i` lessons sorted, moving lesson `i` left leaves the first `i + 1` sorted, leaves the lessons after `i` unchanged, and the array is a permutation of its old contents |
| `Timetable.SortedCopy` | server/app.js:317 | the result is sorted by start time and a permutation of the input, which is not changed |
| `Timetable.StartTimesPermutation` | server/app.js:317 | two orderings of the same lessons have the same start times, counted with multiplicity |
| `Timetable.SortedStartTimesDetermined` | server/app.js:317 | any two sorted orderings of the same lessons have the same sequence of start times |
| `Timetable.MockSortsAscending` | server/app.js:240-282 | any sorted ordering of the fallback lessons, as the server returns them without flags or with the flags set, has start times 800, 855, 955, 1050 in that order |
| `Timetable.IsCurrentLesson` | server/app.js:336-337 | a lesson is running from its start minute up to, but not including, its end minute |
| `Timetable.CurrentLessonHalfOpen` | server/app.js:328-337 | a lesson is running exactly when `start minutes <= now < end minutes`, with minutes `(t / 100) * 60 + t % 100` |
| `Timetable.CurrentAtStartNotAtEnd` | server/app.js:336-337 | a lesson with valid clock values that starts before it ends is running at its start minute and not at its end minute |
| `Timetable.TeacherName` | server/app.js:344 | a lesson without teachers shows "Unbekannt"; otherwise it shows its first teacher's name, resolved through the table |
| `Timetable.Display` | server/app.js:339-345 | one dashboard entry: the lesson with its flags, its running flag, its formatted start and end, and its teacher's display name |
| `Timetable.DashboardTimetable` | server/app.js:316-346 | the dashboard list is the fetched lessons sorted by start time; each lesson has its running flag for `hour * 60 + minute`, its formatted start and end, and its teacher's display name |

## Left out

- HTTP and view plumbing is not modelled: the Express setup, static files, routes, the page and JSON handlers with their error bodies, the refresh interval default and the port. These are effects with no result to state.
- Loading the configuration and `teacher.json`, including `process.exit`, is file I/O. The teacher table is a parameter.
- The WebUntis client is not modelled: login, re-login after a failure, the holiday and timetable calls, the date-specific method probing and the inner fallback to today's timetable. These are foreign asynchronous calls. Their outcome is a `Fetch` value, and whether the client is ready is a boolean.
- Logging, async/await and reading the clock are left out. The current moment, hour and minute are parameters.
- moment's parsing and formatting are not modelled: turning `YYYYMMDD` into `YYYY-MM-DD`, the `DD.MM.YYYY` date, `toLocaleTimeString` and time-zone or daylight-saving shifts. Days are day numbers and a moment is a day plus milliseconds of local time.
- `getAssignments` returns a constant list, so there is nothing to state about it.
- Calendar.NextSchoolDay: the source fetches the holidays again on every holiday test. The model uses one lookup for the whole search, because its termination depends on a fixed, finite list.
- Calendar.NextSchoolDayAsWritten: it also uses one holiday lookup for the whole search, for the same reason.
- Timetable.SortByStartTime: stability for equal start times (JavaScript's sort is stable) is not stated. The contract gives sortedness and permutation only.
- Timetable.SortedCopy: inherits the missing stability statement of the sort it calls. Lessons with equal start times may come out in any order.
- Timetable.DashboardTimetable: inherits the missing stability statement of the sort. The order of lessons with equal start times is not stated.
- Timetable.FetchTimetable: `isChanged` in the source is the substitution text, the info text or `false`, whichever is truthy first. The model keeps its truth value as a boolean.
- Presentation.ResolveTeacher: the teacher table is a plain map. Inherited JavaScript object properties such as `constructor` are not modelled.
- Presentation.FormatTimeReadsBack: the shape is stated for values up to 9999. Larger values give longer strings. `FormatTime` itself is defined for every non-negative value.

## Findings

| source | as written | input that shows it | evidently intended | confidence | as-written member | corrected member |
|---|---|---|---|---|---|---|
| server/app.js:145-148 | `isBetween(start, end, null, '[]')` compares the current moment, to the millisecond, with the midnight that begins the last holiday day. So after 00:00:00.000 that day is not a holiday, and `getNextSchoolDay` (lines 161-175) can pick it | fallback holidays, moment 2026-01-06 10:00 (last day of Weihnachtsferien): no holiday; searching from Monday 2026-01-05 19:00 returns 2026-01-06 | every day from the first to the last day of a period is a holiday ("inclusive") | high; not executed | `Calendar.LastHolidayDayMissed`, `Calendar.WrittenSearchStopsOnLastHolidayDay` (with `Calendar.CheckHolidayAtMoment`, `Calendar.NextSchoolDayAsWritten`) | `Calendar.CheckHoliday`, `Calendar.NextSchoolDay`, `Calendar.CorrectedSearchSkipsLastHolidayDay` |
| server/app.js:233-282 | a failed timetable fetch returns the fallback lessons without `isCancelled` and `isChanged`, which every fetched lesson carries | fetch failure: lesson 3 has code "cancelled" but no cancelled flag; lesson 4 has a substitution text but no changed flag | the fallback lessons are flagged like fetched ones | medium (the page template is not part of this model); not executed | `Timetable.FallbackFlagsMissing` | `Timetable.FetchTimetable` |
