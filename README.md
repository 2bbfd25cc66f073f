# School dashboard core, modelled in Dafny

The system is a school administration dashboard: a single-page web client
over a hosted Postgres backend. Administrators manage students, teachers,
classes and the junction table `class_teachers`. They also track the monthly
`subscriptions` (paid or unpaid) and read a finance report. Teachers take
attendance for numbered sessions of a day, write evaluation notes, and read a
per-student report. A route guard decides by role which page opens.

This project models the client-side logic of that system. It covers:

- the data transformations the pages run over the fetched rows: grouping,
  tallying, last-write-wins lookups, filters, rates and sorting;
- the handlers that decide what is written back, and when;
- the month lists and month navigation;
- the shared error-message and date helpers;
- the in-memory store of students, teachers and classes.

Every backend answer is a parameter (`Answer`, `Outcome` or `Option` values),
so each success and failure path is a case of the model. Code that only
computes a value is modelled as functions and lemmas. Page state that a
handler updates step by step is a `class` with `modifies` clauses. The
`forEach`/`while` loops of the source are methods, each proved equal to a
specification function whose properties are lemmas.

Modules follow the source files:

| module | models |
|---|---|
| `Common` | `x \|\| []`, `Math.round` of a percentage, counting and filtering |
| `Text` | `trim`, ASCII `toLowerCase`, `includes`, `length` in UTF-16 code units and the search gate |
| `Months` | `YYYY-MM` month keys, the five-year school month range and its loop |
| `DateHelpers` | `src/utils/dateHelpers.ts` |
| `ErrorHandler` | `src/utils/errorHandler.ts` |
| `RouteGuard` | `ProtectedRoute`, the route table and the role lookup |
| `SchoolStore` | `src/stores/useSchoolStore.ts` |
| `Tally` | the last-write-wins and per-id counting loops several pages share |
| `Sheet` | the attendance sheet as a map from student id to status |
| `Selection` | the checkbox lists and the `class_teachers` replacement of the Classes and Teachers pages |
| `AttendanceHook` | `src/hooks/useAttendance.ts` |
| `AttendancePage`, `Today`, `Subscriptions`, `FinanceReport`, `StudentReport`, `Dashboard`, `Evaluations`, `ClassesPage`, `TeachersPage`, `StudentsPage`, `StudentsImproved` | the page of the same name |

Where the code and its documentation differ, the model follows the code:

- The subscription badge of the student report asks whether the FIRST row of
  the month is paid, because `find` stops at the first match. It does not ask
  whether *a* row of the month is paid.
- On the finance report, a selected month that is not in the list (index -1)
  still enables the "previous" button, which then selects the newest month.
- In the finance report, a student's subscription status is that of their
  LAST row of the month, because a later map assignment overwrites an earlier
  one.
- A new class whose returned id is empty skips the `class_teachers` update but
  still counts as saved (`if (classId)`). The Teachers page has no such guard.

## Model

| member | source | states |
|---|---|---|
| Common.OrEmpty | src/pages/FinanceReport.tsx:81-94 | `x \|\| []`: a missing answer is the empty list, a present one is kept |
| Common.Percent | src/pages/FinanceReport.tsx:132 | `Math.round((p / t) * 100)`, computed exactly, with 0 for `t == 0`; the result `r` satisfies r - 1/2 <= 100p/t < r + 1/2, and is at most 100 when p <= t |
| Common.PercentBound | src/pages/Attendance.tsx:231 | the integer formula lies within half a percent of 100p/t, and a share of at most the whole stays at most 100% |
| Text.LeadingSpaces | src/pages/Evaluations.tsx:83 | the white-space prefix stops at the first non-space character |
| Text.ContentEnd | src/pages/Evaluations.tsx:83 | the white-space suffix starts after the last non-space character |
| Text.Trim | src/pages/Evaluations.tsx:105 | `trim()`: a slice of the input with only white space cut on both sides, starting and ending in a non-space; empty iff the input is all white space |
| Text.TrimIdempotent | src/pages/Evaluations.tsx:105 | trimming a trimmed note changes nothing |
| Text.CodeUnits | src/pages/Dashboard.tsx:159 | `length` in UTF-16 code units: between one and two per character, and equal to the character count iff no character lies above the Basic Multilingual Plane |
| Text.OneCharSearches | src/pages/Dashboard.tsx:159 | a one-character query opens the gate iff its character lies outside the Basic Multilingual Plane, since `length` counts it twice |
| Text.SearchReadyTrim | src/pages/Dashboard.tsx:159 | the search gate gives the same answer on the raw and the trimmed query; an all-blank query never searches |
| Text.LowerChar | src/pages/Attendance.tsx:220 | ASCII upper-case letters move to lower case and nothing else changes; the result is never upper case |
| Text.Lower | src/pages/Attendance.tsx:220 | `toLowerCase()`: same length, each character lowered |
| Text.LowerIdempotent | src/pages/Attendance.tsx:220 | lowering twice is lowering once |
| Text.StartsWith | src/utils/errorHandler.ts:52 | `p` is a prefix of `s` |
| Text.Contains | src/utils/errorHandler.ts:52 | `includes`: true iff the pattern occurs at some offset |
| Text.ContainsTrivial | src/pages/Attendance.tsx:220 | every string contains the empty string and itself |
| Text.EmptyTermMatches | src/pages/Attendance.tsx:220 | an empty search term matches every name |
| Months.FromIndex | src/pages/Attendance.tsx:56-65 | every month count gives a valid month with that index |
| Months.AddMonths | src/pages/Attendance.tsx:65 | `setMonth(getMonth() + k)` on day 1: a valid month exactly `k` months away, with the year carried |
| Months.IndexInjective | src/pages/Attendance.tsx:59 | two valid months with the same index are equal, so the `d <= end` order is a total order on months |
| Months.NatString | src/pages/Attendance.tsx:62 | `String(n)`: decimal digits only, at least one digit, one for `n < 10` and two for `10 <= n < 100` |
| Months.IntString | src/pages/Attendance.tsx:60-62 | `String(year)`: never empty |
| Months.Pad2 | src/pages/Attendance.tsx:62 | `padStart(2, '0')` of a month number: two digits |
| Months.MonthValue | src/pages/Attendance.tsx:62 | the `YYYY-MM` key ends in a `-` and two digits |
| Months.SchoolMonths | src/pages/Attendance.tsx:56-66 | the offered range as a value: 60 entries, entry `i` being `i` months after September 2025 |
| Months.GenerateSchoolMonths | src/pages/Attendance.tsx:56-66 | the `while (d <= end)` loop yields exactly the school months, from September 2025 to August 2030 |
| Months.SchoolMonthsConsecutive | src/pages/Attendance.tsx:59-65 | each entry is the month after the previous one, so the list is strictly ascending |
| Months.SchoolMonthsEnds | src/pages/Attendance.tsx:56-57 | the keys of the ends are `"2025-09"` and `"2030-08"` |
| Months.FirstAndLast | src/pages/Attendance.tsx:56-57 | the range starts at its start month and ends at its end month |
| Months.StartValue | src/pages/Attendance.tsx:56 | the start month's key is `"2025-09"` |
| Months.EndValue | src/pages/Attendance.tsx:57 | the end month's key is `"2030-08"` |
| Months.ParseNatString | src/pages/Attendance.tsx:62 | reading `String(n)` back as digits gives `n` |
| Months.ParsePad2 | src/pages/Attendance.tsx:62 | zero padding does not change the value read back |
| Months.NatStringInjective | src/pages/Attendance.tsx:62 | different numbers have different decimal strings |
| Months.IntStringInjective | src/pages/Attendance.tsx:62 | different years have different strings |
| Months.MonthValueInjective | src/pages/Attendance.tsx:62 | different months have different `YYYY-MM` keys, so a key identifies its month |
| Months.SchoolMonthsDistinct | src/pages/Attendance.tsx:62-63 | no two entries of the school month list share a key |
| DateHelpers.GenerateMonths | src/utils/dateHelpers.ts:5-16 | twelve valid months, January to December of the current year plus the offset |
| DateHelpers.GenerateMonthValues | src/utils/dateHelpers.ts:9-14 | the `value` of each of the twelve entries is that month's `yyyy-MM` key, and no two entries share a key |
| DateHelpers.AllMonths | src/utils/dateHelpers.ts:18-24 | 36 months: last year's, this year's and next year's |
| DateHelpers.AllMonthsConsecutive | src/utils/dateHelpers.ts:18-24 | entry `i` is `i` months after January of last year, so the 36 are ascending and distinct |
| DateHelpers.MonthLength | src/utils/dateHelpers.ts:56-59 | February has 29 days iff the year is a Gregorian leap year, else 28; April, June, September and November have 30 days; the rest have 31 |
| DateHelpers.DaysInMonth | src/utils/dateHelpers.ts:56-59 | `new Date(y, m, 0).getDate()`: between 28 and 31 days, and the month's length for a month 1 .. 12 of a year outside 0 .. 99 |
| DateHelpers.TwoDigitYears | src/utils/dateHelpers.ts:56-59 | years 0 .. 99 are read as 1900 .. 1999: February of year 0 has 28 days, while 2000 and 2024 are leap years and 1900 and 2025 are not |
| DateHelpers.MonthCarry | src/utils/dateHelpers.ts:56-59 | month 13 carries into January of the next year and month 0 back into December of the previous one, both 31 days |
| DateHelpers.RelativeTime | src/utils/dateHelpers.ts:39-50 | the five buckets partition the elapsed seconds at 60, 3600, 86400 and 604800, and the count shown is the floor in whole minutes, hours or days |
| DateHelpers.RelativeTimeMonotone | src/utils/dateHelpers.ts:44-49 | as time passes the bucket never moves back, and within a bucket the count never decreases |
| ErrorHandler.CodeMessage | src/utils/errorHandler.ts:35-49 | exactly the four codes PGRST116, 23505, 23503 and 42501 have a fixed message |
| ErrorHandler.HandleError | src/utils/errorHandler.ts:34-66 | a known code decides first; then a message mentioning `fetch`, then bad credentials, then an unconfirmed email; otherwise the error's own non-empty message, or the generic text when the message is missing or empty |
| ErrorHandler.EmptyMentionsNothing | src/utils/errorHandler.ts:52-63 | a missing or empty message matches none of the three message checks |
| ErrorHandler.NothingInEmpty | src/utils/errorHandler.ts:52 | a non-empty marker never occurs in the empty string |
| ErrorHandler.CodeBeforeMessage | src/utils/errorHandler.ts:35-52 | with a known code the message is irrelevant |
| ErrorHandler.NewAppError | src/utils/errorHandler.ts:4-14 | the defaults `UNKNOWN_ERROR`, 500 and operational apply to missing arguments; the name is `AppError` and the message is kept |
| ErrorHandler.DefaultCodeDefersToMessage | src/utils/errorHandler.ts:7 | an application error created without a code is shown by its message, exactly as an error without a code, because `UNKNOWN_ERROR` has no fixed text |
| RouteGuard.Decide | src/components/ProtectedRoute.tsx:14-39 | no session redirects to login; a loading role shows the spinner; then the page opens iff no role is required, or the role matches, or the user is admin; otherwise the dashboard |
| RouteGuard.AdminAndOpenRoutes | src/components/ProtectedRoute.tsx:29-31 | once the role is loaded, the administrator passes every guard and any signed-in user passes a guard without a role |
| RouteGuard.GuardOf | src/App.tsx:35-55 | the five management paths need the admin role; the other signed-in paths need only a session |
| RouteGuard.RoleFromProfile | src/contexts/UserContext.tsx:55 | `data?.role \|\| 'teacher'`: the profile role if present and non-empty, else teacher |
| RouteGuard.RouteAccess | src/contexts/UserContext.tsx:55-60 | for a guarded path and a loaded role, the page opens iff it is not an admin page or the profile role is admin; a user without a profile role never opens an admin page |
| SchoolStore.MergeLaws | src/stores/useSchoolStore.ts:115-120 | `{ ...row, ...patch }`: an empty patch changes nothing, and a patch without an id keeps the row's id |
| SchoolStore.UpdateWhere | src/stores/useSchoolStore.ts:115-120 | the list keeps its length; rows with the id are merged and every other row is unchanged |
| SchoolStore.UpdateAbsent | src/stores/useSchoolStore.ts:115-120 | updating an id that no row has leaves the list as it was |
| SchoolStore.RemoveWhere | src/stores/useSchoolStore.ts:141-144 | no row with the id is left, every other row is kept, and nothing new appears |
| SchoolStore.RemoveWhereLaws | src/stores/useSchoolStore.ts:141-144 | deleting works row by row over a concatenation, drops exactly the rows with the id, and a second delete changes nothing |
| SchoolStore.Store.constructor | src/stores/useSchoolStore.ts:55-61 | the store starts with empty lists, not loading, and no error |
| SchoolStore.Store.Begin | src/stores/useSchoolStore.ts:65 | every action starts loading, clears the error and keeps the lists |
| SchoolStore.Store.Fail | src/stores/useSchoolStore.ts:74-77 | a caught error stops loading, records the message and keeps the lists |
| SchoolStore.Store.FetchStudents | src/stores/useSchoolStore.ts:64-78 | on success the student list is the answer (`[]` when absent) and the error is cleared; on failure the old list stays and the message is recorded; other lists are untouched |
| SchoolStore.Store.FetchTeachers | src/stores/useSchoolStore.ts:156-170 | the same for teachers |
| SchoolStore.Store.FetchClasses | src/stores/useSchoolStore.ts:248-262 | the same for classes |
| SchoolStore.Store.AddStudent | src/stores/useSchoolStore.ts:80-103 | on success the inserted student goes first and is returned; on failure nothing changes but the error |
| SchoolStore.Store.AddTeacher | src/stores/useSchoolStore.ts:172-195 | on success the inserted teacher goes last and is returned |
| SchoolStore.Store.AddClass | src/stores/useSchoolStore.ts:264-287 | on success the inserted class goes last and is returned |
| SchoolStore.Store.UpdateStudent | src/stores/useSchoolStore.ts:105-129 | succeeds iff the backend reports no error; then the students with the id are merged with the patch; otherwise the list stays and the error is recorded |
| SchoolStore.Store.UpdateTeacher | src/stores/useSchoolStore.ts:197-221 | the same for teachers |
| SchoolStore.Store.UpdateClass | src/stores/useSchoolStore.ts:289-313 | the same for classes |
| SchoolStore.Store.DeleteStudent | src/stores/useSchoolStore.ts:131-153 | on success exactly the students with the id are removed; on failure the list stays and the error is recorded |
| SchoolStore.Store.DeleteTeacher | src/stores/useSchoolStore.ts:223-246 | the same for teachers |
| SchoolStore.Store.DeleteClass | src/stores/useSchoolStore.ts:315-337 | the same for classes |
| SchoolStore.Store.ClearError | src/stores/useSchoolStore.ts:339 | only the error is cleared |
| Tally.LastWinsKeys | src/pages/FinanceReport.tsx:81-82 | a lookup built by `m[key] = value` has a key iff some row carries it |
| Tally.LastWinsValue | src/pages/FinanceReport.tsx:81-82 | the value under a key is that of the LAST row with the key |
| Tally.BuildLastWins | src/pages/FinanceReport.tsx:81-82 | the `forEach` loop builds exactly the last-write-wins lookup |
| Tally.CountsSpec | src/pages/Dashboard.tsx:131-134 | the count map has exactly the ids that occur, each with its number of rows |
| Tally.CountRows | src/pages/Dashboard.tsx:131-134 | the `(m[id] \|\| 0) + 1` loop yields those counts |
| Tally.RepeatAbsenteesSpec | src/pages/Dashboard.tsx:135-144 | an id is a repeat absentee iff at least three absent rows carry it |
| Tally.RepeatAbsenteesOfFilter | src/pages/Today.tsx:102-116 | a repeat absentee of a subset of the rows is one of all the rows |
| Tally.Ids | src/pages/Dashboard.tsx:131-134 | the id column: one id per row, in order |
| Tally.CountIdsFilter | src/pages/Today.tsx:102-116 | restricting the rows can only lower an id's count |
| Sheet.StudentIds | src/pages/Today.tsx:86-87 | the listed students' ids, in order |
| Sheet.FillAll | src/pages/Today.tsx:136-141 | the `forEach` gives every listed student the status and the sheet has no other key |
| Sheet.SessionPairs | src/pages/Attendance.tsx:156-163 | one `(student_id, status)` pair per row, in order |
| Sheet.MarkedBound | src/pages/Today.tsx:172-176 | marked present plus marked absent is at most the number of listed students |
| Sheet.SheetOfSpec | src/pages/Attendance.tsx:156-163 | the loaded sheet gives a student the status of their last row |
| Sheet.SheetOfKeys | src/pages/Attendance.tsx:156-163 | the loaded sheet has exactly the students of the rows |
| Sheet.LoadSheet | src/pages/Attendance.tsx:156-163 | the loop reading a session's rows builds that sheet |
| Sheet.UniformCounts | src/pages/Attendance.tsx:176-182 | after marking all with a status every student is counted under it and none under the other |
| Selection.Toggle | src/pages/Classes.tsx:115-121 | the checkbox flips one id: removed (every copy) if selected, else appended to the end; other ids are unaffected |
| Selection.ToggleTwice | src/pages/Classes.tsx:115-121 | checking and then unchecking an unselected id gives back the original list |
| Selection.Somes | src/pages/Classes.tsx:64-71 | `.filter(Boolean)` keeps the present join entries and only those |
| Selection.SomesAllPresent | src/pages/Classes.tsx:64-71 | with no missing entry nothing is dropped and the order is kept |
| Selection.NewAssignments | src/pages/Classes.tsx:150-156 | one junction row per selected id, all owned by the edited record |
| Selection.ReplaceAssignments | src/pages/Classes.tsx:147-159 | a failed delete leaves the table; otherwise other owners' rows are kept, and the owner's rows become the selection (or none when the insert fails, which also reports failure) |
| Selection.KeptRows | src/pages/Classes.tsx:147-149 | after the delete the owner has no rows and the others' rows are as before |
| Selection.SaveMatchesSelection | src/pages/Classes.tsx:147-159 | after a successful save the owner's assigned ids are exactly the selected set, and every other owner's are unchanged |
| Selection.AssignedAfterSave | src/pages/Classes.tsx:147-159 | after the replacement an owner's ids are the selection if it is the edited one, else its old ids |
| Selection.AssignedNew | src/pages/Classes.tsx:150-156 | the new rows assign the selection to the owner and nothing to anyone else |
| Selection.AssignedKept | src/pages/Classes.tsx:147-149 | the delete takes away all of the owner's ids and none of anyone else's |
| Selection.Submit | src/pages/Classes.tsx:123-169 | an existing record is updated and then its rows replaced; a new record's rows are replaced under the created id; a failed write or a missing created id stops with failure and the table unchanged |
| Selection.DeleteRequest | src/pages/Classes.tsx:172 | a delete is sent iff the id is present and non-empty, and for that id |
| AttendanceHook.SessionQuery | src/hooks/useAttendance.ts:25-58 | no query without parameters; an error on failure; otherwise the rows, their sheet (the last status per student) and `hasExistingData` iff there is a row |
| AttendanceHook.HistoryQuery | src/hooks/useAttendance.ts:61-83 | a missing or empty student id yields `[]` without a query; otherwise the rows, or an error |
| AttendanceHook.StatsQuery | src/hooks/useAttendance.ts:130-163 | no stats for a missing or empty id; otherwise the total rows, those with status `present`, the others as absent, and the rounded rate |
| AttendanceHook.AttendanceTable.constructor | src/hooks/useAttendance.ts:98-116 | the table holds the given rows |
| AttendanceHook.AttendanceTable.Save | src/hooks/useAttendance.ts:98-116 | a failed delete changes nothing; otherwise the session's rows are deleted and, when there are records, they are inserted; success iff both steps succeed |
| AttendanceHook.SaveReplacesSession | src/hooks/useAttendance.ts:98-116 | after a successful save the session holds exactly the saved records and other sessions are untouched |
| AttendanceHook.SaveNothingEmpties | src/hooks/useAttendance.ts:98-108 | saving no records empties the session |
| AttendancePage.GenerateMonths | src/pages/Attendance.tsx:50-67 | the sixty school months, September 2025 first and August 2030 last |
| AttendancePage.RecordsForSpec | src/pages/Attendance.tsx:189-197 | a record is sent iff it carries the chosen session and a sheet entry; one per sheet entry; none iff the sheet is empty |
| AttendancePage.FilteredStudents | src/pages/Attendance.tsx:218-221 | the students whose name contains the term (case-folded); an empty term lists everyone, in order |
| AttendancePage.FilterEverything | src/pages/Attendance.tsx:218-221 | the empty term keeps the list as it is |
| AttendancePage.StatsOf | src/pages/Attendance.tsx:226-233 | none iff the class is empty; otherwise the present and absent counts, the unmarked rest and the rounded rate of at most 100 |
| AttendancePage.MarkAllPresentStats | src/pages/Attendance.tsx:176-182 | marking everyone present shows the whole class present, nobody unmarked, at a 100% rate |
| AttendancePage.AttendancePage.constructor | src/pages/Attendance.tsx:123-170 | no selection, no students, an empty sheet, no banner |
| AttendancePage.AttendancePage.Load | src/pages/Attendance.tsx:123-170 | a failed student query shows the error and clears the page; otherwise the students are listed, and the existing rows (or an empty sheet, when there are none or that query failed) fill the sheet, `hasExistingData` iff there was a row |
| AttendancePage.AttendancePage.SetStatus | src/pages/Attendance.tsx:172-174 | only that student's entry changes |
| AttendancePage.AttendancePage.MarkAll | src/pages/Attendance.tsx:176-182 | the sheet becomes exactly the listed students with the status |
| AttendancePage.AttendancePage.Save | src/pages/Attendance.tsx:184-216 | nothing is sent without a complete selection or after a session is recorded; otherwise the sheet's records are sent; an empty sheet sends nothing and only clears the banners; an error shows its message; success shows the banner |
| Today.Names | src/pages/Today.tsx:102-116 | the full names of the students, in order |
| Today.FlaggedNamesSpec | src/pages/Today.tsx:102-116 | the banner names exactly the listed students with at least three absent rows, in list order |
| Today.FlaggedCountedByDashboard | src/pages/Today.tsx:102-116 | a student the banner flags from one class's rows is also flagged by the dashboard's count over all the month's rows |
| Today.StatsOf | src/pages/Today.tsx:172-176 | the marked-present and marked-absent counts, at most the number of listed students |
| Today.Toggled | src/pages/Today.tsx:128-134 | a toggle gives absent iff the student was present; absent or unmarked becomes present |
| Today.TodaySheet.constructor | src/pages/Today.tsx:22-35 | the page starts in the choosing step with no class or session and an empty sheet |
| Today.TodaySheet.Choose | src/pages/Today.tsx:217-257 | in the choosing step the pickers set the class and the session and nothing else; in the other steps they are not shown and nothing changes |
| Today.InitialSheet | src/pages/Today.tsx:89-99 | the sheet is locked iff the session has rows; then it holds the last recorded status per student, otherwise everyone present |
| Today.TodaySheet.LoadAttendance | src/pages/Today.tsx:70-120 | without a teacher nothing changes; otherwise the class is listed, the existing rows fill the sheet (or all present when there are none), the sheet is locked iff rows exist, the banner names the repeat absentees, and the page moves to the marking step |
| Today.TodaySheet.Back | src/pages/Today.tsx:290 | from the marking or done step, back to choosing with the list emptied; the session, the sheet and its lock are kept |
| Today.TodaySheet.AnotherSession | src/pages/Today.tsx:409-411 | from the done step, back to choosing with no session, no list and no lock; the class is kept |
| Today.TodaySheet.Toggle | src/pages/Today.tsx:128-134 | one student flips, and nothing changes once the session is recorded |
| Today.TodaySheet.MarkAll | src/pages/Today.tsx:136-141 | every listed student gets the status, and nothing changes once recorded |
| Today.TodaySheet.Records | src/pages/Today.tsx:147-155 | one record per listed student, in order, for today's session; absent iff marked absent, so unmarked students are saved present |
| Today.TodaySheet.Save | src/pages/Today.tsx:143-169 | refused without a teacher, a class or a non-zero session, or once recorded; otherwise sends the records, and a success locks the sheet and moves to the done step |
| Subscriptions.GenerateMonths | src/pages/Subscriptions.tsx:41-58 | the sixty school months, September 2025 first and August 2030 last |
| Subscriptions.SubPairs | src/pages/Subscriptions.tsx:89-93 | one `(student_id, {status, paid_at})` pair per row, in order |
| Subscriptions.SubsMapSpec | src/pages/Subscriptions.tsx:89-93 | a student's entry is that of their last subscription row |
| Subscriptions.SessionMarksLast | src/pages/Subscriptions.tsx:101-106 | a student's session shows the status of the last row for that student and session |
| Subscriptions.SessionMarksOnlyRows | src/pages/Subscriptions.tsx:101-106 | a session mark exists only when some row has that student and session |
| Subscriptions.BuildSessionMarks | src/pages/Subscriptions.tsx:101-106 | the nested `forEach` builds exactly those marks |
| Subscriptions.Toggled | src/pages/Subscriptions.tsx:113-115 | paid becomes unpaid without a date; unpaid, or no row, becomes paid now |
| Subscriptions.FilteredStudents | src/pages/Subscriptions.tsx:140-146 | the students whose name contains the term and whose class is the chosen one, or all classes |
| Subscriptions.NoClassOnlyUnderAll | src/pages/Subscriptions.tsx:140-146 | a student without a class is listed only under the "all" choice |
| Subscriptions.SubscriptionsPage.constructor | src/pages/Subscriptions.tsx:89-106 | the page starts on the month given, with no subscriptions and no marks |
| Subscriptions.SubscriptionsPage.FetchSubscriptionData | src/pages/Subscriptions.tsx:89-106 | the lookups are rebuilt from the month's rows, an absent answer counting as none |
| Subscriptions.SubscriptionsPage.TogglePayment | src/pages/Subscriptions.tsx:112-138 | sends the toggled row for the selected month; on success that student's entry becomes it; on failure nothing changes |
| Subscriptions.ToggleFlips | src/pages/Subscriptions.tsx:112-135 | a successful toggle flips that student's paid state and no other student's |
| Subscriptions.ToggleTwice | src/pages/Subscriptions.tsx:112-135 | two successful toggles restore the shown status |
| FinanceReport.NonEmpty | src/pages/FinanceReport.tsx:82 | `x \|\| null`: the empty string becomes null too |
| FinanceReport.ClassLabel | src/pages/FinanceReport.tsx:90 | the class name, or the dash for no or an empty name |
| FinanceReport.SubPairs | src/pages/FinanceReport.tsx:81-82 | one `(student_id, {status, paid_at})` pair per row, in order |
| FinanceReport.StudentRows | src/pages/FinanceReport.tsx:87-94 | one row per fetched student, in order |
| FinanceReport.StudentRowIdentity | src/pages/FinanceReport.tsx:87-90 | each row keeps the student's id and name and labels the class |
| FinanceReport.StudentRowDefaultUnpaid | src/pages/FinanceReport.tsx:91-92 | a student without a subscription row is unpaid, with no payment date |
| FinanceReport.StudentRowLastSubscription | src/pages/FinanceReport.tsx:81-92 | with several rows for a student, the last one decides both status and date |
| FinanceReport.StudentRowAbsences | src/pages/FinanceReport.tsx:84-93 | the absences are the student's number of absent rows, 0 without any |
| FinanceReport.PaidUnpaidSplit | src/pages/FinanceReport.tsx:96-98 | every row is either paid or unpaid |
| FinanceReport.CollectionRate | src/pages/FinanceReport.tsx:132 | the paid share rounded to a whole percent, at most 100, and 0 with no students |
| FinanceReport.ClassIdOf | src/pages/FinanceReport.tsx:105-106 | the class of the first student with the id, none without one |
| FinanceReport.TallyOfSplit | src/pages/FinanceReport.tsx:105-112 | each class's total is its paid plus its unpaid |
| FinanceReport.UnassignedCountsNowhere | src/pages/FinanceReport.tsx:105-112 | a student whose class is null, empty or not a fetched class counts toward no class |
| FinanceReport.Bump | src/pages/FinanceReport.tsx:107-111 | one iteration keeps the set of classes |
| FinanceReport.TallyOfSnoc | src/pages/FinanceReport.tsx:105-112 | tallying one more row is one iteration |
| FinanceReport.BumpAt | src/pages/FinanceReport.tsx:107-111 | an iteration changes only the counters of the row's own class |
| FinanceReport.CounterOfSnoc | src/pages/FinanceReport.tsx:105-112 | one more row raises the counters of its own class and no other |
| FinanceReport.Tallied | src/pages/FinanceReport.tsx:101-112 | the counters after the loop have exactly the fetched classes as keys |
| FinanceReport.TalliedCounts | src/pages/FinanceReport.tsx:101-112 | after the loop each class's counters count that class's rows |
| FinanceReport.TallyOfNone | src/pages/FinanceReport.tsx:101-103 | before any row every class is at zero |
| FinanceReport.TallyClasses | src/pages/FinanceReport.tsx:105-112 | the loop yields each class's counts of its rows |
| FinanceReport.DistinctIds | src/pages/FinanceReport.tsx:113 | `Object.values` visits each class once, and every class |
| FinanceReport.ClassIds | src/pages/FinanceReport.tsx:101-103 | the class ids, in order |
| FinanceReport.NamePairs | src/pages/FinanceReport.tsx:101-103 | one `(id, name)` pair per class, in order |
| FinanceReport.StatOf | src/pages/FinanceReport.tsx:113-115 | a class's rate is its rounded paid share, at most 100, and 0 without students |
| FinanceReport.Rollup | src/pages/FinanceReport.tsx:113-115 | one entry per class, with its name, counters and rate |
| FinanceReport.ClassStats | src/pages/FinanceReport.tsx:113-116 | the classes with students, sorted by rate highest first, each once, each with its own counters |
| FinanceReport.ClassStatsFacts | src/pages/FinanceReport.tsx:113-116 | every shown entry is a class's stat, each class with students is shown, and no class twice |
| FinanceReport.SortedMembers | src/pages/FinanceReport.tsx:116 | sorting keeps exactly the entries |
| FinanceReport.ClassStatsEntries | src/pages/FinanceReport.tsx:113-116 | every shown entry carries its class's name and counters |
| FinanceReport.ClassStatsComplete | src/pages/FinanceReport.tsx:113-116 | every class with students is shown |
| FinanceReport.RollupDistinct | src/pages/FinanceReport.tsx:113 | no class appears twice in the rollup |
| FinanceReport.InsertDistinct | src/pages/FinanceReport.tsx:116 | inserting an entry of a new class keeps the classes distinct |
| FinanceReport.SortDistinct | src/pages/FinanceReport.tsx:116 | sorting keeps the classes distinct |
| FinanceReport.InsertByRateMultiset | src/pages/FinanceReport.tsx:116 | inserting adds exactly one entry |
| FinanceReport.InsertByRateSorted | src/pages/FinanceReport.tsx:116 | inserting into a sorted list keeps it sorted |
| FinanceReport.SortByRate | src/pages/FinanceReport.tsx:116 | `sort((a, b) => b.rate - a.rate)`: highest rate first and a permutation of the entries |
| FinanceReport.InsertByRateStable | src/pages/FinanceReport.tsx:116 | an insert puts the entry before those of its own rate and keeps their order |
| FinanceReport.SortByRateStable | src/pages/FinanceReport.tsx:116 | the sort is stable: classes sharing a rate keep their relative order |
| FinanceReport.ClassIdsKnown | src/pages/FinanceReport.tsx:101-103 | every class id in the rollup has a name |
| FinanceReport.TallySplit | src/pages/FinanceReport.tsx:105-112 | every class's total splits into paid and unpaid |
| FinanceReport.FetchData | src/pages/FinanceReport.tsx:81-120 | the report is that of the fetched rows (absent answers as none); the total is the number of students and the paid count is at most it |
| FinanceReport.ReportCounts | src/pages/FinanceReport.tsx:96-98 | one row per student, the paid ones counted in the paid card, and the unpaid card is the rest |
| FinanceReport.ReportClassCounts | src/pages/FinanceReport.tsx:105-116 | each class entry counts exactly that class's paid and unpaid students |
| FinanceReport.FilteredStudents | src/pages/FinanceReport.tsx:123-129 | the rows passing the class and the status filter, and all of them, in table order |
| FinanceReport.FilteredAll | src/pages/FinanceReport.tsx:123-129 | both filters on "all" list every row |
| FinanceReport.Reverse | src/pages/FinanceReport.tsx:48 | `reverse()` puts position `i` at `n - 1 - i` |
| FinanceReport.FinanceMonths | src/pages/FinanceReport.tsx:36-49 | sixty months, the school range reversed |
| FinanceReport.FinanceMonthsNewestFirst | src/pages/FinanceReport.tsx:36-49 | position `i` of the list is `i` months before August 2030 |
| FinanceReport.BuildMonthList | src/pages/FinanceReport.tsx:36-49 | the loop and `reverse()` give that list, August 2030 first and September 2025 last |
| FinanceReport.FindIndex | src/pages/FinanceReport.tsx:150 | the first position holding the value, -1 iff there is none |
| FinanceReport.Keys | src/pages/FinanceReport.tsx:43 | the `YYYY-MM` key of each month, in order |
| FinanceReport.MonthKeysMatch | src/pages/FinanceReport.tsx:150 | looking the key up among the keys finds the same position as looking the month up among the months |
| FinanceReport.PrevMonth | src/pages/FinanceReport.tsx:172 | the previous button works iff `canPrev`, and selects the entry after the current index |
| FinanceReport.NextMonth | src/pages/FinanceReport.tsx:180 | the next button works iff `canNext`, and selects the entry before the current index |
| FinanceReport.MonthListIndex | src/pages/FinanceReport.tsx:150 | selecting position `i` makes `i` the current index |
| FinanceReport.MonthNavigation | src/pages/FinanceReport.tsx:150-152 | on the list, "next" works iff a newer month exists and "previous" iff an older one does; they select the neighbouring entries |
| FinanceReport.NextIsFollowing | src/pages/FinanceReport.tsx:180 | "next" moves one calendar month forward |
| FinanceReport.PrevIsPreceding | src/pages/FinanceReport.tsx:172 | "previous" moves one calendar month back |
| FinanceReport.MonthNavigationOffList | src/pages/FinanceReport.tsx:150-152 | a month not in the list disables "next", yet "previous" is enabled and selects August 2030 |
| StudentReport.OrDash | src/pages/StudentReport.tsx:40-45 | `x \|\| '—'`: the value when present and non-empty, else the dash |
| StudentReport.SearchResults | src/pages/StudentReport.tsx:31-49 | no query or hit below two UTF-16 code units of trimmed text; otherwise one hit per found row, in order, with the class and parent fields dashed when empty |
| StudentReport.LastFourMonths | src/pages/StudentReport.tsx:58-62 | four valid months ending with the current one, consecutive and ascending |
| StudentReport.ReportMonthsConsecutive | src/pages/StudentReport.tsx:58-62 | each report month is the month after the previous one |
| StudentReport.BucketsSpec | src/pages/StudentReport.tsx:71-75 | a month has a bucket iff some row is of that month, and the bucket counts that month's present and absent rows |
| StudentReport.BucketByMonth | src/pages/StudentReport.tsx:71-75 | the `forEach` builds exactly those buckets |
| StudentReport.StatOf | src/pages/StudentReport.tsx:76-86 | a month's total is present plus absent, its rate the rounded present share, at most 100; a month without rows is all zero |
| StudentReport.Stats | src/pages/StudentReport.tsx:76-86 | one entry per report month, in order |
| StudentReport.StatsOfRows | src/pages/StudentReport.tsx:76-86 | each entry counts exactly its month's present and absent rows |
| StudentReport.SumPresentBound | src/pages/StudentReport.tsx:96-100 | the present days never exceed the total days |
| StudentReport.OverallRate | src/pages/StudentReport.tsx:96-100 | all present rows over all rows of the shown months, rounded to the nearest percent, at most 100, and 0 without rows |
| StudentReport.OverallRateIsNotMean | src/pages/StudentReport.tsx:96-100 | the overall rate weighs months by their rows: it differs from the mean of the monthly rates |
| StudentReport.SumsCountRows | src/pages/StudentReport.tsx:96-100 | over distinct months, the sums count exactly the rows of those months and their present rows |
| StudentReport.MonthCounts | src/pages/StudentReport.tsx:76-86 | a month's entry totals that month's rows, present ones included |
| StudentReport.MonthsSnoc | src/pages/StudentReport.tsx:96-100 | adding a new month to the list adds that month's rows to the sums |
| StudentReport.OverallCoversRows | src/pages/StudentReport.tsx:96-100 | when every row is of a shown month, the total is the number of rows |
| StudentReport.MonthPaid | src/pages/StudentReport.tsx:230-231 | the badge is paid iff the first row of the month is paid; a month without rows is unpaid |
| Dashboard.FetchAlerts | src/pages/Dashboard.tsx:95-152 | a non-administrator gets no alert fetch; an administrator gets the unpaid and the absence alerts, the absence counts built by the loop |
| Dashboard.UnpaidAlertSpec | src/pages/Dashboard.tsx:112-121 | the unpaid alert is raised iff students outnumber paid rows, showing the difference, and links to subscriptions |
| Dashboard.AbsenceAlertSpec | src/pages/Dashboard.tsx:131-144 | the absence alert is raised iff some student has at least three absent rows, showing how many students do, and links to attendance |
| Dashboard.NoRowsNoAbsenceAlert | src/pages/Dashboard.tsx:131-144 | without absent rows there is no absence alert |
| Dashboard.AlertOrder | src/pages/Dashboard.tsx:112-150 | at most two alerts, and the unpaid alert comes first |
| Dashboard.SearchResults | src/pages/Dashboard.tsx:159-162 | nothing below two UTF-16 code units of trimmed text, otherwise the found rows |
| Evaluations.InitialClass | src/pages/Evaluations.tsx:45-47 | the first class becomes the selection; none without classes |
| Evaluations.HistorySpec | src/pages/Evaluations.tsx:70-74 | a student has a history iff some row is theirs, and it is exactly their rows, newest first |
| Evaluations.BuildHistory | src/pages/Evaluations.tsx:70-74 | the `forEach` builds exactly that history |
| Evaluations.NextHistory | src/pages/Evaluations.tsx:62-76 | the history is rebuilt when the class has students and kept otherwise |
| Evaluations.NoteCountsAddUp | src/pages/Evaluations.tsx:172-176 | the students with notes and those without add up to the class |
| Evaluations.HasNotesIffRow | src/pages/Evaluations.tsx:172 | a student has notes iff some fetched row is theirs |
| Evaluations.ShownHistory | src/pages/Evaluations.tsx:236 | at most the three newest notes are shown, in order |
| Evaluations.FilteredStudents | src/pages/Evaluations.tsx:121-125 | the students whose name contains the term |
| Evaluations.NoteToSave | src/pages/Evaluations.tsx:82-106 | nothing for a missing, empty or blank draft; otherwise the trimmed draft, non-empty and already trimmed, with the teacher |
| Evaluations.DraftsAfterSave | src/pages/Evaluations.tsx:108-112 | only a sent and successful note clears that student's draft; other drafts are kept |
| Evaluations.ClearedDraftNotSaved | src/pages/Evaluations.tsx:82-112 | a cleared draft cannot be saved again |
| ClassesPage.TransformClasses | src/pages/Classes.tsx:64-71 | one class per row, in order, with its present joined teachers |
| ClassesPage.TransformDropsMissing | src/pages/Classes.tsx:64-71 | a joined teacher is shown iff its entry is present |
| ClassesPage.TeacherIds | src/pages/Classes.tsx:83-94 | the teachers' ids, in order |
| ClassesPage.OpenModal | src/pages/Classes.tsx:83-94 | editing pre-selects the class's teacher ids; a new class starts empty |
| ClassesPage.TeacherSelectionChange | src/pages/Classes.tsx:115-121 | one teacher's checkbox flips and the rest of the form is kept |
| ClassesPage.SubmitClass | src/pages/Classes.tsx:123-169 | an edited class's rows are replaced by the selection; a created class's rows go under its id, an empty id skipping that step but still saved; a failed write leaves the table |
| ClassesPage.EditRoundTrip | src/pages/Classes.tsx:83-169 | opening a class and saving it unchanged writes back the same teachers |
| ClassesPage.TeacherIdsSet | src/pages/Classes.tsx:83-94 | the pre-selected ids are exactly the class's teachers' ids |
| ClassesPage.DeleteClass | src/pages/Classes.tsx:172 | a delete is sent iff the form has a non-empty id, for that id |
| TeachersPage.TransformTeachers | src/pages/Teachers.tsx:53-56 | one teacher per row, in order, with its present joined classes |
| TeachersPage.TransformDropsMissing | src/pages/Teachers.tsx:53-56 | a joined class is shown iff its entry is present |
| TeachersPage.ClassIds | src/pages/Teachers.tsx:71-78 | the classes' ids, in order |
| TeachersPage.OpenModal | src/pages/Teachers.tsx:71-78 | editing pre-selects the teacher's class ids; a new teacher starts empty |
| TeachersPage.ClassSelectionChange | src/pages/Teachers.tsx:101-109 | nothing without a form; otherwise one class's checkbox flips and the rest is kept |
| TeachersPage.SubmitTeacher | src/pages/Teachers.tsx:111-151 | nothing without a form; an edited teacher's rows are replaced by the selection, a created teacher's go under the new id, and a failed write leaves the table |
| TeachersPage.NewTeacherAssignments | src/pages/Teachers.tsx:111-151 | adding a teacher assigns exactly the selected classes to it and leaves every other teacher's classes as they were |
| TeachersPage.DeleteTeacher | src/pages/Teachers.tsx:154 | a delete is sent iff there is a form with a non-empty id, for that id |
| StudentsPage.StudentsOf | src/pages/Students.tsx:305 | exactly the students of the class |
| StudentsPage.ViewOf | src/pages/Students.tsx:303-306 | a class view keeps the class and lists its students |
| StudentsPage.AllClasses | src/pages/Students.tsx:322-326 | one view per fetched class, in order |
| StudentsPage.NoClassNowhere | src/pages/Students.tsx:322-326 | a student without a class is listed under no class |
| StudentsPage.ClassIdsOf | src/pages/Students.tsx:297-299 | exactly the ids of the classes the junction rows tie to the teacher |
| StudentsPage.TeacherClasses | src/pages/Students.tsx:301-307 | the teacher's classes are fetched classes with a junction row for the teacher, each with its students |
| StudentsPage.TeacherClassesSpec | src/pages/Students.tsx:296-314 | a class is shown under a teacher iff it was fetched and a junction row ties it to the teacher |
| StudentsPage.TransformTeachers | src/pages/Students.tsx:296-314 | one entry per teacher, in order, with its classes |
| StudentsPage.DefaultTeacher | src/pages/Students.tsx:318-320 | the first teacher's tab opens when none is selected and a teacher exists; otherwise the selection is kept |
| StudentsPage.TeacherOfClass | src/pages/Students.tsx:157 | the first teacher one of whose classes has the id, none iff no teacher has it |
| StudentsPage.ModalTeacher | src/pages/Students.tsx:152-164 | the teacher picker opens on the first teacher of the student's class, keeps its value when no teacher has it, and is empty without a class |
| StudentsPage.TeacherChange | src/pages/Students.tsx:171-175 | picking a teacher clears the class choice and keeps the other fields |
| StudentsPage.OrNull | src/pages/Students.tsx:360 | `v \|\| null`: null iff missing or empty |
| StudentsPage.DataToSave | src/pages/Students.tsx:360 | the name is passed through, empty parent fields and the empty class choice become null |
| StudentsPage.TeacherChangeThenSave | src/pages/Students.tsx:171-175 | changing the teacher and saving without picking a class stores no class |
| StudentsPage.SubmitStudent | src/pages/Students.tsx:359-370 | an update for a present non-empty id, an insert otherwise, both of the normalised row |
| StudentsPage.DeleteStudent | src/pages/Students.tsx:373 | a delete is sent iff there is a student with a non-empty id, for that id |
| StudentsImproved.FilteredStudents | src/pages/StudentsImproved.tsx:37-42 | the students whose name or parent's name contains the term, of the chosen class or of all |
| StudentsImproved.GroupName | src/pages/StudentsImproved.tsx:46 | the class name, or the no-class label, never empty |
| StudentsImproved.Names | src/pages/StudentsImproved.tsx:45-52 | the group keys in the order the `reduce` creates them (first sight), each once |
| StudentsImproved.NamesSpec | src/pages/StudentsImproved.tsx:45-52 | a name is a group key iff some student carries it |
| StudentsImproved.AbsentNameEmpty | src/pages/StudentsImproved.tsx:45-52 | a name no student carries has an empty group |
| StudentsImproved.GroupedSpec | src/pages/StudentsImproved.tsx:45-52 | the accumulator holds a group for exactly the keys, each group being that name's students in list order |
| StudentsImproved.GroupByClass | src/pages/StudentsImproved.tsx:45-52 | the grouping loop yields a group for exactly the names some student carries, each group being that name's students in list order; the keys come in `Object.entries` order, the `OwnKeys` of the creation order |
| StudentsImproved.OwnKeys | src/pages/StudentsImproved.tsx:177 | `Object.entries` order: the same keys, the array-index keys (such as `"3"`) first and ascending by value, then the other keys in creation order |
| StudentsImproved.SortAscending | src/pages/StudentsImproved.tsx:177 | the array-index keys sorted ascending, a permutation of the input |
| StudentsImproved.OwnKeysNamed | src/pages/StudentsImproved.tsx:177 | without a numeric class name the groups are listed in creation order |
| StudentsImproved.GroupSizesSum | src/pages/StudentsImproved.tsx:45-52 | the group sizes add up to the number of students |
| StudentsImproved.OneGroupEach | src/pages/StudentsImproved.tsx:45-52 | a student is in the group of its own name and in no other |
| StudentsImproved.HandleSubmit | src/pages/StudentsImproved.tsx:90-105 | a failed validation shows its errors and writes nothing; otherwise the edited student is updated, or a new one added |

## Left out

- The backend, the network and authentication are not modelled. Every query
  and write result is a parameter, and which rows a query selects (its `eq`,
  `in` and `order` clauses) is assumed in the rows passed in.
- React's render timing, effects, debouncing, `react-query` caching and
  loading spinners are not modelled. Each handler is one atomic step.
- The CSV export, the print views and the `Blob` download are not modelled,
  because they are only output formatting (src/pages/Subscriptions.tsx:149-182,
  src/pages/FinanceReport.tsx:135-147, src/pages/Attendance.tsx:236-249).
- The zod schemas of src/utils/validationSchemas.ts are not modelled. A
  validation outcome is a parameter of `StudentsImproved.HandleSubmit`.
- Toasts, labels, the Arabic month names, the theme and all layout are not
  modelled.
- DateHelpers.GenerateMonthValues: the year is written as `String(year)`.
  `format(d, 'yyyy-MM')` pads years below 1000 to four digits, which the
  model does not.
- Text.Lower: lower-cases ASCII letters only. The source's `toLowerCase`
  follows full Unicode case mapping.
- Common.Percent: rounds exact halves up, as `Math.round` does. It does not
  model the floating-point error of `p / t * 100` before rounding.
- StudentReport.LastFourMonths: months are counted on day 1. The overflow of
  `setMonth` on the 29th-31st of a month (src/pages/StudentReport.tsx:60) is
  not modelled, and neither is the time zone.
- The clock is a parameter: the current month, the day and `now`.
  `formatDate` is the `FullDate` case of `DateHelpers.RelativeTime`.
- FinanceReport.Rollup: goes over class ids in first-appearance order, which
  is the `Object.values` order only because the ids are UUIDs, which contain
  `-` and so are never array indices. The array-index rule itself is modelled
  once, for the grouped student list (`StudentsImproved.OwnKeys`).
- `session_number` is an integer key. The string form that is written
  (`String(selectedSession)`) is not modelled.
- The `teachers`, `classes` and `students` tables are not modelled as stored
  data. Only the `class_teachers` junction and the attendance rows are.
- The Subjects, Login and Navbar pages, BottomNav, the theme context,
  src/main.tsx and src/hooks/useStudents.ts are not part of this model.
- The Dashboard's summary-card fetch is not modelled, only its alerts and its
  search.
- Today.TodaySheet.LoadAttendance, Today.TodaySheet.Save: the `teacherId` field
  is tested for `None` only. The source's `!teacherId` also refuses `""`, but
  the id is only ever set from a teacher row (src/pages/Today.tsx:51), so it
  is never empty.
- DateHelpers.RelativeTime: the elapsed seconds are an integer, so the
  invalid-date case is not modelled. For an unparsable date the difference is
  `NaN`, and `formatDate` falls back to its "invalid date" text
  (src/utils/dateHelpers.ts:28-31).
- DateHelpers.DaysInMonth: the year and the month are integers. The source
  reads them with `split('-').map(Number)` (src/utils/dateHelpers.ts:57), so
  a malformed key gives `NaN` there, and that case is not modelled.
- StudentsImproved.GroupByClass: a class named after an `Object.prototype`
  member (`"constructor"`, `"toString"`, `"__proto__"`) makes `acc[className]`
  an inherited value, and the source's `push` then throws. The model groups
  such a name like any other.
- Dashboard.FetchAlerts: for a non-administrator the result is `None`. The
  source leaves the alert list as it was.
- Subscriptions.SubscriptionsPage.TogglePayment: the paid date `now` comes
  from the clock and is passed in.
