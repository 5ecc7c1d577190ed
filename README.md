# Diary query layer, modelled in Dafny

This project models the query and aggregation core of a school-diary web app
(a React front end on in-memory data). It covers these parts:

- **The data service.** These are the record types for assignments, grades,
  notes, timetable slots and subjects, plus the four selection helpers:
  - a subject's colour;
  - today's lessons;
  - the assignments due in the coming week;
  - the ten most recent grades.
- **The assignments table.** It has three filters, a stable column sort with a
  direction toggle, and the button that marks work done or not done.
- **The grades page.** It shows:
  - the subject selection;
  - the date-ordered trend;
  - the mean;
  - the 1–5 distribution;
  - the per-subject averages, rounded to a tenth and ranked;
  - the "last grade" card.
- **The dashboard.** It shows:
  - the current and next lesson, and the status line that reports them;
  - the "now" badge;
  - the four recent grades and their mean;
  - the nearest deadline and the five listed upcoming assignments.
- **The timetable page.** It shows:
  - the highlighted day;
  - the lessons of the chosen day and the week grouped by school day;
  - the ongoing lesson, the highlight and the banner.
- **The notes page.** This is an editor that:
  - opens a note, or nothing, in a dialog;
  - rejects a blank title;
  - rewrites the edited note in place or puts a new one in front;
  - deletes by id.

The modules follow the program:

| module | file |
|---|---|
| `Collections` | the array operations the views use: `filter`, `find`, `slice`, a sum, the stable comparator sort; written once over `seq` |
| `Text` | JavaScript string comparison, `toLowerCase`, `includes`, `trim`, and the digit strings of the clock |
| `MockData` | `src/services/mockData.ts` |
| `Assignments` | `src/components/assignments/AssignmentsList.tsx`, with the component's state as the class `AssignmentsTable` |
| `Grades` | `src/components/grades/GradesOverview.tsx` |
| `Dashboard` | `src/components/dashboard/DashboardOverview.tsx` |
| `Schedule` | `src/components/schedule/ScheduleView.tsx` |
| `Notes` | `src/components/notes/NotesView.tsx`, with the component's state as the class `NotesEditor` |

How values are represented:

- **Dates and instants.** A calendar date is a whole day number (days since
  1970-01-01). An instant is milliseconds since the same origin. `new Date("yyyy-MM-dd")`
  is midnight of that day, and `addDays(now, 7)` adds seven times 86 400 000 ms.
- **The clock.** The source reads it inside each helper. Here it is a parameter:
  `now` for the window, the `getDay()` index for the weekday, and the hour and
  minute for the lesson clocks.
- **Sorting.** JavaScript's `sort` is stable. A comparator `cmp` is modelled as
  the relation `le(a, b)`, meaning `cmp(a, b) <= 0`. Stability is stated as
  follows: the elements the comparator ranks alike come out in their input order.
- **`localeCompare`.** It depends on the host's collation, so it is a parameter
  `collate`. Only the lemmas about title order assume it is a total preorder.
- **Arithmetic.** Averages are exact `real` quotients. `Math.round(x * 10) / 10` is
  `floor(10x + 1/2) / 10` on reals.

Behaviour the model keeps exactly as the code has it:

- **The upcoming window.** It is tied to the current instant, not to the current
  day. A due date is read as midnight, so with the clock after midnight, work due
  *today* is outside the window. `MockData.UpcomingDays` states the window as
  exactly the seven following days.
- **The "all grades" distribution.** The counts add up to the number of grades
  only when every mark is between 1 and 5. Other marks are counted nowhere
  (`Grades.DistributionTotal`).
- **Time strings are not uniformly zero-padded.**
  - The stored lesson times are written "8:30", "9:25", "10:20".
  - The dashboard compares them with a zero-padded "HH:mm" clock. Before ten
    o'clock, no lesson stored with a one-digit hour is ever current, and at 08:45
    the 8:30 lesson is announced as the next one
    (`Dashboard.MorningLessonsNeverCurrent`, `Dashboard.FirstLessonAnnouncedAsNext`).
  - The timetable page prints the hour unpadded. The 9:25–10:10 lesson is then
    current neither at 9:30 nor at 10:05
    (`Schedule.SingleDigitStartMissedLater`, `Schedule.LessonAcrossTenMissed`).
- **Closed intervals are kept.** Both ends are inclusive (`Dashboard.InSlotAtEnds`).
- **"Next" and "nearest".** The next class and the "nearest" deadline are the
  first in collection order, not the earliest
  (`Dashboard.NextClassNotSoonest`, `Dashboard.NearestDeadlineNotEarliest`).
- **The trend sort.** The comment beside it says "newest first", but it sorts
  oldest first (`Grades.ChronologicalGrades`).

## Model

| member | source | states |
|---|---|---|
| `Text.Lower` | src/components/assignments/AssignmentsList.tsx:52 | `toLowerCase` keeps the length and lower-cases A–Z and U+0400–U+042F in place; every other character is kept |
| `Text.StrLt` | src/components/dashboard/DashboardOverview.tsx:28 | JavaScript `<` on strings: the first differing character decides, and a proper prefix is smaller |
| `Text.StrLe` | src/components/dashboard/DashboardOverview.tsx:28 | JavaScript `<=` on strings, the negation of the reversed `<` |
| `Text.Contains` | src/components/assignments/AssignmentsList.tsx:52-54 | `includes`: the needle occurs somewhere in the text as a contiguous piece |
| `Text.Trim` | src/components/notes/NotesView.tsx:35 | `trim`: drops the leading, then the trailing, ECMAScript white space (its meaning is stated by `Text.TrimIsPiece`) |
| `Text.IsSpace` | src/components/notes/NotesView.tsx:35 | the characters `trim` removes: ECMAScript's white space (tab, vertical tab, form feed, space, U+00A0, U+FEFF and the other space separators U+1680, U+2000–U+200A, U+202F, U+205F, U+3000) and its line terminators (LF, CR, U+2028, U+2029), the full set and nothing else |
| `Text.TrimIsPiece` | src/components/notes/NotesView.tsx:35 | `trim` leaves a contiguous piece of the string with only white space around it, itself neither starting nor ending with white space |
| `Text.StrLeTotalOrder` | src/components/dashboard/DashboardOverview.tsx:28 | the `<=` the views apply to time strings is a total order: reflexive, total, antisymmetric, transitive |
| `Text.TwoDigitsOrder` | src/components/dashboard/DashboardOverview.tsx:26 | zero-padded two-digit strings compare exactly as the numbers they spell |
| `Text.TrimEmptyIff` | src/components/notes/NotesView.tsx:35 | a string trims to "" exactly when every character is ECMAScript white space |
| `Collections.InsertionSortSorted` | src/services/mockData.ts:356 | a comparator sort with a total preorder yields an ordered sequence |
| `Collections.InsertionSortStable` | src/services/mockData.ts:356 | the sort is stable: elements the comparator ranks alike keep their input order |
| `Collections.Filter` | src/services/mockData.ts:339 | `filter`: never longer than its input |
| `Collections.FilterMembers` | src/services/mockData.ts:339 | the filter keeps exactly the elements satisfying the predicate, each as often as in the input |
| `Collections.FilterConcat` | src/services/mockData.ts:339 | the filter keeps input order: it distributes over concatenation |
| `Collections.Find` | src/services/mockData.ts:325 | `find`: found exactly when some element satisfies the predicate, and then it is the first such element |
| `Collections.Head` | src/components/dashboard/DashboardOverview.tsx:64-66 | `s.length > 0 ? s[0] : …`: none exactly for the empty sequence, otherwise its first element |
| `Collections.FilterHeadIsFind` | src/components/dashboard/DashboardOverview.tsx:64-66 | the first element of a filtered sequence is what `find` with the same predicate returns |
| `Collections.Take` | src/services/mockData.ts:357 | `slice(0, n)`: the first min(n, length) elements |
| `Collections.MissingFromPrefix` | src/services/mockData.ts:357 | an element occurring less often in a prefix than in the whole sequence occurs after that prefix |
| `Collections.InsertionSort` | src/services/mockData.ts:356 | the comparator sort: a permutation of its input |
| `MockData.SubjectColor` | src/services/mockData.ts:324-327 | the colour of the first subject with that name; the default "#9b87f5" when there is none or its colour is empty; never empty |
| `MockData.StatusName` | src/services/mockData.ts:11 | the three statuses are stored and compared as the strings "completed", "pending" and "overdue", which the status filter matches exactly |
| `MockData.InSlot` | src/components/dashboard/DashboardOverview.tsx:28 | a lesson holds a clock string when start <= time <= end as JavaScript compares strings: both ends closed |
| `MockData.Midnight` | src/services/mockData.ts:347 | `new Date("yyyy-MM-dd")` as an instant: the day number times 86 400 000 ms |
| `MockData.DueWithinWeek` | src/services/mockData.ts:348-349 | the due midnight lies in [now, now + 7 days], both ends closed, and the work is not completed |
| `MockData.NewerOrSame` | src/services/mockData.ts:356 | the comparator `b.date - a.date`: `a` may precede `b` when it is not older |
| `MockData.TodaySchedule` | src/services/mockData.ts:330-340 | no lessons on Saturday or Sunday; on a weekday exactly the entries for that day's name, each as often as in the timetable |
| `MockData.TodayScheduleInOrder` | src/services/mockData.ts:339 | on a weekday timetable order is kept: the lessons of two timetables one after the other are those of the first, then those of the second |
| `MockData.UpcomingAssignments` | src/services/mockData.ts:343-351 | exactly the unfinished assignments whose due midnight lies between now and seven days later, with their multiplicities |
| `MockData.UpcomingAssignmentsInOrder` | src/services/mockData.ts:347-350 | the selection keeps input order: it distributes over concatenation |
| `MockData.UpcomingDays` | src/services/mockData.ts:344-349 | with the clock inside a day, the window is the seven following days, not today |
| `MockData.UpcomingExample` | src/services/mockData.ts:347-350 | on 2024-01-01, pending work due 01-05 is in; pending work due 12-30 and completed work are out |
| `MockData.NewerOrSamePreorder` | src/services/mockData.ts:356 | the newest-first comparator is a total preorder |
| `MockData.SameDateEquivalent` | src/services/mockData.ts:356 | two grades are ranked alike exactly when they share a date |
| `MockData.RecentGrades` | src/services/mockData.ts:354-358 | min(10, n) grades, drawn from the input, dates non-increasing |
| `MockData.RecentGradesStable` | src/services/mockData.ts:356 | for each date, the shown grades of that date are the first ones of that date in the input, in input order |
| `MockData.RecentGradesAreNewest` | src/services/mockData.ts:355-357 | a grade shown fewer times than it occurs in the input means ten are shown, all at least as new as it |
| `Assignments.EmptySearchMatches` | src/components/assignments/AssignmentsList.tsx:51-54 | the empty query matches every assignment |
| `Assignments.SearchIgnoresCase` | src/components/assignments/AssignmentsList.tsx:51-54 | queries that lower-case alike select alike |
| `Assignments.TitlePieceMatches` | src/components/assignments/AssignmentsList.tsx:52 | any piece of an assignment's title finds it |
| `Assignments.MatchesSearch` | src/components/assignments/AssignmentsList.tsx:51-54 | the lower-cased query occurs in the lower-cased title, description or subject |
| `Assignments.MatchesSubject` | src/components/assignments/AssignmentsList.tsx:57-58 | the subject filter is "all" or the exact subject |
| `Assignments.MatchesStatus` | src/components/assignments/AssignmentsList.tsx:61-62 | the status filter is "all" or the exact status string |
| `Assignments.MatchesAll` | src/components/assignments/AssignmentsList.tsx:64 | a row is shown exactly when the search, the subject filter and the status filter all let it through |
| `Assignments.FilterAssignments` | src/components/assignments/AssignmentsList.tsx:48-65 | exactly the rows matching the search AND the subject AND the status filter, with their multiplicities |
| `Assignments.FilterAssignmentsInOrder` | src/components/assignments/AssignmentsList.tsx:48-65 | the filter keeps list order: it distributes over concatenation |
| `Assignments.DefaultFiltersKeepAll` | src/components/assignments/AssignmentsList.tsx:48-65 | with an empty search and both filters on "all", every row is shown, in order |
| `Assignments.FilterAssignmentsIdempotent` | src/components/assignments/AssignmentsList.tsx:48-65 | filtering the filtered rows again with the same settings changes nothing |
| `Assignments.BeforePreorder` | src/components/assignments/AssignmentsList.tsx:66-76 | each of the four comparator settings is a total preorder when the collation is |
| `Assignments.Before` | src/components/assignments/AssignmentsList.tsx:66-76 | the comparator: by due date for "dueDate", by `collate` on the title otherwise, arguments swapped when descending |
| `Assignments.SortAssignments` | src/components/assignments/AssignmentsList.tsx:66-76 | a permutation of the filtered rows; when the comparator is a total preorder (always for the due date, for the title when the collation is one) the rows are ordered by it and rows it ranks alike keep their list order |
| `Assignments.SortAssignmentsOrder` | src/components/assignments/AssignmentsList.tsx:66-76 | due date ascending or descending; title in collation order, reversed for descending |
| `Assignments.SortByDueDateStable` | src/components/assignments/AssignmentsList.tsx:67-70 | rows due on the same day keep their list order in either direction |
| `Assignments.SortByTitleStable` | src/components/assignments/AssignmentsList.tsx:71-74 | rows whose titles collate alike keep their list order in either direction |
| `Assignments.WithStatus` | src/components/assignments/AssignmentsList.tsx:33-40 | same length and order; rows with the id get the new status; every other field and row is unchanged |
| `Assignments.WithStatusIdempotent` | src/components/assignments/AssignmentsList.tsx:35-39 | setting a status twice is setting it once |
| `Assignments.WithStatusLeavesOthers` | src/components/assignments/AssignmentsList.tsx:36-38 | a row with another id is left exactly as it was |
| `Assignments.ActionStatus` | src/components/assignments/AssignmentsList.tsx:211-229 | completed work goes to pending, anything else to completed; never to overdue |
| `Assignments.ActionStatusTwice` | src/components/assignments/AssignmentsList.tsx:211-229 | two presses end at completed for completed work and at pending otherwise |
| `Assignments.NextSort` | src/components/assignments/AssignmentsList.tsx:78-85 | the clicked column becomes the sort column; the same column flips the direction, another resets it to ascending |
| `Assignments.Flip` | src/components/assignments/AssignmentsList.tsx:80 | the direction toggle: the result is always the other of the two directions |
| `Assignments.NextSortTwice` | src/components/assignments/AssignmentsList.tsx:78-85 | two clicks on one column restore the direction if it was the sort column, else leave it descending |
| `Assignments.AssignmentsTable.constructor` | src/components/assignments/AssignmentsList.tsx:20-25 | the seed list, empty search, both filters "all", sorted by due date ascending |
| `Assignments.AssignmentsTable.SetSearch` | src/components/assignments/AssignmentsList.tsx:21 | the search box holds the typed text |
| `Assignments.AssignmentsTable.SetSubjectFilter` | src/components/assignments/AssignmentsList.tsx:22 | the subject filter holds the chosen value |
| `Assignments.AssignmentsTable.SetStatusFilter` | src/components/assignments/AssignmentsList.tsx:23 | the status filter holds the chosen value |
| `Assignments.AssignmentsTable.HandleStatusChange` | src/components/assignments/AssignmentsList.tsx:33-40 | the list becomes the status update of the old list; nothing else changes |
| `Assignments.AssignmentsTable.PressAction` | src/components/assignments/AssignmentsList.tsx:211-229 | a row's button applies the toggled status to that row's id |
| `Assignments.AssignmentsTable.ToggleSort` | src/components/assignments/AssignmentsList.tsx:78-85 | the new sort column and direction are the toggle of the old ones |
| `Assignments.AssignmentsTable.Rows` | src/components/assignments/AssignmentsList.tsx:48-76 | the shown rows are the filtered rows reordered: exactly the list's rows that match all three filters, with their multiplicity, sorted by the current settings and with comparator ties in list order (for a title sort, whenever `collate` is a total preorder) |
| `Assignments.DefaultRowsShowAll` | src/components/assignments/AssignmentsList.tsx:48-76 | with the filters at their defaults, the shown rows are the whole list reordered |
| `Grades.SelectedGrades` | src/components/grades/GradesOverview.tsx:19-21 | "all" gives every grade; a subject gives exactly its grades, with their multiplicities |
| `Grades.SelectedGradesInOrder` | src/components/grades/GradesOverview.tsx:19-21 | the selection keeps list order: it distributes over concatenation |
| `Grades.ChronologicalGrades` | src/components/grades/GradesOverview.tsx:23-26 | a permutation of the selection in ascending date order |
| `Grades.OlderOrSame` | src/components/grades/GradesOverview.tsx:24-26 | the comparator `a.date - b.date`: `a` may precede `b` when it is not newer |
| `Grades.ChronologicalGradesStable` | src/components/grades/GradesOverview.tsx:24-26 | grades of one day keep their selection order |
| `Grades.Average` | src/components/grades/GradesOverview.tsx:29-31 | none exactly when there are no grades; otherwise the mean times the count is the total |
| `Grades.Total` | src/components/grades/GradesOverview.tsx:30 | the `reduce` summing the marks |
| `Grades.AverageInRange` | src/components/grades/GradesOverview.tsx:29-31 | with marks in 1..5 the mean lies in [1, 5] |
| `Grades.GradeDistribution` | src/components/grades/GradesOverview.tsx:34-40 | each of the five counts is the number of times its own mark occurs among the grades, hence at most the number of grades |
| `Grades.CountOf` | src/components/grades/GradesOverview.tsx:35-39 | one `filter(grade => grade.value === v).length` count: the number of selected grades with mark `v` (its meaning as a multiplicity is stated by `Grades.CountOfMarks`) |
| `Grades.DistributionTotal` | src/components/grades/GradesOverview.tsx:34-40 | the counts add up to at most the number of grades, and exactly to it when all marks are 1..5 |
| `Grades.CountOfMarks` | src/components/grades/GradesOverview.tsx:35-39 | counting the grades with mark v is counting the occurrences of v among the marks |
| `Grades.RoundTenth` | src/components/grades/GradesOverview.tsx:66 | the result is a whole number of tenths within (x - 0.05, x + 0.05] |
| `Grades.RoundTenthExact` | src/components/grades/GradesOverview.tsx:66 | a value already on a tenth is unchanged |
| `Grades.SubjectAverageOf` | src/components/grades/GradesOverview.tsx:58-69 | a subject's row has its name and colour, and average 0 when it has no grades |
| `Grades.MeanOrZero` | src/components/grades/GradesOverview.tsx:60-62 | the mean when the subject has grades, 0 when it has none |
| `Grades.SubjectAverageClose` | src/components/grades/GradesOverview.tsx:60-66 | a subject with grades shows its exact mean over all grades to within 0.05, as a whole number of tenths |
| `Grades.SubjectAverages` | src/components/grades/GradesOverview.tsx:58-69 | one row per subject, in subject order, computed over all grades |
| `Grades.HigherOrSamePreorder` | src/components/grades/GradesOverview.tsx:72 | the highest-first comparator is a total preorder |
| `Grades.HigherOrSame` | src/components/grades/GradesOverview.tsx:72 | the comparator `b.average - a.average`: `a` may precede `b` when it is not lower |
| `Grades.RankedSubjectAverages` | src/components/grades/GradesOverview.tsx:72 | one row per subject, a permutation of the unsorted rows, averages non-increasing, and rows with equal averages in subject order |
| `Grades.RankedCoversSubjects` | src/components/grades/GradesOverview.tsx:58-72 | every subject's row is ranked and every ranked row is a subject's |
| `Grades.RankedAveragesExample` | src/components/grades/GradesOverview.tsx:58-72 | Math 5 and 4 and Art 3 over Math, Art, Music give Math 4.5, Art 3, Music 0 |
| `Grades.LastGradeCard` | src/components/grades/GradesOverview.tsx:144-150 | the first grade of the whole list that the subject selector shows, none when it shows none |
| `Grades.Shown` | src/components/grades/GradesOverview.tsx:19-21 | the subject selector's test: every grade under "all", otherwise exactly the grades of the chosen subject; the last-grade card reuses it |
| `Grades.LastGradeCardOfSubject` | src/components/grades/GradesOverview.tsx:144-150 | with a subject chosen, none exactly when the subject has no grade, otherwise the earliest-listed grade of that subject |
| `Dashboard.DashboardClock` | src/components/dashboard/DashboardOverview.tsx:26 | five characters: two-digit hour, ':', two-digit minute |
| `Dashboard.DashboardClockOrder` | src/components/dashboard/DashboardOverview.tsx:26 | padded clock strings compare like the times they stand for |
| `Dashboard.CurrentClass` | src/components/dashboard/DashboardOverview.tsx:27-29 | found exactly when some lesson's closed interval holds the time; it is the first such lesson |
| `Dashboard.NextClass` | src/components/dashboard/DashboardOverview.tsx:32-34 | found exactly when some lesson starts later; it is the first such lesson in timetable order |
| `Dashboard.StartsAfter` | src/components/dashboard/DashboardOverview.tsx:33 | `item.startTime > currentTime`, as JavaScript compares strings |
| `Dashboard.NextClassNotSoonest` | src/components/dashboard/DashboardOverview.tsx:32-34 | with lessons out of order, the next class is not the one starting soonest |
| `Dashboard.LessonStatus` | src/components/dashboard/DashboardOverview.tsx:47-51 | the current lesson first, else the next one, else "finished"; each case exactly when its condition holds |
| `Dashboard.NowBadge` | src/components/dashboard/DashboardOverview.tsx:133 | the badge test is the same closed-interval test on the padded clock |
| `Dashboard.CurrentClassHasBadge` | src/components/dashboard/DashboardOverview.tsx:133 | the current lesson's row carries the badge, and the first badged row is the current lesson |
| `Dashboard.InSlotAtEnds` | src/components/dashboard/DashboardOverview.tsx:28 | a lesson is current at its own start and end times |
| `Dashboard.MorningLessonsNeverCurrent` | src/components/dashboard/DashboardOverview.tsx:26-29 | before ten, a lesson whose stored start begins with 1..9 is never current |
| `Dashboard.FirstLessonAnnouncedAsNext` | src/components/dashboard/DashboardOverview.tsx:26-34 | at 08:45 the 8:30–9:15 lesson is reported as next, not current |
| `Dashboard.RecentFour` | src/components/dashboard/DashboardOverview.tsx:17 | the first min(4, n) of the recent grades, drawn from the input, newest first |
| `Dashboard.RecentFourAreNewest` | src/components/dashboard/DashboardOverview.tsx:17 | a grade shown fewer times than it occurs in the input means four are shown, all at least as new as it |
| `Dashboard.RecentAverage` | src/components/dashboard/DashboardOverview.tsx:78-80 | none exactly when there are no grades; otherwise the mean of the four shown |
| `Dashboard.NearestDeadline` | src/components/dashboard/DashboardOverview.tsx:64-66 | the first assignment of the collection inside the window, none when none is |
| `Dashboard.NearestDeadlineNotEarliest` | src/components/dashboard/DashboardOverview.tsx:64-66 | the "nearest" deadline can be later than another listed one |
| `Dashboard.ListedUpcoming` | src/components/dashboard/DashboardOverview.tsx:160 | the first min(5, n) upcoming assignments, in order |
| `Dashboard.NearestDeadlineListed` | src/components/dashboard/DashboardOverview.tsx:160 | the nearest deadline heads the listed assignments, and with none nothing is listed |
| `Dashboard.ListedUpcomingInWindow` | src/components/dashboard/DashboardOverview.tsx:160 | everything listed is an unfinished input assignment due within the week |
| `Schedule.CurrentDayName` | src/components/schedule/ScheduleView.tsx:24-27 | Monday on Saturday and Sunday, otherwise that weekday's name; always a school day |
| `Schedule.CurrentDayNameIsIndexed` | src/components/schedule/ScheduleView.tsx:24-27 | the highlighted day is one of the five tabs |
| `Schedule.ScheduleClock` | src/components/schedule/ScheduleView.tsx:39 | the hour in decimal without padding, then ':', then the two-digit minute |
| `Schedule.DailySchedule` | src/components/schedule/ScheduleView.tsx:30 | exactly the lessons on the chosen day, with their multiplicities |
| `Schedule.DailyScheduleInOrder` | src/components/schedule/ScheduleView.tsx:30 | the selection keeps timetable order: it distributes over concatenation |
| `Schedule.GroupByDays` | src/components/schedule/ScheduleView.tsx:33-36 | one group per given day, in order, each with that day's lessons |
| `Schedule.WeeklySchedule` | src/components/schedule/ScheduleView.tsx:33-36 | five groups, Monday to Friday |
| `Schedule.WeeklyScheduleMembers` | src/components/schedule/ScheduleView.tsx:33-36 | a lesson is in day i's group exactly when it is held on that day |
| `Schedule.OffDayLessonsHidden` | src/components/schedule/ScheduleView.tsx:33-36 | a lesson held on a day outside the five is in no group |
| `Schedule.GroupSizes` | src/components/schedule/ScheduleView.tsx:33-36 | over distinct days, group sizes add up to the lessons held on those days |
| `Schedule.WeeklyScheduleSizes` | src/components/schedule/ScheduleView.tsx:33-36 | the week's group sizes add up to the school-day lessons, at most the timetable's size |
| `Schedule.CurrentLesson` | src/components/schedule/ScheduleView.tsx:40-45 | found exactly when a lesson on today's day holds the time; the first such lesson |
| `Schedule.OngoingOn` | src/components/schedule/ScheduleView.tsx:42-44 | the lesson is on the current day and its closed interval holds the clock string |
| `Schedule.IsCurrent` | src/components/schedule/ScheduleView.tsx:105-108 | a row is highlighted when its tab is today's and the clock lies in its closed interval |
| `Schedule.IsCurrentMatchesCurrentLesson` | src/components/schedule/ScheduleView.tsx:105-108 | a row is highlighted exactly when it is ongoing on today's tab, never on another tab; the current lesson is a highlighted row |
| `Schedule.Banner` | src/components/schedule/ScheduleView.tsx:86 | shown only on today's tab when a lesson is ongoing, and then a highlighted row of that tab; on today's tab it is today's first ongoing lesson, `Schedule.CurrentLesson` |
| `Schedule.SingleDigitStartMissedLater` | src/components/schedule/ScheduleView.tsx:39-45 | from ten on, a lesson whose stored start begins with a higher digit is never current |
| `Schedule.LessonAcrossTenMissed` | src/components/schedule/ScheduleView.tsx:39-45 | the 9:25–10:10 lesson is current neither at 9:30 nor at 10:05 |
| `Notes.WithEdit` | src/components/notes/NotesView.tsx:42-46 | same length and order; notes with the id get the new title, content and date and keep the id; others unchanged |
| `Notes.Without` | src/components/notes/NotesView.tsx:65 | exactly the notes without the id, each as often as before; never longer |
| `Notes.WithoutInOrder` | src/components/notes/NotesView.tsx:65 | a delete keeps the survivors in order: it distributes over concatenation |
| `Notes.WithEditKeepsIds` | src/components/notes/NotesView.tsx:42-46 | an edit leaves the ids in place |
| `Notes.WithEditIdempotent` | src/components/notes/NotesView.tsx:42-46 | saving the same edit twice is saving it once |
| `Notes.WithEditAbsent` | src/components/notes/NotesView.tsx:42-46 | editing a note no longer in the list changes nothing |
| `Notes.WithEditChangesOne` | src/components/notes/NotesView.tsx:42-46 | with unique ids an edit changes exactly the note with that id |
| `Notes.WithoutRemovesAll` | src/components/notes/NotesView.tsx:65 | no survivor has the id, and deleting again changes nothing |
| `Notes.WithoutAbsent` | src/components/notes/NotesView.tsx:65 | deleting an unused id changes nothing |
| `Notes.OperationsKeepUnique` | src/components/notes/NotesView.tsx:40-58 | edit and delete keep ids unique, and so does a create with a fresh id |
| `Notes.AcceptedTitle` | src/components/notes/NotesView.tsx:35 | a title is accepted when it does not trim to the empty string |
| `Notes.AcceptedTitleIff` | src/components/notes/NotesView.tsx:35 | a title is accepted exactly when it has a non-space character |
| `Notes.NotesEditor.constructor` | src/components/notes/NotesView.tsx:15-19 | the seed notes, dialog closed, nothing selected, empty fields |
| `Notes.NotesEditor.OpenDialog` | src/components/notes/NotesView.tsx:21-32 | opens the dialog; with a note it is selected and its text loaded, without one all three are cleared |
| `Notes.NotesEditor.SetTitle` | src/components/notes/NotesView.tsx:168 | the title field holds the typed text |
| `Notes.NotesEditor.SetContent` | src/components/notes/NotesView.tsx:179 | the content field holds the typed text |
| `Notes.NotesEditor.SetOpenDialog` | src/components/notes/NotesView.tsx:186 | cancel and the dialog's close set whether it is open |
| `Notes.NotesEditor.SaveNote` | src/components/notes/NotesView.tsx:34-62 | blank title: nothing changes; otherwise the selected note is edited in place or the new note put in front, and the dialog closes |
| `Notes.NotesEditor.DeleteNote` | src/components/notes/NotesView.tsx:64-67 | the list becomes the old list without the id |

## Left out

- Rendering is not modelled: JSX markup, the recharts components, and the
  `chartData` and `distributionData` shaping for display.
- The seed arrays are not modelled. Every helper takes the collection it
  filters as a parameter.
- `format`, `parseISO` and `toFixed` are not modelled, because they only format
  for display. Dates are day numbers and clocks are hour and minute.
- Grades.Average: exact rational division, not IEEE double division, and no `toFixed(2)`.
- Grades.RoundTenth: `Math.round` on exact reals. Double rounding of `avg * 10` is not modelled.
- Assignments.SortAssignments: the title order and the stability of title ties
  are promised only for a `collate` that is a total preorder. Real
  `localeCompare` collation is not modelled.
- Text.Lower: only A–Z and U+0400–U+042F are lowered. Every other character
  is left unchanged, although `toLowerCase` also lowers capitals such as U+00C0
  and U+0490.
- String comparison is on characters. UTF-16 surrogate pairs are not modelled.
- `addDays` is a fixed 7 × 86 400 000 ms. Daylight-saving shifts, and the mix of
  UTC-midnight date parsing with local clocks, are not modelled.
- Authentication, `localStorage` user blobs, routing, toasts, the settings-page
  stubs and the role check around the action button are UI shell, not query logic.
- `Date.now()` note ids and `new Date()` stamps are parameters of
  `Notes.NotesEditor.SaveNote`.
- The copy made by `[...grades]` in `getRecentGrades` needs no modelling: with
  value semantics, sorting leaves the input unchanged.
- `sort(sort(A, asc), desc)` equal to a reverse is not stated. A stable
  descending sort keeps ties in input order, so it is not a reverse
  (`Assignments.SortByDueDateStable`).
