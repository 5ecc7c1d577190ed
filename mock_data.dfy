/**
  * The diary's records and the four selection helpers of its data service:
  * the colour of a subject, today's lessons, the assignments due in the coming
  * week and the ten most recent grades.
  *
  * Calendar dates are whole day numbers (days since 1970-01-01); an instant is
  * a number of milliseconds since the same origin. The service's ambient clock
  * is a parameter of each helper; the seed collections it filters over are
  * parameters too.
  */
module MockData {
  import opened Collections
  import opened Text

  // ---------------------------------------------------------------------------
  // Records
  // ---------------------------------------------------------------------------

  datatype Status = Completed | Pending | Overdue

  /** The string each status is stored and compared as. */
  function StatusName(s: Status): string
  {
    match s
    case Completed => "completed"
    case Pending => "pending"
    case Overdue => "overdue"
  }

  datatype Assignment = Assignment(
    id: string, title: string, description: string, subject: string,
    dueDate: int, status: Status)

  datatype Grade = Grade(id: string, subject: string, value: int, date: int, comment: Option<string>)

  datatype Note = Note(id: string, title: string, content: string, date: int)

  /** A weekly lesson slot; `startTime` and `endTime` are the stored "H:MM" strings. */
  datatype ScheduleItem = ScheduleItem(
    id: string, subject: string, teacher: Option<string>, room: string,
    startTime: string, endTime: string, day: string)

  /**
    * The test both timetable views apply to a clock string `time`:
    * `time >= startTime && time <= endTime` under string order, a closed interval.
    */
  predicate InSlot(item: ScheduleItem, time: string)
  {
    StrLe(item.startTime, time) && StrLe(time, item.endTime)
  }

  datatype Subject = Subject(id: string, name: string, teacher: string, color: string)

  const MsPerDay: int := 86400000

  /** `new Date(day)` for a "yyyy-MM-dd" string: midnight at the start of that day. */
  function Midnight(day: int): int
  {
    day * MsPerDay
  }

  // ---------------------------------------------------------------------------
  // getSubjectColor
  // ---------------------------------------------------------------------------

  const DefaultColor: string := "#9b87f5"

  function NameIs(name: string): Subject -> bool
  {
    (s: Subject) => s.name == name
  }

  /**
    * The colour of the first subject called `name`; the default colour when
    * there is none or its colour is the empty string (which `||` treats as
    * missing). Never fails and never yields an empty colour.
    */
  function SubjectColor(subjects: seq<Subject>, name: string): (r: string)
    ensures r != ""
    ensures (forall i :: 0 <= i < |subjects| ==> subjects[i].name != name) ==> r == DefaultColor
    ensures forall i :: 0 <= i < |subjects| && subjects[i].name == name
                        && (forall j :: 0 <= j < i ==> subjects[j].name != name)
                        ==> r == if subjects[i].color != "" then subjects[i].color else DefaultColor
  {
    match FirstIndex(subjects, NameIs(name))
    case None => DefaultColor
    case Some(i) => if subjects[i].color != "" then subjects[i].color else DefaultColor
  }

  // ---------------------------------------------------------------------------
  // getTodaySchedule
  // ---------------------------------------------------------------------------

  /** The names `Date.getDay()` indexes, Sunday first. */
  const WeekDays: seq<string> :=
    ["Воскресенье", "Понедельник", "Вторник", "Среда", "Четверг", "Пятница", "Суббота"]

  function DayIs(day: string): ScheduleItem -> bool
  {
    (item: ScheduleItem) => item.day == day
  }

  /**
    * The lessons of the weekday `weekday` (0 is Sunday, as `getDay` counts):
    * none on Saturday and Sunday, otherwise exactly the entries held for that
    * day's name, in their order in `schedule`.
    */
  function TodaySchedule(schedule: seq<ScheduleItem>, weekday: nat): (r: seq<ScheduleItem>)
    requires weekday < 7
    ensures weekday == 0 || weekday == 6 ==> r == []
    ensures 1 <= weekday <= 5 ==>
      && (forall x :: x in r <==> x in schedule && x.day == WeekDays[weekday])
      && (forall x :: multiset(r)[x] == if x.day == WeekDays[weekday] then multiset(schedule)[x] else 0)
  {
    var dayName := WeekDays[weekday];
    if dayName == "Суббота" || dayName == "Воскресенье" then []
    else
      FilterMembers(schedule, DayIs(dayName));
      Filter(schedule, DayIs(dayName))
  }

  /**
    * On a weekday the selection keeps schedule order: the lessons of a
    * schedule made of two parts are those of the first part, then those of
    * the second.
    */
  lemma TodayScheduleInOrder(a: seq<ScheduleItem>, b: seq<ScheduleItem>, weekday: nat)
    requires 1 <= weekday <= 5
    ensures TodaySchedule(a + b, weekday) == TodaySchedule(a, weekday) + TodaySchedule(b, weekday)
  {
    FilterConcat(a, b, DayIs(WeekDays[weekday]));
  }

  // ---------------------------------------------------------------------------
  // getUpcomingAssignments
  // ---------------------------------------------------------------------------

  /**
    * The window test: the due date, read as midnight, lies between the current
    * instant and the same instant seven days later, and the work is not done.
    */
  predicate DueWithinWeek(a: Assignment, now: int)
  {
    now <= Midnight(a.dueDate) <= now + 7 * MsPerDay && a.status != Completed
  }

  function DueWithinWeekOf(now: int): Assignment -> bool
  {
    (a: Assignment) => DueWithinWeek(a, now)
  }

  /** The assignments inside the seven-day window, in their order in `assignments`. */
  function UpcomingAssignments(assignments: seq<Assignment>, now: int): (r: seq<Assignment>)
    ensures forall a :: a in r <==> a in assignments && DueWithinWeek(a, now)
    ensures forall a :: multiset(r)[a] == if DueWithinWeek(a, now) then multiset(assignments)[a] else 0
    ensures forall i :: 0 <= i < |r| ==> r[i].status != Completed
    ensures forall i :: 0 <= i < |r| ==> now <= Midnight(r[i].dueDate) <= now + 7 * MsPerDay
  {
    FilterMembers(assignments, DueWithinWeekOf(now));
    var r := Filter(assignments, DueWithinWeekOf(now));
    assert forall i :: 0 <= i < |r| ==> r[i] in r;
    r
  }

  /** Selecting from two collections one after the other is selecting from their concatenation. */
  lemma UpcomingAssignmentsInOrder(a: seq<Assignment>, b: seq<Assignment>, now: int)
    ensures UpcomingAssignments(a + b, now) == UpcomingAssignments(a, now) + UpcomingAssignments(b, now)
  {
    FilterConcat(a, b, DueWithinWeekOf(now));
  }

  /**
    * With the clock strictly inside day `today` (after its midnight), the window
    * holds exactly the unfinished work due on the seven FOLLOWING days: work due
    * today is already behind midnight, and so left out.
    */
  lemma UpcomingDays(a: Assignment, now: int, today: int)
    requires Midnight(today) < now < Midnight(today + 1)
    ensures DueWithinWeek(a, now) <==> today + 1 <= a.dueDate <= today + 7 && a.status != Completed
  {
    var d := a.dueDate;
    if d <= today {
      assert Midnight(d) <= Midnight(today) by {
        assert Midnight(today) - Midnight(d) == (today - d) * MsPerDay;
      }
    }
    if d >= today + 8 {
      assert Midnight(d) >= Midnight(today + 1) + 7 * MsPerDay by {
        assert Midnight(d) - Midnight(today + 1) == (d - today - 1) * MsPerDay;
      }
    }
    if today + 1 <= d <= today + 7 {
      assert Midnight(d) - Midnight(today) == (d - today) * MsPerDay;
    }
  }

  /**
    * On 2024-01-01 (day 19723), pending work due on 2024-01-05 is in the window;
    * pending work due on 2023-12-30 and completed work due on 2024-01-03 are not.
    */
  lemma UpcomingExample(now: int)
    requires Midnight(19723) <= now < Midnight(19724)
    ensures var due := Assignment("1", "a", "", "s", 19727, Pending);
            var past := Assignment("2", "b", "", "s", 19721, Pending);
            var done := Assignment("3", "c", "", "s", 19725, Completed);
            UpcomingAssignments([due, past, done], now) == [due]
  {
    var due := Assignment("1", "a", "", "s", 19727, Pending);
    var past := Assignment("2", "b", "", "s", 19721, Pending);
    var done := Assignment("3", "c", "", "s", 19725, Completed);
    var all := [due, past, done];
    assert DueWithinWeek(due, now);
    assert !DueWithinWeek(past, now);
    assert all[1..] == [past, done] && all[1..][1..] == [done] && all[1..][1..][1..] == [];
  }

  // ---------------------------------------------------------------------------
  // getRecentGrades
  // ---------------------------------------------------------------------------

  /** The comparator `b.date - a.date`: `a` may stay in front of `b` when it is not older. */
  function NewerOrSame(a: Grade, b: Grade): bool
  {
    a.date >= b.date
  }

  lemma NewerOrSamePreorder()
    ensures TotalPreorder(NewerOrSame)
  {
  }

  /** The grades of the same day as `g`: those the comparator ranks alike. */
  lemma SameDateEquivalent(g: Grade, h: Grade)
    ensures EquivalentTo(NewerOrSame, g)(h) <==> h.date == g.date
  {
    assert EquivalentTo(NewerOrSame, g)(h) == (NewerOrSame(g, h) && NewerOrSame(h, g));
  }

  /** A copy of `grades` sorted newest first, cut to its first ten. */
  function RecentGrades(grades: seq<Grade>): (r: seq<Grade>)
    ensures |r| == Min(10, |grades|)
    ensures multiset(r) <= multiset(grades)
    ensures forall i, j :: 0 <= i < j < |r| ==> r[i].date >= r[j].date
  {
    var sorted := InsertionSort(grades, NewerOrSame);
    InsertionSortSorted(grades, NewerOrSame);
    var r := Take(sorted, 10);
    assert sorted == r + sorted[|r|..];
    r
  }

  /**
    * Ties keep their input order: for every day, the grades of that day in the
    * result are the first ones of that day in `grades`, in the same order.
    */
  lemma RecentGradesStable(grades: seq<Grade>, g: Grade)
    ensures exists rest :: Filter(RecentGrades(grades), EquivalentTo(NewerOrSame, g)) + rest
                           == Filter(grades, EquivalentTo(NewerOrSame, g))
  {
    var p := EquivalentTo(NewerOrSame, g);
    var sorted := InsertionSort(grades, NewerOrSame);
    var r := RecentGrades(grades);
    InsertionSortStable(grades, NewerOrSame, g);
    assert sorted == r + sorted[|r|..];
    FilterConcat(r, sorted[|r|..], p);
  }

  /**
    * A grade left out (some occurrence of it in `grades` is not shown) means
    * ten grades are shown, all at least as new as it.
    */
  lemma RecentGradesAreNewest(grades: seq<Grade>, g: Grade)
    requires multiset(RecentGrades(grades))[g] < multiset(grades)[g]
    ensures |RecentGrades(grades)| == 10
    ensures forall i :: 0 <= i < 10 ==> RecentGrades(grades)[i].date >= g.date
  {
    var sorted := InsertionSort(grades, NewerOrSame);
    InsertionSortSorted(grades, NewerOrSame);
    var r := RecentGrades(grades);
    assert r == sorted[..|r|];
    MissingFromPrefix(sorted, |r|, g);
    var k :| |r| <= k < |sorted| && sorted[k] == g;
    forall i | 0 <= i < |r|
      ensures r[i].date >= g.date
    {
      assert r[i] == sorted[i];
    }
  }
}
