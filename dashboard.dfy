/**
  * The dashboard's summary cards: the lesson going on now and the next one,
  * the line that reports them, the four most recent grades and their mean,
  * the "now" badge on today's timetable, the nearest deadline and the five
  * upcoming assignments it lists.
  *
  * The clock is the hour and minute of the current instant, given as
  * parameters; the dashboard prints them zero-padded ("HH:mm") and compares
  * that string with the stored lesson times.
  */
module Dashboard {
  import opened Collections
  import opened Text
  import opened MockData
  import Grades

  // ---------------------------------------------------------------------------
  // the clock string
  // ---------------------------------------------------------------------------

  /** `format(now, "HH:mm")`. */
  function DashboardClock(hour: nat, minute: nat): (r: string)
    requires hour < 24 && minute < 60
    ensures |r| == 5 && r[2] == ':'
    ensures r[..2] == TwoDigits(hour) && r[3..] == TwoDigits(minute)
  {
    TwoDigits(hour) + ":" + TwoDigits(minute)
  }

  /** Padded readings compare like the times they stand for. */
  lemma DashboardClockOrder(h1: nat, m1: nat, h2: nat, m2: nat)
    requires h1 < 24 && m1 < 60 && h2 < 24 && m2 < 60
    ensures StrLt(DashboardClock(h1, m1), DashboardClock(h2, m2)) <==> h1 * 60 + m1 < h2 * 60 + m2
  {
    var a, b := DashboardClock(h1, m1), DashboardClock(h2, m2);
    TwoDigitsOrder(h1, h2);
    TwoDigitsOrder(m1, m2);
    if h1 == h2 {
      assert a[..2] == b[..2];
      assert a[0] == b[0] && a[1] == b[1] && a[2] == b[2];
      assert a[1..][1..] == a[2..] && b[1..][1..] == b[2..];
      assert a[2..][1..] == a[3..] && b[2..][1..] == b[3..];
      assert StrLt(a, b) == StrLt(a[1..], b[1..]);
      assert StrLt(a[1..], b[1..]) == StrLt(a[2..], b[2..]);
      assert StrLt(a[2..], b[2..]) == StrLt(a[3..], b[3..]);
    } else {
      var x, y := TwoDigits(h1), TwoDigits(h2);
      assert x == a[..2] && y == b[..2];
      if x[0] != y[0] {
        assert StrLt(a, b) == StrLt(x, y);
      } else {
        assert x[1] != y[1];
        assert StrLt(a, b) == StrLt(a[1..], b[1..]) == StrLt(x[1..], y[1..]) == StrLt(x, y);
      }
    }
  }

  // ---------------------------------------------------------------------------
  // currentClass and nextClass
  // ---------------------------------------------------------------------------

  function InSlotAt(time: string): ScheduleItem -> bool
  {
    (item: ScheduleItem) => InSlot(item, time)
  }

  /** `item.startTime > currentTime`. */
  predicate StartsAfter(item: ScheduleItem, time: string)
  {
    StrLt(time, item.startTime)
  }

  function StartsAfterAt(time: string): ScheduleItem -> bool
  {
    (item: ScheduleItem) => StartsAfter(item, time)
  }

  /** The first of today's lessons, in timetable order, whose closed interval holds `time`. */
  function CurrentClass(today: seq<ScheduleItem>, time: string): (r: Option<ScheduleItem>)
    ensures r.Some? <==> exists i :: 0 <= i < |today| && InSlot(today[i], time)
    ensures r.Some? ==> exists i :: 0 <= i < |today| && today[i] == r.value && InSlot(today[i], time)
                                    && forall j :: 0 <= j < i ==> !InSlot(today[j], time)
  {
    Find(today, InSlotAt(time))
  }

  /**
    * The first of today's lessons, in timetable order, that starts after
    * `time`; with an unsorted timetable it need not be the one starting soonest.
    */
  function NextClass(today: seq<ScheduleItem>, time: string): (r: Option<ScheduleItem>)
    ensures r.Some? <==> exists i :: 0 <= i < |today| && StartsAfter(today[i], time)
    ensures r.Some? ==> exists i :: 0 <= i < |today| && today[i] == r.value && StartsAfter(today[i], time)
                                    && forall j :: 0 <= j < i ==> !StartsAfter(today[j], time)
  {
    Find(today, StartsAfterAt(time))
  }

  /** With lessons out of order, the next class is the first listed, not the one starting soonest. */
  lemma NextClassNotSoonest()
    ensures var late := ScheduleItem("1", "a", None, "1", "12:00", "12:45", "Среда");
            var early := ScheduleItem("2", "b", None, "2", "11:00", "11:45", "Среда");
            NextClass([late, early], "10:00") == Some(late)
  {
    var late := ScheduleItem("1", "a", None, "1", "12:00", "12:45", "Среда");
    assert StartsAfter(late, "10:00") by {
      assert StrLt("10:00"[1..], "12:00"[1..]);
    }
  }

  // ---------------------------------------------------------------------------
  // the line under "lessons today"
  // ---------------------------------------------------------------------------

  datatype StatusLine = Now(subject: string) | Next(subject: string, start: string) | Finished

  /** The current lesson if there is one; else the next one; else "lessons are over". */
  function LessonStatus(today: seq<ScheduleItem>, time: string): (r: StatusLine)
    ensures r.Now? <==> exists i :: 0 <= i < |today| && InSlot(today[i], time)
    ensures r.Next? <==> (forall i :: 0 <= i < |today| ==> !InSlot(today[i], time))
                         && exists i :: 0 <= i < |today| && StartsAfter(today[i], time)
    ensures r.Finished? <==> forall i :: 0 <= i < |today| ==> !InSlot(today[i], time) && !StartsAfter(today[i], time)
    ensures r.Now? ==> r.subject == CurrentClass(today, time).value.subject
    ensures r.Next? ==> r.subject == NextClass(today, time).value.subject
                        && r.start == NextClass(today, time).value.startTime
  {
    match CurrentClass(today, time)
    case Some(c) => Now(c.subject)
    case None =>
      match NextClass(today, time)
      case Some(n) => Next(n.subject, n.startTime)
      case None => Finished
  }

  // ---------------------------------------------------------------------------
  // the "now" badge
  // ---------------------------------------------------------------------------

  /** The badge beside a row of today's timetable: the same closed-interval test. */
  predicate NowBadge(item: ScheduleItem, time: string)
  {
    InSlot(item, time)
  }

  /**
    * The reported current lesson is a row of today's timetable and carries the
    * badge; conversely a badge anywhere means a current lesson is reported,
    * namely the first badged row.
    */
  lemma CurrentClassHasBadge(today: seq<ScheduleItem>, time: string)
    ensures CurrentClass(today, time).Some? ==>
              CurrentClass(today, time).value in today && NowBadge(CurrentClass(today, time).value, time)
    ensures forall i :: 0 <= i < |today| && NowBadge(today[i], time)
                        && (forall j :: 0 <= j < i ==> !NowBadge(today[j], time))
                        ==> CurrentClass(today, time) == Some(today[i])
  {
    forall i | 0 <= i < |today| && NowBadge(today[i], time)
                && (forall j :: 0 <= j < i ==> !NowBadge(today[j], time))
      ensures CurrentClass(today, time) == Some(today[i])
    {
      var c := CurrentClass(today, time);
      assert c.Some?;
      var k :| 0 <= k < |today| && today[k] == c.value && InSlot(today[k], time)
               && forall j :: 0 <= j < k ==> !InSlot(today[j], time);
    }
  }

  /** A lesson is current at its own start and end times (the interval is closed). */
  lemma InSlotAtEnds(item: ScheduleItem)
    requires StrLe(item.startTime, item.endTime)
    ensures InSlot(item, item.startTime) && InSlot(item, item.endTime)
  {
    StrLeTotalOrder(item.startTime, item.endTime, item.startTime);
    StrLeTotalOrder(item.endTime, item.startTime, item.endTime);
  }

  /**
    * Before ten o'clock the padded clock starts with '0', so no lesson stored
    * with an unpadded start time ("8:30", "9:25") is ever current.
    */
  lemma MorningLessonsNeverCurrent(item: ScheduleItem, hour: nat, minute: nat)
    requires hour < 10 && minute < 60
    requires item.startTime != [] && '1' <= item.startTime[0] <= '9'
    ensures !InSlot(item, DashboardClock(hour, minute))
  {
    var t := DashboardClock(hour, minute);
    assert t[0] == '0';
    assert StrLt(t, item.startTime);
  }

  /**
    * Hence at 08:45 the 8:30-9:15 lesson is not current, and because "08:45"
    * sorts before "8:30" it is announced as the next lesson, still to start.
    */
  lemma FirstLessonAnnouncedAsNext()
    ensures var first := ScheduleItem("1", "Математика", None, "201", "8:30", "9:15", "Понедельник");
            LessonStatus([first], DashboardClock(8, 45)) == Next("Математика", "8:30")
  {
    var first := ScheduleItem("1", "Математика", None, "201", "8:30", "9:15", "Понедельник");
    var t := DashboardClock(8, 45);
    MorningLessonsNeverCurrent(first, 8, 45);
    assert t[0] == '0';
    assert StartsAfter(first, t);
  }

  // ---------------------------------------------------------------------------
  // recent grades and their mean
  // ---------------------------------------------------------------------------

  /** `getRecentGrades().slice(0, 4)`: the four newest grades, newest first. */
  function RecentFour(grades: seq<Grade>): (r: seq<Grade>)
    ensures |r| == Min(4, |grades|)
    ensures r == RecentGrades(grades)[..|r|]
    ensures multiset(r) <= multiset(grades)
    ensures forall i, j :: 0 <= i < j < |r| ==> r[i].date >= r[j].date
  {
    var recent := RecentGrades(grades);
    var r := Take(recent, 4);
    assert recent == r + recent[|r|..];
    r
  }

  /**
    * A grade left off the card (some occurrence of it is not shown) means four
    * grades are shown, none older than it.
    */
  lemma RecentFourAreNewest(grades: seq<Grade>, g: Grade)
    requires multiset(RecentFour(grades))[g] < multiset(grades)[g]
    ensures |RecentFour(grades)| == 4
    ensures forall i :: 0 <= i < 4 ==> RecentFour(grades)[i].date >= g.date
  {
    var recent := RecentGrades(grades);
    var r := RecentFour(grades);
    if multiset(r)[g] < multiset(recent)[g] {
      MissingFromPrefix(recent, |r|, g);
      var k :| |r| <= k < |recent| && recent[k] == g;
      forall i | 0 <= i < |r|
        ensures r[i].date >= g.date
      {
        assert r[i] == recent[i];
      }
    } else {
      RecentGradesAreNewest(grades, g);
      forall i | 0 <= i < |r|
        ensures r[i].date >= g.date
      {
        assert r[i] == recent[i];
      }
    }
  }

  /** The "average" card: the mean of the four recent grades, "N/A" without any. */
  function RecentAverage(grades: seq<Grade>): (r: Option<real>)
    ensures r.None? <==> grades == []
    ensures r.Some? ==> Grades.IsMeanOf(r.value, RecentFour(grades))
  {
    var four := RecentFour(grades);
    assert |four| == Min(4, |grades|);
    Grades.Average(four)
  }

  // ---------------------------------------------------------------------------
  // deadlines
  // ---------------------------------------------------------------------------

  /**
    * The "nearest deadline" card: the first upcoming assignment, that is the
    * first assignment of the collection inside the window, and nothing when
    * none is.
    */
  function NearestDeadline(assignments: seq<Assignment>, now: int): (r: Option<Assignment>)
    ensures r == Find(assignments, DueWithinWeekOf(now))
  {
    FilterHeadIsFind(assignments, DueWithinWeekOf(now));
    Head(UpcomingAssignments(assignments, now))
  }

  /** The "nearest" deadline is the first listed, which need not be the earliest due. */
  lemma NearestDeadlineNotEarliest()
    ensures var later := Assignment("1", "a", "", "s", 20005, Pending);
            var sooner := Assignment("2", "b", "", "s", 20002, Pending);
            NearestDeadline([later, sooner], Midnight(20000) + 1) == Some(later)
  {
    var later := Assignment("1", "a", "", "s", 20005, Pending);
    var sooner := Assignment("2", "b", "", "s", 20002, Pending);
    var now := Midnight(20000) + 1;
    UpcomingDays(later, now, 20000);
    UpcomingDays(sooner, now, 20000);
    assert DueWithinWeekOf(now)([later, sooner][0]);
  }

  /** The assignments card lists the first five upcoming ones, in order. */
  function ListedUpcoming(upcoming: seq<Assignment>): (r: seq<Assignment>)
    ensures |r| == Min(5, |upcoming|)
    ensures r == upcoming[..|r|]
  {
    Take(upcoming, 5)
  }

  /** The nearest deadline heads the list whenever there is one. */
  lemma NearestDeadlineListed(assignments: seq<Assignment>, now: int)
    ensures var listed := ListedUpcoming(UpcomingAssignments(assignments, now));
            match NearestDeadline(assignments, now)
            case None => listed == []
            case Some(a) => listed != [] && listed[0] == a
  {
    FilterHeadIsFind(assignments, DueWithinWeekOf(now));
  }

  /** Everything listed is unfinished and due within the week. */
  lemma ListedUpcomingInWindow(assignments: seq<Assignment>, now: int)
    ensures forall a :: a in ListedUpcoming(UpcomingAssignments(assignments, now)) ==>
              a in assignments && DueWithinWeek(a, now)
  {
    var u := UpcomingAssignments(assignments, now);
    var l := ListedUpcoming(u);
    forall a | a in l
      ensures a in assignments && DueWithinWeek(a, now)
    {
      var k :| 0 <= k < |l| && l[k] == a;
      assert a == u[k];
    }
  }
}
