/**
  * The timetable page: the day it treats as today, the lessons of the chosen
  * day, the week grouped by school day, and the lesson going on now.
  *
  * The clock is the hour and minute of the current instant, given as
  * parameters; this page prints the hour without padding and the minutes
  * padded to two digits ("9:05", "10:30") before comparing that string with
  * the stored lesson times.
  */
module Schedule {
  import opened Collections
  import opened Text
  import opened MockData

  /** The five school days, Monday first. */
  const Days: seq<string> := ["Понедельник", "Вторник", "Среда", "Четверг", "Пятница"]

  /**
    * The day the page highlights for `getDay()` index `dayIndex`: Monday on
    * Saturday and Sunday, otherwise that weekday.
    */
  function CurrentDayName(dayIndex: nat): (r: string)
    requires dayIndex < 7
    ensures dayIndex == 0 || dayIndex == 6 ==> r == "Понедельник"
    ensures 1 <= dayIndex <= 5 ==> r == WeekDays[dayIndex]
    ensures r in Days
  {
    if dayIndex == 0 || dayIndex == 6 then "Понедельник" else Days[dayIndex - 1]
  }

  /** The day the page highlights always has a tab of its own. */
  lemma CurrentDayNameIsIndexed(dayIndex: nat)
    requires dayIndex < 7
    ensures exists i :: 0 <= i < |Days| && Days[i] == CurrentDayName(dayIndex)
  {
    var d := CurrentDayName(dayIndex);
    if dayIndex == 0 || dayIndex == 6 {
      assert Days[0] == d;
    } else {
      assert Days[dayIndex - 1] == d;
    }
  }

  /** `${getHours()}:${getMinutes().toString().padStart(2, '0')}`. */
  function ScheduleClock(hour: nat, minute: nat): (r: string)
    requires hour < 24 && minute < 60
    ensures |r| == (if hour < 10 then 4 else 5)
    ensures r[|r| - 3] == ':' && r[|r| - 2..] == TwoDigits(minute)
    ensures r[0] == Digit(if hour < 10 then hour else hour / 10)
    ensures r[..|r| - 3] == Decimal(hour)
  {
    Decimal(hour) + ":" + TwoDigits(minute)
  }

  // ---------------------------------------------------------------------------
  // the lessons of a day, and of the week
  // ---------------------------------------------------------------------------

  /** The lessons held on `day`, in timetable order. */
  function DailySchedule(schedule: seq<ScheduleItem>, day: string): (r: seq<ScheduleItem>)
    ensures forall x :: x in r <==> x in schedule && x.day == day
    ensures forall x :: multiset(r)[x] == if x.day == day then multiset(schedule)[x] else 0
  {
    FilterMembers(schedule, DayIs(day));
    Filter(schedule, DayIs(day))
  }

  /** The day's lessons keep timetable order: the selection distributes over concatenation. */
  lemma DailyScheduleInOrder(a: seq<ScheduleItem>, b: seq<ScheduleItem>, day: string)
    ensures DailySchedule(a + b, day) == DailySchedule(a, day) + DailySchedule(b, day)
  {
    FilterConcat(a, b, DayIs(day));
  }

  datatype DayGroup = DayGroup(day: string, classes: seq<ScheduleItem>)

  /** One group per day of `days`, in that order, each holding that day's lessons. */
  function GroupByDays(schedule: seq<ScheduleItem>, days: seq<string>): (r: seq<DayGroup>)
    ensures |r| == |days|
    ensures forall i :: 0 <= i < |r| ==> r[i].day == days[i]
    ensures forall i :: 0 <= i < |r| ==> r[i].classes == DailySchedule(schedule, days[i])
  {
    if days == [] then []
    else [DayGroup(days[0], DailySchedule(schedule, days[0]))] + GroupByDays(schedule, days[1..])
  }

  /** The week view: a group for each school day, Monday to Friday. */
  function WeeklySchedule(schedule: seq<ScheduleItem>): (r: seq<DayGroup>)
    ensures |r| == 5
    ensures forall i :: 0 <= i < 5 ==> r[i].day == Days[i]
  {
    GroupByDays(schedule, Days)
  }

  /** A lesson is in the group of day `i` exactly when it is held on that day. */
  lemma WeeklyScheduleMembers(schedule: seq<ScheduleItem>, x: ScheduleItem)
    ensures forall i :: 0 <= i < 5 ==> (x in WeeklySchedule(schedule)[i].classes <==> x in schedule && x.day == Days[i])
  {
  }

  /** A lesson held on a day that is not a school day appears in no group. */
  lemma OffDayLessonsHidden(schedule: seq<ScheduleItem>, x: ScheduleItem)
    requires x.day !in Days
    ensures forall i :: 0 <= i < 5 ==> x !in WeeklySchedule(schedule)[i].classes
  {
    WeeklyScheduleMembers(schedule, x);
  }

  function SizeSum(groups: seq<DayGroup>): nat
  {
    if groups == [] then 0 else |groups[0].classes| + SizeSum(groups[1..])
  }

  function DayIn(days: seq<string>): ScheduleItem -> bool
  {
    (item: ScheduleItem) => item.day in days
  }

  ghost predicate Distinct(days: seq<string>)
  {
    forall i, j :: 0 <= i < j < |days| ==> days[i] != days[j]
  }

  /** Counting two disjoint selections separately is counting their union. */
  lemma {:induction false} FilterSplit(s: seq<ScheduleItem>, d: string, rest: seq<string>)
    requires d !in rest
    ensures |Filter(s, DayIn([d] + rest))| == |Filter(s, DayIs(d))| + |Filter(s, DayIn(rest))|
  {
    if s != [] {
      FilterSplit(s[1..], d, rest);
    }
  }

  /** With distinct days, the group sizes add up to the number of lessons on those days. */
  lemma {:induction false} GroupSizes(schedule: seq<ScheduleItem>, days: seq<string>)
    requires Distinct(days)
    ensures SizeSum(GroupByDays(schedule, days)) == |Filter(schedule, DayIn(days))|
  {
    if days == [] {
      FilterNone(schedule);
    } else {
      var rest := days[1..];
      assert days == [days[0]] + rest;
      assert forall k :: 0 <= k < |rest| ==> rest[k] == days[k + 1];
      assert Distinct(rest) by {
        forall i, j | 0 <= i < j < |rest|
          ensures rest[i] != rest[j]
        {
          assert rest[i] == days[i + 1] && rest[j] == days[j + 1];
        }
      }
      GroupSizes(schedule, rest);
      FilterSplit(schedule, days[0], rest);
      assert GroupByDays(schedule, days)[1..] == GroupByDays(schedule, rest);
    }
  }

  lemma {:induction false} FilterNone(s: seq<ScheduleItem>)
    ensures Filter(s, DayIn([])) == []
  {
    if s != [] {
      FilterNone(s[1..]);
    }
  }

  /**
    * The week view shows each school-day lesson once: the group sizes add up
    * to the number of lessons held on a school day, never more than the
    * timetable holds.
    */
  lemma WeeklyScheduleSizes(schedule: seq<ScheduleItem>)
    ensures SizeSum(WeeklySchedule(schedule)) == |Filter(schedule, DayIn(Days))|
    ensures SizeSum(WeeklySchedule(schedule)) <= |schedule|
  {
    DaysDistinct();
    GroupSizes(schedule, Days);
  }

  /** The five tab names are pairwise different. */
  lemma DaysDistinct()
    ensures Distinct(Days)
  {
    assert Days[0][0] == 'П' && Days[1][0] == 'В' && Days[2][0] == 'С' && Days[3][0] == 'Ч' && Days[4][0] == 'П';
    assert Days[0][1] != Days[4][1];
  }

  // ---------------------------------------------------------------------------
  // the lesson going on now
  // ---------------------------------------------------------------------------

  /** `item.day === currentDayName && currentTime >= item.startTime && currentTime <= item.endTime`. */
  predicate OngoingOn(item: ScheduleItem, dayName: string, time: string)
  {
    item.day == dayName && InSlot(item, time)
  }

  function OngoingAt(dayName: string, time: string): ScheduleItem -> bool
  {
    (item: ScheduleItem) => OngoingOn(item, dayName, time)
  }

  /** The first lesson of the whole timetable held on `dayName` whose closed interval holds `time`. */
  function CurrentLesson(schedule: seq<ScheduleItem>, dayName: string, time: string): (r: Option<ScheduleItem>)
    ensures r.Some? <==> exists i :: 0 <= i < |schedule| && OngoingOn(schedule[i], dayName, time)
    ensures r.Some? ==> r.value.day == dayName && InSlot(r.value, time) && r.value in schedule
    ensures r.Some? ==> exists i :: 0 <= i < |schedule| && schedule[i] == r.value
                                    && forall j :: 0 <= j < i ==> !OngoingOn(schedule[j], dayName, time)
  {
    Find(schedule, OngoingAt(dayName, time))
  }

  /** The highlight on a row of the day or week view: the row's tab is today's and the time is in its interval. */
  predicate IsCurrent(item: ScheduleItem, tabDay: string, currentDay: string, time: string)
  {
    currentDay == tabDay && InSlot(item, time)
  }

  /**
    * Every row listed on today's tab is highlighted exactly when it is ongoing,
    * and the banner's lesson is the first such row of the timetable; no row
    * on another tab is ever highlighted.
    */
  lemma IsCurrentMatchesCurrentLesson(schedule: seq<ScheduleItem>, tabDay: string, currentDay: string, time: string)
    ensures forall x :: x in DailySchedule(schedule, tabDay) ==>
              (IsCurrent(x, tabDay, currentDay, time) <==> OngoingOn(x, currentDay, time))
    ensures tabDay != currentDay ==> forall x :: !IsCurrent(x, tabDay, currentDay, time)
    ensures tabDay == currentDay && CurrentLesson(schedule, currentDay, time).Some? ==>
              var c := CurrentLesson(schedule, currentDay, time).value;
              c in DailySchedule(schedule, tabDay) && IsCurrent(c, tabDay, currentDay, time)
  {
  }

  /**
    * The "now" banner above the day view: the current lesson, shown only on
    * today's tab; when shown it is a highlighted row of that tab.
    */
  function Banner(schedule: seq<ScheduleItem>, selectedDay: string, currentDay: string, time: string): (r: Option<ScheduleItem>)
    ensures r.Some? <==> selectedDay == currentDay && exists i :: 0 <= i < |schedule| && OngoingOn(schedule[i], currentDay, time)
    ensures r.Some? ==> r.value in DailySchedule(schedule, selectedDay) && IsCurrent(r.value, selectedDay, currentDay, time)
    ensures selectedDay == currentDay ==> r == CurrentLesson(schedule, currentDay, time)
  {
    if currentDay == selectedDay then CurrentLesson(schedule, currentDay, time) else None
  }

  /**
    * From ten o'clock on, the clock string starts with '1' or '2' and so sorts
    * before every stored time starting with a digit above it: a lesson stored
    * as starting at, say, "9:25" is never current once the hour has two digits.
    */
  lemma SingleDigitStartMissedLater(item: ScheduleItem, dayName: string, hour: nat, minute: nat)
    requires 10 <= hour < 24 && minute < 60
    requires item.startTime != [] && Digit(hour / 10) < item.startTime[0]
    ensures !OngoingOn(item, dayName, ScheduleClock(hour, minute))
  {
    var t := ScheduleClock(hour, minute);
    assert StrLt(t, item.startTime);
  }

  /**
    * Hence the 9:25-10:10 lesson is not current at 9:30, since "9:30" sorts
    * after "10:10", nor at 10:05, since "10:05" sorts before "9:25".
    */
  lemma LessonAcrossTenMissed()
    ensures var second := ScheduleItem("2", "Русский язык", None, "305", "9:25", "10:10", "Понедельник");
            && !OngoingOn(second, "Понедельник", ScheduleClock(9, 30))
            && !OngoingOn(second, "Понедельник", ScheduleClock(10, 5))
  {
    var second := ScheduleItem("2", "Русский язык", None, "305", "9:25", "10:10", "Понедельник");
    var early := ScheduleClock(9, 30);
    assert early[0] == '9';
    assert StrLt(second.endTime, early);
    SingleDigitStartMissedLater(second, "Понедельник", 10, 5);
  }
}
