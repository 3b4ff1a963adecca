/** The business calendar the client derives from its settings
    (static/app.js, `getWeekendDays`, `getBusinessHours`,
    `updateCalendarStyles`). Weekday indices follow the JavaScript `Date`
    convention: 0 is Sunday, 6 is Saturday. */
module BusinessCalendar {
  import opened Common

  predicate IsWeekday(d: int) {
    0 <= d <= 6
  }

  /** The schedules the settings form offers: work days / days off. */
  predicate IsKnownSchedule(schedule: string) {
    schedule == "5/2" || schedule == "6/1" || schedule == "7/0"
  }

  /** Days the schedule marks as days off. Any schedule other than the two
      with days off (including `7/0` and unknown strings) has none. */
  function WeekendDays(s: Settings): (days: seq<int>)
    ensures forall i :: 0 <= i < |days| ==> IsWeekday(days[i])
    ensures forall i, j :: 0 <= i < j < |days| ==> days[i] < days[j]
  {
    match s.workSchedule
    case "5/2" => [0, 6]
    case "6/1" => [0]
    case _ => []
  }

  /** The FullCalendar `businessHours` option built from the settings. */
  datatype BusinessHoursOption = BusinessHoursOption(daysOfWeek: seq<int>, startTime: string, endTime: string)

  function BusinessHours(s: Settings): (b: BusinessHoursOption)
    ensures b.startTime == s.workHours.start && b.endTime == s.workHours.end
    ensures forall i :: 0 <= i < |b.daysOfWeek| ==> IsWeekday(b.daysOfWeek[i])
    ensures forall i, j :: 0 <= i < j < |b.daysOfWeek| ==> b.daysOfWeek[i] < b.daysOfWeek[j]
    ensures 1 in b.daysOfWeek && 5 in b.daysOfWeek
  {
    BusinessHoursOption(
      if s.workSchedule == "7/0" then [0, 1, 2, 3, 4, 5, 6]
      else if s.workSchedule == "6/1" then [1, 2, 3, 4, 5, 6]
      else [1, 2, 3, 4, 5],
      s.workHours.start,
      s.workHours.end)
  }

  /** The number written before and after the slash of a known schedule. */
  function WorkDaysOf(schedule: string): nat
    requires IsKnownSchedule(schedule)
  {
    (schedule[0] as int) - ('0' as int)
  }

  function DaysOffOf(schedule: string): nat
    requires IsKnownSchedule(schedule)
  {
    (schedule[2] as int) - ('0' as int)
  }

  /** For each offered schedule the days off and the business days split the
      week: no day is both, every day is one of them, and their counts are
      the two numbers the schedule's name announces. */
  lemma KnownSchedulePartitionsWeek(s: Settings)
    requires IsKnownSchedule(s.workSchedule)
    ensures forall d :: d in WeekendDays(s) ==> d !in BusinessHours(s).daysOfWeek
    ensures forall d :: IsWeekday(d) ==> d in WeekendDays(s) || d in BusinessHours(s).daysOfWeek
    ensures |WeekendDays(s)| == DaysOffOf(s.workSchedule)
    ensures |BusinessHours(s).daysOfWeek| == WorkDaysOf(s.workSchedule)
  {
    if s.workSchedule == "5/2" {
      assert WeekendDays(s) == [0, 6] && BusinessHours(s).daysOfWeek == [1, 2, 3, 4, 5];
    } else if s.workSchedule == "6/1" {
      assert WeekendDays(s) == [0] && BusinessHours(s).daysOfWeek == [1, 2, 3, 4, 5, 6];
    } else {
      assert WeekendDays(s) == [] && BusinessHours(s).daysOfWeek == [0, 1, 2, 3, 4, 5, 6];
    }
  }

  /** Any other schedule string: no days off, Monday to Friday business
      days, so Saturday is neither a day off nor a business day. */
  lemma UnknownScheduleLeavesSaturday(s: Settings)
    requires !IsKnownSchedule(s.workSchedule)
    ensures WeekendDays(s) == []
    ensures BusinessHours(s).daysOfWeek == [1, 2, 3, 4, 5]
    ensures 6 !in WeekendDays(s) && 6 !in BusinessHours(s).daysOfWeek
  {
  }

  /** The schedules worked through by hand: 5/2 gives Saturday and Sunday
      off, 6/1 gives Sunday off with business hours Monday to Saturday, 7/0
      gives no day off. */
  lemma ScheduleExamples(s: Settings)
    ensures s.workSchedule == "5/2" ==> WeekendDays(s) == [0, 6] && BusinessHours(s).daysOfWeek == [1, 2, 3, 4, 5]
    ensures s.workSchedule == "6/1" ==> WeekendDays(s) == [0] && BusinessHours(s).daysOfWeek == [1, 2, 3, 4, 5, 6]
    ensures s.workSchedule == "7/0" ==> WeekendDays(s) == [] && BusinessHours(s).daysOfWeek == [0, 1, 2, 3, 4, 5, 6]
  {
  }

  /** One CSS rule `.fc-day[data-date="<date>"] { background-color: <colour> }`. */
  datatype StyleOverride = StyleOverride(date: string, background: string)

  const HolidayBackground := "#f8f9fa"
  const PreHolidayBackground := "#fafafa"

  function BackgroundFor(kind: string): (colour: string)
    ensures kind == "holiday" ==> colour == HolidayBackground
    ensures kind != "holiday" ==> colour == PreHolidayBackground
  {
    if kind == "holiday" then HolidayBackground else PreHolidayBackground
  }

  /** The per-holiday rules appended to the stylesheet, in list order. The
      two fixed rules for today and business slots are not modelled. */
  method UpdateCalendarStyles(holidays: seq<Holiday>) returns (rules: seq<StyleOverride>)
    ensures |rules| == |holidays|
    ensures forall i :: 0 <= i < |holidays| ==>
      rules[i].date == holidays[i].date && rules[i].background == BackgroundFor(holidays[i].kind)
  {
    rules := [];
    var i := 0;
    while i < |holidays|
      invariant 0 <= i <= |holidays|
      invariant |rules| == i
      invariant forall k :: 0 <= k < i ==>
        rules[k].date == holidays[k].date && rules[k].background == BackgroundFor(holidays[k].kind)
    {
      var h := holidays[i];
      rules := rules + [StyleOverride(h.date, BackgroundFor(h.kind))];
      i := i + 1;
    }
  }

  /** The colour the stylesheet gives a date, if some rule names it. With
      unique dates (see `StyleOfHolidays`) there is only one such rule, so
      the cascade's choice among equal `!important` rules does not arise. */
  function StyleOf(rules: seq<StyleOverride>, date: string): (colour: Option<string>)
    ensures colour.None? <==> forall i :: 0 <= i < |rules| ==> rules[i].date != date
    ensures colour.Some? ==> exists i :: 0 <= i < |rules| && rules[i].date == date && rules[i].background == colour.value
  {
    if rules == [] then None
    else if rules[0].date == date then Some(rules[0].background)
    else StyleOf(rules[1..], date)
  }

  /** Reading the rules back: a date gets a colour exactly when it is a
      holiday, and with unique dates that colour is the one of its entry's
      kind. */
  lemma StyleOfHolidays(holidays: seq<Holiday>, rules: seq<StyleOverride>, date: string)
    requires |rules| == |holidays|
    requires forall i :: 0 <= i < |holidays| ==>
      rules[i].date == holidays[i].date && rules[i].background == BackgroundFor(holidays[i].kind)
    requires UniqueDates(holidays)
    ensures StyleOf(rules, date).None? <==> date !in Dates(holidays)
    ensures forall i :: 0 <= i < |holidays| && holidays[i].date == date ==>
      StyleOf(rules, date) == Some(BackgroundFor(holidays[i].kind))
  {
    var colour := StyleOf(rules, date);
    var ds := Dates(holidays);
    if date in ds {
      var i :| 0 <= i < |ds| && ds[i] == date;
      assert rules[i].date == date;
    }
    if colour.Some? {
      var j :| 0 <= j < |rules| && rules[j].date == date && rules[j].background == colour.value;
      assert ds[j] == date;
      forall i | 0 <= i < |holidays| && holidays[i].date == date
        ensures colour == Some(BackgroundFor(holidays[i].kind))
      {
        assert i == j;
      }
    }
  }
}
