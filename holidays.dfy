/** Holiday-list maintenance in the client (static/app.js): the add
    handler, `removeHoliday` and the sort inside `updateHolidaysList`, all
    acting on `currentSettings.holidays`. */
module Holidays {
  import opened Common
  import opened DateOrder
  import opened BusinessCalendar

  /** Ascending by date, as the comparator `new Date(a.date) - new Date(b.date)`
      leaves the list. */
  predicate SortedByDate(hs: seq<Holiday>) {
    forall i, j :: 0 <= i < j < |hs| ==> DateLe(hs[i].date, hs[j].date)
  }

  lemma InsertFrontSorted(h: Holiday, sorted: seq<Holiday>)
    requires SortedByDate(sorted) && sorted != []
    requires LexLess(h.date, sorted[0].date)
    ensures SortedByDate([h] + sorted)
  {
    forall j | 0 <= j < |sorted|
      ensures DateLe(h.date, sorted[j].date)
    {
      LexAsymmetric(h.date, sorted[0].date);
      if j > 0 {
        DateLeTransitive(h.date, sorted[0].date, sorted[j].date);
      }
    }
  }

  lemma ConsSorted(x: Holiday, rest: seq<Holiday>)
    requires SortedByDate(rest)
    requires forall k :: 0 <= k < |rest| ==> DateLe(x.date, rest[k].date)
    ensures SortedByDate([x] + rest)
  {
  }

  /** One insertion step: `h` goes after every entry that is not later than
      it. */
  function InsertByDate(sorted: seq<Holiday>, h: Holiday): (r: seq<Holiday>)
    requires SortedByDate(sorted)
    ensures SortedByDate(r)
    ensures multiset(r) == multiset(sorted) + multiset{h}
  {
    if sorted == [] then [h]
    else if LexLess(h.date, sorted[0].date) then
      InsertFrontSorted(h, sorted);
      [h] + sorted
    else
      var rest := InsertByDate(sorted[1..], h);
      InsertAfterHead(sorted, h, rest);
      [sorted[0]] + rest
  }

  lemma InsertAfterHead(sorted: seq<Holiday>, h: Holiday, rest: seq<Holiday>)
    requires SortedByDate(sorted) && sorted != [] && !LexLess(h.date, sorted[0].date)
    requires SortedByDate(rest) && multiset(rest) == multiset(sorted[1..]) + multiset{h}
    ensures SortedByDate([sorted[0]] + rest)
    ensures multiset([sorted[0]] + rest) == multiset(sorted) + multiset{h}
  {
    assert sorted == [sorted[0]] + sorted[1..];
    forall k | 0 <= k < |rest|
      ensures DateLe(sorted[0].date, rest[k].date)
    {
      assert rest[k] in multiset(rest);
      if rest[k] != h {
        assert rest[k] in sorted[1..];
        var p :| 0 <= p < |sorted[1..]| && sorted[1..][p] == rest[k];
        assert sorted[p + 1] == rest[k];
      }
    }
    ConsSorted(sorted[0], rest);
  }

  // ----- uniqueness survives any permutation -----

  lemma {:induction false} UniqueCountsOne(hs: seq<Holiday>, x: Holiday)
    requires UniqueDates(hs)
    ensures multiset(hs)[x] <= 1
  {
    if hs != [] {
      UniqueCountsOne(hs[1..], x);
      assert hs == [hs[0]] + hs[1..];
      if hs[0] == x {
        assert x !in hs[1..];
      }
    }
  }

  lemma RepeatCountsTwo(hs: seq<Holiday>, i: int, j: int)
    requires 0 <= i < j < |hs| && hs[i] == hs[j]
    ensures multiset(hs)[hs[i]] >= 2
  {
    assert hs == hs[..j] + [hs[j]] + hs[j + 1..];
    assert hs[i] in hs[..j];
  }

  lemma UniquePermutation(a: seq<Holiday>, b: seq<Holiday>)
    requires UniqueDates(a) && multiset(a) == multiset(b)
    ensures UniqueDates(b)
  {
    forall i, j | 0 <= i < j < |b|
      ensures b[i].date != b[j].date
    {
      if b[i] == b[j] {
        RepeatCountsTwo(b, i, j);
        UniqueCountsOne(a, b[i]);
      } else {
        assert b[i] in multiset(a) && b[j] in multiset(a);
        var p :| 0 <= p < |a| && a[p] == b[i];
        var q :| 0 <= q < |a| && a[q] == b[j];
        assert p != q;
      }
    }
  }

  /** Sorted with unique dates: every earlier entry is strictly earlier. */
  lemma SortedUniqueStrict(hs: seq<Holiday>, i: int, j: int)
    requires SortedByDate(hs) && UniqueDates(hs)
    requires 0 <= i < j < |hs|
    ensures LexLess(hs[i].date, hs[j].date)
  {
    LexTotal(hs[i].date, hs[j].date);
  }

  /** In a sorted list with unique dates the head is strictly earlier than
      every other entry. */
  lemma HeadIsLeast(hs: seq<Holiday>, x: Holiday)
    requires SortedByDate(hs) && UniqueDates(hs)
    requires x in hs
    ensures hs[0] == x || LexLess(hs[0].date, x.date)
  {
    var k :| 0 <= k < |hs| && hs[k] == x;
    if k > 0 {
      SortedUniqueStrict(hs, 0, k);
    }
  }

  lemma TailKeepsShape(hs: seq<Holiday>)
    requires hs != [] && SortedByDate(hs) && UniqueDates(hs)
    ensures SortedByDate(hs[1..]) && UniqueDates(hs[1..])
  {
  }

  lemma TailsPermutation(a: seq<Holiday>, b: seq<Holiday>)
    requires a != [] && b != [] && a[0] == b[0]
    requires multiset(a) == multiset(b)
    ensures multiset(a[1..]) == multiset(b[1..])
  {
    assert a == [a[0]] + a[1..] && b == [b[0]] + b[1..];
    assert multiset(a) == multiset{a[0]} + multiset(a[1..]);
    assert multiset(b) == multiset{b[0]} + multiset(b[1..]);
    forall x
      ensures multiset(a[1..])[x] == multiset(b[1..])[x]
    {
      assert multiset(a)[x] == multiset{a[0]}[x] + multiset(a[1..])[x];
      assert multiset(b)[x] == multiset{b[0]}[x] + multiset(b[1..])[x];
    }
  }

  lemma SameHead(a: seq<Holiday>, b: seq<Holiday>)
    requires SortedByDate(a) && UniqueDates(a)
    requires SortedByDate(b) && UniqueDates(b)
    requires a != [] && b != [] && multiset(a) == multiset(b)
    ensures a[0] == b[0]
  {
    assert a[0] in multiset(b) && b[0] in multiset(a);
    HeadIsLeast(b, a[0]);
    HeadIsLeast(a, b[0]);
    LexAsymmetric(a[0].date, b[0].date);
  }

  /** With unique dates there is only one sorted arrangement of a list. */
  lemma {:induction false} SortedUniqueDetermined(a: seq<Holiday>, b: seq<Holiday>)
    requires SortedByDate(a) && UniqueDates(a)
    requires SortedByDate(b) && UniqueDates(b)
    requires multiset(a) == multiset(b)
    ensures a == b
  {
    if a == [] {
      assert |multiset(b)| == 0;
    } else {
      assert |b| == |multiset(b)| == |a|;
      SameHead(a, b);
      TailsPermutation(a, b);
      TailKeepsShape(a);
      TailKeepsShape(b);
      SortedUniqueDetermined(a[1..], b[1..]);
      assert a == [a[0]] + a[1..] && b == [b[0]] + b[1..];
    }
  }

  // ----- removal -----

  /** `holidays.filter(h => h.date !== date)`. */
  function WithoutDate(hs: seq<Holiday>, date: string): (r: seq<Holiday>)
    ensures forall i :: 0 <= i < |r| ==> r[i].date != date
    ensures |r| <= |hs|
  {
    if hs == [] then []
    else if hs[0].date == date then WithoutDate(hs[1..], date)
    else [hs[0]] + WithoutDate(hs[1..], date)
  }

  /** The entries kept are exactly those of another date. */
  lemma {:induction false} WithoutDateMembers(hs: seq<Holiday>, date: string)
    ensures forall x :: x in WithoutDate(hs, date) <==> x in hs && x.date != date
  {
    if hs != [] {
      WithoutDateMembers(hs[1..], date);
      assert hs == [hs[0]] + hs[1..];
    }
  }

  /** Filtering keeps relative order: it distributes over concatenation. */
  lemma {:induction false} WithoutDateConcat(a: seq<Holiday>, b: seq<Holiday>, date: string)
    ensures WithoutDate(a + b, date) == WithoutDate(a, date) + WithoutDate(b, date)
  {
    if a != [] {
      assert (a + b)[0] == a[0] && (a + b)[1..] == a[1..] + b;
      WithoutDateConcat(a[1..], b, date);
    } else {
      assert a + b == b;
    }
  }

  lemma {:induction false} WithoutAbsentDate(hs: seq<Holiday>, date: string)
    requires forall i :: 0 <= i < |hs| ==> hs[i].date != date
    ensures WithoutDate(hs, date) == hs
  {
    if hs != [] {
      WithoutAbsentDate(hs[1..], date);
      assert hs == [hs[0]] + hs[1..];
    }
  }

  lemma WithoutOwnDate(x: Holiday)
    ensures WithoutDate([x], x.date) == []
  {
    assert [x][1..] == [];
  }

  lemma RemoveLast(pre: seq<Holiday>, x: Holiday)
    requires forall i :: 0 <= i < |pre| ==> pre[i].date != x.date
    ensures WithoutDate(pre + [x], x.date) == pre
  {
    WithoutOwnDate(x);
    WithoutAbsentDate(pre, x.date);
    WithoutDateConcat(pre, [x], x.date);
  }

  lemma RemoveMiddle(pre: seq<Holiday>, x: Holiday, post: seq<Holiday>)
    requires forall i :: 0 <= i < |pre| ==> pre[i].date != x.date
    requires forall i :: 0 <= i < |post| ==> post[i].date != x.date
    ensures WithoutDate(pre + [x] + post, x.date) == pre + post
  {
    var px := pre + [x];
    RemoveLast(pre, x);
    WithoutAbsentDate(post, x.date);
    WithoutDateConcat(px, post, x.date);
  }

  /** Removing a date from a list with unique dates deletes exactly the one
      entry carrying it and leaves the rest in place. */
  lemma RemoveFromUnique(hs: seq<Holiday>, k: int)
    requires UniqueDates(hs) && 0 <= k < |hs|
    ensures WithoutDate(hs, hs[k].date) == hs[..k] + hs[k + 1..]
  {
    var pre, x, post := hs[..k], hs[k], hs[k + 1..];
    assert hs == pre + [x] + post;
    forall i | 0 <= i < |pre|
      ensures pre[i].date != x.date
    {
      assert pre[i] == hs[i];
    }
    forall i | 0 <= i < |post|
      ensures post[i].date != x.date
    {
      assert post[i] == hs[k + 1 + i];
    }
    RemoveMiddle(pre, x, post);
  }

  /** A date that is not in the list: removing it changes nothing. */
  lemma RemoveAbsent(hs: seq<Holiday>, date: string)
    requires date !in Dates(hs)
    ensures WithoutDate(hs, date) == hs
  {
    assert forall i :: 0 <= i < |hs| ==> Dates(hs)[i] == hs[i].date;
    WithoutAbsentDate(hs, date);
  }

  lemma {:induction false} WithoutDateKeepsOrder(hs: seq<Holiday>, date: string)
    requires SortedByDate(hs) && UniqueDates(hs)
    ensures SortedByDate(WithoutDate(hs, date)) && UniqueDates(WithoutDate(hs, date))
  {
    if hs != [] {
      WithoutDateKeepsOrder(hs[1..], date);
      var rest := WithoutDate(hs[1..], date);
      WithoutDateMembers(hs[1..], date);
      if hs[0].date != date {
        forall k | 0 <= k < |rest|
          ensures DateLe(hs[0].date, rest[k].date) && hs[0].date != rest[k].date
        {
          assert rest[k] in hs[1..];
          var p :| 0 <= p < |hs[1..]| && hs[1..][p] == rest[k];
          assert hs[p + 1] == rest[k];
        }
        ConsSorted(hs[0], rest);
      }
    }
  }

  /** What the add handler did. */
  datatype AddOutcome = Added | RejectedEmptyDate | RejectedDuplicate

  /** What `applySettings` hands to the calendar: the `weekends` value,
      the `businessHours` option and the per-holiday style rules. */
  datatype CalendarOptions = CalendarOptions(weekends: seq<int>, businessHours: BusinessHoursOption, styles: seq<StyleOverride>)

  /** The client's `currentSettings`: the settings form overwrites its
      schedule and hours, the add handler changes its holiday list in place,
      `removeHoliday` reassigns it and `updateHolidaysList` sorts it in
      place. */
  class ClientSettings {
    var workSchedule: string
    var workHours: WorkHours
    var holidays: seq<Holiday>

    constructor ()
      ensures workSchedule == "5/2" && workHours == WorkHours("09:00", "18:00") && holidays == []
      ensures Current() == ClientDefaultSettings()
    {
      workSchedule := "5/2";
      workHours := WorkHours("09:00", "18:00");
      holidays := [];
    }

    function Current(): Settings
      reads this
    {
      Settings(workSchedule, workHours, holidays)
    }

    /** The submit handler of the settings form: the schedule and the two
        times are read from the form and the holidays are kept. Saving to
        local storage and closing the dialog are not modelled; the calendar
        is then updated as `ApplySettings` describes. */
    method SubmitSettingsForm(schedule: string, start: string, end: string)
      modifies this`workSchedule, this`workHours
      ensures Current() == Settings(schedule, WorkHours(start, end), old(holidays))
    {
      workSchedule := schedule;
      workHours := WorkHours(start, end);
    }

    /** `applySettings()`: nothing while the calendar does not exist;
        otherwise the options handed to it, computed from the current
        settings. Scrolling and refetching are not modelled. */
    method ApplySettings(calendarCreated: bool) returns (applied: Option<CalendarOptions>)
      ensures !calendarCreated ==> applied == None
      ensures calendarCreated ==> (applied.Some? &&
        applied.value.weekends == WeekendDays(Current()) &&
        applied.value.businessHours == BusinessHours(Current()) &&
        |applied.value.styles| == |holidays| &&
        forall i :: 0 <= i < |holidays| ==>
          applied.value.styles[i].date == holidays[i].date &&
          applied.value.styles[i].background == BackgroundFor(holidays[i].kind))
    {
      if !calendarCreated {
        return None;
      }
      var settings := Current();
      var weekends := WeekendDays(settings);
      var hours := BusinessHours(settings);
      var styles := UpdateCalendarStyles(holidays);
      applied := Some(CalendarOptions(weekends, hours, styles));
    }

    /** The sort in `updateHolidaysList` (the list rendering is not
        modelled); an empty list returns early. */
    method UpdateHolidaysList()
      modifies this`holidays
      ensures SortedByDate(holidays)
      ensures multiset(holidays) == multiset(old(holidays))
      ensures old(UniqueDates(holidays)) ==> UniqueDates(holidays)
    {
      if |holidays| == 0 {
        return;
      }
      var sorted := [];
      var i := 0;
      while i < |holidays|
        invariant 0 <= i <= |holidays|
        invariant SortedByDate(sorted)
        invariant multiset(sorted) == multiset(holidays[..i])
      {
        assert holidays[..i + 1] == holidays[..i] + [holidays[i]];
        sorted := InsertByDate(sorted, holidays[i]);
        i := i + 1;
      }
      assert holidays[..i] == holidays;
      if UniqueDates(holidays) {
        UniquePermutation(holidays, sorted);
      }
      holidays := sorted;
    }

    /** The click handler of the add-holiday button: an empty date or a date
        already present is rejected (with an alert) and nothing changes;
        otherwise the entry is pushed and the list re-sorted. Persisting to
        local storage and re-applying the calendar options are not
        modelled. */
    method AddHoliday(date: string, kind: string) returns (outcome: AddOutcome)
      modifies this`holidays
      ensures date == "" ==> outcome == RejectedEmptyDate
      ensures date != "" && date in Dates(old(holidays)) ==> outcome == RejectedDuplicate
      ensures date != "" && date !in Dates(old(holidays)) ==> outcome == Added
      ensures outcome != Added ==> holidays == old(holidays)
      ensures outcome == Added ==>
        date != "" && date !in Dates(old(holidays)) &&
        multiset(holidays) == multiset(old(holidays)) + multiset{Holiday(date, kind)} &&
        SortedByDate(holidays)
      ensures old(UniqueDates(holidays)) ==> UniqueDates(holidays)
    {
      if date == "" {
        return RejectedEmptyDate;
      }
      if exists i :: 0 <= i < |holidays| && holidays[i].date == date {
        return RejectedDuplicate;
      }
      assert date !in Dates(holidays);
      ghost var before := holidays;
      holidays := holidays + [Holiday(date, kind)];
      assert UniqueDates(before) ==> UniqueDates(holidays);
      UpdateHolidaysList();
      outcome := Added;
    }

    /** `removeHoliday(date)`: the list is replaced by its filtered copy and
        re-sorted. */
    method RemoveHoliday(date: string)
      modifies this`holidays
      ensures forall i :: 0 <= i < |holidays| ==> holidays[i].date != date
      ensures multiset(holidays) == multiset(WithoutDate(old(holidays), date))
      ensures SortedByDate(holidays)
      ensures old(UniqueDates(holidays)) ==> UniqueDates(holidays)
      ensures old(SortedByDate(holidays) && UniqueDates(holidays)) ==>
        holidays == WithoutDate(old(holidays), date)
    {
      ghost var before := holidays;
      holidays := WithoutDate(holidays, date);
      ghost var filtered := holidays;
      if SortedByDate(before) && UniqueDates(before) {
        WithoutDateKeepsOrder(before, date);
      } else if UniqueDates(before) {
        WithoutDateUnique(before, date);
      }
      UpdateHolidaysList();
      forall i | 0 <= i < |holidays|
        ensures holidays[i].date != date
      {
        assert holidays[i] in multiset(filtered);
      }
      if SortedByDate(before) && UniqueDates(before) {
        UniquePermutation(filtered, holidays);
        SortedUniqueDetermined(holidays, filtered);
      }
    }
  }

  lemma {:induction false} WithoutDateUnique(hs: seq<Holiday>, date: string)
    requires UniqueDates(hs)
    ensures UniqueDates(WithoutDate(hs, date))
  {
    if hs != [] {
      WithoutDateUnique(hs[1..], date);
      var rest := WithoutDate(hs[1..], date);
      WithoutDateMembers(hs[1..], date);
      if hs[0].date != date {
        forall k | 0 <= k < |rest|
          ensures hs[0].date != rest[k].date
        {
          assert rest[k] in hs[1..];
          var p :| 0 <= p < |hs[1..]| && hs[1..][p] == rest[k];
          assert hs[p + 1] == rest[k];
        }
      }
    }
  }

  /** Adding one date twice from the initial settings: the first click adds
      it, the second is refused as a duplicate, and the list still has no
      repeated date. */
  method AddTwice(date: string, kind: string) returns (first: AddOutcome, second: AddOutcome)
    requires date != ""
    ensures first == Added && second == RejectedDuplicate
  {
    var s := new ClientSettings();
    first := s.AddHoliday(date, kind);
    assert date in Dates(s.holidays) by {
      assert Holiday(date, kind) in multiset(s.holidays);
      var k :| 0 <= k < |s.holidays| && s.holidays[k] == Holiday(date, kind);
      assert Dates(s.holidays)[k] == date;
    }
    second := s.AddHoliday(date, kind);
    assert UniqueDates(s.holidays);
  }

  /** Choosing the 6/1 schedule in the settings form and applying it: Sunday
      is the only day off, Monday to Saturday are business days with the
      submitted hours, and the empty holiday list adds no style rules. */
  method SixDayWeekSubmitted() returns (applied: Option<CalendarOptions>)
    ensures applied == Some(CalendarOptions([0],
      BusinessHoursOption([1, 2, 3, 4, 5, 6], "08:00", "17:00"), []))
  {
    var settings := new ClientSettings();
    settings.SubmitSettingsForm("6/1", "08:00", "17:00");
    applied := settings.ApplySettings(true);
  }
}
