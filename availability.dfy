/**
 The hours of a date that can still be booked: GetUnavailableTimes and the
 filter GetAvailableTimes applies to the weekday's candidate hours.
 */
module Availability {
  import opened Domain
  import opened Store

  /** The candidate list GetAvailableTimes starts from, by weekday. */
  function Candidates(weekday: DayOfWeek): seq<int>
  {
    if weekday == Friday || weekday == Saturday then [15, 16, 17, 18, 19, 20, 21]
    else [17, 18, 19, 20, 21]
  }

  /** Some closed (IsOpen == false) row occupies date+hour. */
  ghost predicate ClosedAt(rows: seq<Reservation>, date: Date, hour: int)
  {
    exists r :: r in rows && AtSlot(r, date, hour) && !r.isOpen
  }

  /** GetUnavailableTimes: the hours of the closed rows on `date`, in table order. */
  function GetUnavailableTimes(rows: seq<Reservation>, date: Date): (hours: seq<int>)
    ensures |hours| <= |rows|
    ensures forall h :: h in hours <==> ClosedAt(rows, date, h)
  {
    if rows == [] then []
    else
      var rest := GetUnavailableTimes(rows[1..], date);
      assert forall r :: r in rows <==> r == rows[0] || r in rows[1..];
      if rows[0].date == date && !rows[0].isOpen then [rows[0].hour] + rest else rest
  }

  /** The condition of GetAvailableTimes' RemoveAll. */
  predicate Removed(hour: int, unavailable: seq<int>, nowHour: int)
  {
    hour in unavailable || hour <= nowHour
  }

  /** What `RemoveAll` leaves of `hours`: the hours not removed, in their original order. */
  function KeepAvailable(hours: seq<int>, unavailable: seq<int>, nowHour: int): (kept: seq<int>)
    ensures |kept| <= |hours|
    ensures forall h :: h in kept <==> h in hours && !Removed(h, unavailable, nowHour)
  {
    if hours == [] then []
    else
      var init := hours[..|hours| - 1];
      var last := hours[|hours| - 1];
      assert hours == init + [last];
      KeepAvailable(init, unavailable, nowHour) + (if Removed(last, unavailable, nowHour) then [] else [last])
  }

  /** The specification of GetAvailableTimes(date) when the clock's hour is `nowHour`. */
  function AvailableTimes(rows: seq<Reservation>, date: Date, nowHour: int): seq<int>
  {
    KeepAvailable(Candidates(WeekdayOf(date)), GetUnavailableTimes(rows, date), nowHour)
  }

  predicate StrictlyIncreasing(s: seq<int>)
  {
    forall i, j :: 0 <= i < j < |s| ==> s[i] < s[j]
  }

  lemma {:induction false} KeepAvailableIncreasing(hours: seq<int>, unavailable: seq<int>, nowHour: int)
    requires StrictlyIncreasing(hours)
    ensures StrictlyIncreasing(KeepAvailable(hours, unavailable, nowHour))
  {
    if hours != [] {
      var init := hours[..|hours| - 1];
      var last := hours[|hours| - 1];
      assert forall i :: 0 <= i < |init| ==> init[i] == hours[i] && init[i] < last;
      KeepAvailableIncreasing(init, unavailable, nowHour);
      var kept := KeepAvailable(init, unavailable, nowHour);
      assert forall i :: 0 <= i < |kept| ==> kept[i] in kept && kept[i] in init;
    }
  }

  lemma {:induction false} KeepAvailableNothingLeft(hours: seq<int>, unavailable: seq<int>, nowHour: int)
    requires forall h :: h in hours ==> Removed(h, unavailable, nowHour)
    ensures KeepAvailable(hours, unavailable, nowHour) == []
  {
    if hours != [] {
      KeepAvailableNothingLeft(hours[..|hours| - 1], unavailable, nowHour);
    }
  }

  lemma {:induction false} KeepAvailableNothingRemoved(hours: seq<int>, unavailable: seq<int>, nowHour: int)
    requires forall h :: h in hours ==> !Removed(h, unavailable, nowHour)
    ensures KeepAvailable(hours, unavailable, nowHour) == hours
  {
    if hours != [] {
      var init := hours[..|hours| - 1];
      assert hours == init + [hours[|hours| - 1]];
      KeepAvailableNothingRemoved(init, unavailable, nowHour);
    }
  }

  lemma {:induction false} OpenRowsCloseNothing(rows: seq<Reservation>, date: Date)
    requires forall r :: r in rows ==> r.isOpen
    ensures GetUnavailableTimes(rows, date) == []
  {
    if rows != [] {
      assert rows[0] in rows;
      assert forall r :: r in rows[1..] ==> r in rows;
      OpenRowsCloseNothing(rows[1..], date);
    }
  }

  /**
   An hour is offered exactly when it is a candidate for the weekday, later
   than the current hour, and no closed row occupies it; the hours come in
   ascending order, within 15..21 on Friday and Saturday and 17..21 otherwise.
   */
  lemma AvailableTimesCharacterization(rows: seq<Reservation>, date: Date, nowHour: int)
    ensures forall h :: h in AvailableTimes(rows, date, nowHour) <==>
                          h in Candidates(WeekdayOf(date)) && h > nowHour && !ClosedAt(rows, date, h)
    ensures StrictlyIncreasing(AvailableTimes(rows, date, nowHour))
    ensures forall h :: h in AvailableTimes(rows, date, nowHour) ==>
                          if WeekdayOf(date) in {Friday, Saturday} then 15 <= h <= 21 else 17 <= h <= 21
  {
    KeepAvailableIncreasing(Candidates(WeekdayOf(date)), GetUnavailableTimes(rows, date), nowHour);
  }

  /**
   Open rows never make an hour unavailable, however many instruments they
   claim: a candidate hour after the current hour whose rows are all open is
   offered.
   */
  lemma OpenSlotStaysAvailable(rows: seq<Reservation>, date: Date, nowHour: int, hour: int)
    requires hour in Candidates(WeekdayOf(date)) && hour > nowHour
    requires forall r :: r in rows && AtSlot(r, date, hour) ==> r.isOpen
    ensures hour in AvailableTimes(rows, date, nowHour)
  {
  }

  /**
   The clock's hour filters every date, not only today: from 21:00 on, no
   date has any hour left, so a scan for dates with free hours finds none.
   */
  lemma LateHourEmptiesEveryDate(rows: seq<Reservation>, date: Date, nowHour: int)
    requires nowHour >= 21
    ensures AvailableTimes(rows, date, nowHour) == []
  {
    KeepAvailableNothingLeft(Candidates(WeekdayOf(date)), GetUnavailableTimes(rows, date), nowHour);
  }

  /** Hour 21 is a candidate every day, so before 21:00 a date is empty only if a closed row holds 21:00. */
  lemma EmptyDateHasClosedLastHour(rows: seq<Reservation>, date: Date, nowHour: int)
    requires nowHour < 21
    requires AvailableTimes(rows, date, nowHour) == []
    ensures ClosedAt(rows, date, 21)
  {
    assert 21 in Candidates(WeekdayOf(date));
    assert 21 !in AvailableTimes(rows, date, nowHour);
  }
}
