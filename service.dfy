/**
 ReservationService over an in-memory Reservations table. The clock is a
 parameter: `today` is the current date and `nowHour` the hour of
 DateTime.Now.
 */
module Service {
  import opened Domain
  import opened KiuEmail
  import opened Store
  import opened Availability
  import opened Booking
  import opened InstrumentAnswers

  /** The dates whose 21:00 slot is held by a closed row. */
  ghost function ClosedEvenings(rows: seq<Reservation>): set<Date>
  {
    set r | r in rows && !r.isOpen && r.hour == 21 :: r.date
  }

  ghost function AtOrAfter(dates: set<Date>, from: Date): set<Date>
  {
    set d | d in dates && d >= from
  }

  /** Moving the start one day on drops that day from the set, and only that day. */
  lemma AtOrAfterStep(dates: set<Date>, date: Date)
    ensures AtOrAfter(dates, date + 1) == AtOrAfter(dates, date) - {date}
    ensures |AtOrAfter(dates, date + 1)| == |AtOrAfter(dates, date)| - (if date in dates then 1 else 0)
  {
    assert AtOrAfter(dates, date + 1) == AtOrAfter(dates, date) - {date};
  }

  /** Before 21:00 a date without available hours is one of the closed evenings. */
  lemma EmptyDateIsClosedEvening(rows: seq<Reservation>, date: Date, nowHour: int)
    requires nowHour < 21
    requires AvailableTimes(rows, date, nowHour) == []
    ensures date in AtOrAfter(ClosedEvenings(rows), date)
  {
    EmptyDateHasClosedLastHour(rows, date, nowHour);
    var r :| r in rows && AtSlot(r, date, 21) && !r.isOpen;
    assert r.date in ClosedEvenings(rows);
  }

  /**
   The state of GetDates' scan after looking at every date from `today` up
   to, not including, `lastDate`: `dates` holds, in ascending order, exactly
   those with an available hour.
   */
  ghost predicate Scanned(rows: seq<Reservation>, nowHour: int, today: Date, lastDate: Date, dates: seq<Date>)
  {
    && today <= lastDate
    && (forall i :: 0 <= i < |dates| ==> today <= dates[i] < lastDate)
    && (forall i, j :: 0 <= i < j < |dates| ==> dates[i] < dates[j])
    && (forall i :: 0 <= i < |dates| ==> AvailableTimes(rows, dates[i], nowHour) != [])
    && (forall d :: today <= d < lastDate && d !in dates ==> AvailableTimes(rows, d, nowHour) == [])
  }

  /** The scan has skipped no more dates than there are closed 21:00 slots from `today` on, less those still ahead. */
  ghost predicate SkipsCounted(rows: seq<Reservation>, today: Date, lastDate: Date, kept: nat)
  {
    lastDate - today - kept + |AtOrAfter(ClosedEvenings(rows), lastDate)| <= |AtOrAfter(ClosedEvenings(rows), today)|
  }

  /** One step of the scan: the next date is kept exactly when it has an available hour. */
  lemma ScanStep(rows: seq<Reservation>, nowHour: int, today: Date, lastDate: Date, dates: seq<Date>)
    requires Scanned(rows, nowHour, today, lastDate, dates)
    ensures AvailableTimes(rows, lastDate, nowHour) != [] ==>
              Scanned(rows, nowHour, today, lastDate + 1, dates + [lastDate])
    ensures AvailableTimes(rows, lastDate, nowHour) == [] ==>
              Scanned(rows, nowHour, today, lastDate + 1, dates)
  {
    if AvailableTimes(rows, lastDate, nowHour) != [] {
      var next := dates + [lastDate];
      assert forall i :: 0 <= i < |dates| ==> next[i] == dates[i];
      assert forall d :: d !in next ==> d !in dates && d != lastDate;
    }
  }

  /**
   Before 21:00 a skipped date is a closed evening, so each skip leaves one
   fewer of them ahead of the scan.
   */
  lemma SkipStep(rows: seq<Reservation>, nowHour: int, today: Date, lastDate: Date, kept: nat)
    requires nowHour < 21
    requires today <= lastDate
    requires SkipsCounted(rows, today, lastDate, kept)
    ensures AvailableTimes(rows, lastDate, nowHour) != [] ==> SkipsCounted(rows, today, lastDate + 1, kept + 1)
    ensures AvailableTimes(rows, lastDate, nowHour) == [] ==> SkipsCounted(rows, today, lastDate + 1, kept)
    ensures |AtOrAfter(ClosedEvenings(rows), lastDate + 1)| <= |AtOrAfter(ClosedEvenings(rows), lastDate)|
    ensures AvailableTimes(rows, lastDate, nowHour) == [] ==>
              |AtOrAfter(ClosedEvenings(rows), lastDate + 1)| < |AtOrAfter(ClosedEvenings(rows), lastDate)|
  {
    AtOrAfterStep(ClosedEvenings(rows), lastDate);
    if AvailableTimes(rows, lastDate, nowHour) == [] {
      EmptyDateIsClosedEvening(rows, lastDate, nowHour);
    }
  }

  /** A finished scan answers what GetDates promises. */
  lemma ScanDone(rows: seq<Reservation>, nowHour: int, today: Date, lastDate: Date, dates: seq<Date>)
    requires Scanned(rows, nowHour, today, lastDate, dates)
    requires SkipsCounted(rows, today, lastDate, |dates|)
    requires |dates| == 7
    ensures today <= dates[0]
    ensures forall d :: today <= d <= dates[6] && d !in dates ==> AvailableTimes(rows, d, nowHour) == []
    ensures dates[6] <= today + 6 + |AtOrAfter(ClosedEvenings(rows), today)|
  {
    assert dates[6] < lastDate;
  }

  class ReservationService {
    /** The Reservations table, in row order. */
    var reservations: seq<Reservation>

    constructor (rows: seq<Reservation>)
      ensures reservations == rows
    {
      reservations := rows;
    }

    /** GetAll: every row, unfiltered. */
    function GetAll(): seq<Reservation>
      reads this
    {
      reservations
    }

    /** GetById: the first row whose key is `id`, or None. */
    function GetById(id: int): (r: Option<Reservation>)
      reads this
      ensures r.Some? ==> r.value in reservations && r.value.id == id
      ensures r.None? <==> forall x :: x in reservations ==> x.id != id
    {
      FindById(reservations, id)
    }

    /**
     GetAvailableTimes: start from the weekday's candidate list and keep, in
     order, the hours that are neither held by a closed row on `date` nor at
     or before the clock's hour; a filtering loop equivalent to RemoveAll.
     */
    method GetAvailableTimes(date: Date, nowHour: int) returns (available: seq<int>)
      ensures available == AvailableTimes(reservations, date, nowHour)
    {
      var unavailable := GetUnavailableTimes(reservations, date);
      var candidates := Candidates(WeekdayOf(date));
      available := [];
      var i := 0;
      while i < |candidates|
        invariant 0 <= i <= |candidates|
        invariant available == KeepAvailable(candidates[..i], unavailable, nowHour)
      {
        var hour := candidates[i];
        assert candidates[..i + 1] == candidates[..i] + [hour];
        if !(hour in unavailable || hour <= nowHour) {
          available := available + [hour];
        }
        i := i + 1;
      }
      assert candidates[..i] == candidates;
    }

    /**
     GetAvailableInstruments. For an hour outside 0..23, TimeOnly(hour, 0)
     throws while Entity Framework evaluates the query's parameter, which
     reports it as an InvalidOperationException. When no row holds the slot,
     the answer is five trues. Otherwise it is the `bool[5]` array, which
     starts all false and is only assigned false, so every entry is false
     whatever the row claims.
     */
    method GetAvailableInstruments(date: Date, hour: int) returns (r: Result<seq<bool>>)
      ensures !(0 <= hour <= 23) ==> r == Failure("InvalidOperationException")
      ensures 0 <= hour <= 23 ==> r == Ok(InstrumentsAsWritten(reservations, date, hour))
      ensures 0 <= hour <= 23 && (forall x :: x in reservations ==> !AtSlot(x, date, hour)) ==>
                r == Ok([true, true, true, true, true])
      ensures 0 <= hour <= 23 && (exists x :: x in reservations && AtSlot(x, date, hour)) ==>
                r == Ok([false, false, false, false, false])
    {
      var ans := new bool[5](_ => false);
      if !(0 <= hour <= 23) {
        return Failure("InvalidOperationException");
      }
      var i := FindSlot(reservations, date, hour);
      if i == |reservations| {
        assert forall j :: 0 <= j < |reservations| ==> reservations[j] in reservations;
        return Ok([true, true, true, true, true]);
      }
      var res := reservations[i];
      if res.taken.guitar {
        ans[0] := false;
      }
      if res.taken.bass {
        ans[1] := false;
      }
      if res.taken.drums {
        ans[2] := false;
      }
      if res.taken.piano {
        ans[3] := false;
      }
      if res.taken.microphone {
        ans[4] := false;
      }
      assert ans[..] == [false, false, false, false, false];
      return Ok(ans[..]);
    }

    /**
     GetAvailableInstruments as evidently intended: the same steps, with the
     array starting all true, so that each instrument the slot's row claims,
     and only those, is reported taken.
     */
    method GetFreeInstruments(date: Date, hour: int) returns (r: Result<seq<bool>>)
      ensures !(0 <= hour <= 23) ==> r == Failure("InvalidOperationException")
      ensures 0 <= hour <= 23 ==> r == Ok(FreeInstruments(reservations, date, hour))
      ensures 0 <= hour <= 23 ==>
                var i := FindSlot(reservations, date, hour);
                forall f :: 0 <= f < 5 ==> (r.value[f] <==> i == |reservations| || !Flags(reservations[i].taken)[f])
    {
      var ans := new bool[5](_ => true);
      if !(0 <= hour <= 23) {
        return Failure("InvalidOperationException");
      }
      var i := FindSlot(reservations, date, hour);
      if i == |reservations| {
        return Ok([true, true, true, true, true]);
      }
      var res := reservations[i];
      if res.taken.guitar {
        ans[0] := false;
      }
      if res.taken.bass {
        ans[1] := false;
      }
      if res.taken.drums {
        ans[2] := false;
      }
      if res.taken.piano {
        ans[3] := false;
      }
      if res.taken.microphone {
        ans[4] := false;
      }
      assert ans[..] == [!res.taken.guitar, !res.taken.bass, !res.taken.drums, !res.taken.piano, !res.taken.microphone];
      r := Ok(ans[..]);
      forall f | 0 <= f < 5
        ensures r.value[f] <==> !Flags(res.taken)[f]
      {
        FreeInstrumentAt(reservations, date, hour, f);
      }
    }

    /**
     AddReservation: check the email, then the hour against
     GetAvailableTimes, then insert a row for a free slot, reject a closed
     one, or OR the claims into an open one.
     */
    method AddReservation(dto: AddReservationDto, nowHour: int) returns (success: bool, message: string)
      modifies this
      ensures Submit(old(reservations), dto, nowHour) == Outcome(success, message, reservations)
      ensures UniqueSlots(old(reservations)) ==> UniqueSlots(reservations)
      ensures UniqueIds(old(reservations)) ==> UniqueIds(reservations)
    {
      if UniqueSlots(reservations) {
        SubmitPreservesUniqueSlots(reservations, dto, nowHour);
      }
      if UniqueIds(reservations) {
        SubmitPreservesUniqueIds(reservations, dto, nowHour);
      }
      if !CheckEmail(dto.email) {
        return false, "Wrong Email";
      }
      var times := GetAvailableTimes(dto.date, nowHour);
      if dto.hour !in times {
        return false, "Wrong Hour";
      }
      var i := FindSlot(reservations, dto.date, dto.hour);
      if i == |reservations| {
        reservations := reservations + [Reservation(NextId(reservations), dto.email, dto.date, dto.hour, dto.taken, dto.isOpen)];
        return true, "Success";
      }
      var existing := reservations[i];
      if !existing.isOpen {
        return false, "Reserved";
      }
      reservations := reservations[i := existing.(taken := Merge(dto.taken, existing.taken))];
      return true, "Success";
    }

    /**
     GetDates: walk forward from today and collect the first seven dates
     with at least one available hour. Before 21:00 this ends, because a date
     is skipped only when a closed row holds its 21:00 slot. From 21:00 on,
     with the clock fixed, no date has an hour left and the loop never ends
     (LateHourEmptiesEveryDate), so that case is excluded; the source, which
     reads the clock again for every date, spins until midnight or until
     AddDays throws.
     */
    method GetDates(today: Date, nowHour: int) returns (dates: seq<Date>)
      requires nowHour < 21
      ensures |dates| == 7
      ensures today <= dates[0]
      ensures forall i, j :: 0 <= i < j < |dates| ==> dates[i] < dates[j]
      ensures forall i :: 0 <= i < |dates| ==> AvailableTimes(reservations, dates[i], nowHour) != []
      ensures forall d :: today <= d <= dates[6] && d !in dates ==> AvailableTimes(reservations, d, nowHour) == []
      ensures dates[6] <= today + 6 + |AtOrAfter(ClosedEvenings(reservations), today)|
    {
      dates := [];
      var lastDate: Date := today;
      while |dates| < 7
        invariant |dates| <= 7
        invariant Scanned(reservations, nowHour, today, lastDate, dates)
        invariant SkipsCounted(reservations, today, lastDate, |dates|)
        decreases |AtOrAfter(ClosedEvenings(reservations), lastDate)|, 7 - |dates|
      {
        var times := GetAvailableTimes(lastDate, nowHour);
        ScanStep(reservations, nowHour, today, lastDate, dates);
        SkipStep(reservations, nowHour, today, lastDate, |dates|);
        if |times| > 0 {
          dates := dates + [lastDate];
        }
        lastDate := lastDate + 1;
      }
      ScanDone(reservations, nowHour, today, lastDate, dates);
    }
  }
}
