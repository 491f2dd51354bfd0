/**
 A walk-through of the booking rules on an empty table, on Monday
 19 October 2026 (day 739907) at 10:00.
 */
module Walkthrough {
  import opened Domain
  import opened KiuEmail
  import opened Store
  import opened Availability
  import opened Booking
  import opened Service

  const Monday19Oct: Date := 739907
  const Email: string := "a.b@kiu.edu.ge"
  const Guitar := Instruments(true, false, false, false, false)
  const Bass := Instruments(false, true, false, false, false)
  const GuitarAndBass := Instruments(true, true, false, false, false)
  const NoClaims := Instruments(false, false, false, false, false)

  /** While every row is open, a Monday at 10:00 offers all of 17..21. */
  lemma MondayMorningHours(rows: seq<Reservation>)
    requires forall r :: r in rows ==> r.isOpen
    ensures AvailableTimes(rows, Monday19Oct, 10) == [17, 18, 19, 20, 21]
  {
    assert WeekdayOf(Monday19Oct) == Monday;
    OpenRowsCloseNothing(rows, Monday19Oct);
    KeepAvailableNothingRemoved([17, 18, 19, 20, 21], [], 10);
  }

  lemma OpenWithGuitar()
    ensures Submit([], AddReservationDto(Email, Monday19Oct, 17, Guitar, true), 10) ==
              Outcome(true, "Success", [Reservation(1, Email, Monday19Oct, 17, Guitar, true)])
  {
    CheckEmailAcceptsShortest();
    MondayMorningHours([]);
  }

  lemma JoinWithBass()
    ensures Submit([Reservation(1, Email, Monday19Oct, 17, Guitar, true)], AddReservationDto(Email, Monday19Oct, 17, Bass, true), 10) ==
              Outcome(true, "Success", [Reservation(1, Email, Monday19Oct, 17, GuitarAndBass, true)])
  {
    var rows := [Reservation(1, Email, Monday19Oct, 17, Guitar, true)];
    CheckEmailAcceptsShortest();
    MondayMorningHours(rows);
    assert FindSlot(rows, Monday19Oct, 17) == 0;
  }

  lemma ClosedRequestStillMerges()
    ensures Submit([Reservation(1, Email, Monday19Oct, 17, GuitarAndBass, true)], AddReservationDto(Email, Monday19Oct, 17, NoClaims, false), 10) ==
              Outcome(true, "Success", [Reservation(1, Email, Monday19Oct, 17, GuitarAndBass, true)])
  {
    var rows := [Reservation(1, Email, Monday19Oct, 17, GuitarAndBass, true)];
    CheckEmailAcceptsShortest();
    MondayMorningHours(rows);
    assert FindSlot(rows, Monday19Oct, 17) == 0;
  }

  /**
   The same walk-through through the service object: a guitar claim opens a
   shared 17:00 slot, a bass claim joins it, a third submission asking for a
   closed slot still merges and the slot stays open; the instrument answer
   for the slot is then five falses.
   */
  method MondayWalkthrough()
  {
    var service := new ReservationService([]);
    var times := service.GetAvailableTimes(Monday19Oct, 10);
    MondayMorningHours([]);
    assert times == [17, 18, 19, 20, 21];

    OpenWithGuitar();
    var ok, message := service.AddReservation(AddReservationDto(Email, Monday19Oct, 17, Guitar, true), 10);
    assert ok && service.reservations == [Reservation(1, Email, Monday19Oct, 17, Guitar, true)];

    JoinWithBass();
    ok, message := service.AddReservation(AddReservationDto(Email, Monday19Oct, 17, Bass, true), 10);
    assert ok && service.reservations == [Reservation(1, Email, Monday19Oct, 17, GuitarAndBass, true)];

    ClosedRequestStillMerges();
    ok, message := service.AddReservation(AddReservationDto(Email, Monday19Oct, 17, NoClaims, false), 10);
    assert ok && service.reservations == [Reservation(1, Email, Monday19Oct, 17, GuitarAndBass, true)];

    var answer := service.GetAvailableInstruments(Monday19Oct, 17);
    assert FindSlot(service.reservations, Monday19Oct, 17) == 0;
    assert answer == Ok([false, false, false, false, false]);
  }
}
