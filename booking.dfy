/**
 The decision AddReservation makes, as a function of the table before the
 call: the validation steps in order, then insert, reject or merge.
 */
module Booking {
  import opened Domain
  import opened KiuEmail
  import opened Store
  import opened Availability

  /** The (success, message) pair AddReservation returns, with the table after the call. */
  datatype Outcome = Outcome(success: bool, message: string, rows: seq<Reservation>)

  /** The claims of an open slot after a submission: each flag is `submitted || existing`. */
  function Merge(submitted: Instruments, existing: Instruments): Instruments
  {
    Instruments(
      submitted.guitar || existing.guitar,
      submitted.bass || existing.bass,
      submitted.drums || existing.drums,
      submitted.piano || existing.piano,
      submitted.microphone || existing.microphone)
  }

  /** The row AddReservation inserts when nobody holds the slot. */
  function NewReservation(rows: seq<Reservation>, dto: AddReservationDto): Reservation
  {
    Reservation(NextId(rows), dto.email, dto.date, dto.hour, dto.taken, dto.isOpen)
  }

  /** AddReservation(dto) on table `rows` when the clock's hour is `nowHour`. */
  function Submit(rows: seq<Reservation>, dto: AddReservationDto, nowHour: int): Outcome
  {
    if !CheckEmail(dto.email) then Outcome(false, "Wrong Email", rows)
    else if dto.hour !in AvailableTimes(rows, dto.date, nowHour) then Outcome(false, "Wrong Hour", rows)
    else
      var i := FindSlot(rows, dto.date, dto.hour);
      if i == |rows| then Outcome(true, "Success", rows + [NewReservation(rows, dto)])
      else if !rows[i].isOpen then Outcome(false, "Reserved", rows)
      else Outcome(true, "Success", rows[i := rows[i].(taken := Merge(dto.taken, rows[i].taken))])
  }

  /** True flags of `before` are true in `after`. */
  predicate ClaimsKept(before: Instruments, after: Instruments)
  {
    forall f :: 0 <= f < 5 ==> Flags(before)[f] ==> Flags(after)[f]
  }

  /**
   The email is checked first, then the hour; a failed check answers with its
   message and leaves the table as it was.
   */
  lemma SubmitRejectsInvalid(rows: seq<Reservation>, dto: AddReservationDto, nowHour: int)
    ensures !CheckEmail(dto.email) ==> Submit(rows, dto, nowHour) == Outcome(false, "Wrong Email", rows)
    ensures CheckEmail(dto.email) && dto.hour !in AvailableTimes(rows, dto.date, nowHour) ==>
              Submit(rows, dto, nowHour) == Outcome(false, "Wrong Hour", rows)
  {
  }

  /** A closed row at the slot takes its hour out of AvailableTimes. */
  lemma ClosedSlotNotAvailable(rows: seq<Reservation>, date: Date, nowHour: int, k: nat)
    requires k < |rows| && rows[k].date == date
    ensures !rows[k].isOpen ==> rows[k].hour !in AvailableTimes(rows, date, nowHour)
  {
    assert rows[k] in rows;
    assert !rows[k].isOpen ==> ClosedAt(rows, date, rows[k].hour);
  }

  /**
   A closed slot is never booked again, whatever the submitted claims: the
   answer is a failure and the table is unchanged. Because the closed row
   removes the hour from AvailableTimes, the hour check already answers
   "Wrong Hour".
   */
  lemma SubmitToClosedSlot(rows: seq<Reservation>, dto: AddReservationDto, nowHour: int, k: nat)
    requires k < |rows| && AtSlot(rows[k], dto.date, dto.hour) && !rows[k].isOpen
    ensures Submit(rows, dto, nowHour) ==
              Outcome(false, if CheckEmail(dto.email) then "Wrong Hour" else "Wrong Email", rows)
  {
    ClosedSlotNotAvailable(rows, dto.date, nowHour, k);
  }

  /**
   In this model (request dates at midnight, one call at a time), the
   "Reserved" answer is unreachable: the row FindSlot returns is open
   whenever the hour check passed.
   */
  lemma SubmitNeverReserved(rows: seq<Reservation>, dto: AddReservationDto, nowHour: int)
    ensures Submit(rows, dto, nowHour).message != "Reserved"
  {
    var i := FindSlot(rows, dto.date, dto.hour);
    if i < |rows| && !rows[i].isOpen {
      SubmitToClosedSlot(rows, dto, nowHour, i);
    }
  }

  /**
   A valid submission for a slot nobody holds appends exactly one row that
   carries the submitted email, date, hour, claims and openness under a new
   key; every existing row stays as it was.
   */
  lemma SubmitCreates(rows: seq<Reservation>, dto: AddReservationDto, nowHour: int)
    requires CheckEmail(dto.email) && dto.hour in AvailableTimes(rows, dto.date, nowHour)
    requires forall r :: r in rows ==> !AtSlot(r, dto.date, dto.hour)
    ensures var o := Submit(rows, dto, nowHour);
            && o.success && o.message == "Success"
            && |o.rows| == |rows| + 1 && o.rows[..|rows|] == rows
            && var r := o.rows[|rows|];
               && r.email == dto.email && r.date == dto.date && r.hour == dto.hour
               && r.taken == dto.taken && r.isOpen == dto.isOpen
               && forall x :: x in rows ==> x.id < r.id
  {
    var i := FindSlot(rows, dto.date, dto.hour);
    assert forall j :: 0 <= j < |rows| ==> rows[j] in rows;
  }

  /**
   A valid submission for an open slot ORs the submitted claims into the
   row's flags and changes nothing else: no row is added, and the row keeps
   its key, email, date, hour and openness.
   */
  lemma SubmitMergesOpenSlot(rows: seq<Reservation>, dto: AddReservationDto, nowHour: int, k: nat)
    requires UniqueSlots(rows)
    requires CheckEmail(dto.email) && dto.hour in AvailableTimes(rows, dto.date, nowHour)
    requires k < |rows| && AtSlot(rows[k], dto.date, dto.hour)
    ensures rows[k].isOpen
    ensures var o := Submit(rows, dto, nowHour);
            && o.success && o.message == "Success"
            && |o.rows| == |rows|
            && (forall j :: 0 <= j < |rows| && j != k ==> o.rows[j] == rows[j])
            && o.rows[k] == rows[k].(taken := o.rows[k].taken)
            && forall f :: 0 <= f < 5 ==>
                 Flags(o.rows[k].taken)[f] == (Flags(dto.taken)[f] || Flags(rows[k].taken)[f])
  {
    FindSlotUnique(rows, dto.date, dto.hour, k);
    ClosedSlotNotAvailable(rows, dto.date, nowHour, k);
  }

  /**
   No submission removes a row, moves it, or changes anything of it but its
   claims, and claims only accumulate: a flag that was true stays true. At
   most one row is added.
   */
  lemma SubmitOnlyAddsClaims(rows: seq<Reservation>, dto: AddReservationDto, nowHour: int)
    ensures var o := Submit(rows, dto, nowHour);
            && |rows| <= |o.rows| <= |rows| + 1
            && (!o.success ==> o.rows == rows)
            && forall j :: 0 <= j < |rows| ==>
                 && o.rows[j] == rows[j].(taken := o.rows[j].taken)
                 && ClaimsKept(rows[j].taken, o.rows[j].taken)
  {
  }

  /** AddReservation keeps the table free of two rows for one slot. */
  lemma SubmitPreservesUniqueSlots(rows: seq<Reservation>, dto: AddReservationDto, nowHour: int)
    requires UniqueSlots(rows)
    ensures UniqueSlots(Submit(rows, dto, nowHour).rows)
  {
    var o := Submit(rows, dto, nowHour);
    if o.success && |o.rows| == |rows| + 1 {
      var i := FindSlot(rows, dto.date, dto.hour);
      assert i == |rows|;
      assert forall j :: 0 <= j < |rows| ==> o.rows[j] == rows[j];
    } else if o.success {
      var i := FindSlot(rows, dto.date, dto.hour);
      assert forall j :: 0 <= j < |rows| ==> AtSlot(o.rows[j], rows[j].date, rows[j].hour);
    }
  }

  /** AddReservation keeps keys unique: the inserted row's key is new. */
  lemma SubmitPreservesUniqueIds(rows: seq<Reservation>, dto: AddReservationDto, nowHour: int)
    requires UniqueIds(rows)
    ensures UniqueIds(Submit(rows, dto, nowHour).rows)
  {
    var o := Submit(rows, dto, nowHour);
    assert forall j :: 0 <= j < |rows| ==> o.rows[j].id == rows[j].id;
    if |o.rows| == |rows| + 1 {
      assert forall j :: 0 <= j < |rows| ==> rows[j] in rows;
    }
  }

  /**
   After a successful submission the slot's row sits where FindSlot found it
   before (or at the end when it was inserted); its claims are the submitted
   ones ORed with any earlier ones, and its email and openness are those of
   the row that opened the slot.
   */
  lemma SubmitSlotRow(rows: seq<Reservation>, dto: AddReservationDto, nowHour: int)
    requires Submit(rows, dto, nowHour).success
    ensures var i := FindSlot(rows, dto.date, dto.hour);
            var after := Submit(rows, dto, nowHour).rows;
            && FindSlot(after, dto.date, dto.hour) == i < |after|
            && (forall f :: 0 <= f < 5 ==>
                  Flags(after[i].taken)[f] == (Flags(dto.taken)[f] || (i < |rows| && Flags(rows[i].taken)[f])))
            && after[i].email == (if i < |rows| then rows[i].email else dto.email)
            && after[i].isOpen == (if i < |rows| then rows[i].isOpen else dto.isOpen)
  {
    var i := FindSlot(rows, dto.date, dto.hour);
    var o := Submit(rows, dto, nowHour);
    if i == |rows| {
      FindSlotAppend(rows, NewReservation(rows, dto), dto.date, dto.hour);
    } else {
      FindSlotUpdate(rows, i, o.rows[i], dto.date, dto.hour);
    }
  }

  /**
   Claims on one slot accumulate across submissions: after two successful
   submissions the slot's row holds the union of both claim sets and of any
   earlier claims, and keeps the opener's email and openness, whatever the
   second submission asked for.
   */
  lemma SequentialClaimsAccumulate(rows: seq<Reservation>, first: AddReservationDto, second: AddReservationDto, nowHour: int)
    requires second.date == first.date && second.hour == first.hour
    requires Submit(rows, first, nowHour).success
    requires Submit(Submit(rows, first, nowHour).rows, second, nowHour).success
    ensures var i := FindSlot(rows, first.date, first.hour);
            var after := Submit(Submit(rows, first, nowHour).rows, second, nowHour).rows;
            && FindSlot(after, first.date, first.hour) == i < |after|
            && (forall f :: 0 <= f < 5 ==>
                  Flags(after[i].taken)[f] ==
                    (Flags(first.taken)[f] || Flags(second.taken)[f] || (i < |rows| && Flags(rows[i].taken)[f])))
            && after[i].email == (if i < |rows| then rows[i].email else first.email)
            && after[i].isOpen == (if i < |rows| then rows[i].isOpen else first.isOpen)
  {
    var middle := Submit(rows, first, nowHour).rows;
    SubmitSlotRow(rows, first, nowHour);
    SubmitSlotRow(middle, second, nowHour);
  }

  lemma ClosedAtAppend(rows: seq<Reservation>, x: Reservation, date: Date, hour: int)
    ensures ClosedAt(rows + [x], date, hour) <==> ClosedAt(rows, date, hour) || (AtSlot(x, date, hour) && !x.isOpen)
  {
    assert forall r :: r in rows + [x] <==> r in rows || r == x;
  }

  lemma ClosedAtUpdate(rows: seq<Reservation>, k: nat, x: Reservation, date: Date, hour: int)
    requires k < |rows|
    requires x.date == rows[k].date && x.hour == rows[k].hour && x.isOpen == rows[k].isOpen
    ensures ClosedAt(rows[k := x], date, hour) <==> ClosedAt(rows, date, hour)
  {
    var rows' := rows[k := x];
    if ClosedAt(rows, date, hour) {
      var r :| r in rows && AtSlot(r, date, hour) && !r.isOpen;
      var j :| 0 <= j < |rows| && rows[j] == r;
      assert rows'[j] in rows';
    }
    if ClosedAt(rows', date, hour) {
      var r :| r in rows' && AtSlot(r, date, hour) && !r.isOpen;
      var j :| 0 <= j < |rows'| && rows'[j] == r;
      assert rows[j] in rows;
    }
  }

  /**
   Which slots are closed after a submission: the same as before, plus the
   submitted slot exactly when a new closed row was inserted. Merging never
   changes a row's openness.
   */
  lemma SubmitClosedSlots(rows: seq<Reservation>, dto: AddReservationDto, nowHour: int, date: Date, hour: int)
    ensures var o := Submit(rows, dto, nowHour);
            var inserted := |o.rows| == |rows| + 1;
            ClosedAt(o.rows, date, hour) <==>
              ClosedAt(rows, date, hour) || (inserted && !dto.isOpen && date == dto.date && hour == dto.hour)
  {
    var o := Submit(rows, dto, nowHour);
    var i := FindSlot(rows, dto.date, dto.hour);
    if o.success && i == |rows| {
      ClosedAtAppend(rows, NewReservation(rows, dto), date, hour);
    } else if o.success {
      ClosedAtUpdate(rows, i, o.rows[i], date, hour);
    }
  }

  /**
   A submission changes the hours offered on any date only by taking out the
   submitted hour, and only when it inserted a closed row. Claiming
   instruments, or opening a shared slot, leaves every date's hours as they
   were.
   */
  lemma SubmitEffectOnTimes(rows: seq<Reservation>, dto: AddReservationDto, nowHour: int, date: Date, clockHour: int)
    ensures var o := Submit(rows, dto, nowHour);
            var closes := |o.rows| == |rows| + 1 && !dto.isOpen && date == dto.date;
            forall h :: h in AvailableTimes(o.rows, date, clockHour) <==>
                          h in AvailableTimes(rows, date, clockHour) && !(closes && h == dto.hour)
  {
    var o := Submit(rows, dto, nowHour);
    forall h ensures ClosedAt(o.rows, date, h) <==>
                       ClosedAt(rows, date, h) || (|o.rows| == |rows| + 1 && !dto.isOpen && date == dto.date && h == dto.hour)
    {
      SubmitClosedSlots(rows, dto, nowHour, date, h);
    }
    AvailableTimesCharacterization(o.rows, date, clockHour);
    AvailableTimesCharacterization(rows, date, clockHour);
  }
}
