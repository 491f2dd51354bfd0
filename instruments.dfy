/**
 The per-instrument answer for one slot, in the order [guitar, bass, drums,
 piano, microphone]: what GetAvailableInstruments computes, and the answer
 its callers evidently expect.
 */
module InstrumentAnswers {
  import opened Domain
  import opened Store
  import opened Booking

  const AllFree: seq<bool> := [true, true, true, true, true]
  const NoneFree: seq<bool> := [false, false, false, false, false]

  /**
   GetAvailableInstruments for an hour in 0..23, as written: five trues when
   no row holds the slot; otherwise the `new bool[5]` array, whose entries
   start false and are only ever assigned false.
   */
  function InstrumentsAsWritten(rows: seq<Reservation>, date: Date, hour: int): seq<bool>
  {
    if FindSlot(rows, date, hour) == |rows| then AllFree else NoneFree
  }

  /** The intended answer: an instrument is free when the slot's row, if any, does not claim it. */
  function FreeInstruments(rows: seq<Reservation>, date: Date, hour: int): (free: seq<bool>)
    ensures |free| == 5
  {
    var i := FindSlot(rows, date, hour);
    if i == |rows| then AllFree
    else
      var t := rows[i].taken;
      [!t.guitar, !t.bass, !t.drums, !t.piano, !t.microphone]
  }

  lemma FreeInstrumentAt(rows: seq<Reservation>, date: Date, hour: int, f: nat)
    requires f < 5
    ensures var i := FindSlot(rows, date, hour);
            FreeInstruments(rows, date, hour)[f] <==> i == |rows| || !Flags(rows[i].taken)[f]
  {
  }

  /**
   The written answer agrees with the intended one only for a slot without a
   row or one whose five instruments are all claimed.
   */
  lemma AsWrittenAgreesOnlyWhenFull(rows: seq<Reservation>, date: Date, hour: int)
    ensures var i := FindSlot(rows, date, hour);
            InstrumentsAsWritten(rows, date, hour) == FreeInstruments(rows, date, hour) <==>
              i == |rows| || forall f :: 0 <= f < 5 ==> Flags(rows[i].taken)[f]
  {
    var i := FindSlot(rows, date, hour);
    if i < |rows| {
      var t := rows[i].taken;
      var flags := Flags(t);
      assert flags[0] == t.guitar && flags[1] == t.bass && flags[2] == t.drums;
      assert flags[3] == t.piano && flags[4] == t.microphone;
      assert (forall f :: 0 <= f < 5 ==> flags[f]) <==> t.guitar && t.bass && t.drums && t.piano && t.microphone;
    }
  }

  /**
   A slot whose row claims only the guitar: the written answer reports all
   five instruments taken, the intended one only the guitar.
   */
  lemma AsWrittenHidesFreeInstruments()
    ensures var rows := [Reservation(1, "john.doe@kiu.edu.ge", 739000, 17, Instruments(true, false, false, false, false), true)];
            && InstrumentsAsWritten(rows, 739000, 17) == [false, false, false, false, false]
            && FreeInstruments(rows, 739000, 17) == [false, true, true, true, true]
  {
    var rows := [Reservation(1, "john.doe@kiu.edu.ge", 739000, 17, Instruments(true, false, false, false, false), true)];
    assert FindSlot(rows, 739000, 17) == 0;
  }

  /** The intended answer never reports an instrument freed: a submission only adds claims. */
  lemma SubmitNeverFreesInstrument(rows: seq<Reservation>, dto: AddReservationDto, nowHour: int, date: Date, hour: int, f: nat)
    requires f < 5
    ensures var after := Submit(rows, dto, nowHour).rows;
            !FreeInstruments(rows, date, hour)[f] ==> !FreeInstruments(after, date, hour)[f]
  {
    var o := Submit(rows, dto, nowHour);
    var i := FindSlot(rows, dto.date, dto.hour);
    FreeInstrumentAt(rows, date, hour, f);
    FreeInstrumentAt(o.rows, date, hour, f);
    SubmitOnlyAddsClaims(rows, dto, nowHour);
    if o.success && i == |rows| {
      FindSlotAppend(rows, NewReservation(rows, dto), date, hour);
    } else if o.success {
      FindSlotUpdate(rows, i, o.rows[i], date, hour);
    }
  }

  /** After a successful submission every instrument it claimed is reported taken at its slot. */
  lemma SubmitTakesClaimedInstrument(rows: seq<Reservation>, dto: AddReservationDto, nowHour: int, f: nat)
    requires f < 5
    ensures var o := Submit(rows, dto, nowHour);
            o.success && Flags(dto.taken)[f] ==> !FreeInstruments(o.rows, dto.date, dto.hour)[f]
  {
    var o := Submit(rows, dto, nowHour);
    FreeInstrumentAt(o.rows, dto.date, dto.hour, f);
    if o.success {
      SubmitSlotRow(rows, dto, nowHour);
    }
  }
}
