# KIUMusic reservation service: a Dafny model

KIUMusic books the music room of Kutaisi International University. Its back
end is a small ASP.NET service whose `ReservationService` (Back/Program.cs)
keeps a `Reservations` table, one row per booked hour. Each row records the
booker's email, the slot's date and hour, whether the slot is *open* (shared:
other students may join it and claim further instruments) or *closed*
(exclusive), and five claim flags: guitar, bass, drums, piano and microphone.

This project models that service and proves what it promises:

- `CheckEmail`: only addresses of the form `first.last@kiu.edu.ge` pass
  (optionally followed by one line feed, see below).
- `GetUnavailableTimes` and `GetAvailableTimes`: the bookable hours of a
  date. Sunday to Thursday starts from 17..21, Friday and Saturday from
  15..21. Hours taken by a closed row are removed, and so is every hour up
  to the clock's current hour.
- `GetDates`: the next seven dates, from today on, that still have a
  bookable hour.
- `AddReservation`: checks the email and the hour, then inserts a row, or
  merges the submitted claims into an open row.
- `GetAvailableInstruments`: the five-entry answer for one slot.
- `GetById` and `GetAll`.

Files:

- `domain.dfy` (`Domain`): the entities. `Reservation` and
  `AddReservationDto` are datatypes. A date is .NET's `DateOnly.DayNumber`,
  so day 0 is Monday 1 January 0001 and the weekday is `(day + 1) % 7`.
- `email.dfy` (`KiuEmail`): the address check. It is written as a scan and
  proved equal to a reference definition of the address shape.
- `store.dfy` (`Store`): the lookups `FirstOrDefaultAsync` performs, and
  `NextId`, the key the database assigns to a new row.
- `availability.dfy` (`Availability`): the hours of a date.
- `booking.dfy` (`Booking`): `Submit`, the decision `AddReservation` makes,
  and what it does to the table.
- `instruments.dfy` (`InstrumentAnswers`): the instrument answer as the
  source computes it, and as it is evidently meant.
- `service.dfy` (`Service`): the class `ReservationService`. Its field
  `reservations` is the table. Each of its methods is proved against the
  functions above.
- `scenario.dfy` (`Walkthrough`): a worked Monday example.

The clock is a parameter. `today` stands for `DateOnly.FromDateTime(DateTime.Now)`
and `nowHour` for `DateTime.Now.Hour`. A reservation's `DateTime` is split
into `date` and `hour`; minutes and seconds are always zero.

Behaviour of the code that the model follows, and that a reader might not
expect:

- The regular expression has no `Multiline` option. In .NET, `$` also
  matches just before a final line feed, so `CheckEmail` also accepts a
  valid address followed by one `"\n"` (`KiuEmail.CheckEmailIsKiuAddress`).
- For request dates at midnight and calls one at a time, the `"Reserved"`
  answer of `AddReservation` cannot be reached. A closed row at a slot
  already removes its hour from `GetAvailableTimes`, so a request for a
  closed slot fails earlier with `"Wrong Hour"`
  (`Booking.SubmitToClosedSlot`, `Booking.SubmitNeverReserved`). The
  `case { IsOpen: false }` arm (Back/Program.cs:116-117) suggests that a
  closed slot answers `"Reserved"`; the hour check at line 88 answers
  `"Wrong Hour"` first, and the model follows the code. A request date
  carrying a time of day, or a concurrent insert between lines 88 and 93,
  can reach `"Reserved"` in the source (see "## Left out").
- A submission that asks for a closed slot, when the slot already has an
  open row, is merged into the open row. The slot stays open
  (`Walkthrough.ClosedRequestStillMerges`).
- The filter `x <= DateTime.Now.Hour` is applied to every date, not only
  to today. From 21:00 on, every date has an empty list
  (`Availability.LateHourEmptiesEveryDate`), so with the clock fixed the
  loop of `GetDates` never ends. In the source, which reads the clock again
  for every date, it spins until midnight, or until `AddDays` passes
  9999-12-31 and throws (see the clock and `AddDays` lines under
  "## Left out"). The model of `GetDates` therefore requires `nowHour < 21`.
  Before 21:00 a date is skipped only when a closed row holds its 21:00
  slot, so the scan ends. It looks at no more than seven dates plus one per
  such closed evening.
- `GetAll` returns the whole table (`ReservationService.GetAll`). Its
  result is the field itself, so it has no contract of its own.

## Model

| member | source | states |
|---|---|---|
| KiuEmail.CheckEmailIsKiuAddress | Back/Program.cs:56-57 | CheckEmail accepts exactly the strings that are one or more alphanumerics, a dot, one or more alphanumerics and "@kiu.edu.ge", optionally followed by one final line feed (.NET `$`) |
| KiuEmail.CheckEmailAccepts | Back/Program.cs:188-191 | every address of the shape first.last@kiu.edu.ge, with alphanumeric, non-empty parts, passes |
| KiuEmail.CheckEmailAcceptsSamples | Back/Program.cs:188-191 | john.doe@kiu.edu.ge passes |
| KiuEmail.CheckEmailAcceptsShortest | Back/Program.cs:188-191 | a.b@kiu.edu.ge, one character on each side of the dot, passes |
| KiuEmail.CheckEmailRejectsSamples | Back/Program.cs:188-191 | an address without a dot, and one in another domain, are refused |
| KiuEmail.CheckEmailRejectsTwoDots | Back/Program.cs:188-191 | a.b.c@kiu.edu.ge is refused: the second group may not contain a dot |
| KiuEmail.MatchesAddressIsKiuAddress | Back/Program.cs:56 | the character scan accepts exactly the reference address shape |
| KiuEmail.LeadingAlnumStopsAtSeparator | Back/Program.cs:56 | the first `[a-zA-Z0-9]+` group ends at the first non-alphanumeric character |
| KiuEmail.LeadingAlnum | Back/Program.cs:56 | the first group is the longest alphanumeric prefix: every character before it is alphanumeric, and the one after is not |
| KiuEmail.KiuAddressEndsWithSuffix | Back/Program.cs:56 | a valid address ends in 'e', so it never ends in a line feed |
| Store.FirstIndex | Back/Program.cs:93 | the row taken for FirstOrDefault: the first element that satisfies the condition, in sequence order, or none (see the row-order line under "## Left out") |
| Store.FindSlot | Back/Program.cs:93 | the row found for a slot is at that date and hour, and no earlier row is |
| Store.FindById | Back/Program.cs:63 | GetById returns a row with the requested key; it returns null exactly when no row has that key |
| Service.ReservationService.GetById | Back/Program.cs:63 | GetById on the service's table: the found row is in the table and carries the key; null exactly when no row has it |
| Store.NextId | Back/Program.cs:99-111 | an inserted row gets a key larger than every existing key; on a non-empty table it is one more than the largest |
| Store.FindSlotUnique | Back/Program.cs:93 | when slots are unique, the lookup finds the only row at the slot |
| Store.FindSlotAppend | Back/Program.cs:99-111 | inserting a row never changes which row a slot that already had one finds |
| Store.FindSlotUpdate | Back/Program.cs:119-126 | updating a row's claims in place never changes which row any slot finds |
| Availability.GetUnavailableTimes | Back/Program.cs:184-187 | an hour is listed exactly when a closed row on the date holds it; there are no more entries than rows |
| Availability.KeepAvailable | Back/Program.cs:143 | RemoveAll keeps exactly the hours that are neither unavailable nor at or before the current hour |
| Availability.KeepAvailableIncreasing | Back/Program.cs:143 | RemoveAll keeps the candidates' ascending order |
| Availability.KeepAvailableNothingLeft | Back/Program.cs:143 | when every hour meets the removal condition, nothing is left |
| Availability.KeepAvailableNothingRemoved | Back/Program.cs:143 | when no hour meets the removal condition, the list is unchanged |
| Availability.OpenRowsCloseNothing | Back/Program.cs:184-187 | open rows never make an hour unavailable |
| Availability.AvailableTimesCharacterization | Back/Program.cs:131-146 | an hour is offered exactly when it is a candidate for the weekday, later than the current hour, and no closed row holds it; offered hours are ascending and within 15..21 on Friday and Saturday, 17..21 otherwise |
| Availability.OpenSlotStaysAvailable | Back/Program.cs:184-187 | a candidate hour after the clock whose rows are all open is offered, however many instruments they claim |
| Availability.LateHourEmptiesEveryDate | Back/Program.cs:143 | from 21:00 on, no date offers any hour |
| Availability.EmptyDateHasClosedLastHour | Back/Program.cs:135-143 | before 21:00, a date offers nothing only if a closed row holds its 21:00 slot |
| Service.ReservationService.GetAvailableTimes | Back/Program.cs:131-146 | a filtering loop over the weekday's candidate list, equivalent to RemoveAll, yields exactly AvailableTimes of the table, the date and the clock |
| Service.ReservationService.GetDates | Back/Program.cs:65-80 | before 21:00: seven ascending dates from today on, each with an available hour; every date skipped in between has none; the last is at most six days plus the number of closed 21:00 slots from today on after today |
| Service.EmptyDateIsClosedEvening | Back/Program.cs:71 | a date the scan skips is a date whose 21:00 slot is held by a closed row |
| Service.ScanStep | Back/Program.cs:69-77 | one step of the scan keeps the date exactly when it has an available hour, and records every skipped date as empty |
| Service.SkipStep | Back/Program.cs:69-77 | before 21:00 each skipped date uses up one closed 21:00 slot ahead of the scan, so the scan ends |
| Service.ScanDone | Back/Program.cs:79 | a scan that has collected seven dates starts at or after today, has skipped only empty dates, and ends within six days plus the number of closed 21:00 slots from today on |
| Service.AtOrAfterStep | Back/Program.cs:76 | moving to the next day removes that day, and only that day, from the closed evenings still ahead |
| Booking.SubmitRejectsInvalid | Back/Program.cs:83-91 | the email is checked first ("Wrong Email"), then the hour against GetAvailableTimes ("Wrong Hour"); a rejection leaves the table unchanged |
| Booking.ClosedSlotNotAvailable | Back/Program.cs:88 | a closed row's hour is never offered on its date |
| Booking.SubmitToClosedSlot | Back/Program.cs:88-91 | a request for a slot held by a closed row fails with "Wrong Email" or "Wrong Hour" and leaves the table unchanged |
| Booking.SubmitNeverReserved | Back/Program.cs:116-117 | the "Reserved" answer is never given |
| Booking.SubmitCreates | Back/Program.cs:97-114 | a valid request for a free slot appends exactly one row with the request's email, date, hour, claims and openness and a new key; existing rows are unchanged |
| Booking.SubmitMergesOpenSlot | Back/Program.cs:119-128 | a valid request for a taken slot finds the slot open and ORs each claim flag into the row; nothing else in the table changes |
| Booking.SubmitOnlyAddsClaims | Back/Program.cs:81-130 | no submission removes or moves a row or changes anything but its claims; claims only accumulate; at most one row is added; a failure changes nothing |
| Booking.SubmitPreservesUniqueSlots | Back/Program.cs:93-128 | if no two rows share a slot before a submission, none do after it |
| Booking.SubmitPreservesUniqueIds | Back/Program.cs:99-111 | if keys are unique before a submission, they are unique after it |
| Booking.SubmitSlotRow | Back/Program.cs:93-128 | after a success, the slot's row holds the submitted claims ORed with the earlier ones and keeps the opener's email and openness |
| Booking.SequentialClaimsAccumulate | Back/Program.cs:119-128 | after two successful submissions to one slot, its row holds the union of both claim sets and of the earlier claims |
| Booking.ClosedAtAppend | Back/Program.cs:99-111 | an inserted row closes its slot exactly when it is closed |
| Booking.ClosedAtUpdate | Back/Program.cs:119-126 | merging claims never opens or closes a slot |
| Booking.SubmitClosedSlots | Back/Program.cs:81-130 | after a submission, the closed slots are those from before, plus the submitted slot exactly when a closed row was inserted |
| Booking.SubmitEffectOnTimes | Back/Program.cs:81-146 | a submission changes the hours offered on a date only by removing the submitted hour, and only when it inserted a closed row |
| Service.ReservationService.AddReservation | Back/Program.cs:81-130 | the answer and the new table are those of Submit on the old table; unique slots and unique keys are preserved |
| Service.ReservationService.GetAvailableInstruments | Back/Program.cs:147-183 | an hour outside 0..23 throws; no row at the slot gives five trues; any row at the slot gives five falses, whatever it claims |
| InstrumentAnswers.FreeInstruments | Back/Program.cs:147-183 | the intended answer has one entry per instrument |
| InstrumentAnswers.FreeInstrumentAt | Back/Program.cs:152-182 | in the intended answer an instrument is free exactly when no row holds the slot or the slot's row does not claim it |
| Service.ReservationService.GetFreeInstruments | Back/Program.cs:147-183 | the corrected answer: an hour outside 0..23 throws; otherwise each instrument is reported free exactly when the slot's row, if any, does not claim it |
| InstrumentAnswers.AsWrittenAgreesOnlyWhenFull | Back/Program.cs:149-182 | the answer as written equals the intended one exactly when the slot has no row or all five instruments are claimed |
| InstrumentAnswers.AsWrittenHidesFreeInstruments | Back/Program.cs:149-182 | a slot that claims only the guitar is reported as all taken; the intended answer frees the other four |
| InstrumentAnswers.SubmitNeverFreesInstrument | Back/Program.cs:119-128 | no submission makes a taken instrument free again |
| InstrumentAnswers.SubmitTakesClaimedInstrument | Back/Program.cs:93-128 | after a successful submission, every instrument it claimed is reported taken at its slot |
| Walkthrough.MondayMorningHours | Back/Program.cs:135-143 | on Monday 19 October 2026 at 10:00, with only open rows, the hours 17..21 are offered |
| Walkthrough.OpenWithGuitar | Back/Program.cs:97-114 | a guitar claim on an empty table creates row 1 at 17:00, open |
| Walkthrough.JoinWithBass | Back/Program.cs:119-128 | a bass claim on that slot merges into row 1, giving guitar and bass |
| Walkthrough.ClosedRequestStillMerges | Back/Program.cs:119-128 | a request for a closed slot on an open row merges, and the slot stays open |

## Left out

- HTTP routes, Swagger, dependency injection and the Entity Framework / SQLite layer are not modelled. The table is a sequence of rows, and `SaveChangesAsync` is the assignment of the new sequence.
- `async`/`await` and concurrency are not modelled. Two concurrent `AddReservation` calls could both find a slot free and insert two rows, and a closed row inserted between another call's hour check (line 88) and its lookup (line 93) makes that call answer `"Reserved"`; the model runs calls one at a time.
- `DateTime.Now` becomes the parameters `today` and `nowHour`, read once per call. The source reads the clock again for every candidate hour inside `RemoveAll` (Back/Program.cs:143), once per date during a `GetDates` scan, and separately in `AddReservation`'s hour check (line 88); the clock moving on between those reads is not modelled.
- Row order: the queries at Back/Program.cs:63, 93 and 150 have no `OrderBy`, so the database does not define which row `FirstOrDefaultAsync` returns among several matches. The model assumes the first in table order (`Store.FirstIndex`). This matters only when two rows share a slot, which only the concurrent-insert race above can produce; `Id` is the primary key (line 205), so no two rows share a key.
- `RemoveAll` removes from its local list in place (Back/Program.cs:143). The list is not shared, so `ReservationService.GetAvailableTimes` builds the kept hours as a filtered copy instead; the in-place removal itself is not modelled.
- Service.ReservationService.GetAvailableInstruments: an hour outside 0..23 is reported as `Failure("InvalidOperationException")`, the error Entity Framework raises when evaluating the query parameter `new TimeOnly(hour, 0)` fails; the inner `ArgumentOutOfRangeException` it wraps, and the exact wrapping in other Entity Framework versions, are not modelled.
- Service.ReservationService.GetDates: requires `nowHour < 21`. From 21:00 on, with the clock fixed, the loop never ends; in the source it spins until the clock passes midnight, or until `AddDays` passes 9999-12-31 and throws (see the clock and `AddDays` lines). The model proves that every date is empty in that case (`LateHourEmptiesEveryDate`) instead of modelling the spin.
- `DateOnly.AddDays` throwing past 31 December 9999 is not modelled; dates are unbounded.
- The `DateTime` of the request body is taken to be at midnight. A request date carrying a time of day is not modelled, and neither is `AddHours` carrying past midnight. Such a request is checked at one hour of `DateOnly.FromDateTime(dto.Date)` (line 88) but looked up, created or merged at `dto.Date.AddHours(dto.Hour)` (lines 93-128), a different hour: it can reach `"Reserved"` (a Friday request with `Date` D 01:00 and `Hour` 16 against a closed row at D 17:00), and can merge into or create a row at a different hour than the one checked.
- The `throw` arm of the weekday switch in `GetAvailableTimes` cannot be reached, because every weekday is listed; it is not modelled.
- The `[StringLength(50)]` and `[DataType]` attributes are database annotations and are not checked by the code shown; they are not modelled.
- Rows are values, not tracked entities. Updating the found row's flags in place becomes replacing the row at its index; aliasing of the tracked entity is not modelled.
- Keys: `NextId` assumes rows are never deleted, which holds because no operation deletes a row.
- The regular expression is modelled for this one pattern, as a character scan. .NET's other `$` behaviours (multiline mode, timeouts) are not used by the source.

## Findings

| source | as written | input that shows it | evidently intended | confidence | as-written member | corrected member |
|---|---|---|---|---|---|---|
| Back/Program.cs:149-182 | `ans` starts as `new bool[5]`, all false, and is only ever assigned `false`, so any row at the slot gives five falses | one open row at 17:00 that claims only the guitar: the answer is [false, false, false, false, false] | the free instruments, [false, true, true, true, true] (start all true, and clear each claimed instrument) | not executed | Service.ReservationService.GetAvailableInstruments, InstrumentAnswers.AsWrittenHidesFreeInstruments | Service.ReservationService.GetFreeInstruments, InstrumentAnswers.FreeInstruments |
