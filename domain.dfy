/**
 The entities of the reservation service: calendar dates, the five shared
 instruments, a stored reservation record and a booking submission.
 */
module Domain {

  /** .NET's DayOfWeek; the position of a constructor is its numeric value (Sunday = 0). */
  datatype DayOfWeek = Sunday | Monday | Tuesday | Wednesday | Thursday | Friday | Saturday

  /**
   A calendar date, as .NET's DateOnly.DayNumber: the number of days since
   Monday, 1 January 0001. The next day is `date + 1`.
   */
  type Date = nat

  /** DateOnly.DayOfWeek: day number 0 is a Monday, so the weekday is (day + 1) mod 7. */
  function WeekdayOf(date: Date): DayOfWeek
  {
    match (date + 1) % 7
    case 0 => Sunday
    case 1 => Monday
    case 2 => Tuesday
    case 3 => Wednesday
    case 4 => Thursday
    case 5 => Friday
    case _ => Saturday
  }

  /** The five claim flags of a slot, in the order the service reports them. */
  datatype Instruments = Instruments(guitar: bool, bass: bool, drums: bool, piano: bool, microphone: bool)

  /** The flags as the five-entry list [guitar, bass, drums, piano, microphone]. */
  function Flags(t: Instruments): seq<bool>
  {
    [t.guitar, t.bass, t.drums, t.piano, t.microphone]
  }

  /**
   One row of the Reservations table. `date` and `hour` together are the
   row's DateTime (minutes and seconds zero); `id` is the key the database
   assigns.
   */
  datatype Reservation = Reservation(
    id: int,
    email: string,
    date: Date,
    hour: int,
    taken: Instruments,
    isOpen: bool)

  /** A booking request as the PUT /reservation route deserializes it. */
  datatype AddReservationDto = AddReservationDto(
    email: string,
    date: Date,
    hour: int,
    taken: Instruments,
    isOpen: bool)

  datatype Option<T> = None | Some(value: T)

  /** A value, or the name of the exception the .NET code throws instead. */
  datatype Result<T> = Ok(value: T) | Failure(exception: string)
}
