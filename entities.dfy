/** The records the application keeps: places, bookings and availability
    rules. Every stored record is an identifier plus the fields the forms
    fill in; the collection store adds or forces the identifier. */
module Entities {
  import opened Common
  import opened Clock

  datatype Record<D> = Record(id: Id, data: D)

  /** A location the coach serves. `bufferTime` is in minutes. */
  datatype PlaceInfo = PlaceInfo(name: string, area: string, bufferTime: int)

  /** A confirmed reservation of the coach. `startTime` and `endTime` are
      instants in minutes (see Clock); `bookingDate` is the "yyyy-MM-dd"
      text of the date chosen on the booking page. */
  datatype BookingInfo = BookingInfo(
    name: string,
    email: string,
    placeId: Id,
    startTime: int,
    endTime: int,
    bookingDate: string)

  /** One weekday's opening hours, as the rule form stores them: a weekday
      name and two "HH:mm" strings. */
  datatype WeeklyRule = WeeklyRule(day: string, startTime: string, endTime: string)

  /** The weekly opening hours of one place. */
  datatype RuleSet = RuleSet(placeId: Id, rules: seq<WeeklyRule>)

  type Place = Record<PlaceInfo>
  type Booking = Record<BookingInfo>
  type AvailabilityRule = Record<RuleSet>

  /** An offered time window, as two instants. The "HH:mm" texts shown with
      it are always formatted from those instants. */
  datatype Slot = Slot(start: int, end: int) {
    function StartFormatted(): (text: string)
      ensures ParseTime(text) == Some(start % MinutesPerDay)
    {
      FormatTime(start)
    }

    function EndFormatted(): (text: string)
      ensures ParseTime(text) == Some(end % MinutesPerDay)
    {
      FormatTime(end)
    }
  }
}
