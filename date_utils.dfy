/** The availability and slot scheduling engine. For one place and one day
    it resolves the place's opening hours for that weekday, tiles them into
    back-to-back slots of a fixed duration, and keeps the slots that neither
    overlap a booking of the coach on that day (at any place) nor leave too
    little travel time before or after one.

    The functions below are the specification: `AvailableSlots` says which
    slots the engine returns. The method `CalculateAvailableSlotsWithBuffer`
    does the work the way the application does, with a loop that builds the
    candidates and a filter whose test loops over the day's bookings, and is
    proved to return exactly `AvailableSlots`. */
module DateUtils {
  import opened Common
  import opened Text
  import opened Clock
  import opened Entities

  /** The slot length used when the caller gives none. */
  const DefaultDuration: int := 60

  const DayNames: seq<string> :=
    ["sunday", "monday", "tuesday", "wednesday", "thursday", "friday", "saturday"]

  /** `dayMap[name]`: the ordinal of a lower-case weekday name, Sunday = 0;
      any other string has none. */
  function DayOrdinal(name: string): (r: Option<int>)
  {
    if name == "sunday" then Some(0)
    else if name == "monday" then Some(1)
    else if name == "tuesday" then Some(2)
    else if name == "wednesday" then Some(3)
    else if name == "thursday" then Some(4)
    else if name == "friday" then Some(5)
    else if name == "saturday" then Some(6)
    else None
  }

  /** The ordinal is the name's position in the week, and only the seven
      names have one. */
  lemma DayOrdinalNames(name: string)
    ensures DayOrdinal(name).Some? ==> 0 <= DayOrdinal(name).value < 7 && DayNames[DayOrdinal(name).value] == name
    ensures DayOrdinal(name).None? <==> name !in DayNames
  {
  }

  /** `dayMap[r.day.toLowerCase()] === weekday`. */
  predicate MatchesWeekday(rule: WeeklyRule, weekday: int) {
    DayOrdinal(ToLower(rule.day)) == Some(weekday)
  }

  /** The first weekly rule whose day names the weekday. */
  function FindDayRule(rules: seq<WeeklyRule>, weekday: int): (r: Option<WeeklyRule>)
    ensures r.Some? ==> r.value in rules && MatchesWeekday(r.value, weekday)
    ensures r.None? <==> forall j :: 0 <= j < |rules| ==> !MatchesWeekday(rules[j], weekday)
  {
    Find(rules, (rule: WeeklyRule) => MatchesWeekday(rule, weekday))
  }

  /** `places.find(p => p.id === id)`. */
  function FindPlace(places: seq<Place>, id: Id): (r: Option<Place>)
    ensures r.Some? ==> r.value in places && r.value.id == id
    ensures r.None? <==> forall j :: 0 <= j < |places| ==> places[j].id != id
  {
    Find(places, (p: Place) => p.id == id)
  }

  /** `availabilityRules.find(r => r.placeId === placeId)`. */
  function FindRuleSet(availabilityRules: seq<AvailabilityRule>, placeId: Id): (r: Option<AvailabilityRule>)
    ensures r.Some? ==> r.value in availabilityRules && r.value.data.placeId == placeId
    ensures r.None? <==> forall j :: 0 <= j < |availabilityRules| ==> availabilityRules[j].data.placeId != placeId
  {
    Find(availabilityRules, (a: AvailabilityRule) => a.data.placeId == placeId)
  }

  /** date-fns `areIntervalsOverlapping` (not inclusive): touching ends do
      not overlap. */
  predicate IntervalsOverlap(aStart: int, aEnd: int, bStart: int, bEnd: int) {
    aStart < bEnd && bStart < aEnd
  }

  predicate OverlapsBooking(start: int, end: int, b: Booking) {
    IntervalsOverlap(start, end, b.data.startTime, b.data.endTime)
  }

  /** `isOverlappingWithBookings`: some booking, at any place, overlaps. */
  function IsOverlappingWithBookings(start: int, end: int, bookings: seq<Booking>): (r: bool)
    ensures r <==> exists b :: b in bookings && OverlapsBooking(start, end, b)
  {
    if |bookings| == 0 then false
    else OverlapsBooking(start, end, bookings[0]) || IsOverlappingWithBookings(start, end, bookings[1..])
  }

  /** `isWithinAvailabilityRules`: the instant lies, bounds included, inside
      the opening hours the rules give for its weekday; false when no rule
      names that weekday. */
  function IsWithinAvailabilityRules(t: int, rules: seq<WeeklyRule>): (r: bool)
    ensures r <==>
      var rule := FindDayRule(rules, Weekday(DayOf(t)));
      && rule.Some?
      && ParseTime(rule.value.startTime).Some? && ParseTime(rule.value.endTime).Some?
      && ParseTime(rule.value.startTime).value <= t % MinutesPerDay <= ParseTime(rule.value.endTime).value
  {
    var day := DayOf(t);
    match FindDayRule(rules, Weekday(day))
    case None => false
    case Some(rule) =>
      match (ParseTime(rule.startTime), ParseTime(rule.endTime))
      case (Some(s), Some(e)) => DayStart(day) + s <= t <= DayStart(day) + e
      case _ => false
  }

  /** The deprecated `generateAvailableSlots` offers nothing. */
  function GenerateAvailableSlots(
    date: int, placeId: Id, places: seq<Place>, bookings: seq<Booking>,
    availabilityRules: seq<AvailabilityRule>, duration: int := DefaultDuration): (r: seq<Slot>)
    ensures r == []
  {
    []
  }

  /** The bookings whose start falls on the day. */
  function SameDayBookings(bookings: seq<Booking>, date: int): (r: seq<Booking>)
    ensures forall b :: b in r <==> b in bookings && DayOf(b.data.startTime) == date
  {
    if |bookings| == 0 then []
    else
      (if DayOf(bookings[0].data.startTime) == date then [bookings[0]] else [])
      + SameDayBookings(bookings[1..], date)
  }

  /** How many whole slots fit in the opening window. */
  function TileCount(open: int, close: int, duration: int): nat
    requires duration > 0
  {
    if open < close then (close - open) / duration else 0
  }

  /** The k-th back-to-back slot from the opening time. */
  function Candidate(open: int, duration: int, k: int): Slot {
    Slot(open + k * duration, open + (k + 1) * duration)
  }

  /** The slots of the application's loop from `slotStart` on: one
      duration at a time, while a whole slot still fits before `close`. */
  function SlotsFrom(slotStart: int, close: int, duration: int): seq<Slot>
    requires duration > 0
    decreases close - slotStart
  {
    if slotStart < close && slotStart + duration <= close then
      [Slot(slotStart, slotStart + duration)] + SlotsFrom(slotStart + duration, close, duration)
    else []
  }

  /** The loop's slots are the tiling. */
  lemma SlotsFromIsTiling(open: int, close: int, duration: int)
    requires duration > 0
    ensures SlotsFrom(open, close, duration) == Tiling(open, close, duration)
  {
    SlotsFromSuffix(open, close, duration, 0);
    assert Tiling(open, close, duration)[0..] == Tiling(open, close, duration);
  }

  lemma {:induction false} SlotsFromSuffix(open: int, close: int, duration: int, k: int)
    requires duration > 0 && 0 <= k <= TileCount(open, close, duration)
    ensures SlotsFrom(open + k * duration, close, duration) == Tiling(open, close, duration)[k..]
    decreases TileCount(open, close, duration) - k
  {
    var t := Tiling(open, close, duration);
    var n := TileCount(open, close, duration);
    TileCountFits(open, close, duration);
    MulSucc(k, duration);
    if k < n {
      CandidateInWindow(open, close, duration, n, k);
      SlotsFromSuffix(open, close, duration, k + 1);
      assert t[k..] == [t[k]] + t[k + 1..];
    }
  }

  /** The candidate slots of a window. */
  function Tiling(open: int, close: int, duration: int): seq<Slot>
    requires duration > 0
  {
    seq(TileCount(open, close, duration), k => Candidate(open, duration, k))
  }

  /** The travel buffer needed when the coach goes from a booking at `from`
      to one at `to`: none at the same place, the destination's buffer
      within one area, the larger of the two across areas. */
  function RequiredBuffer(from: PlaceInfo, to: PlaceInfo, samePlace: bool): (r: int)
    ensures samePlace ==> r == 0
    ensures !samePlace ==> r >= to.bufferTime
    ensures !samePlace && from.area == to.area ==> r == to.bufferTime
    ensures !samePlace && from.area != to.area ==>
      r >= from.bufferTime && (r == from.bufferTime || r == to.bufferTime)
  {
    if samePlace then 0
    else if from.area == to.area then to.bufferTime
    else Max(from.bufferTime, to.bufferTime)
  }

  /** The slot leaves enough travel time around the booking. A booking whose
      place is not among `places` imposes no buffer. */
  predicate BufferOk(slot: Slot, b: Booking, place: Place, placeId: Id, places: seq<Place>) {
    match FindPlace(places, b.data.placeId)
    case None => true
    case Some(bookingPlace) =>
      var samePlace := b.data.placeId == placeId;
      && (b.data.endTime <= slot.start ==>
            slot.start - b.data.endTime >= RequiredBuffer(bookingPlace.data, place.data, samePlace))
      && (slot.end <= b.data.startTime ==>
            b.data.startTime - slot.end >= RequiredBuffer(place.data, bookingPlace.data, samePlace))
  }

  /** The slot may be offered given the day's bookings. */
  predicate SlotAdmissible(slot: Slot, place: Place, placeId: Id, places: seq<Place>, dayBookings: seq<Booking>) {
    && !IsOverlappingWithBookings(slot.start, slot.end, dayBookings)
    && forall b :: b in dayBookings ==> BufferOk(slot, b, place, placeId, places)
  }

  /** The admissible candidates, in their order. */
  function KeepAdmissible(
    candidates: seq<Slot>, place: Place, placeId: Id, places: seq<Place>, dayBookings: seq<Booking>): (r: seq<Slot>)
    ensures forall s :: s in r <==> s in candidates && SlotAdmissible(s, place, placeId, places, dayBookings)
  {
    if |candidates| == 0 then []
    else
      var last := candidates[|candidates| - 1];
      KeepAdmissible(candidates[..|candidates| - 1], place, placeId, places, dayBookings)
      + (if SlotAdmissible(last, place, placeId, places, dayBookings) then [last] else [])
  }

  /** The place and its opening window on the day, as instants. */
  datatype Window = Window(place: Place, open: int, close: int)

  /** The opening and closing instants of the place's entry for the day's
      weekday: None when the place has no rule record, when the record has
      no entry for the weekday, or when the entry's times do not parse. */
  function OpeningHours(date: int, placeId: Id, availabilityRules: seq<AvailabilityRule>): Option<(int, int)> {
    match FindRuleSet(availabilityRules, placeId)
    case None => None
    case Some(ruleSet) =>
      match FindDayRule(ruleSet.data.rules, Weekday(date))
      case None => None
      case Some(dayRule) =>
        var start, end := ParseTime(dayRule.startTime), ParseTime(dayRule.endTime);
        if start.Some? && end.Some? then Some((DayStart(date) + start.value, DayStart(date) + end.value))
        else None
  }

  /** None when the place is unknown or has no opening hours that day. */
  function OpeningWindow(date: int, placeId: Id, places: seq<Place>, availabilityRules: seq<AvailabilityRule>): Option<Window> {
    match FindPlace(places, placeId)
    case None => None
    case Some(place) =>
      match OpeningHours(date, placeId, availabilityRules)
      case None => None
      case Some((open, close)) => Some(Window(place, open, close))
  }

  /** The slots the opening hours allow before bookings are considered. */
  function CandidateSlots(
    date: int, placeId: Id, places: seq<Place>, availabilityRules: seq<AvailabilityRule>, duration: int): seq<Slot>
    requires duration > 0
  {
    match OpeningWindow(date, placeId, places, availabilityRules)
    case None => []
    case Some(w) => Tiling(w.open, w.close, duration)
  }

  /** What the engine returns. */
  function AvailableSlots(
    date: int, placeId: Id, places: seq<Place>, bookings: seq<Booking>,
    availabilityRules: seq<AvailabilityRule>, duration: int): (r: seq<Slot>)
    requires duration > 0
    ensures OpeningWindow(date, placeId, places, availabilityRules).None? ==> r == []
    ensures forall s :: s in r ==> s in CandidateSlots(date, placeId, places, availabilityRules, duration)
  {
    match OpeningWindow(date, placeId, places, availabilityRules)
    case None => []
    case Some(w) =>
      KeepAdmissible(Tiling(w.open, w.close, duration), w.place, placeId, places, SameDayBookings(bookings, date))
  }

  /** The whole slots fit, and one more would not. */
  lemma TileCountFits(open: int, close: int, duration: int)
    requires duration > 0
    ensures TileCount(open, close, duration) * duration <= if open < close then close - open else 0
    ensures open + (TileCount(open, close, duration) + 1) * duration > close
  {
    var n := TileCount(open, close, duration);
    MulSucc(n, duration);
    if open < close {
      var r := (close - open) % duration;
      assert close - open == n * duration + r && 0 <= r < duration;
    }
  }

  /** The k-th of n fitting candidates lies inside the window. */
  lemma CandidateInWindow(open: int, close: int, duration: int, n: int, k: int)
    requires duration > 0 && 0 <= k < n
    requires n * duration <= close - open
    ensures Candidate(open, duration, k).start == open + k * duration
    ensures Candidate(open, duration, k).end == open + k * duration + duration
    ensures open <= open + k * duration && open + k * duration + duration <= close
  {
    MulSucc(k, duration);
    MulMonotone(0, k, duration);
    MulMonotone(k + 1, n, duration);
  }

  /** A window shorter than one slot holds none. */
  lemma TileCountZero(open: int, close: int, duration: int)
    requires duration > 0 && close - open < duration
    ensures TileCount(open, close, duration) == 0
  {
    if open < close {
      var q, r := (close - open) / duration, (close - open) % duration;
      assert close - open == q * duration + r && 0 <= r < duration;
      if q > 0 {
        MulMonotone(1, q, duration);
      }
    }
  }

  lemma MulSucc(k: int, d: int)
    ensures (k + 1) * d == k * d + d
  {
  }

  lemma MulMonotone(a: int, b: int, d: int)
    requires a <= b && d >= 0
    ensures a * d <= b * d
  {
    assert b * d - a * d == (b - a) * d;
  }

  /** The filter test, as the application runs it: reject on overlap, then
      walk the day's bookings and reject at the first one that leaves too
      little travel time before or after the slot. */
  method IsSlotAvailable(slot: Slot, place: Place, placeId: Id, places: seq<Place>, dayBookings: seq<Booking>)
    returns (available: bool)
    ensures available == SlotAdmissible(slot, place, placeId, places, dayBookings)
  {
    if IsOverlappingWithBookings(slot.start, slot.end, dayBookings) {
      return false;
    }
    for i := 0 to |dayBookings|
      invariant forall j :: 0 <= j < i ==> BufferOk(slot, dayBookings[j], place, placeId, places)
    {
      var booking := dayBookings[i];
      var bookingPlace := FindPlace(places, booking.data.placeId);
      if bookingPlace.None? {
        continue;
      }
      if booking.data.endTime <= slot.start {
        var requiredBufferTime := 0;
        if booking.data.placeId != placeId {
          if bookingPlace.value.data.area == place.data.area {
            requiredBufferTime := place.data.bufferTime;
          } else {
            requiredBufferTime := Max(place.data.bufferTime, bookingPlace.value.data.bufferTime);
          }
        }
        var actualBufferTime := slot.start - booking.data.endTime;
        if actualBufferTime < requiredBufferTime {
          assert !BufferOk(slot, booking, place, placeId, places);
          return false;
        }
      }
      if slot.end <= booking.data.startTime {
        var requiredBufferTime := 0;
        if booking.data.placeId != placeId {
          if bookingPlace.value.data.area == place.data.area {
            requiredBufferTime := bookingPlace.value.data.bufferTime;
          } else {
            requiredBufferTime := Max(place.data.bufferTime, bookingPlace.value.data.bufferTime);
          }
        }
        var actualBufferTime := booking.data.startTime - slot.end;
        if actualBufferTime < requiredBufferTime {
          assert !BufferOk(slot, booking, place, placeId, places);
          return false;
        }
      }
    }
    forall b | b in dayBookings ensures BufferOk(slot, b, place, placeId, places) {
      var j :| 0 <= j < |dayBookings| && dayBookings[j] == b;
    }
    return true;
  }

  /** `calculateAvailableSlotsWithBuffer`. The slot length must be positive:
      the application's tiling loop does not end otherwise. */
  method CalculateAvailableSlotsWithBuffer(
    date: int, placeId: Id, places: seq<Place>, bookings: seq<Booking>,
    availabilityRules: seq<AvailabilityRule>, duration: int := DefaultDuration)
    returns (slots: seq<Slot>)
    requires duration > 0
    ensures slots == AvailableSlots(date, placeId, places, bookings, availabilityRules, duration)
  {
    var window := ResolveOpeningWindow(date, placeId, places, availabilityRules);
    if window.None? {
      return [];
    }
    var place, startTime, endTime := window.value.place, window.value.open, window.value.close;
    var dayBookings := SameDayBookings(bookings, date);
    var possibleSlots := GeneratePossibleSlots(startTime, endTime, duration);
    slots := FilterAvailable(possibleSlots, place, placeId, places, dayBookings);
  }

  /** The lookups that open the engine: the place, its rule record, the
      weekday's entry and its two times on the queried day. */
  method ResolveOpeningWindow(date: int, placeId: Id, places: seq<Place>, availabilityRules: seq<AvailabilityRule>)
    returns (window: Option<Window>)
    ensures window == OpeningWindow(date, placeId, places, availabilityRules)
  {
    var found := FindPlace(places, placeId);
    if found.None? {
      return None;
    }
    assert OpeningWindow(date, placeId, places, availabilityRules)
      == if OpeningHours(date, placeId, availabilityRules).None? then None
         else Some(Window(found.value, OpeningHours(date, placeId, availabilityRules).value.0,
                          OpeningHours(date, placeId, availabilityRules).value.1));
    var rule := FindRuleSet(availabilityRules, placeId);
    if rule.None? {
      assert OpeningHours(date, placeId, availabilityRules).None?;
      return None;
    }
    var currentDate := DayStart(date);
    var dayRule := FindDayRule(rule.value.data.rules, Weekday(date));
    if dayRule.None? {
      assert OpeningHours(date, placeId, availabilityRules).None?;
      return None;
    }
    var parsedStart := ParseTime(dayRule.value.startTime);
    var parsedEnd := ParseTime(dayRule.value.endTime);
    if parsedStart.None? || parsedEnd.None? {
      // An Invalid Date compares false with everything: no slot is generated.
      assert OpeningHours(date, placeId, availabilityRules).None?;
      return None;
    }
    var open, close := currentDate + parsedStart.value, currentDate + parsedEnd.value;
    assert OpeningHours(date, placeId, availabilityRules) == Some((open, close));
    return Some(Window(found.value, open, close));
  }

  /** The candidate loop: step from the opening time by the slot length,
      stop before a slot would end after the closing time. */
  method GeneratePossibleSlots(startTime: int, endTime: int, duration: int) returns (possibleSlots: seq<Slot>)
    requires duration > 0
    ensures possibleSlots == Tiling(startTime, endTime, duration)
  {
    var slotStart := startTime;
    possibleSlots := [];
    while slotStart < endTime
      invariant possibleSlots + SlotsFrom(slotStart, endTime, duration) == SlotsFrom(startTime, endTime, duration)
      decreases endTime - slotStart
    {
      var slotEnd := slotStart + duration;
      if slotEnd > endTime {
        break;
      }
      assert SlotsFrom(slotStart, endTime, duration)
          == [Slot(slotStart, slotEnd)] + SlotsFrom(slotEnd, endTime, duration);
      assert possibleSlots + SlotsFrom(slotStart, endTime, duration)
          == (possibleSlots + [Slot(slotStart, slotEnd)]) + SlotsFrom(slotEnd, endTime, duration);
      possibleSlots := possibleSlots + [Slot(slotStart, slotEnd)];
      slotStart := slotEnd;
    }
    assert possibleSlots + [] == possibleSlots;
    SlotsFromIsTiling(startTime, endTime, duration);
  }

  /** `possibleSlots.filter(...)` with the test of IsSlotAvailable. */
  method FilterAvailable(possibleSlots: seq<Slot>, place: Place, placeId: Id, places: seq<Place>, dayBookings: seq<Booking>)
    returns (slots: seq<Slot>)
    ensures slots == KeepAdmissible(possibleSlots, place, placeId, places, dayBookings)
  {
    slots := [];
    for i := 0 to |possibleSlots|
      invariant slots == KeepAdmissible(possibleSlots[..i], place, placeId, places, dayBookings)
    {
      var available := IsSlotAvailable(possibleSlots[i], place, placeId, places, dayBookings);
      assert possibleSlots[..i + 1][..i] == possibleSlots[..i];
      if available {
        slots := slots + [possibleSlots[i]];
      }
    }
    assert possibleSlots[..|possibleSlots|] == possibleSlots;
  }
}
