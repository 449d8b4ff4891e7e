/** What the scheduling engine guarantees, stated about `AvailableSlots`
    (which the engine's method is proved to compute). */
module DateUtilsProperties {
  import opened Common
  import opened Text
  import opened Clock
  import opened Entities
  import opened DateUtils

  /** Slots that each end after they start and that follow one another
      without overlapping. */
  predicate Chronological(slots: seq<Slot>) {
    && (forall i :: 0 <= i < |slots| ==> slots[i].start < slots[i].end)
    && (forall i, j :: 0 <= i < j < |slots| ==> slots[i].end <= slots[j].start)
  }

  // ---------------------------------------------------------------------
  // Weekday resolution

  /** A weekly rule applies to weekday `w` exactly when its day, lower-cased,
      is that weekday's name, whatever case it was stored in; names that are
      not weekday names apply to no day. */
  lemma WeekdayLookup(rule: WeeklyRule, w: int)
    requires 0 <= w < 7
    ensures MatchesWeekday(rule, w) <==> ToLower(rule.day) == DayNames[w]
    ensures MatchesWeekday(rule.(day := ToUpper(rule.day)), w) == MatchesWeekday(rule, w)
    ensures ToLower(rule.day) !in DayNames ==> !MatchesWeekday(rule, w)
  {
    LowerOfUpper(rule.day);
    DayOrdinalNames(ToLower(rule.day));
  }

  /** The rule the engine uses is the first entry naming the weekday. */
  lemma DayRuleIsFirstMatch(rules: seq<WeeklyRule>, w: int, k: int)
    requires 0 <= k < |rules| && MatchesWeekday(rules[k], w)
    requires forall j :: 0 <= j < k ==> !MatchesWeekday(rules[j], w)
    ensures FindDayRule(rules, w) == Some(rules[k])
  {
    var p := (rule: WeeklyRule) => MatchesWeekday(rule, w);
    var m := FindIndex(rules, p);
    assert m == k;
  }

  /** The place the engine looks up is the first record carrying the id. */
  lemma PlaceIsFirstMatch(places: seq<Place>, id: Id, k: int)
    requires 0 <= k < |places| && places[k].id == id
    requires forall j :: 0 <= j < k ==> places[j].id != id
    ensures FindPlace(places, id) == Some(places[k])
  {
    var p := (pl: Place) => pl.id == id;
    var m := FindIndex(places, p);
    assert m == k;
  }

  /** The rule record the engine looks up is the first one for the place. */
  lemma RuleSetIsFirstMatch(availabilityRules: seq<AvailabilityRule>, placeId: Id, k: int)
    requires 0 <= k < |availabilityRules| && availabilityRules[k].data.placeId == placeId
    requires forall j :: 0 <= j < k ==> availabilityRules[j].data.placeId != placeId
    ensures FindRuleSet(availabilityRules, placeId) == Some(availabilityRules[k])
  {
    var p := (a: AvailabilityRule) => a.data.placeId == placeId;
    var m := FindIndex(availabilityRules, p);
    assert m == k;
  }

  /** `isWithinAvailabilityRules` is false on a weekday no rule names. */
  lemma OutsideRulesOnUnnamedDay(t: int, rules: seq<WeeklyRule>)
    requires forall j :: 0 <= j < |rules| ==> !MatchesWeekday(rules[j], Weekday(DayOf(t)))
    ensures !IsWithinAvailabilityRules(t, rules)
  {
  }

  /** Otherwise the first rule naming the instant's weekday decides, and
      both its opening and its closing minute count as inside. */
  lemma WithinRulesInclusive(t: int, rules: seq<WeeklyRule>, k: int)
    requires 0 <= k < |rules| && MatchesWeekday(rules[k], Weekday(DayOf(t)))
    requires forall j :: 0 <= j < k ==> !MatchesWeekday(rules[j], Weekday(DayOf(t)))
    requires ParseTime(rules[k].startTime).Some? && ParseTime(rules[k].endTime).Some?
    ensures IsWithinAvailabilityRules(t, rules)
        <==> DayStart(DayOf(t)) + ParseTime(rules[k].startTime).value <= t
             <= DayStart(DayOf(t)) + ParseTime(rules[k].endTime).value
  {
    DayRuleIsFirstMatch(rules, Weekday(DayOf(t)), k);
  }

  // ---------------------------------------------------------------------
  // Closed days

  /** No slots for an unknown place, for a place without a rule record, on
      a weekday the record does not name, or when a slot does not fit in the
      opening window. */
  lemma EmptyWhenUnresolved(
    date: int, placeId: Id, places: seq<Place>, bookings: seq<Booking>,
    availabilityRules: seq<AvailabilityRule>, duration: int)
    requires duration > 0
    ensures (forall i :: 0 <= i < |places| ==> places[i].id != placeId)
      ==> AvailableSlots(date, placeId, places, bookings, availabilityRules, duration) == []
    ensures (forall i :: 0 <= i < |availabilityRules| ==> availabilityRules[i].data.placeId != placeId)
      ==> AvailableSlots(date, placeId, places, bookings, availabilityRules, duration) == []
    ensures FindRuleSet(availabilityRules, placeId).Some?
      && (forall j :: 0 <= j < |FindRuleSet(availabilityRules, placeId).value.data.rules| ==>
            !MatchesWeekday(FindRuleSet(availabilityRules, placeId).value.data.rules[j], Weekday(date)))
      ==> AvailableSlots(date, placeId, places, bookings, availabilityRules, duration) == []
  {
  }

  /** A day whose opening window is shorter than one slot offers nothing. */
  lemma EmptyWhenWindowTooShort(
    date: int, placeId: Id, places: seq<Place>, bookings: seq<Booking>,
    availabilityRules: seq<AvailabilityRule>, duration: int, w: Window)
    requires duration > 0
    requires OpeningWindow(date, placeId, places, availabilityRules) == Some(w)
    requires w.close - w.open < duration
    ensures AvailableSlots(date, placeId, places, bookings, availabilityRules, duration) == []
  {
    TileCountZero(w.open, w.close, duration);
  }

  // ---------------------------------------------------------------------
  // Tiling

  /** Candidate k runs from open + k·duration for one duration; the
      candidates stay inside the window, follow each other without gaps, and
      one more would pass the closing time (the partial trailing window is
      dropped, not shortened). */
  lemma TilingShape(open: int, close: int, duration: int)
    requires duration > 0
    ensures var t := Tiling(open, close, duration);
      && |t| == (if open < close then (close - open) / duration else 0)
      && (forall k :: 0 <= k < |t| ==> t[k].start == open + k * duration && t[k].end == t[k].start + duration)
      && (forall k :: 0 <= k < |t| ==> open <= t[k].start && t[k].end <= close)
      && (forall k :: 0 < k < |t| ==> t[k - 1].end == t[k].start)
      && open + (|t| + 1) * duration > close
      && Chronological(t)
  {
    var t := Tiling(open, close, duration);
    var n := |t|;
    TileCountFits(open, close, duration);
    forall k | 0 <= k < n
      ensures t[k].start == open + k * duration && t[k].end == t[k].start + duration
      ensures open <= t[k].start && t[k].end <= close
    {
      assert t[k] == Candidate(open, duration, k);
      CandidateInWindow(open, close, duration, n, k);
    }
    TilingChronological(open, close, duration);
  }

  lemma TilingChronological(open: int, close: int, duration: int)
    requires duration > 0
    ensures Chronological(Tiling(open, close, duration))
  {
    var t := Tiling(open, close, duration);
    forall i | 0 <= i < |t| ensures t[i].start < t[i].end {
      CandidateOrder(open, duration, i, i);
    }
    forall i, j | 0 <= i < j < |t| ensures t[i].end <= t[j].start {
      CandidateOrder(open, duration, i, j);
    }
  }

  /** Candidate i ends after it starts and no later than any later
      candidate starts. */
  lemma CandidateOrder(open: int, duration: int, i: int, j: int)
    requires duration > 0 && 0 <= i <= j
    ensures Candidate(open, duration, i).start < Candidate(open, duration, i).end
    ensures i < j ==> Candidate(open, duration, i).end <= Candidate(open, duration, j).start
  {
    MulSucc(i, duration);
    if i < j {
      MulMonotone(i + 1, j, duration);
    }
  }

  /** Opening hours 10:00-18:00 in 60-minute slots give the eight slots
      10:00-11:00 … 17:00-18:00. */
  lemma TenToSixInHours()
    ensures |Tiling(600, 1080, 60)| == 8
    ensures forall k :: 0 <= k < 8 ==> Tiling(600, 1080, 60)[k].start == 600 + 60 * k
    ensures Tiling(600, 1080, 60)[7].end == 1080
  {
    TilingShape(600, 1080, 60);
  }

  // ---------------------------------------------------------------------
  // Filtering keeps an ordered subsequence

  lemma {:induction false} KeepIsSubsequence(
    candidates: seq<Slot>, place: Place, placeId: Id, places: seq<Place>, dayBookings: seq<Booking>)
    ensures IsSubsequence(KeepAdmissible(candidates, place, placeId, places, dayBookings), candidates)
  {
    if |candidates| > 0 {
      var prefix := candidates[..|candidates| - 1];
      var last := candidates[|candidates| - 1];
      KeepIsSubsequence(prefix, place, placeId, places, dayBookings);
      var kept := KeepAdmissible(prefix, place, placeId, places, dayBookings);
      SubsequenceExtend(kept, prefix, last);
      assert prefix + [last] == candidates;
      if SlotAdmissible(last, place, placeId, places, dayBookings) {
        assert KeepAdmissible(candidates, place, placeId, places, dayBookings) == kept + [last];
      } else {
        assert KeepAdmissible(candidates, place, placeId, places, dayBookings) == kept + [];
        assert kept + [] == kept;
      }
    }
  }

  lemma {:induction false} KeepChronological(
    candidates: seq<Slot>, place: Place, placeId: Id, places: seq<Place>, dayBookings: seq<Booking>)
    requires Chronological(candidates)
    ensures Chronological(KeepAdmissible(candidates, place, placeId, places, dayBookings))
  {
    if |candidates| > 0 {
      var n := |candidates|;
      var prefix := candidates[..n - 1];
      var last := candidates[n - 1];
      KeepChronological(prefix, place, placeId, places, dayBookings);
      var kept := KeepAdmissible(prefix, place, placeId, places, dayBookings);
      if SlotAdmissible(last, place, placeId, places, dayBookings) {
        assert candidates == prefix + [last];
        forall s | s in kept ensures s.end <= last.start {
          EndsBeforeLast(prefix, last, s);
        }
        ChronologicalAppend(kept, last);
        assert KeepAdmissible(candidates, place, placeId, places, dayBookings) == kept + [last];
      } else {
        assert KeepAdmissible(candidates, place, placeId, places, dayBookings) == kept;
      }
    }
  }

  /** A slot that starts after every slot of a chronological list ends may
      be added at its end. */
  lemma ChronologicalAppend(slots: seq<Slot>, s: Slot)
    requires Chronological(slots) && s.start < s.end
    requires forall t :: t in slots ==> t.end <= s.start
    ensures Chronological(slots + [s])
  {
    assert forall i :: 0 <= i < |slots| ==> slots[i] in slots;
  }

  /** In a chronological list every earlier slot ends before the last one
      starts. */
  lemma EndsBeforeLast(prefix: seq<Slot>, last: Slot, s: Slot)
    requires Chronological(prefix + [last]) && s in prefix
    ensures s.end <= last.start
  {
    var m :| 0 <= m < |prefix| && prefix[m] == s;
    assert (prefix + [last])[m] == s && (prefix + [last])[|prefix|] == last;
  }

  /** The engine returns an order-preserving selection of the candidate
      tiling, so its slots increase and do not overlap one another. */
  lemma ResultOrderedSubsequence(
    date: int, placeId: Id, places: seq<Place>, bookings: seq<Booking>,
    availabilityRules: seq<AvailabilityRule>, duration: int)
    requires duration > 0
    ensures IsSubsequence(
      AvailableSlots(date, placeId, places, bookings, availabilityRules, duration),
      CandidateSlots(date, placeId, places, availabilityRules, duration))
    ensures Chronological(AvailableSlots(date, placeId, places, bookings, availabilityRules, duration))
  {
    match OpeningWindow(date, placeId, places, availabilityRules)
    case None =>
    case Some(w) =>
      var t := Tiling(w.open, w.close, duration);
      TilingShape(w.open, w.close, duration);
      KeepIsSubsequence(t, w.place, placeId, places, SameDayBookings(bookings, date));
      KeepChronological(t, w.place, placeId, places, SameDayBookings(bookings, date));
  }

  /** A slot is returned exactly when it is a candidate and admissible
      against the day's bookings. */
  lemma AvailableSlotsCharacterised(
    date: int, placeId: Id, places: seq<Place>, bookings: seq<Booking>,
    availabilityRules: seq<AvailabilityRule>, duration: int, place: Place, s: Slot)
    requires duration > 0
    requires FindPlace(places, placeId) == Some(place)
    ensures s in AvailableSlots(date, placeId, places, bookings, availabilityRules, duration)
      <==> s in CandidateSlots(date, placeId, places, availabilityRules, duration)
           && SlotAdmissible(s, place, placeId, places, SameDayBookings(bookings, date))
  {
  }

  // ---------------------------------------------------------------------
  // No double booking and travel buffers

  /** No returned slot overlaps a booking that starts on the day, whatever
      place it is at, and whether or not that place is still known. */
  lemma NoDoubleBooking(
    date: int, placeId: Id, places: seq<Place>, bookings: seq<Booking>,
    availabilityRules: seq<AvailabilityRule>, duration: int, s: Slot, b: Booking)
    requires duration > 0
    requires s in AvailableSlots(date, placeId, places, bookings, availabilityRules, duration)
    requires b in bookings && DayOf(b.data.startTime) == date
    ensures !(s.start < b.data.endTime && b.data.startTime < s.end)
  {
    match OpeningWindow(date, placeId, places, availabilityRules)
    case Some(w) =>
      assert b in SameDayBookings(bookings, date);
  }

  /** Travel time after a same-day booking that ends before the slot: none
      at the same place, the queried place's buffer within one area, the
      larger buffer across areas. */
  lemma BufferAfterEarlierBooking(
    date: int, placeId: Id, places: seq<Place>, bookings: seq<Booking>,
    availabilityRules: seq<AvailabilityRule>, duration: int, s: Slot, b: Booking, bookingPlace: Place)
    requires duration > 0
    requires s in AvailableSlots(date, placeId, places, bookings, availabilityRules, duration)
    requires b in bookings && DayOf(b.data.startTime) == date
    requires FindPlace(places, b.data.placeId) == Some(bookingPlace)
    requires b.data.endTime <= s.start
    ensures FindPlace(places, placeId).Some?
    ensures var place := FindPlace(places, placeId).value.data;
      s.start - b.data.endTime >=
        if b.data.placeId == placeId then 0
        else if bookingPlace.data.area == place.area then place.bufferTime
        else Max(place.bufferTime, bookingPlace.data.bufferTime)
  {
    var w := OpeningWindow(date, placeId, places, availabilityRules).value;
    var dayBookings := SameDayBookings(bookings, date);
    assert w.place == FindPlace(places, placeId).value;
    assert SlotAdmissible(s, w.place, placeId, places, dayBookings);
    assert b in dayBookings;
    assert BufferOk(s, b, w.place, placeId, places);
  }

  /** Travel time before a same-day booking that starts after the slot:
      none at the same place, the booking place's (the destination's) buffer
      within one area, the larger buffer across areas. */
  lemma BufferBeforeLaterBooking(
    date: int, placeId: Id, places: seq<Place>, bookings: seq<Booking>,
    availabilityRules: seq<AvailabilityRule>, duration: int, s: Slot, b: Booking, bookingPlace: Place)
    requires duration > 0
    requires s in AvailableSlots(date, placeId, places, bookings, availabilityRules, duration)
    requires b in bookings && DayOf(b.data.startTime) == date
    requires FindPlace(places, b.data.placeId) == Some(bookingPlace)
    requires s.end <= b.data.startTime
    ensures FindPlace(places, placeId).Some?
    ensures var place := FindPlace(places, placeId).value.data;
      b.data.startTime - s.end >=
        if b.data.placeId == placeId then 0
        else if place.area == bookingPlace.data.area then bookingPlace.data.bufferTime
        else Max(place.bufferTime, bookingPlace.data.bufferTime)
  {
    var w := OpeningWindow(date, placeId, places, availabilityRules).value;
    var dayBookings := SameDayBookings(bookings, date);
    assert w.place == FindPlace(places, placeId).value;
    assert SlotAdmissible(s, w.place, placeId, places, dayBookings);
    assert b in dayBookings;
    assert BufferOk(s, b, w.place, placeId, places);
  }

  /** A booking whose place is not (or no longer) known blocks the slots it
      overlaps and no others: it imposes no travel buffer. */
  lemma UnknownPlaceBookingOnlyBlocksOverlap(
    date: int, placeId: Id, places: seq<Place>, bookings: seq<Booking>,
    availabilityRules: seq<AvailabilityRule>, duration: int, b: Booking, s: Slot)
    requires duration > 0
    requires DayOf(b.data.startTime) == date
    requires FindPlace(places, b.data.placeId).None?
    ensures s in AvailableSlots(date, placeId, places, bookings + [b], availabilityRules, duration)
      <==> s in AvailableSlots(date, placeId, places, bookings, availabilityRules, duration)
           && !OverlapsBooking(s.start, s.end, b)
  {
    match OpeningWindow(date, placeId, places, availabilityRules)
    case None =>
    case Some(w) =>
      var before := SameDayBookings(bookings, date);
      var after := SameDayBookings(bookings + [b], date);
      assert forall x :: x in after <==> x in before || x == b;
      assert SlotAdmissible(s, w.place, placeId, places, after)
        <==> SlotAdmissible(s, w.place, placeId, places, before) && !OverlapsBooking(s.start, s.end, b);
  }

  // ---------------------------------------------------------------------
  // Days without bookings

  lemma {:induction false} KeepAllWhenNoBookings(
    candidates: seq<Slot>, place: Place, placeId: Id, places: seq<Place>)
    ensures KeepAdmissible(candidates, place, placeId, places, []) == candidates
  {
    if |candidates| > 0 {
      var n := |candidates|;
      KeepAllWhenNoBookings(candidates[..n - 1], place, placeId, places);
      assert SlotAdmissible(candidates[n - 1], place, placeId, places, []);
      assert candidates[..n - 1] + [candidates[n - 1]] == candidates;
    }
  }

  lemma {:induction false} NoneOnTheDay(bookings: seq<Booking>, date: int)
    requires forall b :: b in bookings ==> DayOf(b.data.startTime) != date
    ensures SameDayBookings(bookings, date) == []
  {
    if |bookings| > 0 {
      assert bookings[0] in bookings;
      NoneOnTheDay(bookings[1..], date);
    }
  }

  /** With no booking on the day, the whole tiling is offered; bookings on
      other days never matter. */
  lemma NoSameDayBookingsKeepsTiling(
    date: int, placeId: Id, places: seq<Place>, bookings: seq<Booking>,
    availabilityRules: seq<AvailabilityRule>, duration: int)
    requires duration > 0
    requires forall b :: b in bookings ==> DayOf(b.data.startTime) != date
    ensures AvailableSlots(date, placeId, places, bookings, availabilityRules, duration)
         == CandidateSlots(date, placeId, places, availabilityRules, duration)
  {
    NoneOnTheDay(bookings, date);
    match OpeningWindow(date, placeId, places, availabilityRules)
    case None =>
    case Some(w) =>
      KeepAllWhenNoBookings(Tiling(w.open, w.close, duration), w.place, placeId, places);
  }

  // ---------------------------------------------------------------------
  // Opening hours

  /** Every returned slot lies on the queried day and its start and end
      both satisfy `isWithinAvailabilityRules` for the place's rules. */
  lemma SlotsWithinOpeningHours(
    date: int, placeId: Id, places: seq<Place>, bookings: seq<Booking>,
    availabilityRules: seq<AvailabilityRule>, duration: int, s: Slot)
    requires duration > 0
    requires s in AvailableSlots(date, placeId, places, bookings, availabilityRules, duration)
    ensures DayOf(s.start) == date && DayOf(s.end) == date
    ensures FindRuleSet(availabilityRules, placeId).Some?
    ensures IsWithinAvailabilityRules(s.start, FindRuleSet(availabilityRules, placeId).value.data.rules)
    ensures IsWithinAvailabilityRules(s.end, FindRuleSet(availabilityRules, placeId).value.data.rules)
  {
    match OpeningWindow(date, placeId, places, availabilityRules)
    case Some(w) =>
      var t := Tiling(w.open, w.close, duration);
      TilingShape(w.open, w.close, duration);
      var k :| 0 <= k < |t| && t[k] == s;
      assert DayStart(date) <= w.open && w.close < DayStart(date) + MinutesPerDay;
      WithinDay(date, s.start);
      WithinDay(date, s.end);
  }

  // ---------------------------------------------------------------------
  // Buffer monotonicity

  /** The same places, in the same order and areas, with buffers at least
      as large. */
  predicate BuffersRaised(places: seq<Place>, raised: seq<Place>) {
    && |raised| == |places|
    && forall i :: 0 <= i < |places| ==>
         && raised[i].id == places[i].id
         && raised[i].data.area == places[i].data.area
         && raised[i].data.bufferTime >= places[i].data.bufferTime
  }

  /** The same place records, in the same order, where every travel
      requirement between two different records is at least as large: the
      buffers may grow or shrink and places may change area, as long as no
      gap required between two of them shrinks. */
  predicate RequirementsRaised(places: seq<Place>, raised: seq<Place>) {
    && |raised| == |places|
    && (forall i :: 0 <= i < |places| ==> raised[i].id == places[i].id)
    && forall i, j :: 0 <= i < |places| && 0 <= j < |places| && i != j ==>
         RequiredBuffer(places[i].data, places[j].data, false) <= RequiredBuffer(raised[i].data, raised[j].data, false)
  }

  /** Looking an id up in two lists with the same ids at the same positions
      finds the same position in both. */
  lemma FindPlaceAligned(places: seq<Place>, raised: seq<Place>, id: Id)
    requires |raised| == |places|
    requires forall i :: 0 <= i < |places| ==> raised[i].id == places[i].id
    ensures FindPlace(places, id).Some? == FindPlace(raised, id).Some?
    ensures FindPlace(places, id).Some? ==>
      exists k :: 0 <= k < |places| && FindPlace(places, id).value == places[k] && FindPlace(raised, id).value == raised[k]
  {
    var p := (x: Place) => x.id == id;
    FindIndexPointwise(places, p, raised, p);
    var k := FindIndex(places, p);
    if k >= 0 {
      assert FindPlace(places, id).value == places[k] && FindPlace(raised, id).value == raised[k];
    }
  }

  /** Changing the place records changes neither whether a day is open nor
      its hours, and the engine's place sits at the same position in both. */
  lemma WindowAligned(
    date: int, placeId: Id, places: seq<Place>, raised: seq<Place>, availabilityRules: seq<AvailabilityRule>)
    requires RequirementsRaised(places, raised)
    ensures OpeningWindow(date, placeId, places, availabilityRules).Some?
         == OpeningWindow(date, placeId, raised, availabilityRules).Some?
    ensures OpeningWindow(date, placeId, places, availabilityRules).Some? ==>
      var w := OpeningWindow(date, placeId, places, availabilityRules).value;
      var w2 := OpeningWindow(date, placeId, raised, availabilityRules).value;
      && w.open == w2.open && w.close == w2.close
      && exists k :: 0 <= k < |places| && w.place == places[k] && w2.place == raised[k]
  {
    FindPlaceAligned(places, raised, placeId);
    WindowOf(date, placeId, places, availabilityRules);
    WindowOf(date, placeId, raised, availabilityRules);
  }

  /** The opening window pairs the looked-up place with the opening hours,
      which do not depend on the place records. */
  lemma WindowOf(date: int, placeId: Id, places: seq<Place>, availabilityRules: seq<AvailabilityRule>)
    ensures OpeningWindow(date, placeId, places, availabilityRules).Some?
        <==> FindPlace(places, placeId).Some? && OpeningHours(date, placeId, availabilityRules).Some?
    ensures OpeningWindow(date, placeId, places, availabilityRules).Some? ==>
      var w := OpeningWindow(date, placeId, places, availabilityRules).value;
      var h := OpeningHours(date, placeId, availabilityRules).value;
      w.place == FindPlace(places, placeId).value && w.open == h.0 && w.close == h.1
  {
  }

  /** A slot that leaves enough room under the raised requirements leaves
      enough under the original ones. */
  lemma BufferOkRequirementsRaised(
    s: Slot, b: Booking, placeId: Id, places: seq<Place>, raised: seq<Place>, k: int)
    requires RequirementsRaised(places, raised)
    requires 0 <= k < |places| && places[k].id == placeId
    requires BufferOk(s, b, raised[k], placeId, raised)
    ensures BufferOk(s, b, places[k], placeId, places)
  {
    FindPlaceAligned(places, raised, b.data.placeId);
    if FindPlace(places, b.data.placeId).Some? && b.data.placeId != placeId {
      var m :| 0 <= m < |places| && FindPlace(places, b.data.placeId).value == places[m]
                && FindPlace(raised, b.data.placeId).value == raised[m];
      assert RequiredBuffer(places[m].data, places[k].data, false) <= RequiredBuffer(raised[m].data, raised[k].data, false);
      assert RequiredBuffer(places[k].data, places[m].data, false) <= RequiredBuffer(raised[k].data, raised[m].data, false);
    }
  }

  /** Raising travel requirements never makes more slots available. */
  lemma RequirementMonotonic(
    date: int, placeId: Id, places: seq<Place>, raised: seq<Place>, bookings: seq<Booking>,
    availabilityRules: seq<AvailabilityRule>, duration: int, s: Slot)
    requires duration > 0
    requires RequirementsRaised(places, raised)
    requires s in AvailableSlots(date, placeId, raised, bookings, availabilityRules, duration)
    ensures s in AvailableSlots(date, placeId, places, bookings, availabilityRules, duration)
  {
    WindowAligned(date, placeId, places, raised, availabilityRules);
    var w2 := OpeningWindow(date, placeId, raised, availabilityRules).value;
    var w := OpeningWindow(date, placeId, places, availabilityRules).value;
    var k :| 0 <= k < |places| && w.place == places[k] && w2.place == raised[k];
    var dayBookings := SameDayBookings(bookings, date);
    var t := Tiling(w.open, w.close, duration);
    assert s in KeepAdmissible(t, w2.place, placeId, raised, dayBookings);
    assert SlotAdmissible(s, w2.place, placeId, raised, dayBookings);
    forall b | b in dayBookings ensures BufferOk(s, b, w.place, placeId, places) {
      BufferOkRequirementsRaised(s, b, placeId, places, raised, k);
    }
    assert SlotAdmissible(s, w.place, placeId, places, dayBookings);
  }

  lemma RequiredBufferRaised(from: PlaceInfo, to: PlaceInfo, from2: PlaceInfo, to2: PlaceInfo, samePlace: bool)
    requires from.area == from2.area && to.area == to2.area
    requires from.bufferTime <= from2.bufferTime && to.bufferTime <= to2.bufferTime
    ensures RequiredBuffer(from, to, samePlace) <= RequiredBuffer(from2, to2, samePlace)
  {
  }

  /** Larger buffers at the same places in the same areas raise every
      travel requirement. */
  lemma BuffersRaiseRequirements(places: seq<Place>, raised: seq<Place>)
    requires BuffersRaised(places, raised)
    ensures RequirementsRaised(places, raised)
  {
    forall i, j | 0 <= i < |places| && 0 <= j < |places| && i != j
      ensures RequiredBuffer(places[i].data, places[j].data, false) <= RequiredBuffer(raised[i].data, raised[j].data, false)
    {
      RequiredBufferRaised(places[i].data, places[j].data, raised[i].data, raised[j].data, false);
    }
  }

  /** Larger buffers never make more slots available. */
  lemma BufferMonotonic(
    date: int, placeId: Id, places: seq<Place>, raised: seq<Place>, bookings: seq<Booking>,
    availabilityRules: seq<AvailabilityRule>, duration: int, s: Slot)
    requires duration > 0
    requires BuffersRaised(places, raised)
    requires s in AvailableSlots(date, placeId, raised, bookings, availabilityRules, duration)
    ensures s in AvailableSlots(date, placeId, places, bookings, availabilityRules, duration)
  {
    BuffersRaiseRequirements(places, raised);
    RequirementMonotonic(date, placeId, places, raised, bookings, availabilityRules, duration, s);
  }

  // ---------------------------------------------------------------------
  // Worked examples (instants in minutes of day 0)

  const NorthPool := Record("A", PlaceInfo("Pool A", "North", 30))
  const SouthPool := Record("B", PlaceInfo("Pool B", "South", 40))
  const NorthPool2 := Record("A2", PlaceInfo("Pool A2", "North", 15))

  /** A booking at the northern pool that ends at 12:00 leaves a slot at
      the southern pool starting 12:25 too little travel time (the larger
      buffer, 40, applies across areas); one starting 12:40 is fine. */
  lemma CrossAreaBufferExample()
    ensures !BufferOk(Slot(745, 805), Record("1", BookingInfo("n", "e", "A", 660, 720, "")),
                      SouthPool, "B", [NorthPool, SouthPool])
    ensures BufferOk(Slot(760, 820), Record("1", BookingInfo("n", "e", "A", 660, 720, "")),
                     SouthPool, "B", [NorthPool, SouthPool])
  {
    assert FindPlace([NorthPool, SouthPool], "A") == Some(NorthPool);
  }

  /** Within one area the destination's buffer applies: after a booking at
      A (buffer 20) ending 09:00, a slot at A2 (buffer 15) starting 09:12 is
      rejected and one starting 09:16 accepted; at the same place a slot may
      start the minute the booking ends. */
  lemma SameAreaBufferExample()
    ensures !BufferOk(Slot(552, 612), Record("1", BookingInfo("n", "e", "A", 480, 540, "")),
                      NorthPool2, "A2", [NorthPool.(data := NorthPool.data.(bufferTime := 20)), NorthPool2])
    ensures BufferOk(Slot(556, 616), Record("1", BookingInfo("n", "e", "A", 480, 540, "")),
                     NorthPool2, "A2", [NorthPool.(data := NorthPool.data.(bufferTime := 20)), NorthPool2])
    ensures BufferOk(Slot(540, 600), Record("1", BookingInfo("n", "e", "A", 480, 540, "")),
                     NorthPool, "A", [NorthPool])
  {
    var a := NorthPool.(data := NorthPool.data.(bufferTime := 20));
    assert FindPlace([a, NorthPool2], "A") == Some(a);
    assert FindPlace([NorthPool], "A") == Some(NorthPool);
  }

  /** Moving A2 to the southern area while lowering its buffer from 15 to
      10 is no raise of buffers, yet every travel requirement between A (30)
      and A2 grows or stays: 15 and 30 within the north become 30 and 30
      across areas, where the larger buffer applies. */
  lemma AreaMoveRaisesRequirements()
    ensures RequirementsRaised([NorthPool, NorthPool2],
                               [NorthPool, NorthPool2.(data := PlaceInfo("Pool A2", "South", 10))])
    ensures !BuffersRaised([NorthPool, NorthPool2],
                           [NorthPool, NorthPool2.(data := PlaceInfo("Pool A2", "South", 10))])
  {
    var places := [NorthPool, NorthPool2];
    var raised := [NorthPool, NorthPool2.(data := PlaceInfo("Pool A2", "South", 10))];
    forall i, j | 0 <= i < 2 && 0 <= j < 2 && i != j
      ensures RequiredBuffer(places[i].data, places[j].data, false) <= RequiredBuffer(raised[i].data, raised[j].data, false)
    {
      assert RequiredBuffer(raised[i].data, raised[j].data, false) == 30;
    }
    assert raised[1].data.bufferTime < places[1].data.bufferTime;
  }
}
