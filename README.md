# Swim coach booking: slot engine, forms and store

A model of the scheduling core of a small booking application for one
mobile swimming coach who teaches at several places, each place belonging
to an area and asking for a travel buffer.

- **Slot engine** (`date_utils.dfy`, properties in
  `date_utils_properties.dfy`). For one place and one day, the engine looks
  up the place's weekly opening hours. Weekday names are matched
  case-insensitively, Sunday = 0. It then cuts the opening window into
  back-to-back slots of a fixed length. Finally it drops every slot that
  overlaps a booking of the coach that day at any place, or that leaves
  too little travel time before or after such a booking.
  - `AvailableSlots` is the declarative specification.
  - The method `CalculateAvailableSlotsWithBuffer` follows the
    application's loops: a `while` loop builds the candidates, and a
    filter walks the day's bookings with early rejection. It is proved to
    return exactly `AvailableSlots`.
- **Store** (`app_context.dfy`). The three collections: places, bookings
  and availability rules. Each one is replaced by add, update-by-id and
  delete-by-id. The transforms are pure functions; the class `AppStore`
  holds the three lists as fields.
- **Forms** (`availability_rule_form.dfy`, `place_form.dfy`,
  `booking_form.dfy`). Each form's validation, its error messages and its
  submit handler. Each form's state is a class, and submission calls the
  store. The browser's own handling of the number and email inputs (value
  cleanup and the check that can block a submission) is modelled too.
- **Support modules.**
  - `clock.dfy`: time as integer minutes (day index = instant div 1440,
    1 January 1970 a Thursday), a Gregorian date-to-day count that ties
    weekdays to calendar dates, plus strict "HH:mm" parsing and
    formatting.
  - `text.dfy`: JavaScript `trim`, ASCII case folding and string order.
  - `entities.dfy`: the records.
  - `common.dfy`: `find`/`findIndex` and a subsequence relation.

Within one area the required travel buffer is always the destination's.
After an earlier booking, the coach travels to the queried place, so its
buffer applies. Before a later booking, the coach travels to the booked
place, so that place's buffer applies. Across areas the larger of the two
buffers applies.

## Model

| member | source | states |
|---|---|---|
| Common.Max | src/utils/dateUtils.js:154 | `Math.max`: the result is one of the two and no smaller than either |
| Common.FindIndex | src/components/admin/AvailabilityRuleForm.js:139 | the first index satisfying the test, or -1 when none does |
| Common.Find | src/utils/dateUtils.js:76 | `find`: None exactly when no element satisfies the test, otherwise the element at the first position that does |
| Common.FindIndexPointwise | src/utils/dateUtils.js:97-100 | two lists that agree element by element on the test give the same first match |
| Common.SubsequenceExtend | src/utils/dateUtils.js:127 | appending one element to both lists, or only to the larger, keeps an order-preserving selection |
| Text.TrimStart | src/components/admin/PlaceForm.js:47 | strips exactly the leading JavaScript white space |
| Text.TrimEnd | src/components/admin/PlaceForm.js:47 | strips exactly the trailing JavaScript white space |
| Text.TrimEmptyIffBlank | src/components/admin/PlaceForm.js:47-55 | `!s.trim()` holds exactly when every character is white space |
| Text.LowerOfUpper | src/utils/dateUtils.js:52 | lower-casing forgets the case a name was stored in |
| Text.StrLessTrichotomy | src/components/admin/AvailabilityRuleForm.js:109 | JavaScript string `<` is a strict total order, so `>=` is its complement |
| Clock.Weekday | src/utils/dateUtils.js:46 | `getDay` yields 0..6 |
| Clock.WeekdayNext | src/utils/dateUtils.js:46 | the day after a given day has the next weekday, Saturday followed by Sunday |
| Clock.WeekdayPeriod | src/utils/dateUtils.js:46 | days a whole number of weeks apart share their weekday |
| Clock.EpochIsThursday | src/utils/dateUtils.js:46 | 1 January 1970 is day 0 and a Thursday |
| Clock.NewYear2024IsMonday | src/utils/dateUtils.js:46 | 1 January 2024 is a Monday |
| Clock.NewYear2000IsSaturday | src/utils/dateUtils.js:46 | 1 January 2000 is a Saturday |
| Clock.LeapDay2024 | src/utils/dateUtils.js:46 | 29 February 2024 is followed by 1 March 2024 |
| Clock.DayStart | src/utils/dateUtils.js:80 | `startOfDay` lies on its own day |
| Clock.WithinDay | src/utils/dateUtils.js:83-86 | every minute of a day's 1440 belongs to that day (`isSameDay`) |
| Clock.ParseTime | src/utils/dateUtils.js:104-105 | an accepted "HH:mm" text is a minute of the day, 0..1439 |
| Clock.FormatTime | src/utils/dateUtils.js:4-6 | `formatTime` gives five characters with ':' in the middle |
| Clock.FormatThenParse | src/utils/dateUtils.js:4-6 | parsing a formatted instant gives back its minute of day |
| Clock.ParseThenFormat | src/utils/dateUtils.js:104-105 | every accepted time text is the canonical form of its value |
| Clock.TimeStringOrder | src/components/admin/AvailabilityRuleForm.js:109 | on "HH:mm" texts string order is chronological order |
| Entities.Slot.StartFormatted | src/utils/dateUtils.js:118 | the start text shown with a slot parses back to the slot's start minute |
| Entities.Slot.EndFormatted | src/utils/dateUtils.js:119 | the end text shown with a slot parses back to the slot's end minute |
| DateUtils.DayOrdinalNames | src/utils/dateUtils.js:51-52 | `dayMap` gives each of the seven names its place in the week, Sunday = 0, and nothing else has an ordinal |
| DateUtils.FindDayRule | src/utils/dateUtils.js:97-100 | the chosen rule names the weekday; None exactly when no rule does |
| DateUtils.FindPlace | src/utils/dateUtils.js:76 | a found place carries the id; None exactly when no place does |
| DateUtils.FindRuleSet | src/utils/dateUtils.js:89 | a found record is for the place; None exactly when no record is |
| DateUtils.IsWithinAvailabilityRules | src/utils/dateUtils.js:45-65 | true exactly when the first rule naming the instant's weekday has two valid times and the instant's minute of day lies between them, both ends included |
| DateUtils.RequiredBuffer | src/utils/dateUtils.js:144-156 | no buffer at the same place; otherwise at least the destination's buffer, exactly that within one area, and across areas the larger of the two buffers |
| DateUtils.AvailableSlots | src/utils/dateUtils.js:75-190 | no slots on a day without an opening window; every returned slot is one of the day's candidates |
| DateUtils.IsOverlappingWithBookings | src/utils/dateUtils.js:31-42 | true exactly when some booking, at any place, overlaps the interval, touching ends excluded |
| DateUtils.GenerateAvailableSlots | src/utils/dateUtils.js:69-72 | the deprecated generator returns the empty list |
| DateUtils.SameDayBookings | src/utils/dateUtils.js:83-86 | keeps exactly the bookings whose start lies on the queried day |
| DateUtils.SlotsFromIsTiling | src/utils/dateUtils.js:108-124 | the slots the loop pushes are the tiling of the opening window |
| DateUtils.SlotsFromSuffix | src/utils/dateUtils.js:108-124 | from the k-th candidate on, the loop pushes the tiling's suffix |
| DateUtils.KeepAdmissible | src/utils/dateUtils.js:127-189 | a slot survives the filter exactly when it is a candidate and admissible |
| DateUtils.TileCountFits | src/utils/dateUtils.js:111-113 | the whole slots fit in the window and one more would end after closing |
| DateUtils.CandidateInWindow | src/utils/dateUtils.js:112-117 | candidate k spans one duration from open + k·duration and lies inside the window |
| DateUtils.TileCountZero | src/utils/dateUtils.js:111-113 | a window shorter than one slot yields no slot |
| DateUtils.IsSlotAvailable | src/utils/dateUtils.js:127-189 | the filter callback (overlap test, then the loop over bookings with early rejection) accepts exactly the admissible slots |
| DateUtils.CalculateAvailableSlotsWithBuffer | src/utils/dateUtils.js:75-190 | the engine returns exactly `AvailableSlots` |
| DateUtils.ResolveOpeningWindow | src/utils/dateUtils.js:76-105 | the place lookup, rule lookup, weekday lookup and time parsing yield the day's opening window, or none |
| DateUtils.GeneratePossibleSlots | src/utils/dateUtils.js:108-124 | the `while` loop produces exactly the tiling |
| DateUtils.FilterAvailable | src/utils/dateUtils.js:127-189 | `possibleSlots.filter` keeps exactly the admissible candidates, in order |
| DateUtilsProperties.WeekdayLookup | src/utils/dateUtils.js:97-100 | a rule applies to a weekday exactly when its lower-cased day is that weekday's name, whatever its case; unknown names never apply |
| DateUtilsProperties.DayRuleIsFirstMatch | src/utils/dateUtils.js:97-100 | the engine uses the first entry that names the weekday |
| DateUtilsProperties.PlaceIsFirstMatch | src/utils/dateUtils.js:76 | the engine uses the first place record carrying the id |
| DateUtilsProperties.RuleSetIsFirstMatch | src/utils/dateUtils.js:89 | the engine uses the first rule record for the place |
| DateUtilsProperties.OutsideRulesOnUnnamedDay | src/utils/dateUtils.js:49-57 | `isWithinAvailabilityRules` is false on a weekday no rule names |
| DateUtilsProperties.WithinRulesInclusive | src/utils/dateUtils.js:45-65 | otherwise the first matching rule decides, and its opening and closing minutes both count as inside |
| DateUtilsProperties.EmptyWhenUnresolved | src/utils/dateUtils.js:76-102 | no slots for an unknown place, for a place with no rule record, or on a weekday its record does not name |
| DateUtilsProperties.EmptyWhenWindowTooShort | src/utils/dateUtils.js:111-113 | no slots when the window is shorter than one slot |
| DateUtilsProperties.TilingShape | src/utils/dateUtils.js:108-124 | floor((close − open)/duration) candidates; candidate k = [open + k·d, open + (k+1)·d); all inside the window, back to back; a partial trailing slot is dropped |
| DateUtilsProperties.TilingChronological | src/utils/dateUtils.js:108-124 | the candidates are increasing and non-overlapping |
| DateUtilsProperties.CandidateOrder | src/utils/dateUtils.js:112-123 | each candidate ends after it starts and no later than any later one starts |
| DateUtilsProperties.TenToSixInHours | src/utils/dateUtils.js:108-124 | 10:00 to 18:00 in 60-minute slots gives eight slots, 10:00 to 17:00 start, the last ending at 18:00 |
| DateUtilsProperties.KeepIsSubsequence | src/utils/dateUtils.js:127 | filtering yields an order-preserving selection of the candidates |
| DateUtilsProperties.KeepChronological | src/utils/dateUtils.js:127 | filtering an increasing, non-overlapping list keeps it so |
| DateUtilsProperties.ResultOrderedSubsequence | src/utils/dateUtils.js:127-189 | the result is an order-preserving selection of the candidates, increasing and non-overlapping |
| DateUtilsProperties.AvailableSlotsCharacterised | src/utils/dateUtils.js:127-189 | a slot is returned exactly when it is a candidate and admissible against the day's bookings |
| DateUtilsProperties.NoDoubleBooking | src/utils/dateUtils.js:129-132 | no returned slot overlaps a booking that starts that day, at any place, including unknown places |
| DateUtilsProperties.BufferAfterEarlierBooking | src/utils/dateUtils.js:142-163 | after a booking at a known place: gap ≥ 0 at the same place, the queried place's buffer within one area, the larger buffer across areas |
| DateUtilsProperties.BufferBeforeLaterBooking | src/utils/dateUtils.js:166-185 | before a booking at a known place: gap ≥ 0 at the same place, the booked place's buffer within one area, the larger buffer across areas |
| DateUtilsProperties.UnknownPlaceBookingOnlyBlocksOverlap | src/utils/dateUtils.js:138-139 | adding a same-day booking at an unknown place removes exactly the slots it overlaps |
| DateUtilsProperties.KeepAllWhenNoBookings | src/utils/dateUtils.js:127-189 | with no bookings the filter keeps every candidate |
| DateUtilsProperties.NoneOnTheDay | src/utils/dateUtils.js:83-86 | bookings that all start on other days leave no same-day booking |
| DateUtilsProperties.NoSameDayBookingsKeepsTiling | src/utils/dateUtils.js:83-86 | with no booking starting that day, the result is the whole tiling |
| DateUtilsProperties.SlotsWithinOpeningHours | src/utils/dateUtils.js:104-124 | each returned slot lies on the day, and `isWithinAvailabilityRules` holds at its start and at its end |
| DateUtilsProperties.FindPlaceAligned | src/utils/dateUtils.js:138 | two place lists with the same ids at the same positions find an id at the same position |
| DateUtilsProperties.WindowAligned | src/utils/dateUtils.js:76-105 | changing place records that keep their ids changes neither whether the day is open nor its hours, and the engine's place keeps its position |
| DateUtilsProperties.BufferOkRequirementsRaised | src/utils/dateUtils.js:142-185 | a slot that passes under raised travel requirements passes under the original ones |
| DateUtilsProperties.RequirementMonotonic | src/utils/dateUtils.js:135-189 | when no travel requirement between two different place records shrinks (buffers may grow or shrink and areas may change), no slot becomes available |
| DateUtilsProperties.RequiredBufferRaised | src/utils/dateUtils.js:144-156 | the required buffer is monotone in both places' buffers |
| DateUtilsProperties.BuffersRaiseRequirements | src/utils/dateUtils.js:144-177 | larger buffers in unchanged areas raise every travel requirement |
| DateUtilsProperties.BufferMonotonic | src/utils/dateUtils.js:135-189 | larger buffers never make more slots available |
| DateUtilsProperties.AreaMoveRaisesRequirements | src/utils/dateUtils.js:144-177 | moving a place to another area while lowering its buffer raises every requirement between different places, though it is no raise of buffers |
| DateUtilsProperties.CrossAreaBufferExample | src/utils/dateUtils.js:142-162 | across areas the larger buffer (40) applies: 25 minutes after a booking is rejected, 40 accepted |
| DateUtilsProperties.SameAreaBufferExample | src/utils/dateUtils.js:142-162 | within an area the destination's buffer (15) applies: 12 minutes rejected, 16 accepted; at the same place no gap is needed |
| AppContext.Appended | src/contexts/AppContext.js:45-47 | adding grows the list by exactly one |
| AppContext.Updated | src/contexts/AppContext.js:50-52 | updating keeps the length |
| AppContext.Deleted | src/contexts/AppContext.js:55-57 | every kept record was there and has another id; every record with another id is kept |
| AppContext.AddAppendsOne | src/contexts/AppContext.js:45-47 | the earlier records stay in place and the new record, with the new id, comes last |
| AppContext.UpdateReplacesMatching | src/contexts/AppContext.js:50-52 | each position keeps its id; records with the id get the new data, the others are unchanged |
| AppContext.UpdateAbsentIsIdentity | src/contexts/AppContext.js:50-52 | updating an id no record carries changes nothing |
| AppContext.UpdateIdempotent | src/contexts/AppContext.js:50-52 | repeating an update changes nothing more |
| AppContext.DeleteConcat | src/contexts/AppContext.js:55-57 | deletion works record by record (distributes over concatenation) |
| AppContext.DeleteAbsentIsIdentity | src/contexts/AppContext.js:55-57 | deleting an id no record carries changes nothing |
| AppContext.DeleteIdempotent | src/contexts/AppContext.js:55-57 | deleting twice is deleting once |
| AppContext.DeleteKeepsOrder | src/contexts/AppContext.js:55-57 | the remaining records keep their order |
| AppContext.AppStore.constructor | src/contexts/AppContext.js:10-12 | the three collections start empty |
| AppContext.AppStore.AddPlace | src/contexts/AppContext.js:45-47 | the places list gains the new record; bookings and rules are unchanged |
| AppContext.AppStore.UpdatePlace | src/contexts/AppContext.js:50-52 | the places list is updated by id; bookings and rules are unchanged |
| AppContext.AppStore.DeletePlace | src/contexts/AppContext.js:55-57 | the places list loses the id; bookings and rules that refer to it are unchanged |
| AppContext.AppStore.AddBooking | src/contexts/AppContext.js:60-62 | the bookings list gains the new record; places and rules are unchanged |
| AppContext.AppStore.UpdateBooking | src/contexts/AppContext.js:65-67 | the bookings list is updated by id; places and rules are unchanged |
| AppContext.AppStore.DeleteBooking | src/contexts/AppContext.js:70-72 | the bookings list loses the id; places and rules are unchanged |
| AppContext.AppStore.AddAvailabilityRule | src/contexts/AppContext.js:75-77 | the rules list gains the new record; places and bookings are unchanged |
| AppContext.AppStore.UpdateAvailabilityRule | src/contexts/AppContext.js:80-82 | the rules list is updated by id; places and bookings are unchanged |
| AppContext.AppStore.DeleteAvailabilityRule | src/contexts/AppContext.js:85-87 | the rules list loses the id; places and bookings are unchanged |
| AvailabilityRuleForm.Blanks | src/components/admin/AvailabilityRuleForm.js:121 | one empty error triple per rule |
| AvailabilityRuleForm.ValidateRule | src/components/admin/AvailabilityRuleForm.js:90-115 | valid exactly when day, start and end are present and start < end as strings; a missing field gets its own message, an out-of-order end gets 'End time must be after start time' |
| AvailabilityRuleForm.RuleValidIffNoErrors | src/components/admin/AvailabilityRuleForm.js:90-115 | a rule is valid exactly when it gets no message |
| AvailabilityRuleForm.ValidRuleOpensWindow | src/components/admin/AvailabilityRuleForm.js:109-112 | for well-formed times the test is chronological, and equal times are rejected |
| AvailabilityRuleForm.Days | src/components/admin/AvailabilityRuleForm.js:138 | `rules.map(r => r.day)` |
| AvailabilityRuleForm.IndexOf | src/components/admin/AvailabilityRuleForm.js:139 | `indexOf`: the first position holding the day, or -1 |
| AvailabilityRuleForm.DuplicateFlaggedIffEarlier | src/components/admin/AvailabilityRuleForm.js:143-147 | a rule is marked exactly when an earlier rule has the same day string; a first occurrence never is |
| AvailabilityRuleForm.HasDuplicatesIffRepeat | src/components/admin/AvailabilityRuleForm.js:138-139 | the duplicate test fires exactly when two positions share a day string |
| AvailabilityRuleForm.FormErrorsOf | src/components/admin/AvailabilityRuleForm.js:119-135 | every rule gets its own error entry |
| AvailabilityRuleForm.ValidateForm | src/components/admin/AvailabilityRuleForm.js:117-152 | false when the place is empty, any rule fails or a day repeats; each rule's messages, with repeats marked 'Duplicate day' |
| AvailabilityRuleForm.MarkDuplicates | src/components/admin/AvailabilityRuleForm.js:141-148 | the second pass marks exactly the repeated days |
| AvailabilityRuleForm.FormValidIffNoErrors | src/components/admin/AvailabilityRuleForm.js:117-152 | the form is valid exactly when every message is empty |
| AvailabilityRuleForm.DuplicateDayInvalidates | src/components/admin/AvailabilityRuleForm.js:138-148 | two rules with the same day make the form invalid, and the later one is marked |
| AvailabilityRuleForm.WithField | src/components/admin/AvailabilityRuleForm.js:164 | the named field takes the value; the other fields are unchanged |
| AvailabilityRuleForm.WithoutPositionSplits | src/components/admin/AvailabilityRuleForm.js:159 | the position filter removes exactly one in-range position |
| AvailabilityRuleForm.RemoveRuleExact | src/components/admin/AvailabilityRuleForm.js:158-160 | removing drops exactly rule i and keeps the others in order; an index outside the list changes nothing |
| AvailabilityRuleForm.RuleFormState.constructor | src/components/admin/AvailabilityRuleForm.js:72-88 | an edit starts from the record, a new form from no place and the default rule; every rule starts without messages |
| AvailabilityRuleForm.RuleFormState.SetPlaceId | src/components/admin/AvailabilityRuleForm.js:203 | only the place id changes |
| AvailabilityRuleForm.RuleFormState.SetRules | src/components/admin/AvailabilityRuleForm.js:83-88 | replaces the rules; a change of length clears the rule messages |
| AvailabilityRuleForm.RuleFormState.HandleAddRule | src/components/admin/AvailabilityRuleForm.js:154-156 | appends {monday, 10:00, 18:00} |
| AvailabilityRuleForm.RuleFormState.HandleRemoveRule | src/components/admin/AvailabilityRuleForm.js:158-160 | removes the rule at the index |
| AvailabilityRuleForm.RuleFormState.HandleRuleChange | src/components/admin/AvailabilityRuleForm.js:162-166 | replaces one field of one rule; nothing else changes |
| AvailabilityRuleForm.RuleFormState.Validate | src/components/admin/AvailabilityRuleForm.js:117-152 | stores the messages and returns the verdict |
| AvailabilityRuleForm.RuleFormState.HandleSubmit | src/components/admin/AvailabilityRuleForm.js:168-194 | nothing is written unless valid; an edit updates the record, an add appends under the new id and resets to the default rule |
| PlaceForm.ValidatePlace | src/components/admin/PlaceForm.js:39-64 | each failed check writes its own message; valid exactly when none fails |
| PlaceForm.PlaceValidIffNoErrors | src/components/admin/PlaceForm.js:39-64 | valid exactly when no message is written; each message depends on its own field only |
| PlaceForm.WhitespaceOnlyRejected | src/components/admin/PlaceForm.js:47-50 | a name that trims to empty is rejected with 'Place name is required' |
| PlaceForm.DigitsOfValue | src/components/admin/PlaceForm.js:119 | the decimal digits of a number spell that number |
| PlaceForm.FromNumber | src/components/admin/PlaceForm.js:119 | a number held in the form's state shows as an integer text |
| PlaceForm.FromNumberValue | src/components/admin/PlaceForm.js:119 | the field showing a number holds that number |
| PlaceForm.ParseIntBuffer | src/components/admin/PlaceForm.js:74 | `parseInt` gives a number exactly when the text starts with a digit after its sign |
| PlaceForm.ParseIntOfInteger | src/components/admin/PlaceForm.js:74 | on a plain integer text `parseInt` gives the number the field holds |
| PlaceForm.FractionExponentStoredAsZero | src/components/admin/PlaceForm.js:74 | "0.5e1" passes the browser and `validate`, yet `parseInt` gives 0 instead of 5 |
| PlaceForm.ExponentStoredAsMantissa | src/components/admin/PlaceForm.js:74 | "1e1" passes the browser and `validate`, yet `parseInt` gives 1 instead of 10 |
| PlaceForm.LeadingPointStoredAsNaN | src/components/admin/PlaceForm.js:74 | ".5e1" passes the browser and `validate`, yet `parseInt` gives NaN instead of 5 |
| PlaceForm.UnreadableLooksBlank | src/components/admin/PlaceForm.js:57-60 | text the number input cannot read reaches `validate` and `parseInt` as the same "" an empty field gives, yet only the empty field lets the form submit |
| PlaceForm.BufferMinutes | src/components/admin/PlaceForm.js:74 | the corrected reading of the buffer field: the whole part of the number it holds, where the program calls `parseInt` |
| PlaceForm.BufferMinutesExact | src/components/admin/PlaceForm.js:57-60 | a field the browser submits and `validate` accepts holds a positive whole number, stored exactly |
| PlaceForm.PlaceData | src/components/admin/PlaceForm.js:71-75 | under the corrected reading: the texts as typed and, for a field the browser submits, the buffer as the number the field holds (the program stores `parseInt`'s result, see Findings) |
| PlaceForm.StoredPlaceNeedsTravelTime | src/components/admin/PlaceForm.js:57-60 | under the corrected reading, a place the browser submits and `validate` accepts is stored with a positive buffer, so changing to or from it always needs travel time; the program as written can store 0 (Findings) |
| PlaceForm.PlaceFormState.constructor | src/components/admin/PlaceForm.js:29-37 | an edit starts from the place, a new form from '', '' and 30 |
| PlaceForm.PlaceFormState.SetFields | src/components/admin/PlaceForm.js:103-120 | the fields take the typed values |
| PlaceForm.PlaceFormState.Validate | src/components/admin/PlaceForm.js:39-64 | stores the messages and returns the verdict |
| PlaceForm.PlaceFormState.HandleSubmit | src/components/admin/PlaceForm.js:66-94 | nothing is written unless valid; an edit keeps the place's id, an add appends and resets the fields to '', '', 30; the stored buffer is the corrected reading |
| PlaceForm.PlaceFormState.Submit | src/components/admin/PlaceForm.js:99-124 | a buffer that is negative, fractional or unreadable blocks the submission and changes nothing, messages included; otherwise `handleSubmit` runs; the store changes only for a submittable, valid form; the fields are reset after an add and otherwise stay |
| BookingForm.LastIndexOf | src/components/booking/BookingForm.js:76 | the last position of the character, or -1 |
| BookingForm.EmailPatternTestCorrect | src/components/booking/BookingForm.js:76 | the executable test (first '@', last '.') decides the email pattern |
| BookingForm.PaddedEmailRejected | src/components/booking/BookingForm.js:73-76 | states the pattern's own behaviour: it fails on white space at either end; in the application the email input strips ASCII padding and blocks text carrying any other white space, so `validate` never sees padded text |
| BookingForm.PaddedEmailBlocked | src/components/booking/BookingForm.js:137-144 | any white space left at either end of the input's value, such as a no-break space, makes the browser block the submission |
| BookingForm.EmailFieldValue | src/components/booking/BookingForm.js:137-144 | the value the email input hands over has no line breaks and no ASCII white space at either end |
| BookingForm.PaddedEmailAccepted | src/components/booking/BookingForm.js:137-144 | an address typed with white space or line breaks around it reaches the state as the bare address |
| BookingForm.MatchHasNoSpace | src/components/booking/BookingForm.js:76 | a text the pattern accepts contains no white space or line break |
| BookingForm.EmptyLabelBlocked | src/components/booking/BookingForm.js:137-144 | "a@b..com" matches the pattern, yet the email input blocks the submission |
| BookingForm.HyphenLabelBlocked | src/components/booking/BookingForm.js:137-144 | "a@-b.com" matches the pattern, yet the email input blocks the submission |
| BookingForm.LeadingDotBlocked | src/components/booking/BookingForm.js:137-144 | "a@.b.com" matches the pattern, yet the email input blocks the submission |
| BookingForm.MatchIsNotBlank | src/components/booking/BookingForm.js:73-79 | a matching email is never blank |
| BookingForm.EmailExampleAccepted | src/components/booking/BookingForm.js:76 | "J.W+1@x-y.COM" matches |
| BookingForm.EmailExampleNoDot | src/components/booking/BookingForm.js:76 | a host without a dot does not match |
| BookingForm.EmailExampleShortEnding | src/components/booking/BookingForm.js:76 | a one-letter ending does not match |
| BookingForm.EmailExampleTwoAts | src/components/booking/BookingForm.js:76 | a second '@' does not match |
| BookingForm.ValidateBooking | src/components/booking/BookingForm.js:61-83 | 'Name is required' for a blank name; 'Email is required' for a blank email without consulting the pattern; otherwise 'Invalid email address' when the pattern fails |
| BookingForm.BookingValidIffNoErrors | src/components/booking/BookingForm.js:61-83 | valid exactly when no message is written, that is a non-blank name and a matching email |
| BookingForm.BookingData | src/components/booking/BookingForm.js:90-97 | the booking carries the selected place, the slot's start and end and the selected date |
| BookingForm.BookedSlotNoLongerOffered | src/components/booking/BookingForm.js:90-99 | once a booking made from an offered slot is stored, the engine stops offering that slot |
| BookingForm.BookingFormState.constructor | src/components/booking/BookingForm.js:51-57 | both fields start empty, without messages |
| BookingForm.BookingFormState.SetFields | src/components/booking/BookingForm.js:132-141 | the name takes the typed text and the email the value the email input hands over |
| BookingForm.BookingFormState.Validate | src/components/booking/BookingForm.js:61-83 | stores the messages and returns the verdict |
| BookingForm.BookingFormState.HandleSubmit | src/components/booking/BookingForm.js:85-104 | nothing is written unless valid; then exactly one booking for the selected place, slot and date is appended and both fields are cleared |
| BookingForm.BookingFormState.Submit | src/components/booking/BookingForm.js:128-147 | an email the input rejects blocks the submission and changes nothing; otherwise `handleSubmit` runs; a booking is stored only with an email both the input and the pattern accept; unless one is stored, the name and email stay |

## Findings

| source | as written | input that shows it | evidently intended | confidence | as-written member | corrected member |
|---|---|---|---|---|---|---|
| src/components/admin/PlaceForm.js:74 | `parseInt(bufferTime, 10)` reads only the digits before the first point or `e` of the field's number text | "0.5e1" (5 minutes) passes the browser's `min`/`step` check and `validate`, and is stored as 0; "1e1" is stored as 1 and ".5e1" as NaN | store the number the field holds, so a stored place always has a positive buffer | not executed | PlaceForm.FractionExponentStoredAsZero | PlaceForm.BufferMinutesExact |

`PlaceForm.ParseIntBuffer` models the call as written and
`PlaceForm.ExponentStoredAsMantissa` and `PlaceForm.LeadingPointStoredAsNaN`
give the other two inputs. The rest of the model uses the corrected
reading: `PlaceForm.PlaceData` and `PlaceForm.PlaceFormState.HandleSubmit`
store `PlaceForm.BufferMinutes`, and
`PlaceForm.StoredPlaceNeedsTravelTime` holds of that reading, not of the
program as written.

## Left out

- Time zones and daylight saving. An instant is a count of minutes with
  1440 minutes in every day. `new Date(...)` on the ISO texts of booking
  times, and the millisecond-to-minute division at
  src/utils/dateUtils.js:158 and 180, become exact integer minutes.
- `formatDate`, `formatDisplayDate`, `parseDateTime` and `getDaysInMonth`
  (src/utils/dateUtils.js:8-28) are calendar display helpers that the
  engine does not use; they are not part of this model.
- DateUtils.IsOverlappingWithBookings: answers the plain strict overlap
  test for a booking whose start is after its end. date-fns
  `areIntervalsOverlapping` throws a RangeError on such an interval
  (version 2) or swaps its ends (version 3). The forms only store bookings
  made from offered slots, whose start precedes their end.
- Clock.ParseTime: accepts only two-digit hours and minutes and nothing
  after them. The date-fns parser also accepts one-digit fields and
  trailing white space after "HH:mm"; the forms' time inputs always
  produce the bare two-digit form.
- DateUtils.IsWithinAvailabilityRules: answers false where date-fns is
  given an inverted interval or an Invalid Date, cases in which date-fns
  may throw instead.
- DateUtils.CalculateAvailableSlotsWithBuffer: requires a positive slot
  length. The application's loop does not end for a length of zero or
  less.
- Fresh record ids come from `Date.now()` in the application. Here they
  are a parameter of every add and submit, and their uniqueness is not
  assumed.
- Text.ToLower: folds ASCII letters only. Full Unicode lower-casing maps
  no other character onto the ASCII letters of a weekday name except the
  Kelvin sign, and "k" occurs in no weekday name, so matching is
  unaffected.
- Text.StrLess: compares characters (code points). JavaScript compares
  UTF-16 code units, which orders characters outside the Basic
  Multilingual Plane differently. Time texts and day names are ASCII.
- PlaceForm.NumberValue: the number a buffer text holds is an exact
  rational. The browser and `Number` round it to a double, which differs
  only for texts with more than 15 significant digits or an exponent
  beyond the double range.
- PlaceForm.PlaceData: stores the corrected reading `BufferMinutes` of
  the buffer field, where src/components/admin/PlaceForm.js:74 stores
  `parseInt`'s result (`PlaceForm.ParseIntBuffer`). The two agree on plain
  integer texts (`PlaceForm.ParseIntOfInteger`) and differ on texts with a
  point or an exponent, as the Findings table records. A NaN buffer cannot
  be held in the integer place record.
- PlaceForm.PlaceFormState.HandleSubmit: stores `PlaceData`, so it too
  writes the corrected buffer, not `parseInt`'s result.
- PlaceForm.StoredPlaceNeedsTravelTime: holds of the corrected reading
  only. The program as written stores 0 for "0.5e1"
  (`PlaceForm.FractionExponentStoredAsZero`).
- PlaceForm.Submittable: the browser's constraint validation (`min="0"`,
  default step 1, text it cannot read as a number) is modelled as the
  first step of `PlaceForm.PlaceFormState.Submit`. The message the browser
  shows when it blocks a submission is not modelled.
- BookingForm.PaddedEmailRejected: states what the pattern does with
  padded text. Through a submission no padded text reaches the pattern:
  the email input strips ASCII white space (`BookingForm.PaddedEmailAccepted`)
  and blocks any other (`BookingForm.PaddedEmailBlocked`).
- BookingForm.IsHtmlDomain: does not model the limit of 63 characters per
  domain label. An address with a longer label is accepted here and
  blocked by the browser.
- The forms' name and area inputs are single-line text inputs whose values the
  browser cleans of line breaks; a typed line break cannot occur there,
  so the texts are taken as given.
- AvailabilityRuleForm.RuleFormState.HandleRuleChange: requires an index
  of a rendered rule. The application only calls it from the inputs of
  existing rules.
- The `onCancel` and `onSuccess` callbacks, rendering, routing, the
  booking page, the place selector, persistence to local storage and its
  effects, seed data, and `console.warn` are not modelled.
- Concurrency: two clients booking the same slot at once is not
  modelled.
