/** The client's booking form: a name and an email for the slot chosen on
    the booking page. The email must match the pattern
    `^[A-Z0-9._%+-]+@[A-Z0-9.-]+\.[A-Z]{2,}$` case-insensitively, applied
    to the text the email input hands over, which the browser has already
    cleaned and, on submission, checked against its own address syntax. */
module BookingForm {
  import opened Common
  import opened Text
  import opened Clock
  import opened Entities
  import opened AppContext
  import opened DateUtils
  import opened DateUtilsProperties

  const NameRequired := "Name is required"
  const EmailRequired := "Email is required"
  const EmailInvalid := "Invalid email address"

  datatype BookingErrors = BookingErrors(name: string, email: string)

  const NoBookingErrors := BookingErrors("", "")

  // ---------------------------------------------------------------------
  // The email pattern

  /** `[A-Z]` under the `i` flag: an ASCII letter of either case. Without
      the `u` flag no non-ASCII character folds onto an ASCII letter. */
  predicate IsLetter(c: char) {
    'A' <= c <= 'Z' || 'a' <= c <= 'z'
  }

  predicate IsAlnum(c: char) {
    IsLetter(c) || '0' <= c <= '9'
  }

  /** `[A-Z0-9._%+-]`. */
  predicate IsLocalChar(c: char) {
    IsAlnum(c) || c == '.' || c == '_' || c == '%' || c == '+' || c == '-'
  }

  /** `[A-Z0-9.-]`. */
  predicate IsDomainChar(c: char) {
    IsAlnum(c) || c == '.' || c == '-'
  }

  /** The whole text matches the pattern: a non-empty local part, '@', a
      non-empty domain run, '.', and two or more letters, nothing before or
      after. */
  ghost predicate MatchesEmailPattern(s: string) {
    exists at, dot :: EmailSplit(s, at, dot)
  }

  /** `s[at]` is the '@' and `s[dot]` the final '.' of a match. */
  predicate EmailSplit(s: string, at: int, dot: int) {
    && 0 < at && at + 1 < dot && dot + 3 <= |s|
    && s[at] == '@' && s[dot] == '.'
    && (forall i :: 0 <= i < at ==> IsLocalChar(s[i]))
    && (forall i :: at < i < dot ==> IsDomainChar(s[i]))
    && (forall i :: dot < i < |s| ==> IsLetter(s[i]))
  }

  /** Position of the last `c` in `s`, or -1. */
  function LastIndexOf(s: string, c: char): (r: int)
    ensures -1 <= r < |s|
    ensures r >= 0 ==> s[r] == c
    ensures forall j :: r < j < |s| ==> s[j] != c
  {
    if |s| == 0 then -1
    else if s[|s| - 1] == c then |s| - 1
    else LastIndexOf(s[..|s| - 1], c)
  }

  /** A decision procedure for the pattern: the '@' can only be the first
      one, since neither part admits another; the '.' can only be the last
      one, since the final letters admit none. */
  function EmailPatternTest(s: string): bool {
    var at := FindIndex(s, ch => ch == '@');
    var dot := LastIndexOf(s, '.');
    at >= 0 && EmailSplit(s, at, dot)
  }

  /** The test decides the pattern. */
  lemma EmailPatternTestCorrect(s: string)
    ensures EmailPatternTest(s) <==> MatchesEmailPattern(s)
  {
    var at := FindIndex(s, ch => ch == '@');
    var dot := LastIndexOf(s, '.');
    if MatchesEmailPattern(s) {
      var at', dot' :| EmailSplit(s, at', dot');
      assert at == at' by {
        assert !IsLocalChar('@');
      }
      assert dot == dot' by {
        assert !IsLetter('.');
      }
    }
    if EmailPatternTest(s) {
      assert EmailSplit(s, at, dot);
    }
  }

  /** The pattern itself admits no white space at either end. In the
      application `validate` never sees padded text: the email input strips
      ASCII padding (`PaddedEmailAccepted`) and blocks the submission of
      text carrying any other white space at an end (`PaddedEmailBlocked`). */
  lemma PaddedEmailRejected(s: string)
    requires |s| > 0 && (IsJsSpace(s[0]) || IsJsSpace(s[|s| - 1]))
    ensures !MatchesEmailPattern(s)
  {
  }

  /** Every matching text contains something other than white space. */
  lemma MatchIsNotBlank(s: string)
    requires MatchesEmailPattern(s)
    ensures !IsBlank(s)
  {
    var at, dot :| EmailSplit(s, at, dot);
    assert !IsJsSpace(s[at]);
  }

  /** An address with a dot and a plus in its local part and an upper-case
      ending matches. */
  lemma EmailExampleAccepted()
    ensures MatchesEmailPattern("J.W+1@x-y.COM")
  {
    assert EmailSplit("J.W+1@x-y.COM", 5, 9);
  }

  /** A host name without a dot does not match. */
  lemma EmailExampleNoDot()
    ensures !MatchesEmailPattern("ann@localhost")
  {
    var s := "ann@localhost";
    assert forall i :: 0 <= i < |s| ==> s[i] != '.';
  }

  /** A one-letter ending does not match. */
  lemma EmailExampleShortEnding()
    ensures !MatchesEmailPattern("ann@mail.c")
  {
    var s := "ann@mail.c";
    assert forall i :: 0 <= i < |s| && s[i] == '.' ==> i == 8;
  }

  /** A second '@' does not match. */
  lemma EmailExampleTwoAts()
    ensures !MatchesEmailPattern("a@b@mail.com")
  {
    var s := "a@b@mail.com";
    assert forall i :: 0 <= i < |s| && s[i] == '@' ==> i == 1 || i == 3;
    assert !IsDomainChar(s[3]) && !IsLocalChar(s[1]);
  }

  // ---------------------------------------------------------------------
  // The email input (`type="email"`)

  /** ASCII white space of the HTML standard: tab, line feed, form feed,
      carriage return and space. */
  predicate IsAsciiSpace(c: char) {
    c == '\t' || c == '\n' || c == '\U{000C}' || c == '\r' || c == ' '
  }

  /** Drops every line feed and carriage return. */
  function StripNewlines(s: string): (r: string)
    ensures forall i :: 0 <= i < |r| ==> r[i] != '\n' && r[i] != '\r'
  {
    if |s| == 0 then []
    else (if s[0] == '\n' || s[0] == '\r' then [] else [s[0]]) + StripNewlines(s[1..])
  }

  function StripLeadingAscii(s: string): (r: string)
    ensures |r| <= |s| && r == s[|s| - |r|..]
    ensures forall i :: 0 <= i < |s| - |r| ==> IsAsciiSpace(s[i])
    ensures r == [] || !IsAsciiSpace(r[0])
  {
    if |s| > 0 && IsAsciiSpace(s[0]) then StripLeadingAscii(s[1..]) else s
  }

  function StripTrailingAscii(s: string): (r: string)
    ensures |r| <= |s| && r == s[..|r|]
    ensures forall i :: |r| <= i < |s| ==> IsAsciiSpace(s[i])
    ensures r == [] || !IsAsciiSpace(r[|r| - 1])
  {
    if |s| > 0 && IsAsciiSpace(s[|s| - 1]) then StripTrailingAscii(s[..|s| - 1]) else s
  }

  /** The value an email input hands to `onChange`: the browser's value
      sanitization strips newlines and leading and trailing ASCII white
      space from the typed text. */
  function EmailFieldValue(typed: string): (v: string)
    ensures v == [] || (!IsAsciiSpace(v[0]) && !IsAsciiSpace(v[|v| - 1]))
    ensures forall i :: 0 <= i < |v| ==> v[i] != '\n' && v[i] != '\r'
  {
    var n := StripNewlines(typed);
    var u := StripLeadingAscii(n);
    SliceKeepsNoNewline(n, |n| - |u|, |n|);
    SliceKeepsNoNewline(u, 0, |StripTrailingAscii(u)|);
    StripTrailingAscii(u)
  }

  lemma SliceKeepsNoNewline(s: string, lo: int, hi: int)
    requires 0 <= lo <= hi <= |s|
    requires forall i :: 0 <= i < |s| ==> s[i] != '\n' && s[i] != '\r'
    ensures forall i :: 0 <= i < hi - lo ==> s[lo..hi][i] != '\n' && s[lo..hi][i] != '\r'
  {
  }

  lemma {:induction false} StripNewlinesConcat(a: string, b: string)
    ensures StripNewlines(a + b) == StripNewlines(a) + StripNewlines(b)
  {
    if |a| > 0 {
      assert (a + b)[1..] == a[1..] + b;
      assert (a + b)[0] == a[0];
      StripNewlinesConcat(a[1..], b);
      var head := if a[0] == '\n' || a[0] == '\r' then [] else [a[0]];
      calc {
        StripNewlines(a + b);
        head + StripNewlines(a[1..] + b);
        head + (StripNewlines(a[1..]) + StripNewlines(b));
        (head + StripNewlines(a[1..])) + StripNewlines(b);
      }
    } else {
      assert a + b == b;
    }
  }

  lemma {:induction false} StripNewlinesSpaces(s: string)
    requires forall i :: 0 <= i < |s| ==> IsAsciiSpace(s[i])
    ensures forall i :: 0 <= i < |StripNewlines(s)| ==> IsAsciiSpace(StripNewlines(s)[i])
  {
    if |s| > 0 {
      StripNewlinesSpaces(s[1..]);
    }
  }

  lemma {:induction false} StripNewlinesKeeps(s: string)
    requires forall i :: 0 <= i < |s| ==> s[i] != '\n' && s[i] != '\r'
    ensures StripNewlines(s) == s
  {
    if |s| > 0 {
      StripNewlinesKeeps(s[1..]);
    }
  }

  lemma {:induction false} StripLeadingPadding(pad: string, s: string)
    requires forall i :: 0 <= i < |pad| ==> IsAsciiSpace(pad[i])
    requires |s| > 0 && !IsAsciiSpace(s[0])
    ensures StripLeadingAscii(pad + s) == s
  {
    if |pad| > 0 {
      assert (pad + s)[1..] == pad[1..] + s;
      StripLeadingPadding(pad[1..], s);
    } else {
      assert pad + s == s;
    }
  }

  lemma {:induction false} StripTrailingPadding(s: string, pad: string)
    requires forall i :: 0 <= i < |pad| ==> IsAsciiSpace(pad[i])
    requires |s| > 0 && !IsAsciiSpace(s[|s| - 1])
    ensures StripTrailingAscii(s + pad) == s
  {
    if |pad| > 0 {
      assert (s + pad)[..|s + pad| - 1] == s + pad[..|pad| - 1];
      StripTrailingPadding(s, pad[..|pad| - 1]);
    } else {
      assert s + pad == s;
    }
  }

  /** Every character of a matching text is part of the pattern, so none
      is white space or a line break. */
  lemma MatchHasNoSpace(s: string)
    requires MatchesEmailPattern(s)
    ensures |s| > 0
    ensures forall i :: 0 <= i < |s| ==> !IsAsciiSpace(s[i]) && s[i] != '\n' && s[i] != '\r'
  {
    var at, dot :| EmailSplit(s, at, dot);
    forall i | 0 <= i < |s| ensures !IsAsciiSpace(s[i]) && s[i] != '\n' && s[i] != '\r' {
      if i < at {
        assert IsLocalChar(s[i]);
      } else if at < i < dot {
        assert IsDomainChar(s[i]);
      } else if dot < i {
        assert IsLetter(s[i]);
      }
    }
  }

  /** An address typed with white space or line breaks around it reaches the
      form's state without them, so `validate` accepts it. */
  lemma PaddedEmailAccepted(before: string, e: string, after: string)
    requires forall i :: 0 <= i < |before| ==> IsAsciiSpace(before[i])
    requires forall i :: 0 <= i < |after| ==> IsAsciiSpace(after[i])
    requires MatchesEmailPattern(e)
    ensures EmailFieldValue(before + e + after) == e
  {
    MatchHasNoSpace(e);
    StripNewlinesKeeps(e);
    assert before + e + after == before + (e + after);
    StripNewlinesConcat(before, e + after);
    StripNewlinesConcat(e, after);
    StripNewlinesSpaces(before);
    StripNewlinesSpaces(after);
    var b, a := StripNewlines(before), StripNewlines(after);
    assert StripNewlines(before + e + after) == b + (e + a);
    assert (e + a)[0] == e[0];
    StripLeadingPadding(b, e + a);
    StripTrailingPadding(e, a);
  }

  /** A character of the local part of a valid e-mail address in the HTML
      standard. */
  predicate IsHtmlLocalChar(c: char) {
    IsAlnum(c) || c in ".!#$%&'*+/=?^_`{|}~-"
  }

  /** Labels of letters, digits and hyphens, separated by single dots, each
      starting and ending with a letter or digit. */
  predicate IsHtmlDomain(d: string) {
    && |d| > 0 && IsAlnum(d[0]) && IsAlnum(d[|d| - 1])
    && (forall i :: 0 <= i < |d| ==> IsAlnum(d[i]) || d[i] == '-' || d[i] == '.')
    && forall i :: 0 < i < |d| - 1 && d[i] == '.' ==> IsAlnum(d[i - 1]) && IsAlnum(d[i + 1])
  }

  /** A valid e-mail address in the HTML standard: a non-empty local part,
      '@' (the first one, since the local part admits none) and a domain. */
  predicate IsHtmlEmail(e: string) {
    var at := FindIndex(e, ch => ch == '@');
    && 0 < at
    && (forall i :: 0 <= i < at ==> IsHtmlLocalChar(e[i]))
    && IsHtmlDomain(e[at + 1..])
  }

  /** The input's constraint validation: an empty field passes, since the
      input is not `required`; otherwise the value must be a valid e-mail
      address, or the browser blocks the submission. */
  predicate EmailFieldAccepts(v: string) {
    v == [] || IsHtmlEmail(v)
  }

  /** The pattern accepts an empty label, which the browser blocks. */
  lemma EmptyLabelBlocked()
    ensures MatchesEmailPattern("a@b..com") && !EmailFieldAccepts("a@b..com")
  {
    assert EmailSplit("a@b..com", 1, 4);
    var d := "a@b..com"[2..];
    assert FindIndex("a@b..com", ch => ch == '@') == 1;
    assert d[1] == '.' && d[2] == '.';
  }

  /** The pattern accepts a label that starts with a hyphen, which the
      browser blocks. */
  lemma HyphenLabelBlocked()
    ensures MatchesEmailPattern("a@-b.com") && !EmailFieldAccepts("a@-b.com")
  {
    assert EmailSplit("a@-b.com", 1, 4);
    assert FindIndex("a@-b.com", ch => ch == '@') == 1;
    assert "a@-b.com"[2..][0] == '-';
  }

  /** The pattern accepts a domain that starts with a dot, which the
      browser blocks. */
  lemma LeadingDotBlocked()
    ensures MatchesEmailPattern("a@.b.com") && !EmailFieldAccepts("a@.b.com")
  {
    assert EmailSplit("a@.b.com", 1, 4);
    assert FindIndex("a@.b.com", ch => ch == '@') == 1;
    assert "a@.b.com"[2..][0] == '.';
  }

  /** White space left at either end of the input's value, such as a
      no-break space, fails the address syntax, so the browser blocks it. */
  lemma PaddedEmailBlocked(s: string)
    requires |s| > 0 && (IsJsSpace(s[0]) || IsJsSpace(s[|s| - 1]))
    ensures !EmailFieldAccepts(s)
  {
  }

  // ---------------------------------------------------------------------
  // Validation

  /** `validate` returns true exactly when the name is not blank, the email
      is not blank and the email matches the pattern. */
  ghost predicate BookingIsValid(name: string, email: string) {
    !IsBlank(name) && !IsBlank(email) && MatchesEmailPattern(email)
  }

  /** A blank email is reported as missing and the pattern is not
      consulted; a non-blank one that does not match is reported invalid. */
  ghost function BookingErrorsOf(name: string, email: string): BookingErrors {
    BookingErrors(
      if IsBlank(name) then NameRequired else "",
      if IsBlank(email) then EmailRequired
      else if !MatchesEmailPattern(email) then EmailInvalid
      else "")
  }

  method ValidateBooking(name: string, email: string) returns (isValid: bool, tempErrors: BookingErrors)
    ensures isValid == BookingIsValid(name, email)
    ensures tempErrors == BookingErrorsOf(name, email)
  {
    tempErrors := NoBookingErrors;
    isValid := true;
    TrimEmptyIffBlank(name);
    TrimEmptyIffBlank(email);
    EmailPatternTestCorrect(email);
    if Trim(name) == "" {
      tempErrors := tempErrors.(name := NameRequired);
      isValid := false;
    }
    if Trim(email) == "" {
      tempErrors := tempErrors.(email := EmailRequired);
      isValid := false;
    } else if !EmailPatternTest(email) {
      tempErrors := tempErrors.(email := EmailInvalid);
      isValid := false;
    }
  }

  /** Valid exactly when no message is written; the blank-email check adds
      nothing to the pattern, which already rejects blank text. */
  lemma BookingValidIffNoErrors(name: string, email: string)
    ensures BookingIsValid(name, email) <==> BookingErrorsOf(name, email) == NoBookingErrors
    ensures BookingIsValid(name, email) <==> !IsBlank(name) && MatchesEmailPattern(email)
  {
    if MatchesEmailPattern(email) {
      MatchIsNotBlank(email);
    }
  }

  /** `bookingData`: the selected place, the selected slot's instants and
      the selected date's text, with the name and email as typed. */
  function BookingData(name: string, email: string, selectedPlace: Id, selectedDate: string, selectedSlot: Slot)
    : (b: BookingInfo)
    ensures b.placeId == selectedPlace && b.bookingDate == selectedDate
    ensures b.startTime == selectedSlot.start && b.endTime == selectedSlot.end
    ensures b.name == name && b.email == email
  {
    BookingInfo(name, email, selectedPlace, selectedSlot.start, selectedSlot.end, selectedDate)
  }

  /** Once a booking made from an offered slot is stored, the engine no
      longer offers that slot. */
  lemma BookedSlotNoLongerOffered(
    date: int, placeId: Id, places: seq<Place>, bookings: seq<Booking>,
    availabilityRules: seq<AvailabilityRule>, duration: int,
    s: Slot, name: string, email: string, dateText: string, newId: Id)
    requires duration > 0
    requires s in AvailableSlots(date, placeId, places, bookings, availabilityRules, duration)
    ensures s !in AvailableSlots(date, placeId, places,
      Appended(bookings, newId, BookingData(name, email, placeId, dateText, s)), availabilityRules, duration)
  {
    SlotsWithinOpeningHours(date, placeId, places, bookings, availabilityRules, duration, s);
    ResultOrderedSubsequence(date, placeId, places, bookings, availabilityRules, duration);
    var r := AvailableSlots(date, placeId, places, bookings, availabilityRules, duration);
    var k :| 0 <= k < |r| && r[k] == s;
    assert s.start < s.end;
    var b := Record(newId, BookingData(name, email, placeId, dateText, s));
    var after := Appended(bookings, newId, b.data);
    assert b in after;
    if s in AvailableSlots(date, placeId, places, after, availabilityRules, duration) {
      NoDoubleBooking(date, placeId, places, after, availabilityRules, duration, s, b);
    }
  }

  // ---------------------------------------------------------------------
  // The form's state

  /** The state of the booking form for one chosen place, date and slot. */
  class BookingFormState {
    const selectedPlace: Id
    const selectedDate: string
    const selectedSlot: Slot
    var name: string
    var email: string
    var errors: BookingErrors

    constructor (selectedPlace: Id, selectedDate: string, selectedSlot: Slot)
      ensures this.selectedPlace == selectedPlace && this.selectedDate == selectedDate
      ensures this.selectedSlot == selectedSlot
      ensures name == "" && email == "" && errors == NoBookingErrors
    {
      this.selectedPlace, this.selectedDate, this.selectedSlot := selectedPlace, selectedDate, selectedSlot;
      name, email, errors := "", "", NoBookingErrors;
    }

    /** The two `onChange` handlers: the name as typed, the email as the
        input hands it over. */
    method SetFields(name: string, typedEmail: string)
      modifies this
      ensures this.name == name && this.email == EmailFieldValue(typedEmail) && errors == old(errors)
    {
      this.name, this.email := name, EmailFieldValue(typedEmail);
    }

    method Validate() returns (isValid: bool)
      modifies this
      ensures isValid == BookingIsValid(name, email)
      ensures errors == BookingErrorsOf(name, email)
      ensures name == old(name) && email == old(email)
    {
      var tempErrors;
      isValid, tempErrors := ValidateBooking(name, email);
      errors := tempErrors;
    }

    /** `handleSubmit`: a valid form appends one booking for the selected
        place, date and slot and clears both fields; an invalid one changes
        nothing but the messages. */
    method HandleSubmit(store: AppStore, newId: Id)
      modifies this, store
      ensures store.places == old(store.places) && store.availabilityRules == old(store.availabilityRules)
      ensures errors == BookingErrorsOf(old(name), old(email))
      ensures !BookingIsValid(old(name), old(email)) ==>
        store.bookings == old(store.bookings) && name == old(name) && email == old(email)
      ensures BookingIsValid(old(name), old(email)) ==>
        && store.bookings
           == Appended(old(store.bookings), newId,
                BookingData(old(name), old(email), selectedPlace, selectedDate, selectedSlot))
        && name == "" && email == ""
    {
      var ok := Validate();
      if !ok {
        return;
      }
      var bookingData := BookingData(name, email, selectedPlace, selectedDate, selectedSlot);
      store.AddBooking(bookingData, newId);
      SetFields("", "");
    }

    /** Pressing "Confirm Booking": the browser first runs the email
        input's constraint validation, and when it fails the form is not
        submitted and `handleSubmit` does not run. */
    method Submit(store: AppStore, newId: Id)
      modifies this, store
      ensures store.places == old(store.places) && store.availabilityRules == old(store.availabilityRules)
      ensures !EmailFieldAccepts(old(email)) ==>
        && store.bookings == old(store.bookings)
        && name == old(name) && email == old(email) && errors == old(errors)
      ensures EmailFieldAccepts(old(email)) ==> errors == BookingErrorsOf(old(name), old(email))
      ensures EmailFieldAccepts(old(email)) && BookingIsValid(old(name), old(email)) ==>
        && store.bookings
           == Appended(old(store.bookings), newId,
                BookingData(old(name), old(email), selectedPlace, selectedDate, selectedSlot))
        && name == "" && email == ""
      ensures store.bookings != old(store.bookings) ==>
        EmailFieldAccepts(old(email)) && MatchesEmailPattern(old(email)) && !IsBlank(old(name))
      ensures !(EmailFieldAccepts(old(email)) && BookingIsValid(old(name), old(email))) ==>
        name == old(name) && email == old(email)
    {
      if !EmailFieldAccepts(email) {
        return;
      }
      HandleSubmit(store, newId);
    }
  }
}
