/** The administrator's form for a place: a name, an area and a travel
    buffer in minutes. All three checks run and all failures are reported
    together; the place reaches the store only when none fails. */
module PlaceForm {
  import opened Common
  import opened Text
  import opened Entities
  import opened AppContext
  import opened DateUtils

  const NameRequired := "Place name is required"
  const AreaRequired := "Area is required"
  const BufferNotPositive := "Buffer time must be greater than 0"

  /** The initial buffer of a new place, in minutes. */
  const DefaultBuffer := 30

  /** A decimal digit. */
  type Digit = d: int | 0 <= d < 10

  /** The content of the numeric buffer field. A number input holds either
      nothing or a floating-point number text: an optional minus sign, the
      digits before the point, the digits after it (none when there is no
      point) and the exponent after an `e` (0 when there is none). So
      "0.5e1" is `Numeral(false, [0], [5], 1)`. Typed text the browser
      cannot read as a number ("1e", "-") is `Unreadable`: the input hands
      the form "" for it, as for an empty field, but reports bad input. */
  datatype BufferInput =
    | Blank
    | Unreadable
    | Numeral(negative: bool, whole: seq<Digit>, fraction: seq<Digit>, exponent: int)

  /** The number a digit string spells, most significant digit first. */
  function DigitsValue(ds: seq<Digit>): nat {
    if |ds| == 0 then 0 else 10 * DigitsValue(ds[..|ds| - 1]) + ds[|ds| - 1]
  }

  /** The decimal digits of a natural number, without leading zeros. */
  function DigitsOf(n: nat): (ds: seq<Digit>)
    ensures |ds| > 0
  {
    if n < 10 then [n] else DigitsOf(n / 10) + [n % 10]
  }

  lemma {:induction false} DigitsOfValue(n: nat)
    ensures DigitsValue(DigitsOf(n)) == n
  {
    if n >= 10 {
      DigitsOfValue(n / 10);
      var ds := DigitsOf(n);
      assert ds[..|ds| - 1] == DigitsOf(n / 10);
    }
  }

  /** Ten to an integer power. */
  function Pow10(e: int): (r: real)
    ensures r > 0.0
    decreases if e < 0 then -e else e
  {
    if e == 0 then 1.0 else if e > 0 then 10.0 * Pow10(e - 1) else Pow10(e + 1) / 10.0
  }

  /** The number the field holds (what `Number` makes of its text). */
  function NumberValue(b: BufferInput): real
    requires b.Numeral?
  {
    (if b.negative then -1.0 else 1.0) * (DigitsValue(b.whole + b.fraction) as real) * Pow10(b.exponent - |b.fraction|)
  }

  /** The field as the number input shows a number held in the form's
      state (`value={bufferTime}`): its decimal digits. */
  function FromNumber(n: int): (b: BufferInput)
    ensures b.Numeral? && b.fraction == [] && b.exponent == 0 && |b.whole| > 0
  {
    Numeral(n < 0, DigitsOf(if n < 0 then -n else n), [], 0)
  }

  lemma FromNumberValue(n: int)
    ensures NumberValue(FromNumber(n)) == n as real
  {
    DigitsOfValue(if n < 0 then -n else n);
    assert FromNumber(n).whole + FromNumber(n).fraction == FromNumber(n).whole;
  }

  /** The browser's own constraints on a number input with `min="0"` and
      the default step of 1: a form whose field holds a negative or a
      fractional number, or text it cannot read, is not submitted. An empty
      field is allowed, since the input is not `required`. */
  predicate Submittable(b: BufferInput) {
    b.Blank? || (b.Numeral? && NumberValue(b) >= 0.0 && NumberValue(b).Floor as real == NumberValue(b))
  }

  /** `parseInt(bufferTime, 10)` as the form calls it: the optional sign
      and the digits before the first non-digit, so the point and the
      exponent are dropped; NaN (None) when no digit comes first. */
  function ParseIntBuffer(b: BufferInput): (r: Option<int>)
    ensures r.Some? <==> b.Numeral? && |b.whole| > 0
  {
    if !b.Numeral? || |b.whole| == 0 then None
    else Some(if b.negative then -(DigitsValue(b.whole) as int) else DigitsValue(b.whole))
  }

  /** The buffer the form should store: the number the field holds. */
  function BufferMinutes(b: BufferInput): (n: int)
    requires b.Numeral?
    ensures n as real <= NumberValue(b) < n as real + 1.0
  {
    NumberValue(b).Floor
  }

  /** A field the browser submits and `validate` accepts holds a positive
      whole number of minutes, and that number is what is stored. */
  lemma BufferMinutesExact(b: BufferInput)
    requires Submittable(b) && !BufferMissing(b)
    ensures BufferMinutes(b) as real == NumberValue(b)
    ensures BufferMinutes(b) > 0
  {
  }

  /** On a plain integer text the corrected reading and `parseInt` agree. */
  lemma ParseIntOfInteger(b: BufferInput)
    requires b.Numeral? && |b.whole| > 0 && b.fraction == [] && b.exponent == 0
    ensures ParseIntBuffer(b) == Some(BufferMinutes(b))
  {
    assert b.whole + b.fraction == b.whole;
  }

  /** A name and an area the form accepts. */
  lemma SampleTextsNotBlank()
    ensures !IsBlank("Pool A") && !IsBlank("North")
  {
    assert !IsJsSpace("Pool A"[0]) && !IsJsSpace("North"[0]);
  }

  /** `parseInt` stops at the point: "0.5e1" (5) passes both the browser
      and `validate` and is stored as 0; the corrected reading stores 5. */
  lemma FractionExponentStoredAsZero()
    ensures var b := Numeral(false, [0], [5], 1);
      && Submittable(b) && PlaceIsValid("Pool A", "North", b)
      && ParseIntBuffer(b) == Some(0) && BufferMinutes(b) == 5
  {
    SampleTextsNotBlank();
    var b := Numeral(false, [0], [5], 1);
    assert b.whole + b.fraction == [0, 5];
    assert DigitsValue([0, 5]) == 5 by { assert [0, 5][..1] == [0]; }
    assert NumberValue(b) == 5.0;
  }

  /** `parseInt` stops at the `e`: "1e1" (10) is stored as 1; the corrected
      reading stores 10. */
  lemma ExponentStoredAsMantissa()
    ensures var b := Numeral(false, [1], [], 1);
      && Submittable(b) && PlaceIsValid("Pool A", "North", b)
      && ParseIntBuffer(b) == Some(1) && BufferMinutes(b) == 10
  {
    SampleTextsNotBlank();
    var b := Numeral(false, [1], [], 1);
    assert b.whole + b.fraction == [1];
    assert Pow10(1) == 10.0;
    assert NumberValue(b) == 10.0;
  }

  /** A text that starts at the point, ".5e1" (5), is stored as NaN; the
      corrected reading stores 5. */
  lemma LeadingPointStoredAsNaN()
    ensures var b := Numeral(false, [], [5], 1);
      && Submittable(b) && PlaceIsValid("Pool A", "North", b)
      && ParseIntBuffer(b) == None && BufferMinutes(b) == 5
  {
    SampleTextsNotBlank();
    var b := Numeral(false, [], [5], 1);
    assert b.whole + b.fraction == [5];
    assert DigitsValue([5]) == 5 by { assert [5][..0] == []; }
    assert NumberValue(b) == 5.0;
  }

  /** Unreadable text reaches `validate` and `parseInt` as the same "" an
      empty field gives, yet only the empty field lets the form submit: with
      unreadable text `handleSubmit` never runs, so no message is written. */
  lemma UnreadableLooksBlank(name: string, area: string)
    ensures PlaceErrorsOf(name, area, Unreadable) == PlaceErrorsOf(name, area, Blank)
    ensures PlaceErrorsOf(name, area, Unreadable).bufferTime == BufferNotPositive
    ensures ParseIntBuffer(Unreadable) == ParseIntBuffer(Blank) == None
    ensures Submittable(Blank) && !Submittable(Unreadable)
  {
  }

  datatype PlaceErrors = PlaceErrors(name: string, area: string, bufferTime: string)

  const NoPlaceErrors := PlaceErrors("", "", "")

  /** `!bufferTime || bufferTime <= 0`: the field hands over "" (it is
      empty or unreadable) or holds zero or a negative number. */
  predicate BufferMissing(bufferTime: BufferInput) {
    !bufferTime.Numeral? || NumberValue(bufferTime) <= 0.0
  }

  /** Name and area must contain something other than white space; the
      buffer must be a positive number. */
  predicate PlaceIsValid(name: string, area: string, bufferTime: BufferInput) {
    !IsBlank(name) && !IsBlank(area) && !BufferMissing(bufferTime)
  }

  function PlaceErrorsOf(name: string, area: string, bufferTime: BufferInput): PlaceErrors {
    PlaceErrors(
      if IsBlank(name) then NameRequired else "",
      if IsBlank(area) then AreaRequired else "",
      if BufferMissing(bufferTime) then BufferNotPositive else "")
  }

  /** `validate`: trims the two texts and tests the buffer, writing one
      message per failed check without stopping at the first. */
  method ValidatePlace(name: string, area: string, bufferTime: BufferInput)
    returns (isValid: bool, tempErrors: PlaceErrors)
    ensures isValid == PlaceIsValid(name, area, bufferTime)
    ensures tempErrors == PlaceErrorsOf(name, area, bufferTime)
  {
    tempErrors := NoPlaceErrors;
    isValid := true;
    TrimEmptyIffBlank(name);
    TrimEmptyIffBlank(area);
    if Trim(name) == "" {
      tempErrors := tempErrors.(name := NameRequired);
      isValid := false;
    }
    if Trim(area) == "" {
      tempErrors := tempErrors.(area := AreaRequired);
      isValid := false;
    }
    if !bufferTime.Numeral? || NumberValue(bufferTime) <= 0.0 {
      tempErrors := tempErrors.(bufferTime := BufferNotPositive);
      isValid := false;
    }
  }

  /** The form is valid exactly when no message is written; each message
      depends only on its own field. */
  lemma PlaceValidIffNoErrors(name: string, area: string, bufferTime: BufferInput)
    ensures PlaceIsValid(name, area, bufferTime) <==> PlaceErrorsOf(name, area, bufferTime) == NoPlaceErrors
    ensures forall area2, bufferTime2 ::
      PlaceErrorsOf(name, area2, bufferTime2).name == PlaceErrorsOf(name, area, bufferTime).name
  {
  }

  /** Leading and trailing spaces do not make a name or area acceptable. */
  lemma WhitespaceOnlyRejected(name: string, area: string, bufferTime: BufferInput)
    requires Trim(name) == []
    ensures !PlaceIsValid(name, area, bufferTime)
    ensures PlaceErrorsOf(name, area, bufferTime).name == NameRequired
  {
    TrimEmptyIffBlank(name);
  }

  /** `placeData`: the texts are stored as typed (untrimmed) and the buffer
      as the number the field holds, read with `BufferMinutes` where the
      form calls `parseInt`. */
  function PlaceData(name: string, area: string, bufferTime: BufferInput): (p: PlaceInfo)
    requires bufferTime.Numeral?
    ensures p.name == name && p.area == area
    ensures Submittable(bufferTime) ==> p.bufferTime as real == NumberValue(bufferTime)
  {
    PlaceInfo(name, area, BufferMinutes(bufferTime))
  }

  /** Every place the form stores asks for a positive buffer, so a change of
      place always costs travel time in the engine. */
  lemma StoredPlaceNeedsTravelTime(name: string, area: string, bufferTime: BufferInput, other: PlaceInfo)
    requires PlaceIsValid(name, area, bufferTime) && Submittable(bufferTime)
    requires other.bufferTime > 0
    ensures PlaceData(name, area, bufferTime).bufferTime > 0
    ensures RequiredBuffer(other, PlaceData(name, area, bufferTime), false) > 0
    ensures RequiredBuffer(PlaceData(name, area, bufferTime), other, false) > 0
  {
    BufferMinutesExact(bufferTime);
  }

  /** The state of one open place form. `editingPlace` is the stored record
      being edited, if any. */
  class PlaceFormState {
    const editingPlace: Option<Place>
    var name: string
    var area: string
    var bufferTime: BufferInput
    var errors: PlaceErrors

    constructor (editingPlace: Option<Place>)
      ensures this.editingPlace == editingPlace
      ensures editingPlace.Some? ==>
        && name == editingPlace.value.data.name && area == editingPlace.value.data.area
        && bufferTime == FromNumber(editingPlace.value.data.bufferTime)
      ensures editingPlace.None? ==> name == "" && area == "" && bufferTime == FromNumber(DefaultBuffer)
      ensures errors == NoPlaceErrors
    {
      this.editingPlace := editingPlace;
      if editingPlace.Some? {
        var p := editingPlace.value;
        name, area, bufferTime := p.data.name, p.data.area, FromNumber(p.data.bufferTime);
      } else {
        name, area, bufferTime := "", "", FromNumber(DefaultBuffer);
      }
      errors := NoPlaceErrors;
    }

    method SetFields(name: string, area: string, bufferTime: BufferInput)
      modifies this
      ensures this.name == name && this.area == area && this.bufferTime == bufferTime
      ensures errors == old(errors)
    {
      this.name, this.area, this.bufferTime := name, area, bufferTime;
    }

    method Validate() returns (isValid: bool)
      modifies this
      ensures isValid == PlaceIsValid(name, area, bufferTime)
      ensures errors == PlaceErrorsOf(name, area, bufferTime)
      ensures name == old(name) && area == old(area) && bufferTime == old(bufferTime)
    {
      var tempErrors;
      isValid, tempErrors := ValidatePlace(name, area, bufferTime);
      errors := tempErrors;
    }

    /** `handleSubmit`: nothing reaches the store unless the form is valid;
        an edit replaces the record under its own id, a new place is
        appended under `newId`, and only after an add are the fields reset. */
    method HandleSubmit(store: AppStore, newId: Id)
      modifies this, store
      ensures store.bookings == old(store.bookings) && store.availabilityRules == old(store.availabilityRules)
      ensures errors == PlaceErrorsOf(old(name), old(area), old(bufferTime))
      ensures !PlaceIsValid(old(name), old(area), old(bufferTime)) ==>
        && store.places == old(store.places)
        && name == old(name) && area == old(area) && bufferTime == old(bufferTime)
      ensures PlaceIsValid(old(name), old(area), old(bufferTime)) && editingPlace.Some? ==>
        && store.places
           == Updated(old(store.places), editingPlace.value.id, PlaceData(old(name), old(area), old(bufferTime)))
        && name == old(name) && area == old(area) && bufferTime == old(bufferTime)
      ensures PlaceIsValid(old(name), old(area), old(bufferTime)) && editingPlace.None? ==>
        && store.places == Appended(old(store.places), newId, PlaceData(old(name), old(area), old(bufferTime)))
        && name == "" && area == "" && bufferTime == FromNumber(DefaultBuffer)
    {
      var ok := Validate();
      if !ok {
        return;
      }
      var placeData := PlaceData(name, area, bufferTime);
      match editingPlace
      case Some(p) =>
        store.UpdatePlace(p.id, placeData);
      case None =>
        store.AddPlace(placeData, newId);
        SetFields("", "", FromNumber(DefaultBuffer));
    }

    /** Pressing the submit button: the browser first checks the buffer
        input against `min="0"` and the default step of 1, and when that
        fails the form is not submitted and `handleSubmit` does not run. */
    method Submit(store: AppStore, newId: Id)
      modifies this, store
      ensures store.bookings == old(store.bookings) && store.availabilityRules == old(store.availabilityRules)
      ensures !Submittable(old(bufferTime)) ==>
        && store.places == old(store.places) && errors == old(errors)
        && name == old(name) && area == old(area) && bufferTime == old(bufferTime)
      ensures Submittable(old(bufferTime)) ==> errors == PlaceErrorsOf(old(name), old(area), old(bufferTime))
      ensures Submittable(old(bufferTime)) && PlaceIsValid(old(name), old(area), old(bufferTime)) ==>
        if editingPlace.Some? then
          store.places
          == Updated(old(store.places), editingPlace.value.id, PlaceData(old(name), old(area), old(bufferTime)))
        else
          store.places == Appended(old(store.places), newId, PlaceData(old(name), old(area), old(bufferTime)))
      ensures store.places != old(store.places) ==>
        Submittable(old(bufferTime)) && PlaceIsValid(old(name), old(area), old(bufferTime))
      ensures Submittable(old(bufferTime)) && PlaceIsValid(old(name), old(area), old(bufferTime)) && editingPlace.None? ==>
        name == "" && area == "" && bufferTime == FromNumber(DefaultBuffer)
      ensures !(Submittable(old(bufferTime)) && PlaceIsValid(old(name), old(area), old(bufferTime)) && editingPlace.None?) ==>
        name == old(name) && area == old(area) && bufferTime == old(bufferTime)
    {
      if !Submittable(bufferTime) {
        return;
      }
      HandleSubmit(store, newId);
    }
  }
}
