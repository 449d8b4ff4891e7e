/** The in-memory collection store shared by the whole application: three
    lists (places, bookings, availability rules), each replaced wholesale by
    add, update-by-id and delete-by-id. The transforms are written once,
    generically over the record payload, and the store class applies them
    to its three fields. */
module AppContext {
  import opened Common
  import opened Entities

  /** `[...xs, { ...data, id: newId }]`: the new record goes last. */
  function Appended<D>(xs: seq<Record<D>>, newId: Id, data: D): (r: seq<Record<D>>)
    ensures |r| == |xs| + 1
  {
    xs + [Record(newId, data)]
  }

  /** `xs.map(x => x.id === id ? { ...data, id } : x)`. */
  function Updated<D>(xs: seq<Record<D>>, id: Id, data: D): (r: seq<Record<D>>)
    ensures |r| == |xs|
  {
    seq(|xs|, i requires 0 <= i < |xs| => if xs[i].id == id then Record(id, data) else xs[i])
  }

  /** `xs.filter(x => x.id !== id)`. */
  function Deleted<D(==)>(xs: seq<Record<D>>, id: Id): (r: seq<Record<D>>)
    ensures |r| <= |xs|
    ensures forall i :: 0 <= i < |r| ==> r[i] in xs && r[i].id != id
    ensures forall i :: 0 <= i < |xs| && xs[i].id != id ==> xs[i] in r
  {
    if |xs| == 0 then []
    else (if xs[0].id == id then [] else [xs[0]]) + Deleted(xs[1..], id)
  }

  /** Adding puts exactly one record, carrying the new id, at the end and
      leaves the earlier records in place. */
  lemma AddAppendsOne<D>(xs: seq<Record<D>>, newId: Id, data: D)
    ensures Appended(xs, newId, data)[..|xs|] == xs
    ensures Appended(xs, newId, data)[|xs|] == Record(newId, data)
    ensures Appended(xs, newId, data)[|xs|].id == newId
  {
  }

  /** Updating keeps every record's position and id; the records with the
      id now carry the new data, the others are untouched. */
  lemma UpdateReplacesMatching<D>(xs: seq<Record<D>>, id: Id, data: D, i: int)
    requires 0 <= i < |xs|
    ensures Updated(xs, id, data)[i].id == xs[i].id
    ensures xs[i].id == id ==> Updated(xs, id, data)[i].data == data
    ensures xs[i].id != id ==> Updated(xs, id, data)[i] == xs[i]
  {
  }

  /** Updating an id no record carries changes nothing. */
  lemma UpdateAbsentIsIdentity<D>(xs: seq<Record<D>>, id: Id, data: D)
    requires forall i :: 0 <= i < |xs| ==> xs[i].id != id
    ensures Updated(xs, id, data) == xs
  {
  }

  /** Repeating an update changes nothing more. */
  lemma UpdateIdempotent<D>(xs: seq<Record<D>>, id: Id, data: D)
    ensures Updated(Updated(xs, id, data), id, data) == Updated(xs, id, data)
  {
  }

  /** Deleting distributes over concatenation, so it works record by
      record: it keeps a record exactly when its id differs. */
  lemma {:induction false} DeleteConcat<D>(xs: seq<Record<D>>, ys: seq<Record<D>>, id: Id)
    ensures Deleted(xs + ys, id) == Deleted(xs, id) + Deleted(ys, id)
  {
    if |xs| > 0 {
      assert (xs + ys)[0] == xs[0];
      assert (xs + ys)[1..] == xs[1..] + ys;
      DeleteConcat(xs[1..], ys, id);
    } else {
      assert xs + ys == ys;
    }
  }

  /** Deleting an id no record carries changes nothing. */
  lemma {:induction false} DeleteAbsentIsIdentity<D>(xs: seq<Record<D>>, id: Id)
    requires forall i :: 0 <= i < |xs| ==> xs[i].id != id
    ensures Deleted(xs, id) == xs
  {
    if |xs| > 0 {
      DeleteAbsentIsIdentity(xs[1..], id);
      assert xs == [xs[0]] + xs[1..];
    }
  }

  /** Deleting twice is deleting once. */
  lemma DeleteIdempotent<D>(xs: seq<Record<D>>, id: Id)
    ensures Deleted(Deleted(xs, id), id) == Deleted(xs, id)
  {
    DeleteAbsentIsIdentity(Deleted(xs, id), id);
  }

  /** The records left after a delete keep their relative order. */
  lemma {:induction false} DeleteKeepsOrder<D>(xs: seq<Record<D>>, id: Id)
    ensures IsSubsequence(Deleted(xs, id), xs)
  {
    if |xs| > 0 {
      DeleteKeepsOrder(xs[1..], id);
      var rest := Deleted(xs[1..], id);
      if xs[0].id == id {
        assert Deleted(xs, id) == rest;
        SkipHead(rest, xs);
      } else {
        assert Deleted(xs, id) == [xs[0]] + rest;
        assert ([xs[0]] + rest)[1..] == rest;
      }
    }
  }

  /** The application state: the three collections, each replaced by the
      operations that concern it and by no other. Fresh ids, produced by the
      source from the clock, are passed in. */
  class AppStore {
    var places: seq<Place>
    var bookings: seq<Booking>
    var availabilityRules: seq<AvailabilityRule>

    constructor ()
      ensures places == [] && bookings == [] && availabilityRules == []
    {
      places, bookings, availabilityRules := [], [], [];
    }

    method AddPlace(place: PlaceInfo, newId: Id)
      modifies this
      ensures places == Appended(old(places), newId, place)
      ensures bookings == old(bookings) && availabilityRules == old(availabilityRules)
    {
      places := Appended(places, newId, place);
    }

    method UpdatePlace(id: Id, updatedPlace: PlaceInfo)
      modifies this
      ensures places == Updated(old(places), id, updatedPlace)
      ensures bookings == old(bookings) && availabilityRules == old(availabilityRules)
    {
      places := Updated(places, id, updatedPlace);
    }

    /** Bookings and rules that refer to the place are left as they are. */
    method DeletePlace(id: Id)
      modifies this
      ensures places == Deleted(old(places), id)
      ensures bookings == old(bookings) && availabilityRules == old(availabilityRules)
    {
      places := Deleted(places, id);
    }

    method AddBooking(booking: BookingInfo, newId: Id)
      modifies this
      ensures bookings == Appended(old(bookings), newId, booking)
      ensures places == old(places) && availabilityRules == old(availabilityRules)
    {
      bookings := Appended(bookings, newId, booking);
    }

    method UpdateBooking(id: Id, updatedBooking: BookingInfo)
      modifies this
      ensures bookings == Updated(old(bookings), id, updatedBooking)
      ensures places == old(places) && availabilityRules == old(availabilityRules)
    {
      bookings := Updated(bookings, id, updatedBooking);
    }

    method DeleteBooking(id: Id)
      modifies this
      ensures bookings == Deleted(old(bookings), id)
      ensures places == old(places) && availabilityRules == old(availabilityRules)
    {
      bookings := Deleted(bookings, id);
    }

    method AddAvailabilityRule(rule: RuleSet, newId: Id)
      modifies this
      ensures availabilityRules == Appended(old(availabilityRules), newId, rule)
      ensures places == old(places) && bookings == old(bookings)
    {
      availabilityRules := Appended(availabilityRules, newId, rule);
    }

    method UpdateAvailabilityRule(id: Id, updatedRule: RuleSet)
      modifies this
      ensures availabilityRules == Updated(old(availabilityRules), id, updatedRule)
      ensures places == old(places) && bookings == old(bookings)
    {
      availabilityRules := Updated(availabilityRules, id, updatedRule);
    }

    method DeleteAvailabilityRule(id: Id)
      modifies this
      ensures availabilityRules == Deleted(old(availabilityRules), id)
      ensures places == old(places) && bookings == old(bookings)
    {
      availabilityRules := Deleted(availabilityRules, id);
    }
  }
}
