/**
 * The acme supplier adapter's `transform` step
 * (`src/provider/suppliers/strategy/acme.strategy.ts`): the supplier is
 * the primary source of truth for destination fields and the location.
 */
module Acme {
  import opened Common
  import opened Strings
  import opened ArrayUtils
  import opened Entities
  import opened Catalog

  /** One record of the acme feed; coordinates, address and postal code may be `null`. */
  datatype AcmeHotel = AcmeHotel(
    id: string,
    destinationId: int,
    name: string,
    latitude: Option<real>,
    longitude: Option<real>,
    address: Option<string>,
    city: string,
    country: string,
    postalCode: Option<string>,
    description: string,
    facilities: seq<string>)

  /** The destination after the upsert: the found (or a new) row with country and city overwritten. */
  function AcmeDestination(st: CatalogState, raw: AcmeHotel): Destination {
    var d := if raw.destinationId in st.destinations then st.destinations[raw.destinationId]
             else Destination(raw.destinationId, "", "");
    d.(country := raw.country, city := raw.city)
  }

  /**
   * The hotel before its location and amenities are set: a new one takes
   * id, destination, name and description from the record; an existing one
   * keeps its destination and merges name and description by length.
   */
  function AcmeHotelFields(st: CatalogState, raw: AcmeHotel): Hotel {
    if raw.id !in st.hotels then
      NewHotel(raw.id, raw.destinationId, raw.name).(description := Some(raw.description))
    else
      var h := st.hotels[raw.id];
      h.(name := LongestString(h.name, raw.name),
         description := Some(LongestString(h.description.GetOr(""), raw.description)))
  }

  /**
   * `[address, postalCode].join(', ')`: `join` renders a `null` element as
   * the empty string, so the separator is always there.
   */
  function JoinAddress(address: Option<string>, postalCode: Option<string>): (r: string)
    ensures |r| == |address.GetOr("")| + 2 + |postalCode.GetOr("")|
    ensures r[..|address.GetOr("")|] == address.GetOr("")
    ensures r[|address.GetOr("")|..|address.GetOr("")| + 2] == ", "
    ensures r[|address.GetOr("")| + 2..] == postalCode.GetOr("")
  {
    address.GetOr("") + ", " + postalCode.GetOr("")
  }

  /** `{...existing, lat, lng, address, city, country}`: the record's values win. */
  function AcmeLocation(existing: Location, raw: AcmeHotel, d: Destination): Location {
    existing + map[
      Lat := CoordinateOr(raw.latitude),
      Lng := CoordinateOr(raw.longitude),
      Address := Text(JoinAddress(raw.address, raw.postalCode)),
      City := Text(d.city),
      Country := Text(d.country)]
  }

  /** The amenity names the record attaches, in the order they are resolved. */
  function AcmeNames(raw: AcmeHotel): seq<string> {
    SortLengthLex(LowerAll(raw.facilities))
  }

  /** The hotel with its new location. */
  function AcmeLocated(st: CatalogState, raw: AcmeHotel): Hotel {
    var h := AcmeHotelFields(st, raw);
    h.(location := AcmeLocation(h.location, raw, AcmeDestination(st, raw)))
  }

  /** Amenity resolution, every new amenity `general`. */
  function AcmeAttach(st: CatalogState, raw: AcmeHotel): Attached {
    AttachNames(st.amenities, AcmeLocated(st, raw).amenities, AcmeNames(raw), "general")
  }

  /**
   * The catalog after `transform(raw)` and the persisting of its result:
   * `hotel.destination` is persisted, so the updated destination is stored
   * only when the hotel is new or already refers to it.
   */
  function AcmeNext(st: CatalogState, raw: AcmeHotel): CatalogState {
    var a := AcmeAttach(st, raw);
    CatalogState(
      if WritesDestination(st, raw.id, raw.destinationId)
      then st.destinations[raw.destinationId := AcmeDestination(st, raw)]
      else st.destinations,
      st.hotels[raw.id := AcmeLocated(st, raw).(amenities := a.hotelAmenities)],
      a.amenities)
  }

  /** The catalog after transforming a feed in order. */
  function AcmeFeed(st: CatalogState, feed: seq<AcmeHotel>): CatalogState
    decreases |feed|
  {
    if feed == [] then st else AcmeNext(AcmeFeed(st, feed[..|feed| - 1]), feed[|feed| - 1])
  }

  /** `AcmeStrategy`, over the store its entity manager reads and writes. */
  class AcmeStrategy {
    const catalog: Catalog

    constructor(catalog: Catalog)
      ensures this.catalog == catalog
    {
      this.catalog := catalog;
    }

    /** `transform(rawHotel)`, followed by persisting the hotel it returns. */
    method Transform(raw: AcmeHotel) returns (hotel: Hotel)
      modifies catalog
      ensures catalog.State() == AcmeNext(old(catalog.State()), raw)
      ensures raw.id in catalog.hotels && hotel == catalog.hotels[raw.id]
    {
      var destination: Destination;
      if raw.destinationId in catalog.destinations {
        destination := catalog.destinations[raw.destinationId];
      } else {
        destination := Destination(raw.destinationId, "", "");
      }
      destination := destination.(country := raw.country, city := raw.city);
      if raw.id !in catalog.hotels || catalog.hotels[raw.id].destinationId == raw.destinationId {
        catalog.destinations := catalog.destinations[raw.destinationId := destination];
      }

      if raw.id !in catalog.hotels {
        hotel := NewHotel(raw.id, raw.destinationId, raw.name);
        hotel := hotel.(description := Some(raw.description));
      } else {
        hotel := catalog.hotels[raw.id];
        hotel := hotel.(name := LongestString(hotel.name, raw.name));
        hotel := hotel.(description := Some(LongestString(hotel.description.GetOr(""), raw.description)));
      }

      hotel := hotel.(location := hotel.location + map[
        Lat := CoordinateOr(raw.latitude),
        Lng := CoordinateOr(raw.longitude),
        Address := Text(JoinAddress(raw.address, raw.postalCode)),
        City := Text(destination.city),
        Country := Text(destination.country)]);

      var names := SortedLowerNames(raw.facilities);
      var attached := AttachAmenities(catalog, hotel.amenities, names, "general");
      hotel := hotel.(amenities := attached);
      catalog.hotels := catalog.hotels[raw.id := hotel];
    }

    /** `transforms(rawData)`, one record after another in feed order. */
    method Transforms(feed: seq<AcmeHotel>) returns (hotels: seq<Hotel>)
      modifies catalog
      ensures catalog.State() == AcmeFeed(old(catalog.State()), feed)
      ensures |hotels| == |feed|
      ensures hotels == AcmeFeedHotels(old(catalog.State()), feed)
    {
      ghost var st0 := catalog.State();
      hotels := [];
      var i := 0;
      while i < |feed|
        invariant 0 <= i <= |feed|
        invariant catalog.State() == AcmeFeed(st0, feed[..i])
        invariant hotels == AcmeFeedHotels(st0, feed[..i])
      {
        AcmeFeedSnoc(st0, feed, i);
        var hotel := Transform(feed[i]);
        hotels := hotels + [hotel];
        i := i + 1;
      }
      assert feed[..i] == feed;
    }
  }

  /** The hotels `transforms` returns: each record's hotel as its transform left it. */
  function AcmeFeedHotels(st: CatalogState, feed: seq<AcmeHotel>): (hs: seq<Hotel>)
    ensures |hs| == |feed|
    decreases |feed|
  {
    if feed == [] then []
    else
      var n := |feed| - 1;
      AcmeFeedHotels(st, feed[..n]) + [AcmeNext(AcmeFeed(st, feed[..n]), feed[n]).hotels[feed[n].id]]
  }

  lemma AcmeFeedSnoc(st: CatalogState, feed: seq<AcmeHotel>, i: nat)
    requires i < |feed|
    ensures AcmeFeed(st, feed[..i + 1]) == AcmeNext(AcmeFeed(st, feed[..i]), feed[i])
    ensures AcmeFeedHotels(st, feed[..i + 1])
         == AcmeFeedHotels(st, feed[..i]) + [AcmeNext(AcmeFeed(st, feed[..i]), feed[i]).hotels[feed[i].id]]
  {
    assert feed[..i + 1][..i] == feed[..i];
  }

  // ---------------------------------------------------------------------
  // Properties
  // ---------------------------------------------------------------------

  /**
   * When the hotel is new or already refers to the record's destination,
   * that destination exists afterwards with the record's country and city,
   * whether it was new or already stored; no other destination changes.
   */
  lemma AcmeUpsertsDestination(st: CatalogState, raw: AcmeHotel)
    requires WritesDestination(st, raw.id, raw.destinationId)
    ensures raw.destinationId in AcmeNext(st, raw).destinations
    ensures AcmeNext(st, raw).destinations[raw.destinationId].country == raw.country
    ensures AcmeNext(st, raw).destinations[raw.destinationId].city == raw.city
    ensures StateValid(st) ==>
              AcmeNext(st, raw).destinations[raw.destinationId] == Destination(raw.destinationId, raw.country, raw.city)
    ensures forall k | k in st.destinations && k != raw.destinationId ::
              k in AcmeNext(st, raw).destinations && AcmeNext(st, raw).destinations[k] == st.destinations[k]
  {
  }

  /**
   * When the stored hotel refers to another destination, no destination is
   * written, yet the hotel's location still takes the record's city and
   * country.
   */
  lemma AcmeKeepsDestinations(st: CatalogState, raw: AcmeHotel)
    requires !WritesDestination(st, raw.id, raw.destinationId)
    ensures AcmeNext(st, raw).destinations == st.destinations
    ensures raw.id in AcmeNext(st, raw).hotels
    ensures AcmeNext(st, raw).hotels[raw.id].destinationId != raw.destinationId
    ensures City in AcmeNext(st, raw).hotels[raw.id].location
    ensures AcmeNext(st, raw).hotels[raw.id].location[City] == Text(raw.city)
  {
  }

  /** A new hotel takes id, destination, name and description from the record. */
  lemma AcmeNewHotel(st: CatalogState, raw: AcmeHotel)
    requires raw.id !in st.hotels
    ensures raw.id in AcmeNext(st, raw).hotels
    ensures var h := AcmeNext(st, raw).hotels[raw.id];
            && h.id == raw.id && h.destinationId == raw.destinationId
            && h.name == raw.name && h.description == Some(raw.description)
            && h.images == Some(map[]) && h.bookingConditions == None
  {
  }

  /**
   * An existing hotel keeps its destination (even a different one than the
   * record's), its images and its booking conditions; its name and
   * description become the longer of the stored and the record's value,
   * a missing description counting as empty.
   */
  lemma AcmeExistingHotel(st: CatalogState, raw: AcmeHotel)
    requires raw.id in st.hotels
    ensures raw.id in AcmeNext(st, raw).hotels
    ensures var old_ := st.hotels[raw.id];
            var h := AcmeNext(st, raw).hotels[raw.id];
            && h.id == old_.id
            && h.destinationId == old_.destinationId
            && h.name == LongestString(old_.name, raw.name)
            && h.description == Some(LongestString(old_.description.GetOr(""), raw.description))
            && h.images == old_.images && h.bookingConditions == old_.bookingConditions
  {
  }

  /**
   * The location is entirely the record's: coordinates, the address joined
   * with the postal code, and the city and country the destination now has.
   */
  lemma AcmeOverwritesLocation(st: CatalogState, raw: AcmeHotel)
    ensures raw.id in AcmeNext(st, raw).hotels
    ensures AcmeNext(st, raw).hotels[raw.id].location == map[
              Lat := CoordinateOr(raw.latitude),
              Lng := CoordinateOr(raw.longitude),
              Address := Text(JoinAddress(raw.address, raw.postalCode)),
              City := Text(raw.city),
              Country := Text(raw.country)]
  {
    var h := AcmeHotelFields(st, raw);
    var loc := AcmeLocation(h.location, raw, AcmeDestination(st, raw));
    forall k | k in h.location
      ensures k in {Lat, Lng, Address, City, Country}
    {
      assert k.Lat? || k.Lng? || k.Address? || k.City? || k.Country?;
    }
  }

  /**
   * Every lower-cased facility is attached to the hotel and stored; a name
   * not stored before gets a new `general` amenity with no synonyms, and
   * stored amenities are reused unchanged.
   */
  lemma AcmeAttachesFacilities(st: CatalogState, raw: AcmeHotel)
    ensures raw.id in AcmeNext(st, raw).hotels
    ensures forall i :: 0 <= i < |raw.facilities| ==>
              && Lower(raw.facilities[i]) in AcmeNext(st, raw).hotels[raw.id].amenities
              && Lower(raw.facilities[i]) in AcmeNext(st, raw).amenities
    ensures forall k | k in st.amenities :: k in AcmeNext(st, raw).amenities && AcmeNext(st, raw).amenities[k] == st.amenities[k]
    ensures forall k | k in AcmeNext(st, raw).amenities && k !in st.amenities ::
              AcmeNext(st, raw).amenities[k] == Amenity(k, "general", [])
  {
    var h := AcmeHotelFields(st, raw);
    var names := AcmeNames(raw);
    AttachStores(st.amenities, h.amenities, names, "general");
    AttachAdds(st.amenities, h.amenities, names, "general");
    AttachKeeps(st.amenities, h.amenities, names, "general");
    AttachCreates(st.amenities, h.amenities, names, "general");
    SortLengthLexSpec(LowerAll(raw.facilities));
    forall i | 0 <= i < |raw.facilities|
      ensures Lower(raw.facilities[i]) in names
    {
      assert LowerAll(raw.facilities)[i] == Lower(raw.facilities[i]);
      assert Lower(raw.facilities[i]) in multiset(LowerAll(raw.facilities));
    }
  }

  /**
   * The names are resolved in length-then-lexicographic order: the sorted
   * permutation of the lower-cased facilities.
   */
  lemma AcmeNameOrder(raw: AcmeHotel)
    ensures SortedByLengthLex(AcmeNames(raw))
    ensures multiset(AcmeNames(raw)) == multiset(LowerAll(raw.facilities))
  {
    SortLengthLexSpec(LowerAll(raw.facilities));
  }

  /** A transform keeps the catalog's references intact. */
  lemma AcmePreservesValid(st: CatalogState, raw: AcmeHotel)
    requires StateValid(st)
    ensures StateValid(AcmeNext(st, raw))
  {
    var st' := AcmeNext(st, raw);
    var h := AcmeHotelFields(st, raw);
    var names := AcmeNames(raw);
    assert h.destinationId in st'.destinations by {
      if raw.id in st.hotels {
        assert HotelValid(st, st.hotels[raw.id]);
      }
    }
    AttachKeeps(st.amenities, h.amenities, names, "general");
    AttachKeysNames(st.amenities, h.amenities, names, "general");
    AttachStores(st.amenities, h.amenities, names, "general");
    AttachAdds(st.amenities, h.amenities, names, "general");
    AttachExtends(st.amenities, h.amenities, names, "general");
    var ha := st'.hotels[raw.id].amenities;
    forall i | 0 <= i < |ha|
      ensures ha[i] in st'.amenities
    {
      assert ha[i] in ha;
      if ha[i] !in h.amenities {
        var j :| 0 <= j < |names| && names[j] == ha[i];
      }
    }
  }

  /** After one transform, the hotel the record is merged into again already has every field it would get. */
  lemma AcmeLocatedAbsorb(st: CatalogState, raw: AcmeHotel)
    ensures raw.id in AcmeNext(st, raw).hotels
    ensures AcmeLocated(AcmeNext(st, raw), raw) == AcmeNext(st, raw).hotels[raw.id]
  {
    var st1 := AcmeNext(st, raw);
    var h := AcmeHotelFields(st, raw);
    var d := AcmeDestination(st, raw);
    var loc := AcmeLocation(h.location, raw, d);
    var h1 := st1.hotels[raw.id];
    assert h1 == h.(location := loc, amenities := AcmeAttach(st, raw).hotelAmenities);
    assert |h.name| >= |raw.name|;
    assert |h.description.GetOr("")| >= |raw.description|;
    assert AcmeHotelFields(st1, raw) == h1;
    assert AcmeDestination(st1, raw) == d;
    assert AcmeLocation(loc, raw, d) == loc;
  }

  /**
   * A catalog that already holds the record's destination, hotel and
   * amenity resolution is left unchanged.
   */
  lemma AcmeFixpoint(st: CatalogState, raw: AcmeHotel)
    requires raw.id in st.hotels
    requires WritesDestination(st, raw.id, raw.destinationId) ==>
               raw.destinationId in st.destinations && AcmeDestination(st, raw) == st.destinations[raw.destinationId]
    requires AcmeLocated(st, raw) == st.hotels[raw.id]
    requires AcmeAttach(st, raw) == Attached(st.amenities, st.hotels[raw.id].amenities)
    ensures AcmeNext(st, raw) == st
  {
    assert st.hotels[raw.id := st.hotels[raw.id]] == st.hotels;
    if WritesDestination(st, raw.id, raw.destinationId) {
      assert st.destinations[raw.destinationId := st.destinations[raw.destinationId]] == st.destinations;
    }
  }

  /** Transforming the same record twice leaves the catalog as after once. */
  lemma AcmeIdempotent(st: CatalogState, raw: AcmeHotel)
    ensures AcmeNext(AcmeNext(st, raw), raw) == AcmeNext(st, raw)
  {
    var st1 := AcmeNext(st, raw);
    var a := AcmeAttach(st, raw);
    AcmeLocatedAbsorb(st, raw);
    AttachIdempotent(st.amenities, AcmeLocated(st, raw).amenities, AcmeNames(raw), "general");
    assert st1.amenities == a.amenities;
    assert st1.hotels[raw.id].amenities == a.hotelAmenities;
    if WritesDestination(st, raw.id, raw.destinationId) {
      assert WritesDestination(st1, raw.id, raw.destinationId);
      assert AcmeDestination(st1, raw) == st1.destinations[raw.destinationId];
    } else {
      assert !WritesDestination(st1, raw.id, raw.destinationId);
    }
    AcmeFixpoint(st1, raw);
  }
}
