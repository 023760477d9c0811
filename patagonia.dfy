/**
 * The patagonia supplier adapter's `transform` step
 * (`src/provider/suppliers/strategy/patagonia.strategy.ts`): existing
 * data wins for the destination, the description and the location; amenity
 * and room images are merged by link; amenities form a single list.
 */
module Patagonia {
  import opened Common
  import opened Strings
  import opened ArrayUtils
  import opened Entities
  import opened Catalog

  /** An image of the patagonia feed. */
  datatype PatagoniaImage = PatagoniaImage(url: string, description: string)

  /**
   * One record of the patagonia feed; coordinates and address may be
   * `null`, and the optional lists may be missing.
   */
  datatype PatagoniaHotel = PatagoniaHotel(
    id: string,
    destination: int,
    name: string,
    lat: Option<real>,
    lng: Option<real>,
    address: Option<string>,
    info: string,
    amenities: Option<seq<string>>,
    roomImages: Option<seq<PatagoniaImage>>,
    amenityImages: Option<seq<PatagoniaImage>>)

  /** `images?.map((item) => ({link: item.url, description: item.description})) ?? []`. */
  function Linked(images: Option<seq<PatagoniaImage>>): (r: seq<Image>)
    ensures |r| == |images.GetOr([])|
    ensures forall i :: 0 <= i < |r| ==>
              r[i].link == images.GetOr([])[i].url && r[i].description == images.GetOr([])[i].description
  {
    var xs := images.GetOr([]);
    seq(|xs|, i requires 0 <= i < |xs| => Image(xs[i].url, xs[i].description))
  }

  /** The destination: the stored one, or a new one whose country and city are both unknown. */
  function PatagoniaDestination(st: CatalogState, raw: PatagoniaHotel): Destination {
    if raw.destination in st.destinations then st.destinations[raw.destination]
    else Destination(raw.destination, UndefinedDestinationLabel, UndefinedDestinationLabel)
  }

  /**
   * The hotel before location, images and amenities: a new one takes id,
   * destination and name from the record; an existing one keeps its
   * destination and description and merges the name by length.
   */
  function PatagoniaHotelFields(st: CatalogState, raw: PatagoniaHotel): Hotel {
    if raw.id !in st.hotels then NewHotel(raw.id, raw.destination, raw.name)
    else
      var h := st.hotels[raw.id];
      h.(name := LongestString(h.name, raw.name))
  }

  /** `{lat, lng, address, city, country, ...existing}`: existing keys win. */
  function PatagoniaLocation(existing: Location, raw: PatagoniaHotel, d: Destination): Location {
    map[
      Lat := CoordinateOr(raw.lat),
      Lng := CoordinateOr(raw.lng),
      Address := TextOr(raw.address),
      City := Text(d.city),
      Country := Text(d.country)]
    + existing
  }

  /** The images after the amenity and room lists are merged in by link (an absent map starts empty). */
  function PatagoniaImages(existing: Option<Images>, raw: PatagoniaHotel): Images {
    var images := existing.GetOr(map[]);
    images[Amenities := MergeByKey(CategoryImages(images, Amenities), Linked(raw.amenityImages), ImageLink, false)]
          [Rooms := MergeByKey(CategoryImages(images, Rooms), Linked(raw.roomImages), ImageLink, false)]
  }

  /** The amenity names, in the order they are resolved (none when the list is missing). */
  function PatagoniaNames(raw: PatagoniaHotel): seq<string> {
    SortLengthLex(LowerAll(raw.amenities.GetOr([])))
  }

  /** The hotel with its new location and images. */
  function PatagoniaLocated(st: CatalogState, raw: PatagoniaHotel): Hotel {
    var h := PatagoniaHotelFields(st, raw);
    h.(location := PatagoniaLocation(h.location, raw, PatagoniaDestination(st, raw)),
       images := Some(PatagoniaImages(h.images, raw)))
  }

  /** Amenity resolution, every new amenity `general`. */
  function PatagoniaAttach(st: CatalogState, raw: PatagoniaHotel): Attached {
    AttachNames(st.amenities, PatagoniaLocated(st, raw).amenities, PatagoniaNames(raw), "general")
  }

  /**
   * The catalog after `transform(raw)` and the persisting of its result:
   * `hotel.destination` is persisted, so a missing destination is stored
   * only when the hotel is new or already refers to it.
   */
  function PatagoniaNext(st: CatalogState, raw: PatagoniaHotel): CatalogState {
    var a := PatagoniaAttach(st, raw);
    CatalogState(
      if WritesDestination(st, raw.id, raw.destination)
      then st.destinations[raw.destination := PatagoniaDestination(st, raw)]
      else st.destinations,
      st.hotels[raw.id := PatagoniaLocated(st, raw).(amenities := a.hotelAmenities)],
      a.amenities)
  }

  /** The catalog after transforming a feed in order. */
  function PatagoniaFeed(st: CatalogState, feed: seq<PatagoniaHotel>): CatalogState
    decreases |feed|
  {
    if feed == [] then st else PatagoniaNext(PatagoniaFeed(st, feed[..|feed| - 1]), feed[|feed| - 1])
  }

  /** The hotels `transforms` returns: each record's hotel as its transform left it. */
  function PatagoniaFeedHotels(st: CatalogState, feed: seq<PatagoniaHotel>): (hs: seq<Hotel>)
    ensures |hs| == |feed|
    decreases |feed|
  {
    if feed == [] then []
    else
      var n := |feed| - 1;
      PatagoniaFeedHotels(st, feed[..n]) + [PatagoniaNext(PatagoniaFeed(st, feed[..n]), feed[n]).hotels[feed[n].id]]
  }

  lemma PatagoniaFeedSnoc(st: CatalogState, feed: seq<PatagoniaHotel>, i: nat)
    requires i < |feed|
    ensures PatagoniaFeed(st, feed[..i + 1]) == PatagoniaNext(PatagoniaFeed(st, feed[..i]), feed[i])
    ensures PatagoniaFeedHotels(st, feed[..i + 1])
         == PatagoniaFeedHotels(st, feed[..i]) + [PatagoniaNext(PatagoniaFeed(st, feed[..i]), feed[i]).hotels[feed[i].id]]
  {
    assert feed[..i + 1][..i] == feed[..i];
  }

  /** `PatagoniaStrategy`, over the store its entity manager reads and writes. */
  class PatagoniaStrategy {
    const catalog: Catalog

    constructor(catalog: Catalog)
      ensures this.catalog == catalog
    {
      this.catalog := catalog;
    }

    /** `transform(rawHotel)`, followed by persisting the hotel it returns. */
    method Transform(raw: PatagoniaHotel) returns (hotel: Hotel)
      modifies catalog
      ensures catalog.State() == PatagoniaNext(old(catalog.State()), raw)
      ensures raw.id in catalog.hotels && hotel == catalog.hotels[raw.id]
    {
      ghost var st := catalog.State();
      var destination: Destination;
      if raw.destination in catalog.destinations {
        destination := catalog.destinations[raw.destination];
      } else {
        destination := Destination(raw.destination, UndefinedDestinationLabel, UndefinedDestinationLabel);
      }
      if raw.id !in catalog.hotels || catalog.hotels[raw.id].destinationId == raw.destination {
        catalog.destinations := catalog.destinations[raw.destination := destination];
      }

      if raw.id !in catalog.hotels {
        hotel := NewHotel(raw.id, raw.destination, raw.name);
      } else {
        hotel := catalog.hotels[raw.id];
        hotel := hotel.(name := LongestString(hotel.name, raw.name));
      }

      hotel := hotel.(location :=
        map[
          Lat := CoordinateOr(raw.lat),
          Lng := CoordinateOr(raw.lng),
          Address := TextOr(raw.address),
          City := Text(destination.city),
          Country := Text(destination.country)]
        + hotel.location);

      var images: Images := if hotel.images.None? then map[] else hotel.images.value;
      var amenityImages := MergeArrayByKey(CategoryImages(images, Amenities), Linked(raw.amenityImages), ImageLink, false);
      images := images[Amenities := amenityImages];
      var rooms := MergeArrayByKey(CategoryImages(images, Rooms), Linked(raw.roomImages), ImageLink, false);
      images := images[Rooms := rooms];
      hotel := hotel.(images := Some(images));
      assert hotel == PatagoniaLocated(st, raw);

      var names := SortedLowerNames(raw.amenities.GetOr([]));
      var attached := AttachAmenities(catalog, hotel.amenities, names, "general");
      hotel := hotel.(amenities := attached);
      catalog.hotels := catalog.hotels[raw.id := hotel];
    }

    /** `transforms(rawData)`, one record after another in feed order. */
    method Transforms(feed: seq<PatagoniaHotel>) returns (hotels: seq<Hotel>)
      modifies catalog
      ensures catalog.State() == PatagoniaFeed(old(catalog.State()), feed)
      ensures hotels == PatagoniaFeedHotels(old(catalog.State()), feed)
    {
      ghost var st0 := catalog.State();
      hotels := [];
      var i := 0;
      while i < |feed|
        invariant 0 <= i <= |feed|
        invariant catalog.State() == PatagoniaFeed(st0, feed[..i])
        invariant hotels == PatagoniaFeedHotels(st0, feed[..i])
      {
        PatagoniaFeedSnoc(st0, feed, i);
        var hotel := Transform(feed[i]);
        hotels := hotels + [hotel];
        i := i + 1;
      }
      assert feed[..i] == feed;
    }
  }

  // ---------------------------------------------------------------------
  // Properties
  // ---------------------------------------------------------------------

  /**
   * When the hotel is new or already refers to the record's destination, a
   * missing destination is created with both country and city set to
   * the placeholder; a stored one is left untouched, and so is every other
   * destination.
   */
  lemma PatagoniaDestinationUpsert(st: CatalogState, raw: PatagoniaHotel)
    requires WritesDestination(st, raw.id, raw.destination)
    ensures raw.destination in PatagoniaNext(st, raw).destinations
    ensures raw.destination !in st.destinations ==>
              PatagoniaNext(st, raw).destinations[raw.destination]
              == Destination(raw.destination, UndefinedDestinationLabel, UndefinedDestinationLabel)
    ensures raw.destination in st.destinations ==> PatagoniaNext(st, raw).destinations == st.destinations
    ensures forall k | k in st.destinations ::
              k in PatagoniaNext(st, raw).destinations && PatagoniaNext(st, raw).destinations[k] == st.destinations[k]
  {
  }

  /**
   * When the stored hotel refers to another destination, no destination is
   * written, even one the record names that is not stored.
   */
  lemma PatagoniaKeepsDestinations(st: CatalogState, raw: PatagoniaHotel)
    requires !WritesDestination(st, raw.id, raw.destination)
    ensures PatagoniaNext(st, raw).destinations == st.destinations
    ensures raw.id in PatagoniaNext(st, raw).hotels
    ensures PatagoniaNext(st, raw).hotels[raw.id].destinationId != raw.destination
  {
  }

  /** A new hotel takes id, destination and name from the record, and has no description. */
  lemma PatagoniaNewHotel(st: CatalogState, raw: PatagoniaHotel)
    requires raw.id !in st.hotels
    ensures raw.id in PatagoniaNext(st, raw).hotels
    ensures var h := PatagoniaNext(st, raw).hotels[raw.id];
            && h.id == raw.id && h.destinationId == raw.destination
            && h.name == raw.name && h.description == None && h.bookingConditions == None
  {
  }

  /**
   * An existing hotel's name becomes the longer of the stored and the
   * record's name; its destination, description and booking conditions
   * are unchanged.
   */
  lemma PatagoniaExistingHotel(st: CatalogState, raw: PatagoniaHotel)
    requires raw.id in st.hotels
    ensures raw.id in PatagoniaNext(st, raw).hotels
    ensures var old_ := st.hotels[raw.id];
            var h := PatagoniaNext(st, raw).hotels[raw.id];
            && h.id == old_.id
            && h.destinationId == old_.destinationId
            && h.name == LongestString(old_.name, raw.name)
            && h.description == old_.description
            && h.bookingConditions == old_.bookingConditions
  {
  }

  /**
   * Existing location values (coordinates and address included, a stored
   * `null` too) are kept; the record's values, `null` where it has none,
   * and the destination's city and country fill only keys the hotel lacks.
   */
  lemma PatagoniaLocationFills(st: CatalogState, raw: PatagoniaHotel)
    ensures raw.id in PatagoniaNext(st, raw).hotels
    ensures var before := PatagoniaHotelFields(st, raw).location;
            var after := PatagoniaNext(st, raw).hotels[raw.id].location;
            var d := PatagoniaDestination(st, raw);
            && (forall k | k in before :: k in after && after[k] == before[k])
            && (Lat !in before ==> Lat in after && after[Lat] == CoordinateOr(raw.lat))
            && (Lng !in before ==> Lng in after && after[Lng] == CoordinateOr(raw.lng))
            && (Address !in before ==> Address in after && after[Address] == TextOr(raw.address))
            && (City !in before ==> City in after && after[City] == Text(d.city))
            && (Country !in before ==> Country in after && after[Country] == Text(d.country))
  {
  }

  /**
   * The amenity and room images become the stored lists merged by link
   * with the record's, stored entries winning and new links appended; the
   * site images are not touched.
   */
  lemma PatagoniaMergesImages(st: CatalogState, raw: PatagoniaHotel)
    ensures raw.id in PatagoniaNext(st, raw).hotels
    ensures var before := PatagoniaHotelFields(st, raw).images.GetOr(map[]);
            var after := PatagoniaNext(st, raw).hotels[raw.id].images;
            && after.Some?
            && after.value[Amenities] == MergeByKey(CategoryImages(before, Amenities), Linked(raw.amenityImages), ImageLink, false)
            && after.value[Rooms] == MergeByKey(CategoryImages(before, Rooms), Linked(raw.roomImages), ImageLink, false)
            && (Site in after.value <==> Site in before)
            && (Site in before ==> after.value[Site] == before[Site])
  {
  }

  /** With the amenity list missing, no amenity is created and none is attached. */
  lemma PatagoniaNoAmenities(st: CatalogState, raw: PatagoniaHotel)
    requires raw.amenities == None
    ensures raw.id in PatagoniaNext(st, raw).hotels
    ensures PatagoniaNext(st, raw).amenities == st.amenities
    ensures PatagoniaNext(st, raw).hotels[raw.id].amenities == PatagoniaHotelFields(st, raw).amenities
  {
  }

  /**
   * Every lower-cased amenity is stored and attached; a name not stored
   * before gets a new `general` amenity with no synonyms, and stored
   * amenities are reused unchanged.
   */
  lemma PatagoniaAttachesAmenities(st: CatalogState, raw: PatagoniaHotel)
    ensures raw.id in PatagoniaNext(st, raw).hotels
    ensures forall i :: 0 <= i < |raw.amenities.GetOr([])| ==>
              && Lower(raw.amenities.GetOr([])[i]) in PatagoniaNext(st, raw).hotels[raw.id].amenities
              && Lower(raw.amenities.GetOr([])[i]) in PatagoniaNext(st, raw).amenities
    ensures forall k | k in st.amenities ::
              k in PatagoniaNext(st, raw).amenities && PatagoniaNext(st, raw).amenities[k] == st.amenities[k]
    ensures forall k | k in PatagoniaNext(st, raw).amenities && k !in st.amenities ::
              PatagoniaNext(st, raw).amenities[k] == Amenity(k, "general", [])
  {
    var h := PatagoniaLocated(st, raw);
    var names := PatagoniaNames(raw);
    AttachStores(st.amenities, h.amenities, names, "general");
    AttachAdds(st.amenities, h.amenities, names, "general");
    AttachKeeps(st.amenities, h.amenities, names, "general");
    AttachCreates(st.amenities, h.amenities, names, "general");
    SortLengthLexSpec(LowerAll(raw.amenities.GetOr([])));
    forall i | 0 <= i < |raw.amenities.GetOr([])|
      ensures Lower(raw.amenities.GetOr([])[i]) in names
    {
      assert LowerAll(raw.amenities.GetOr([]))[i] == Lower(raw.amenities.GetOr([])[i]);
      assert Lower(raw.amenities.GetOr([])[i]) in multiset(LowerAll(raw.amenities.GetOr([])));
    }
  }

  /** The stored hotel refers to stored rows only, each amenity once. */
  lemma PatagoniaHotelValid(st: CatalogState, raw: PatagoniaHotel)
    requires StateValid(st)
    ensures raw.id in PatagoniaNext(st, raw).hotels
    ensures HotelValid(PatagoniaNext(st, raw), PatagoniaNext(st, raw).hotels[raw.id])
  {
    var st' := PatagoniaNext(st, raw);
    var h := PatagoniaLocated(st, raw);
    var names := PatagoniaNames(raw);
    if raw.id in st.hotels {
      assert HotelValid(st, st.hotels[raw.id]);
    }
    AttachKeeps(st.amenities, h.amenities, names, "general");
    AttachStores(st.amenities, h.amenities, names, "general");
    AttachAdds(st.amenities, h.amenities, names, "general");
    AttachExtends(st.amenities, h.amenities, names, "general");
    var ha := st'.hotels[raw.id].amenities;
    forall i | 0 <= i < |ha|
      ensures ha[i] in st'.amenities
    {
      assert ha[i] in ha;
      if ha[i] !in h.amenities {
        var j :| 0 <= j < |names| && names[j] == ha[i];
      }
    }
  }

  /** A transform keeps the catalog's references intact. */
  lemma PatagoniaPreservesValid(st: CatalogState, raw: PatagoniaHotel)
    requires StateValid(st)
    ensures StateValid(PatagoniaNext(st, raw))
  {
    var st' := PatagoniaNext(st, raw);
    var h := PatagoniaLocated(st, raw);
    PatagoniaHotelValid(st, raw);
    AttachKeeps(st.amenities, h.amenities, PatagoniaNames(raw), "general");
    AttachKeysNames(st.amenities, h.amenities, PatagoniaNames(raw), "general");
    UpdateValid(st, st', st'.hotels[raw.id]);
  }

  /** Merging the record's images a second time changes nothing. */
  lemma PatagoniaImagesIdempotent(existing: Option<Images>, raw: PatagoniaHotel)
    ensures PatagoniaImages(Some(PatagoniaImages(existing, raw)), raw) == PatagoniaImages(existing, raw)
  {
    var before := existing.GetOr(map[]);
    var f1 := (x: seq<Image>) => MergeByKey(x, Linked(raw.amenityImages), ImageLink, false);
    var f2 := (x: seq<Image>) => MergeByKey(x, Linked(raw.roomImages), ImageLink, false);
    MergeIdempotent(CategoryImages(before, Amenities), Linked(raw.amenityImages), ImageLink);
    MergeIdempotent(CategoryImages(before, Rooms), Linked(raw.roomImages), ImageLink);
    UpdateCategoriesIdempotent(before, Amenities, Rooms, f1, f2);
  }



  /** After one transform, the hotel the record is merged into again already has every field it would get. */
  lemma PatagoniaLocatedAbsorb(st: CatalogState, raw: PatagoniaHotel)
    ensures raw.id in PatagoniaNext(st, raw).hotels
    ensures PatagoniaLocated(PatagoniaNext(st, raw), raw) == PatagoniaNext(st, raw).hotels[raw.id]
  {
    var st1 := PatagoniaNext(st, raw);
    var h := PatagoniaHotelFields(st, raw);
    var d := PatagoniaDestination(st, raw);
    var loc := PatagoniaLocation(h.location, raw, d);
    var h1 := st1.hotels[raw.id];
    assert h1 == h.(location := loc, images := Some(PatagoniaImages(h.images, raw)),
                    amenities := PatagoniaAttach(st, raw).hotelAmenities);
    assert |h.name| >= |raw.name|;
    assert PatagoniaHotelFields(st1, raw) == h1;
    assert PatagoniaDestination(st1, raw) == d;
    assert PatagoniaLocation(loc, raw, d) == loc;
    PatagoniaImagesIdempotent(h.images, raw);
  }

  /**
   * A catalog in which the record's destination is stored and the record's
   * hotel and amenity resolution are already absorbed is left unchanged.
   */
  lemma PatagoniaFixpoint(st: CatalogState, raw: PatagoniaHotel)
    requires raw.id in st.hotels
    requires WritesDestination(st, raw.id, raw.destination) ==> raw.destination in st.destinations
    requires PatagoniaLocated(st, raw) == st.hotels[raw.id]
    requires PatagoniaAttach(st, raw) == Attached(st.amenities, st.hotels[raw.id].amenities)
    ensures PatagoniaNext(st, raw) == st
  {
    assert st.hotels[raw.id := st.hotels[raw.id]] == st.hotels;
    if WritesDestination(st, raw.id, raw.destination) {
      assert st.destinations[raw.destination := st.destinations[raw.destination]] == st.destinations;
    }
  }

  /** Transforming the same record twice leaves the catalog as after once. */
  lemma PatagoniaIdempotent(st: CatalogState, raw: PatagoniaHotel)
    ensures PatagoniaNext(PatagoniaNext(st, raw), raw) == PatagoniaNext(st, raw)
  {
    var st1 := PatagoniaNext(st, raw);
    var a := PatagoniaAttach(st, raw);
    PatagoniaLocatedAbsorb(st, raw);
    AttachIdempotent(st.amenities, PatagoniaLocated(st, raw).amenities, PatagoniaNames(raw), "general");
    assert st1.amenities == a.amenities;
    assert st1.hotels[raw.id].amenities == a.hotelAmenities;
    if WritesDestination(st, raw.id, raw.destination) {
      assert WritesDestination(st1, raw.id, raw.destination);
    } else {
      assert !WritesDestination(st1, raw.id, raw.destination);
    }
    PatagoniaFixpoint(st1, raw);
  }
}
