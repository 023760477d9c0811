/**
 * The paperflies supplier adapter's `transform` step
 * (`src/provider/suppliers/strategy/paperflies.strategy.ts`): existing
 * data wins for the destination and the location, images are merged by
 * link, and amenities come in a general and a room list.
 */
module Paperflies {
  import opened Common
  import opened Strings
  import opened ArrayUtils
  import opened Entities
  import opened Catalog

  /** An image of the paperflies feed. */
  datatype PaperfliesImage = PaperfliesImage(link: string, caption: string)

  /** One record of the paperflies feed; the optional lists may be missing. */
  datatype PaperfliesHotel = PaperfliesHotel(
    hotelId: string,
    destinationId: int,
    hotelName: string,
    address: string,
    country: string,
    details: string,
    generalAmenities: Option<seq<string>>,
    roomAmenities: Option<seq<string>>,
    siteImages: Option<seq<PaperfliesImage>>,
    roomImages: Option<seq<PaperfliesImage>>,
    bookingConditions: seq<string>)

  /** `images?.map((item) => ({link: item.link, description: item.caption})) ?? []`. */
  function Captioned(images: Option<seq<PaperfliesImage>>): (r: seq<Image>)
    ensures |r| == |images.GetOr([])|
    ensures forall i :: 0 <= i < |r| ==>
              r[i].link == images.GetOr([])[i].link && r[i].description == images.GetOr([])[i].caption
  {
    var xs := images.GetOr([]);
    seq(|xs|, i requires 0 <= i < |xs| => Image(xs[i].link, xs[i].caption))
  }

  /** The destination: the stored one, or a new one with the record's country and an unknown city. */
  function PaperfliesDestination(st: CatalogState, raw: PaperfliesHotel): Destination {
    if raw.destinationId in st.destinations then st.destinations[raw.destinationId]
    else Destination(raw.destinationId, raw.country, UndefinedDestinationLabel)
  }

  /**
   * The hotel before location, images and amenities: a new one takes id,
   * destination, name and description from the record; an existing one
   * keeps its destination and merges name and description by length.
   */
  function PaperfliesHotelFields(st: CatalogState, raw: PaperfliesHotel): Hotel {
    if raw.hotelId !in st.hotels then
      NewHotel(raw.hotelId, raw.destinationId, raw.hotelName).(description := Some(raw.details))
    else
      var h := st.hotels[raw.hotelId];
      h.(name := LongestString(h.name, raw.hotelName),
         description := Some(LongestString(h.description.GetOr(""), raw.details)))
  }

  /** `{address, city, country, ...existing}`: existing keys win. */
  function PaperfliesLocation(existing: Location, raw: PaperfliesHotel, d: Destination): Location {
    map[Address := Text(raw.address), City := Text(d.city), Country := Text(d.country)] + existing
  }

  /** The images after the site and room lists are merged in by link (an absent map starts empty). */
  function PaperfliesImages(existing: Option<Images>, raw: PaperfliesHotel): Images {
    var images := existing.GetOr(map[]);
    images[Site := MergeByKey(CategoryImages(images, Site), Captioned(raw.siteImages), ImageLink, false)]
          [Rooms := MergeByKey(CategoryImages(images, Rooms), Captioned(raw.roomImages), ImageLink, false)]
  }

  /** The general amenity names, in the order they are resolved. */
  function GeneralNames(raw: PaperfliesHotel): seq<string> {
    SortLengthLex(LowerAll(raw.generalAmenities.GetOr([])))
  }

  /** The room amenity names, in the order they are resolved. */
  function RoomNames(raw: PaperfliesHotel): seq<string> {
    SortLengthLex(LowerAll(raw.roomAmenities.GetOr([])))
  }

  /** The hotel with its new location and images. */
  function PaperfliesLocated(st: CatalogState, raw: PaperfliesHotel): Hotel {
    var h := PaperfliesHotelFields(st, raw);
    h.(location := PaperfliesLocation(h.location, raw, PaperfliesDestination(st, raw)),
       images := Some(PaperfliesImages(h.images, raw)))
  }

  /** Amenity resolution: the general list first, then the room list. */
  function PaperfliesAttach(st: CatalogState, raw: PaperfliesHotel): Attached {
    var g := AttachNames(st.amenities, PaperfliesLocated(st, raw).amenities, GeneralNames(raw), "general");
    AttachNames(g.amenities, g.hotelAmenities, RoomNames(raw), "room")
  }

  /**
   * The catalog after `transform(raw)` and the persisting of its result:
   * `hotel.destination` is persisted, so a missing destination is stored
   * only when the hotel is new or already refers to it.
   */
  function PaperfliesNext(st: CatalogState, raw: PaperfliesHotel): CatalogState {
    var a := PaperfliesAttach(st, raw);
    CatalogState(
      if WritesDestination(st, raw.hotelId, raw.destinationId)
      then st.destinations[raw.destinationId := PaperfliesDestination(st, raw)]
      else st.destinations,
      st.hotels[raw.hotelId := PaperfliesLocated(st, raw).(amenities := a.hotelAmenities)],
      a.amenities)
  }

  /** The catalog after transforming a feed in order. */
  function PaperfliesFeed(st: CatalogState, feed: seq<PaperfliesHotel>): CatalogState
    decreases |feed|
  {
    if feed == [] then st else PaperfliesNext(PaperfliesFeed(st, feed[..|feed| - 1]), feed[|feed| - 1])
  }

  /** The hotels `transforms` returns: each record's hotel as its transform left it. */
  function PaperfliesFeedHotels(st: CatalogState, feed: seq<PaperfliesHotel>): (hs: seq<Hotel>)
    ensures |hs| == |feed|
    decreases |feed|
  {
    if feed == [] then []
    else
      var n := |feed| - 1;
      PaperfliesFeedHotels(st, feed[..n]) + [PaperfliesNext(PaperfliesFeed(st, feed[..n]), feed[n]).hotels[feed[n].hotelId]]
  }

  lemma PaperfliesFeedSnoc(st: CatalogState, feed: seq<PaperfliesHotel>, i: nat)
    requires i < |feed|
    ensures PaperfliesFeed(st, feed[..i + 1]) == PaperfliesNext(PaperfliesFeed(st, feed[..i]), feed[i])
    ensures PaperfliesFeedHotels(st, feed[..i + 1])
         == PaperfliesFeedHotels(st, feed[..i]) + [PaperfliesNext(PaperfliesFeed(st, feed[..i]), feed[i]).hotels[feed[i].hotelId]]
  {
    assert feed[..i + 1][..i] == feed[..i];
  }

  /** `PaperfliesStrategy`, over the store its entity manager reads and writes. */
  class PaperfliesStrategy {
    const catalog: Catalog

    constructor(catalog: Catalog)
      ensures this.catalog == catalog
    {
      this.catalog := catalog;
    }

    /** `transform(rawHotel)`, followed by persisting the hotel it returns. */
    method Transform(raw: PaperfliesHotel) returns (hotel: Hotel)
      modifies catalog
      ensures catalog.State() == PaperfliesNext(old(catalog.State()), raw)
      ensures raw.hotelId in catalog.hotels && hotel == catalog.hotels[raw.hotelId]
    {
      ghost var st := catalog.State();
      var destination: Destination;
      if raw.destinationId in catalog.destinations {
        destination := catalog.destinations[raw.destinationId];
      } else {
        destination := Destination(raw.destinationId, raw.country, UndefinedDestinationLabel);
      }
      if raw.hotelId !in catalog.hotels || catalog.hotels[raw.hotelId].destinationId == raw.destinationId {
        catalog.destinations := catalog.destinations[raw.destinationId := destination];
      }

      if raw.hotelId !in catalog.hotels {
        hotel := NewHotel(raw.hotelId, raw.destinationId, raw.hotelName);
        hotel := hotel.(description := Some(raw.details));
      } else {
        hotel := catalog.hotels[raw.hotelId];
        hotel := hotel.(name := LongestString(hotel.name, raw.hotelName));
        hotel := hotel.(description := Some(LongestString(hotel.description.GetOr(""), raw.details)));
      }

      hotel := hotel.(location :=
        map[Address := Text(raw.address), City := Text(destination.city), Country := Text(destination.country)]
        + hotel.location);

      var images: Images := if hotel.images.None? then map[] else hotel.images.value;
      var site := MergeArrayByKey(CategoryImages(images, Site), Captioned(raw.siteImages), ImageLink, false);
      images := images[Site := site];
      var rooms := MergeArrayByKey(CategoryImages(images, Rooms), Captioned(raw.roomImages), ImageLink, false);
      images := images[Rooms := rooms];
      hotel := hotel.(images := Some(images));
      assert hotel == PaperfliesLocated(st, raw);

      var roomNames := SortedLowerNames(raw.roomAmenities.GetOr([]));
      var generalNames := SortedLowerNames(raw.generalAmenities.GetOr([]));
      var attached := AttachAmenities(catalog, hotel.amenities, generalNames, "general");
      attached := AttachAmenities(catalog, attached, roomNames, "room");
      hotel := hotel.(amenities := attached);
      catalog.hotels := catalog.hotels[raw.hotelId := hotel];
    }

    /** `transforms(rawData)`, one record after another in feed order. */
    method Transforms(feed: seq<PaperfliesHotel>) returns (hotels: seq<Hotel>)
      modifies catalog
      ensures catalog.State() == PaperfliesFeed(old(catalog.State()), feed)
      ensures hotels == PaperfliesFeedHotels(old(catalog.State()), feed)
    {
      ghost var st0 := catalog.State();
      hotels := [];
      var i := 0;
      while i < |feed|
        invariant 0 <= i <= |feed|
        invariant catalog.State() == PaperfliesFeed(st0, feed[..i])
        invariant hotels == PaperfliesFeedHotels(st0, feed[..i])
      {
        PaperfliesFeedSnoc(st0, feed, i);
        var hotel := Transform(feed[i]);
        hotels := hotels + [hotel];
        i := i + 1;
      }
      assert feed[..i] == feed;
    }
  }

  // ---------------------------------------------------------------------
  // Properties
  // ---------------------------------------------------------------------

  /**
   * When the hotel is new or already refers to the record's destination, a
   * missing destination is created with the record's id and country and
   * the placeholder city; a stored one is left untouched, and so is every
   * other destination.
   */
  lemma PaperfliesDestinationUpsert(st: CatalogState, raw: PaperfliesHotel)
    requires WritesDestination(st, raw.hotelId, raw.destinationId)
    ensures raw.destinationId in PaperfliesNext(st, raw).destinations
    ensures raw.destinationId !in st.destinations ==>
              PaperfliesNext(st, raw).destinations[raw.destinationId]
              == Destination(raw.destinationId, raw.country, UndefinedDestinationLabel)
    ensures raw.destinationId in st.destinations ==> PaperfliesNext(st, raw).destinations == st.destinations
    ensures forall k | k in st.destinations ::
              k in PaperfliesNext(st, raw).destinations && PaperfliesNext(st, raw).destinations[k] == st.destinations[k]
  {
  }

  /**
   * When the stored hotel refers to another destination, no destination is
   * written, even one the record names that is not stored.
   */
  lemma PaperfliesKeepsDestinations(st: CatalogState, raw: PaperfliesHotel)
    requires !WritesDestination(st, raw.hotelId, raw.destinationId)
    ensures PaperfliesNext(st, raw).destinations == st.destinations
    ensures raw.hotelId in PaperfliesNext(st, raw).hotels
    ensures PaperfliesNext(st, raw).hotels[raw.hotelId].destinationId != raw.destinationId
  {
  }

  /** A new hotel takes id, destination, name (`hotel_name`) and description (`details`) from the record. */
  lemma PaperfliesNewHotel(st: CatalogState, raw: PaperfliesHotel)
    requires raw.hotelId !in st.hotels
    ensures raw.hotelId in PaperfliesNext(st, raw).hotels
    ensures var h := PaperfliesNext(st, raw).hotels[raw.hotelId];
            && h.id == raw.hotelId && h.destinationId == raw.destinationId
            && h.name == raw.hotelName && h.description == Some(raw.details)
            && h.bookingConditions == None
  {
  }

  /**
   * An existing hotel keeps its destination and booking conditions; its
   * name and description become the longer of the stored and the record's
   * value, a missing description counting as empty.
   */
  lemma PaperfliesExistingHotel(st: CatalogState, raw: PaperfliesHotel)
    requires raw.hotelId in st.hotels
    ensures raw.hotelId in PaperfliesNext(st, raw).hotels
    ensures var old_ := st.hotels[raw.hotelId];
            var h := PaperfliesNext(st, raw).hotels[raw.hotelId];
            && h.id == old_.id
            && h.destinationId == old_.destinationId
            && h.name == LongestString(old_.name, raw.hotelName)
            && h.description == Some(LongestString(old_.description.GetOr(""), raw.details))
            && h.bookingConditions == old_.bookingConditions
  {
  }

  /**
   * Existing location keys keep their values; the record's address and the
   * destination's city and country fill only keys the hotel lacks.
   */
  lemma PaperfliesLocationFills(st: CatalogState, raw: PaperfliesHotel)
    ensures raw.hotelId in PaperfliesNext(st, raw).hotels
    ensures var before := PaperfliesHotelFields(st, raw).location;
            var after := PaperfliesNext(st, raw).hotels[raw.hotelId].location;
            var d := PaperfliesDestination(st, raw);
            && (forall k | k in before :: k in after && after[k] == before[k])
            && (Address !in before ==> Address in after && after[Address] == Text(raw.address))
            && (City !in before ==> City in after && after[City] == Text(d.city))
            && (Country !in before ==> Country in after && after[Country] == Text(d.country))
            && after.Keys == before.Keys + {Address, City, Country}
  {
  }

  /**
   * The site and room images become the stored lists merged by link with
   * the record's (captions as descriptions), stored entries winning and
   * new links appended; amenity images are not touched.
   */
  lemma PaperfliesMergesImages(st: CatalogState, raw: PaperfliesHotel)
    ensures raw.hotelId in PaperfliesNext(st, raw).hotels
    ensures var before := PaperfliesHotelFields(st, raw).images.GetOr(map[]);
            var after := PaperfliesNext(st, raw).hotels[raw.hotelId].images;
            && after.Some?
            && after.value[Site] == MergeByKey(CategoryImages(before, Site), Captioned(raw.siteImages), ImageLink, false)
            && after.value[Rooms] == MergeByKey(CategoryImages(before, Rooms), Captioned(raw.roomImages), ImageLink, false)
            && (Amenities in after.value <==> Amenities in before)
            && (Amenities in before ==> after.value[Amenities] == before[Amenities])
  {
  }

  /** Every lower-cased general and room name ends up stored and attached to the hotel. */
  lemma PaperfliesAttachesAmenities(st: CatalogState, raw: PaperfliesHotel)
    ensures raw.hotelId in PaperfliesNext(st, raw).hotels
    ensures forall n | n in GeneralNames(raw) || n in RoomNames(raw) ::
              n in PaperfliesNext(st, raw).amenities && n in PaperfliesNext(st, raw).hotels[raw.hotelId].amenities
    ensures forall i :: 0 <= i < |raw.generalAmenities.GetOr([])| ==> Lower(raw.generalAmenities.GetOr([])[i]) in GeneralNames(raw)
    ensures forall i :: 0 <= i < |raw.roomAmenities.GetOr([])| ==> Lower(raw.roomAmenities.GetOr([])[i]) in RoomNames(raw)
  {
    var h := PaperfliesLocated(st, raw);
    var g := AttachNames(st.amenities, h.amenities, GeneralNames(raw), "general");
    AttachStores(st.amenities, h.amenities, GeneralNames(raw), "general");
    AttachAdds(st.amenities, h.amenities, GeneralNames(raw), "general");
    AttachKeeps(g.amenities, g.hotelAmenities, RoomNames(raw), "room");
    AttachExtends(g.amenities, g.hotelAmenities, RoomNames(raw), "room");
    AttachStores(g.amenities, g.hotelAmenities, RoomNames(raw), "room");
    AttachAdds(g.amenities, g.hotelAmenities, RoomNames(raw), "room");
    var r := AttachNames(g.amenities, g.hotelAmenities, RoomNames(raw), "room");
    forall n | n in GeneralNames(raw)
      ensures n in r.amenities && n in r.hotelAmenities
    {
      var i :| 0 <= i < |GeneralNames(raw)| && GeneralNames(raw)[i] == n;
      assert n in g.hotelAmenities;
      assert r.hotelAmenities[..|g.hotelAmenities|] == g.hotelAmenities;
    }
    forall n | n in RoomNames(raw)
      ensures n in r.amenities && n in r.hotelAmenities
    {
      var i :| 0 <= i < |RoomNames(raw)| && RoomNames(raw)[i] == n;
    }
    SortedLowerContains(raw.generalAmenities.GetOr([]));
    SortedLowerContains(raw.roomAmenities.GetOr([]));
  }

  /** A name is resolved iff it is the lower-cased form of a raw name. */
  lemma SortedLowerContains(names: seq<string>)
    ensures forall i :: 0 <= i < |names| ==> Lower(names[i]) in SortLengthLex(LowerAll(names))
  {
    SortLengthLexSpec(LowerAll(names));
    forall i | 0 <= i < |names|
      ensures Lower(names[i]) in SortLengthLex(LowerAll(names))
    {
      assert LowerAll(names)[i] == Lower(names[i]);
      assert Lower(names[i]) in multiset(LowerAll(names));
    }
  }

  /**
   * A newly created amenity gets the category of the list it came from;
   * a new name in both lists is created once, as `general`, because the
   * general list is resolved first. Stored amenities are reused unchanged.
   */
  lemma PaperfliesNewAmenityCategory(st: CatalogState, raw: PaperfliesHotel)
    ensures forall k | k in st.amenities ::
              k in PaperfliesNext(st, raw).amenities && PaperfliesNext(st, raw).amenities[k] == st.amenities[k]
    ensures forall k | k in PaperfliesNext(st, raw).amenities && k !in st.amenities ::
              PaperfliesNext(st, raw).amenities[k]
              == Amenity(k, if k in GeneralNames(raw) then "general" else "room", [])
    ensures forall k | k in PaperfliesNext(st, raw).amenities && k !in st.amenities ::
              k in GeneralNames(raw) || k in RoomNames(raw)
  {
    var h := PaperfliesLocated(st, raw);
    var g := AttachNames(st.amenities, h.amenities, GeneralNames(raw), "general");
    AttachKeeps(st.amenities, h.amenities, GeneralNames(raw), "general");
    AttachCreates(st.amenities, h.amenities, GeneralNames(raw), "general");
    AttachStores(st.amenities, h.amenities, GeneralNames(raw), "general");
    AttachKeeps(g.amenities, g.hotelAmenities, RoomNames(raw), "room");
    AttachCreates(g.amenities, g.hotelAmenities, RoomNames(raw), "room");
  }

  /** The stored hotel refers to stored rows only, each amenity once. */
  lemma PaperfliesHotelValid(st: CatalogState, raw: PaperfliesHotel)
    requires StateValid(st)
    ensures raw.hotelId in PaperfliesNext(st, raw).hotels
    ensures HotelValid(PaperfliesNext(st, raw), PaperfliesNext(st, raw).hotels[raw.hotelId])
  {
    var st' := PaperfliesNext(st, raw);
    var h := PaperfliesLocated(st, raw);
    var gn := GeneralNames(raw);
    var rn := RoomNames(raw);
    var g := AttachNames(st.amenities, h.amenities, gn, "general");
    if raw.hotelId in st.hotels {
      assert HotelValid(st, st.hotels[raw.hotelId]);
    }
    AttachKeeps(g.amenities, g.hotelAmenities, rn, "room");
    AttachExtends(st.amenities, h.amenities, gn, "general");
    AttachExtends(g.amenities, g.hotelAmenities, rn, "room");
    PaperfliesAttachesAmenities(st, raw);
    AttachAdds(st.amenities, h.amenities, gn, "general");
    AttachAdds(g.amenities, g.hotelAmenities, rn, "room");
    AttachKeeps(st.amenities, h.amenities, gn, "general");
    var ha := st'.hotels[raw.hotelId].amenities;
    forall i | 0 <= i < |ha|
      ensures ha[i] in st'.amenities
    {
      assert ha[i] in ha;
      if ha[i] !in gn && ha[i] !in rn {
        assert ha[i] in g.hotelAmenities;
        assert ha[i] in h.amenities;
      }
    }
  }

  /** A transform keeps the catalog's references intact. */
  lemma PaperfliesPreservesValid(st: CatalogState, raw: PaperfliesHotel)
    requires StateValid(st)
    ensures StateValid(PaperfliesNext(st, raw))
  {
    var st' := PaperfliesNext(st, raw);
    PaperfliesHotelValid(st, raw);
    PaperfliesNewAmenityCategory(st, raw);
    UpdateValid(st, st', st'.hotels[raw.hotelId]);
  }

  /** Re-reading a hotel the record has already been merged into changes none of its fields. */
  lemma PaperfliesHotelFieldsAbsorb(st: CatalogState, raw: PaperfliesHotel, st1: CatalogState, h1: Hotel)
    requires h1.name == PaperfliesHotelFields(st, raw).name
    requires h1.description == PaperfliesHotelFields(st, raw).description
    requires st1.hotels == st.hotels[raw.hotelId := h1]
    ensures PaperfliesHotelFields(st1, raw) == h1
  {
    var h := PaperfliesHotelFields(st, raw);
    assert |h.name| >= |raw.hotelName|;
    assert |h.description.GetOr("")| >= |raw.details|;
  }

  /** Merging the record's images a second time changes nothing. */
  lemma PaperfliesImagesIdempotent(existing: Option<Images>, raw: PaperfliesHotel)
    ensures PaperfliesImages(Some(PaperfliesImages(existing, raw)), raw) == PaperfliesImages(existing, raw)
  {
    var before := existing.GetOr(map[]);
    var f1 := (x: seq<Image>) => MergeByKey(x, Captioned(raw.siteImages), ImageLink, false);
    var f2 := (x: seq<Image>) => MergeByKey(x, Captioned(raw.roomImages), ImageLink, false);
    MergeIdempotent(CategoryImages(before, Site), Captioned(raw.siteImages), ImageLink);
    MergeIdempotent(CategoryImages(before, Rooms), Captioned(raw.roomImages), ImageLink);
    UpdateCategoriesIdempotent(before, Site, Rooms, f1, f2);
  }



  /** Resolving the record's two lists a second time changes nothing. */
  lemma PaperfliesAttachIdempotent(amenities: map<string, Amenity>, hotelAmenities: seq<string>, raw: PaperfliesHotel)
    ensures var g := AttachNames(amenities, hotelAmenities, GeneralNames(raw), "general");
            var r := AttachNames(g.amenities, g.hotelAmenities, RoomNames(raw), "room");
            var g2 := AttachNames(r.amenities, r.hotelAmenities, GeneralNames(raw), "general");
            AttachNames(g2.amenities, g2.hotelAmenities, RoomNames(raw), "room") == r
  {
    var gn := GeneralNames(raw);
    var rn := RoomNames(raw);
    var g := AttachNames(amenities, hotelAmenities, gn, "general");
    var r := AttachNames(g.amenities, g.hotelAmenities, rn, "room");
    AttachStores(amenities, hotelAmenities, gn, "general");
    AttachAdds(amenities, hotelAmenities, gn, "general");
    AttachKeeps(g.amenities, g.hotelAmenities, rn, "room");
    AttachExtends(g.amenities, g.hotelAmenities, rn, "room");
    forall i | 0 <= i < |gn|
      ensures gn[i] in r.amenities && gn[i] in r.hotelAmenities
    {
      assert gn[i] in g.hotelAmenities;
      assert r.hotelAmenities[..|g.hotelAmenities|] == g.hotelAmenities;
    }
    AttachAbsorbs(r.amenities, r.hotelAmenities, gn, "general");
    AttachIdempotent(g.amenities, g.hotelAmenities, rn, "room");
  }

  /** After one transform, the hotel the record is merged into again already has every field it would get. */
  lemma PaperfliesLocatedAbsorb(st: CatalogState, raw: PaperfliesHotel)
    ensures raw.hotelId in PaperfliesNext(st, raw).hotels
    ensures PaperfliesLocated(PaperfliesNext(st, raw), raw) == PaperfliesNext(st, raw).hotels[raw.hotelId]
  {
    var st1 := PaperfliesNext(st, raw);
    var h := PaperfliesHotelFields(st, raw);
    var d := PaperfliesDestination(st, raw);
    var loc := PaperfliesLocation(h.location, raw, d);
    var imgs := PaperfliesImages(h.images, raw);
    var h1 := st1.hotels[raw.hotelId];
    assert h1 == h.(location := loc, images := Some(imgs), amenities := PaperfliesAttach(st, raw).hotelAmenities);
    PaperfliesHotelFieldsAbsorb(st, raw, st1, h1);
    assert PaperfliesDestination(st1, raw) == d;
    assert PaperfliesLocation(loc, raw, d) == loc;
    PaperfliesImagesIdempotent(h.images, raw);
  }

  /**
   * A catalog in which the record's destination is stored and the record's
   * hotel and amenity resolution are already absorbed is left unchanged.
   */
  lemma PaperfliesFixpoint(st: CatalogState, raw: PaperfliesHotel)
    requires raw.hotelId in st.hotels
    requires WritesDestination(st, raw.hotelId, raw.destinationId) ==> raw.destinationId in st.destinations
    requires PaperfliesLocated(st, raw) == st.hotels[raw.hotelId]
    requires PaperfliesAttach(st, raw) == Attached(st.amenities, st.hotels[raw.hotelId].amenities)
    ensures PaperfliesNext(st, raw) == st
  {
    assert st.hotels[raw.hotelId := st.hotels[raw.hotelId]] == st.hotels;
    if WritesDestination(st, raw.hotelId, raw.destinationId) {
      assert st.destinations[raw.destinationId := st.destinations[raw.destinationId]] == st.destinations;
    }
  }

  /** Transforming the same record twice leaves the catalog as after once. */
  lemma PaperfliesIdempotent(st: CatalogState, raw: PaperfliesHotel)
    ensures PaperfliesNext(PaperfliesNext(st, raw), raw) == PaperfliesNext(st, raw)
  {
    var st1 := PaperfliesNext(st, raw);
    var a := PaperfliesAttach(st, raw);
    PaperfliesLocatedAbsorb(st, raw);
    PaperfliesAttachIdempotent(st.amenities, PaperfliesLocated(st, raw).amenities, raw);
    assert st1.amenities == a.amenities;
    assert st1.hotels[raw.hotelId].amenities == a.hotelAmenities;
    if WritesDestination(st, raw.hotelId, raw.destinationId) {
      assert WritesDestination(st1, raw.hotelId, raw.destinationId);
    } else {
      assert !WritesDestination(st1, raw.hotelId, raw.destinationId);
    }
    PaperfliesFixpoint(st1, raw);
  }
}
