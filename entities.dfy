/**
 * The persisted entities of the catalog (the entity classes under `src/db/entities`)
 * as values. A hotel refers to its destination by id and to its amenities
 * by name; the catalog holds the entities themselves.
 */
module Entities {
  import opened Common

  /** `Destination`: id, country and city. */
  datatype Destination = Destination(id: int, country: string, city: string)

  /**
   * `Amenity`: a name, a category (`'general'`, `'room'`, or any other
   * string a stored row may hold) and a list of synonyms (a missing list
   * is the empty list).
   */
  datatype Amenity = Amenity(name: string, category: string, synonyms: seq<string>)

  /** `HotelImage`. */
  datatype Image = Image(link: string, description: string)

  /** The `link` property `mergeArrayByKey` indexes images by. */
  function ImageLink(i: Image): string {
    i.link
  }

  /** `HotelImageCategory`. */
  datatype ImageCategory = Rooms | Site | Amenities

  /** `images?.[category] ?? []`. */
  function CategoryImages(images: Images, category: ImageCategory): (r: seq<Image>)
    ensures category !in images ==> r == []
  {
    if category in images then images[category] else []
  }

  /** The keys of `HotelLocation`; every key is optional. */
  datatype LocationKey = Lat | Lng | Address | City | Country

  /**
   * A location value: a coordinate (only ever copied), a text, or the
   * `null` a supplier record can carry in place of either.
   */
  datatype LocationValue = Coordinate(value: real) | Text(text: string) | Null

  /** A supplier's coordinate, `null` when the record has none. */
  function CoordinateOr(x: Option<real>): (v: LocationValue)
    ensures x.None? <==> v == Null
    ensures x.Some? ==> v == Coordinate(x.value)
  {
    if x.Some? then Coordinate(x.value) else Null
  }

  /** A supplier's text, `null` when the record has none. */
  function TextOr(x: Option<string>): (v: LocationValue)
    ensures x.None? <==> v == Null
    ensures x.Some? ==> v == Text(x.value)
  {
    if x.Some? then Text(x.value) else Null
  }

  /** `HotelLocation`: object spread `{...a, ...b}` is map union `a + b`. */
  type Location = map<LocationKey, LocationValue>

  /** `Partial<Record<HotelImageCategory, HotelImage[]>>`. */
  type Images = map<ImageCategory, seq<Image>>

  /**
   * `Hotel`. `amenities` is the hotel's amenity collection in insertion
   * order, by amenity name; `images` and `bookingConditions` are nullable
   * columns, `description` an optional one.
   */
  datatype Hotel = Hotel(
    id: string,
    destinationId: int,
    name: string,
    description: Option<string>,
    location: Location,
    images: Option<Images>,
    bookingConditions: Option<seq<string>>,
    amenities: seq<string>)

  /** `UNDEFINED_DESTINATION_LABEL`, the placeholder for an unknown country or city. */
  const UndefinedDestinationLabel: string := "?"

  /**
   * `new Hotel()` with id, destination and name assigned: no description,
   * an empty location, the `images = {}` field initialiser, no booking
   * conditions and no amenities.
   */
  function NewHotel(id: string, destinationId: int, name: string): (h: Hotel)
    ensures h.id == id && h.destinationId == destinationId && h.name == name
    ensures h.description == None && h.location == map[] && h.images == Some(map[])
    ensures h.bookingConditions == None && h.amenities == []
  {
    Hotel(id, destinationId, name, None, map[], Some(map[]), None, [])
  }

  /**
   * Replacing two image categories by a function of their current lists is
   * idempotent when each function is idempotent on the list it produced.
   */
  lemma UpdateCategoriesIdempotent(before: Images, c1: ImageCategory, c2: ImageCategory,
                                   f1: seq<Image> -> seq<Image>, f2: seq<Image> -> seq<Image>)
    requires c1 != c2
    requires f1(f1(CategoryImages(before, c1))) == f1(CategoryImages(before, c1))
    requires f2(f2(CategoryImages(before, c2))) == f2(CategoryImages(before, c2))
    ensures var after := before[c1 := f1(CategoryImages(before, c1))][c2 := f2(CategoryImages(before, c2))];
            after[c1 := f1(CategoryImages(after, c1))][c2 := f2(CategoryImages(after, c2))] == after
  {
    var after := before[c1 := f1(CategoryImages(before, c1))][c2 := f2(CategoryImages(before, c2))];
    assert CategoryImages(after, c1) == f1(CategoryImages(before, c1));
    assert CategoryImages(after, c2) == f2(CategoryImages(before, c2));
  }
}
