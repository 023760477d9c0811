/**
 * The in-memory catalog the supplier adapters reconcile into: the rows an
 * adapter's entity manager finds and persists, held as three maps
 * (destinations by id, hotels by id, amenities by name). Also the amenity
 * resolution all three adapters share: lower-case the raw names, sort them
 * by length then lexicographically, reuse an amenity that exists under a
 * name, create a missing one with the adapter's category and no synonyms,
 * and add each to the hotel's amenity collection.
 */
module Catalog {
  import opened Common
  import opened Strings
  import opened ArrayUtils
  import opened Entities

  datatype CatalogState = CatalogState(
    destinations: map<int, Destination>,
    hotels: map<string, Hotel>,
    amenities: map<string, Amenity>)

  /** A hotel refers to a stored destination and to stored amenities, each once. */
  predicate HotelValid(st: CatalogState, h: Hotel) {
    && h.destinationId in st.destinations
    && NoDuplicates(h.amenities)
    && (forall i :: 0 <= i < |h.amenities| ==> h.amenities[i] in st.amenities)
  }

  /** Every row is stored under its own key, and hotels refer only to stored rows. */
  predicate StateValid(st: CatalogState) {
    && (forall d | d in st.destinations :: st.destinations[d].id == d)
    && (forall n | n in st.amenities :: st.amenities[n].name == n)
    && (forall h | h in st.hotels :: st.hotels[h].id == h && HotelValid(st, st.hotels[h]))
  }

  /**
   * Whether reconciling a record for hotel `hotelId` at destination
   * `destinationId` persists that destination: the adapters persist
   * `hotel.destination`, which is the record's destination only for a new
   * hotel; a stored hotel keeps the destination it already refers to.
   */
  predicate WritesDestination(st: CatalogState, hotelId: string, destinationId: int) {
    hotelId !in st.hotels || st.hotels[hotelId].destinationId == destinationId
  }

  /** The store the adapters read with `findOne`/`find` and write with `persist`. */
  class Catalog {
    var destinations: map<int, Destination>
    var hotels: map<string, Hotel>
    var amenities: map<string, Amenity>

    function State(): CatalogState
      reads this
    {
      CatalogState(destinations, hotels, amenities)
    }

    predicate Valid()
      reads this
    {
      StateValid(State())
    }

    /** An empty store. */
    constructor()
      ensures State() == CatalogState(map[], map[], map[])
      ensures Valid()
    {
      destinations := map[];
      hotels := map[];
      amenities := map[];
    }
  }

  /**
   * Storing one hotel keeps the catalog valid when the hotel itself is
   * valid, no destination or amenity disappears, and every row is still
   * stored under its own key.
   */
  lemma UpdateValid(st: CatalogState, st': CatalogState, h: Hotel)
    requires StateValid(st)
    requires forall k | k in st.destinations :: k in st'.destinations
    requires forall k | k in st'.destinations :: st'.destinations[k].id == k
    requires forall n | n in st.amenities :: n in st'.amenities
    requires forall n | n in st'.amenities :: st'.amenities[n].name == n
    requires st'.hotels == st.hotels[h.id := h]
    requires HotelValid(st', h)
    ensures StateValid(st')
  {
    forall k | k in st'.hotels
      ensures st'.hotels[k].id == k && HotelValid(st', st'.hotels[k])
    {
      if k != h.id {
        var g := st.hotels[k];
        assert HotelValid(st, g);
        forall i | 0 <= i < |g.amenities|
          ensures g.amenities[i] in st'.amenities
        {
          assert g.amenities[i] in st.amenities;
        }
      }
    }
  }

  // ---------------------------------------------------------------------
  // Amenity resolution
  // ---------------------------------------------------------------------

  /**
   * `sortByLengthAndLexicographically(names.map((n) => n.toLowerCase()))`:
   * a fresh array of the lower-cased names, sorted in place.
   */
  method SortedLowerNames(names: seq<string>) returns (r: seq<string>)
    ensures r == SortLengthLex(LowerAll(names))
    ensures SortedByLengthLex(r) && multiset(r) == multiset(LowerAll(names))
  {
    var a := new string[|names|](i requires 0 <= i < |names| => Lower(names[i]));
    assert a[..] == LowerAll(names);
    SortByLengthAndLexicographically(a);
    r := a[..];
    SortLengthLexSpec(LowerAll(names));
  }

  /** The amenity table and one hotel's amenity collection, as amenity resolution leaves them. */
  datatype Attached = Attached(amenities: map<string, Amenity>, hotelAmenities: seq<string>)

  /**
   * One name: an amenity stored under it is reused, otherwise one is
   * created with the given category and no synonyms; either way it is
   * added to the hotel's collection.
   */
  function AttachOne(a: Attached, name: string, category: string): Attached {
    var table := if name in a.amenities then a.amenities else a.amenities[name := Amenity(name, category, [])];
    Attached(table, AddUnique(a.hotelAmenities, name))
  }

  /** Resolving `names` in order, starting from a table and a hotel's collection. */
  function AttachNames(amenities: map<string, Amenity>, hotelAmenities: seq<string>, names: seq<string>, category: string): Attached
    decreases |names|
  {
    if names == [] then Attached(amenities, hotelAmenities)
    else AttachOne(AttachNames(amenities, hotelAmenities, names[..|names| - 1], category), names[|names| - 1], category)
  }

  /**
   * The resolution loop: fills the store's amenity table (which stands for
   * the `amenitiesMapping` built from the stored amenities with those names)
   * and returns the hotel's new collection.
   */
  method AttachAmenities(c: Catalog, hotelAmenities: seq<string>, names: seq<string>, category: string)
    returns (attached: seq<string>)
    modifies c
    ensures c.amenities == AttachNames(old(c.amenities), hotelAmenities, names, category).amenities
    ensures attached == AttachNames(old(c.amenities), hotelAmenities, names, category).hotelAmenities
    ensures c.destinations == old(c.destinations) && c.hotels == old(c.hotels)
  {
    ghost var table0 := c.amenities;
    attached := hotelAmenities;
    var i := 0;
    while i < |names|
      invariant 0 <= i <= |names|
      invariant Attached(c.amenities, attached) == AttachNames(table0, hotelAmenities, names[..i], category)
      invariant c.destinations == old(c.destinations) && c.hotels == old(c.hotels)
    {
      assert names[..i + 1][..i] == names[..i];
      var name := names[i];
      assert AttachNames(table0, hotelAmenities, names[..i + 1], category)
          == AttachOne(Attached(c.amenities, attached), name, category);
      if name !in c.amenities {
        c.amenities := c.amenities[name := Amenity(name, category, [])];
      }
      attached := AddUnique(attached, name);
      i := i + 1;
    }
    assert names[..i] == names;
  }

  /** Resolution reuses every stored amenity unchanged. */
  lemma {:induction false} AttachKeeps(amenities: map<string, Amenity>, hotelAmenities: seq<string>, names: seq<string>, category: string)
    ensures forall k | k in amenities ::
              k in AttachNames(amenities, hotelAmenities, names, category).amenities
              && AttachNames(amenities, hotelAmenities, names, category).amenities[k] == amenities[k]
    decreases |names|
  {
    if names != [] {
      AttachKeeps(amenities, hotelAmenities, names[..|names| - 1], category);
    }
  }

  /** Resolution stores an amenity under every name. */
  lemma {:induction false} AttachStores(amenities: map<string, Amenity>, hotelAmenities: seq<string>, names: seq<string>, category: string)
    ensures forall i :: 0 <= i < |names| ==> names[i] in AttachNames(amenities, hotelAmenities, names, category).amenities
    decreases |names|
  {
    if names != [] {
      var n := |names| - 1;
      var prev := AttachNames(amenities, hotelAmenities, names[..n], category);
      AttachStores(amenities, hotelAmenities, names[..n], category);
      forall i | 0 <= i < |names|
        ensures names[i] in AttachOne(prev, names[n], category).amenities
      {
        if i < n {
          assert names[..n][i] == names[i];
        }
      }
    }
  }

  /**
   * Resolution creates only amenities named in `names`, each with the
   * given category and no synonyms.
   */
  lemma {:induction false} AttachCreates(amenities: map<string, Amenity>, hotelAmenities: seq<string>, names: seq<string>, category: string)
    ensures forall k | k in AttachNames(amenities, hotelAmenities, names, category).amenities && k !in amenities ::
              k in names && AttachNames(amenities, hotelAmenities, names, category).amenities[k] == Amenity(k, category, [])
    decreases |names|
  {
    if names != [] {
      var n := |names| - 1;
      var prev := AttachNames(amenities, hotelAmenities, names[..n], category);
      AttachCreates(amenities, hotelAmenities, names[..n], category);
      forall k | k in AttachOne(prev, names[n], category).amenities && k !in amenities
        ensures k in names && AttachOne(prev, names[n], category).amenities[k] == Amenity(k, category, [])
      {
        if k != names[n] {
          assert k in prev.amenities;
          var i :| 0 <= i < n && names[..n][i] == k;
          assert names[i] == k;
        }
      }
    }
  }

  /** Resolution keeps every amenity stored under its own name. */
  lemma AttachKeysNames(amenities: map<string, Amenity>, hotelAmenities: seq<string>, names: seq<string>, category: string)
    requires forall k | k in amenities :: amenities[k].name == k
    ensures forall k | k in AttachNames(amenities, hotelAmenities, names, category).amenities ::
              AttachNames(amenities, hotelAmenities, names, category).amenities[k].name == k
  {
    AttachKeeps(amenities, hotelAmenities, names, category);
    AttachCreates(amenities, hotelAmenities, names, category);
  }

  /** Resolution keeps the hotel's collection as a prefix and adds none twice. */
  lemma {:induction false} AttachExtends(amenities: map<string, Amenity>, hotelAmenities: seq<string>, names: seq<string>, category: string)
    ensures |hotelAmenities| <= |AttachNames(amenities, hotelAmenities, names, category).hotelAmenities|
    ensures AttachNames(amenities, hotelAmenities, names, category).hotelAmenities[..|hotelAmenities|] == hotelAmenities
    ensures NoDuplicates(hotelAmenities) ==> NoDuplicates(AttachNames(amenities, hotelAmenities, names, category).hotelAmenities)
    decreases |names|
  {
    if names != [] {
      var n := |names| - 1;
      AttachExtends(amenities, hotelAmenities, names[..n], category);
      var prev := AttachNames(amenities, hotelAmenities, names[..n], category).hotelAmenities;
      var next := AddUnique(prev, names[n]);
      assert next[..|prev|] == prev;
      assert next[..|hotelAmenities|] == next[..|prev|][..|hotelAmenities|];
    }
  }

  /** Resolution adds every name to the hotel's collection, and nothing else. */
  lemma {:induction false} AttachAdds(amenities: map<string, Amenity>, hotelAmenities: seq<string>, names: seq<string>, category: string)
    ensures forall i :: 0 <= i < |names| ==> names[i] in AttachNames(amenities, hotelAmenities, names, category).hotelAmenities
    ensures forall x | x in AttachNames(amenities, hotelAmenities, names, category).hotelAmenities :: x in hotelAmenities || x in names
    decreases |names|
  {
    if names != [] {
      var n := |names| - 1;
      var prev := AttachNames(amenities, hotelAmenities, names[..n], category);
      AttachAdds(amenities, hotelAmenities, names[..n], category);
      var next := AddUnique(prev.hotelAmenities, names[n]);
      forall i | 0 <= i < |names|
        ensures names[i] in next
      {
        if i < n {
          assert names[..n][i] == names[i];
          assert names[i] in prev.hotelAmenities;
          assert next[..|prev.hotelAmenities|] == prev.hotelAmenities;
        }
      }
      forall x | x in next
        ensures x in hotelAmenities || x in names
      {
        var j :| 0 <= j < |next| && next[j] == x;
        if j < |prev.hotelAmenities| {
          assert x in prev.hotelAmenities;
          if x !in hotelAmenities {
            var i :| 0 <= i < n && names[..n][i] == x;
            assert names[i] == x;
          }
        }
      }
    }
  }

  /**
   * Resolving names that are all stored and all already in the hotel's
   * collection changes nothing; in particular resolving the same names a
   * second time changes nothing.
   */
  lemma {:induction false} AttachAbsorbs(amenities: map<string, Amenity>, hotelAmenities: seq<string>, names: seq<string>, category: string)
    requires forall i :: 0 <= i < |names| ==> names[i] in amenities && names[i] in hotelAmenities
    ensures AttachNames(amenities, hotelAmenities, names, category) == Attached(amenities, hotelAmenities)
    decreases |names|
  {
    if names != [] {
      var n := |names| - 1;
      AttachAbsorbs(amenities, hotelAmenities, names[..n], category);
    }
  }

  lemma AttachIdempotent(amenities: map<string, Amenity>, hotelAmenities: seq<string>, names: seq<string>, category: string)
    ensures var a := AttachNames(amenities, hotelAmenities, names, category);
            AttachNames(a.amenities, a.hotelAmenities, names, category) == a
  {
    AttachStores(amenities, hotelAmenities, names, category);
    AttachAdds(amenities, hotelAmenities, names, category);
    var a := AttachNames(amenities, hotelAmenities, names, category);
    AttachAbsorbs(a.amenities, a.hotelAmenities, names, category);
  }
}
