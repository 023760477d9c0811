/**
 * The read-side presentation of a hotel (`src/transformers/hotel.transformer.ts`):
 * `toDTO` groups the hotel's amenities by category and removes synonym
 * duplicates inside each group; `removeSynonymDuplicates` compares names
 * in their lower-cased, trimmed form.
 */
module HotelTransformer {
  import opened Common
  import opened Strings
  import opened ArrayUtils
  import opened Entities

  // ---------------------------------------------------------------------
  // removeSynonymDuplicates, first pass: primary map and synonym set
  // ---------------------------------------------------------------------

  /** The normal forms of `names`, as a set. */
  function NormSet(names: seq<string>): set<string>
    decreases |names|
  {
    if names == [] then {} else NormSet(names[..|names| - 1]) + {Norm(names[|names| - 1])}
  }

  /**
   * The inner loop of the first pass: each synonym's normal form is mapped
   * to `name` unless the map already has it.
   */
  function RegisterSynonyms(pm: map<string, string>, synonyms: seq<string>, name: string): (r: map<string, string>)
    ensures r.Keys == pm.Keys + NormSet(synonyms)
    ensures forall k | k in pm :: r[k] == pm[k]
    ensures forall k | k in r && k !in pm :: r[k] == name
    decreases |synonyms|
  {
    if synonyms == [] then pm
    else
      var n := |synonyms| - 1;
      var prev := RegisterSynonyms(pm, synonyms[..n], name);
      var s := Norm(synonyms[n]);
      if s in prev then prev else prev[s := name]
  }

  /**
   * `primaryAmenityMap` after the first pass over `amenities`: every
   * amenity overwrites the entry of its own normal form with its name, then
   * registers its synonyms.
   */
  function PrimaryMap(amenities: seq<Amenity>): map<string, string>
    decreases |amenities|
  {
    if amenities == [] then map[]
    else
      var n := |amenities| - 1;
      var a := amenities[n];
      RegisterSynonyms(PrimaryMap(amenities[..n])[Norm(a.name) := a.name], a.synonyms, a.name)
  }

  /** `allSynonyms` after the first pass: the normal form of every synonym of every amenity. */
  function AllSynonyms(amenities: seq<Amenity>): set<string>
    decreases |amenities|
  {
    if amenities == [] then {}
    else AllSynonyms(amenities[..|amenities| - 1]) + NormSet(amenities[|amenities| - 1].synonyms)
  }

  // ---------------------------------------------------------------------
  // removeSynonymDuplicates, second pass
  // ---------------------------------------------------------------------

  /** The state of the second pass: `result` (an insertion-ordered set) and `processedNames`. */
  datatype Pass = Pass(result: seq<string>, processed: set<string>)

  /** `amenities.find((a) => a.name.toLowerCase() === lowerName)`. */
  function FindByLower(amenities: seq<Amenity>, lowerName: string): (r: Option<Amenity>)
    ensures r.Some? ==> r.value in amenities && Lower(r.value.name) == lowerName
    ensures r.None? ==> forall i :: 0 <= i < |amenities| ==> Lower(amenities[i].name) != lowerName
    decreases |amenities|
  {
    if amenities == [] then None
    else if Lower(amenities[0].name) == lowerName then Some(amenities[0])
    else FindByLower(amenities[1..], lowerName)
  }

  /** `Array.from(result).some((name) => name.toLowerCase() === lowerName)`. */
  predicate EmittedLower(result: seq<string>, lowerName: string) {
    exists i :: 0 <= i < |result| && Lower(result[i]) == lowerName
  }

  /**
   * One iteration of the second pass over `amenity`, with the first pass's
   * `pm` and `synonyms` and the whole input `all`.
   */
  function PassStep(pm: map<string, string>, synonyms: set<string>, all: seq<Amenity>, p: Pass, amenity: Amenity): Pass {
    var nn := Norm(amenity.name);
    if nn in p.processed then p
    else if nn !in synonyms then
      Pass(AddUnique(p.result, amenity.name), p.processed + {nn} + NormSet(amenity.synonyms))
    else
      var primary := if nn in pm then pm[nn] else "";
      if primary != "" && !EmittedLower(p.result, Lower(primary)) then
        match FindByLower(all, Lower(primary))
        case Some(found) => Pass(AddUnique(p.result, found.name), p.processed + {Lower(primary)} + NormSet(found.synonyms))
        case None => p
      else p
  }

  /** The second pass over the prefix `done` of the input. */
  function SecondPass(pm: map<string, string>, synonyms: set<string>, all: seq<Amenity>, done: seq<Amenity>): Pass
    decreases |done|
  {
    if done == [] then Pass([], {})
    else
      var n := |done| - 1;
      PassStep(pm, synonyms, all, SecondPass(pm, synonyms, all, done[..n]), done[n])
  }

  /** `removeSynonymDuplicates(amenities)`. */
  function SynonymDedup(amenities: seq<Amenity>): seq<string> {
    SecondPass(PrimaryMap(amenities), AllSynonyms(amenities), amenities, amenities).result
  }

  /** Adds the normal form of every synonym to `processed` (the loops at lines 96-98 and 112-114). */
  method MarkSynonyms(processed: set<string>, synonyms: seq<string>) returns (r: set<string>)
    ensures r == processed + NormSet(synonyms)
  {
    r := processed;
    var j := 0;
    while j < |synonyms|
      invariant 0 <= j <= |synonyms|
      invariant r == processed + NormSet(synonyms[..j])
    {
      assert synonyms[..j + 1][..j] == synonyms[..j];
      r := r + {Norm(synonyms[j])};
      j := j + 1;
    }
    assert synonyms[..j] == synonyms;
  }

  /** One iteration of the first pass (lines 58-71). */
  method RegisterAmenity(pm: map<string, string>, synonyms: set<string>, amenity: Amenity)
    returns (primaryAmenityMap: map<string, string>, allSynonyms: set<string>)
    ensures primaryAmenityMap == RegisterSynonyms(pm[Norm(amenity.name) := amenity.name], amenity.synonyms, amenity.name)
    ensures allSynonyms == synonyms + NormSet(amenity.synonyms)
  {
    primaryAmenityMap := pm[Norm(amenity.name) := amenity.name];
    allSynonyms := synonyms;
    ghost var pm0 := primaryAmenityMap;
    var j := 0;
    while j < |amenity.synonyms|
      invariant 0 <= j <= |amenity.synonyms|
      invariant primaryAmenityMap == RegisterSynonyms(pm0, amenity.synonyms[..j], amenity.name)
      invariant allSynonyms == synonyms + NormSet(amenity.synonyms[..j])
    {
      assert amenity.synonyms[..j + 1][..j] == amenity.synonyms[..j];
      var normalizedSynonym := Norm(amenity.synonyms[j]);
      allSynonyms := allSynonyms + {normalizedSynonym};
      if normalizedSynonym !in primaryAmenityMap {
        primaryAmenityMap := primaryAmenityMap[normalizedSynonym := amenity.name];
      }
      j := j + 1;
    }
    assert amenity.synonyms[..j] == amenity.synonyms;
  }

  /** The first pass (lines 53-72): `primaryAmenityMap` and `allSynonyms`. */
  method CollectSynonyms(amenities: seq<Amenity>) returns (primaryAmenityMap: map<string, string>, allSynonyms: set<string>)
    ensures primaryAmenityMap == PrimaryMap(amenities)
    ensures allSynonyms == AllSynonyms(amenities)
  {
    primaryAmenityMap := map[];
    allSynonyms := {};
    var i := 0;
    while i < |amenities|
      invariant 0 <= i <= |amenities|
      invariant primaryAmenityMap == PrimaryMap(amenities[..i])
      invariant allSynonyms == AllSynonyms(amenities[..i])
    {
      var amenity := amenities[i];
      assert amenities[..i + 1][..i] == amenities[..i];
      primaryAmenityMap, allSynonyms := RegisterAmenity(primaryAmenityMap, allSynonyms, amenity);
      i := i + 1;
    }
    assert amenities[..i] == amenities;
  }

  /** The body of the second loop (lines 79-118) for one amenity. */
  method VisitAmenity(primaryAmenityMap: map<string, string>, allSynonyms: set<string>, amenities: seq<Amenity>,
                      result: seq<string>, processedNames: set<string>, amenity: Amenity)
    returns (result': seq<string>, processedNames': set<string>)
    ensures Pass(result', processedNames') == PassStep(primaryAmenityMap, allSynonyms, amenities, Pass(result, processedNames), amenity)
  {
    result', processedNames' := result, processedNames;
    var normalizedName := Norm(amenity.name);
    if normalizedName in processedNames {
      return;
    }
    if normalizedName !in allSynonyms {
      result' := AddUnique(result, amenity.name);
      processedNames' := MarkSynonyms(processedNames + {normalizedName}, amenity.synonyms);
    } else {
      var primaryName := if normalizedName in primaryAmenityMap then primaryAmenityMap[normalizedName] else "";
      if primaryName != "" && !EmittedLower(result, Lower(primaryName)) {
        var primaryAmenity := FindByLower(amenities, Lower(primaryName));
        if primaryAmenity.Some? {
          result' := AddUnique(result, primaryAmenity.value.name);
          processedNames' := MarkSynonyms(processedNames + {Lower(primaryName)}, primaryAmenity.value.synonyms);
        }
      }
    }
  }

  /** `HotelTransformer.removeSynonymDuplicates`. */
  method RemoveSynonymDuplicates(amenities: seq<Amenity>) returns (names: seq<string>)
    ensures names == SynonymDedup(amenities)
  {
    var primaryAmenityMap, allSynonyms := CollectSynonyms(amenities);
    var result: seq<string> := [];
    var processedNames: set<string> := {};
    var i := 0;
    while i < |amenities|
      invariant 0 <= i <= |amenities|
      invariant Pass(result, processedNames) == SecondPass(primaryAmenityMap, allSynonyms, amenities, amenities[..i])
    {
      assert amenities[..i + 1][..i] == amenities[..i];
      result, processedNames := VisitAmenity(primaryAmenityMap, allSynonyms, amenities, result, processedNames, amenities[i]);
      i := i + 1;
    }
    assert amenities[..i] == amenities;
    names := result;
  }

  // ---------------------------------------------------------------------
  // toDTO
  // ---------------------------------------------------------------------

  function CategoryOf(a: Amenity): string {
    a.category
  }

  /** The amenities of category `c`, in collection order (one group of the `reduce`). */
  function OfCategory(items: seq<Amenity>, c: string): (r: seq<Amenity>)
    ensures |r| <= |items|
    ensures forall a :: a in r ==> a in items && a.category == c
    ensures forall i :: 0 <= i < |items| && items[i].category == c ==> items[i] in r
    ensures r == [] <==> !HasKey(items, CategoryOf, c)
    decreases |items|
  {
    if items == [] then []
    else
      var n := |items| - 1;
      OfCategory(items[..n], c) + (if items[n].category == c then [items[n]] else [])
  }

  /** The categories the collection's amenities have. */
  function Categories(items: seq<Amenity>): set<string> {
    set c | c in KeyOrder(items, CategoryOf)
  }

  /** `general`, `room` and every other present category, each group passed through `dedup`. */
  function GroupsBy(items: seq<Amenity>, dedup: seq<Amenity> -> seq<string>): map<string, seq<string>> {
    map c | c in {"general", "room"} + Categories(items) :: dedup(OfCategory(items, c))
  }

  /** `groupedAmenities`. */
  function AmenityGroups(items: seq<Amenity>): map<string, seq<string>> {
    GroupsBy(items, SynonymDedup)
  }

  /** The `images` object of the DTO. */
  datatype ImagesView = ImagesView(rooms: seq<Image>, site: seq<Image>, amenities: seq<Image>)

  /** `HotelDTO`; a `None` description stands for `null`. */
  datatype HotelView = HotelView(
    id: string,
    destinationId: int,
    name: string,
    location: Location,
    description: Option<string>,
    amenities: map<string, seq<string>>,
    images: ImagesView,
    bookingConditions: seq<string>)

  /** The DTO of hotel `h` whose amenity collection holds `items`. */
  function HotelViewOf(h: Hotel, items: seq<Amenity>): HotelView {
    var images := h.images.GetOr(map[]);
    HotelView(
      h.id, h.destinationId, h.name, h.location, h.description,
      AmenityGroups(items),
      ImagesView(CategoryImages(images, Rooms), CategoryImages(images, Site), CategoryImages(images, Amenities)),
      h.bookingConditions.GetOr([]))
  }

  /** The `reduce` at lines 8-15: the collection grouped by category, categories in first-seen order. */
  method GroupByCategory(items: seq<Amenity>) returns (categories: seq<string>, groups: map<string, seq<Amenity>>)
    ensures categories == KeyOrder(items, CategoryOf)
    ensures forall c :: c in groups <==> HasKey(items, CategoryOf, c)
    ensures forall c | c in groups :: groups[c] == OfCategory(items, c)
  {
    categories := [];
    groups := map[];
    var i := 0;
    while i < |items|
      invariant 0 <= i <= |items|
      invariant categories == KeyOrder(items[..i], CategoryOf)
      invariant forall c :: c in groups <==> HasKey(items[..i], CategoryOf, c)
      invariant forall c | c in groups :: groups[c] == OfCategory(items[..i], c)
    {
      var amenity := items[i];
      assert items[..i + 1] == items[..i] + [amenity];
      assert items[..i + 1][..i] == items[..i];
      KeyOrderSnoc(items[..i], amenity, CategoryOf);
      forall c ensures HasKey(items[..i + 1], CategoryOf, c) <==> c == amenity.category || HasKey(items[..i], CategoryOf, c) {
        HasKeySnoc(items[..i], amenity, CategoryOf, c);
      }
      if amenity.category !in groups {
        categories := categories + [amenity.category];
        groups := groups[amenity.category := []];
      }
      groups := groups[amenity.category := groups[amenity.category] + [amenity]];
      i := i + 1;
    }
    assert items[..i] == items;
  }

  /** The group `c` of `items` with synonym duplicates removed. */
  ghost predicate IsGroupView(items: seq<Amenity>, view: string -> seq<string>) {
    forall c {:trigger SynonymDedup(OfCategory(items, c))} :: view(c) == SynonymDedup(OfCategory(items, c))
  }

  /** `groups` is the collection grouped by category. */
  ghost predicate GroupedBy(items: seq<Amenity>, groups: map<string, seq<Amenity>>) {
    && (forall c | c in groups :: groups[c] == OfCategory(items, c))
    && (forall c | c !in groups :: OfCategory(items, c) == [])
  }

  /** `removeSynonymDuplicates(amenitiesByCategory[c] || [])`. */
  method DedupGroup(items: seq<Amenity>, groups: map<string, seq<Amenity>>, c: string, ghost view: string -> seq<string>)
    returns (names: seq<string>)
    requires GroupedBy(items, groups)
    requires IsGroupView(items, view)
    ensures names == view(c)
  {
    var group := if c in groups then groups[c] else [];
    names := RemoveSynonymDuplicates(group);
  }

  /** The groups of lines 18-28: `general` and `room` first, then every other category in order. */
  method GroupAmenities(items: seq<Amenity>, categories: seq<string>, groups: map<string, seq<Amenity>>, ghost view: string -> seq<string>)
    returns (grouped: map<string, seq<string>>)
    requires GroupedBy(items, groups)
    requires IsGroupView(items, view)
    ensures forall c :: c in grouped <==> c == "general" || c == "room" || c in categories
    ensures forall c | c in grouped :: grouped[c] == view(c)
  {
    var general := DedupGroup(items, groups, "general", view);
    var room := DedupGroup(items, groups, "room", view);
    grouped := map["general" := general, "room" := room];
    var i := 0;
    while i < |categories|
      invariant 0 <= i <= |categories|
      invariant "general" in grouped && "room" in grouped
      invariant forall j :: 0 <= j < i ==> categories[j] in grouped
      invariant forall c | c in grouped :: c == "general" || c == "room" || c in categories
      invariant forall c | c in grouped :: grouped[c] == view(c)
    {
      var category := categories[i];
      if category != "general" && category != "room" {
        var deduped := DedupGroup(items, groups, category, view);
        grouped := grouped[category := deduped];
      }
      i := i + 1;
    }
  }

  /** A map with the keys and values of `GroupsBy(items, dedup)` is that map. */
  lemma GroupsComplete(items: seq<Amenity>, grouped: map<string, seq<string>>, dedup: seq<Amenity> -> seq<string>)
    requires forall c :: c in grouped <==> c == "general" || c == "room" || c in KeyOrder(items, CategoryOf)
    requires forall c | c in grouped :: grouped[c] == dedup(OfCategory(items, c))
    ensures grouped == GroupsBy(items, dedup)
  {
    assert grouped.Keys == GroupsBy(items, dedup).Keys;
  }

  /** `HotelTransformer.toDTO` for hotel `h` whose amenity collection holds `items`. */
  method ToDTO(h: Hotel, items: seq<Amenity>) returns (dto: HotelView)
    ensures dto == HotelViewOf(h, items)
  {
    var categories, groups := GroupByCategory(items);
    assert forall c | c !in groups :: OfCategory(items, c) == [];
    ghost var view := c => SynonymDedup(OfCategory(items, c));
    var grouped := GroupAmenities(items, categories, groups, view);
    GroupsComplete(items, grouped, SynonymDedup);
    var images: Images := if h.images.None? then map[] else h.images.value;
    dto := HotelView(
      h.id, h.destinationId, h.name, h.location, h.description,
      grouped,
      ImagesView(CategoryImages(images, Rooms), CategoryImages(images, Site), CategoryImages(images, Amenities)),
      if h.bookingConditions.None? then [] else h.bookingConditions.value);
  }

  // ---------------------------------------------------------------------
  // Properties of removeSynonymDuplicates
  // ---------------------------------------------------------------------

  /** Some amenity of `amenities` is named `name`. */
  predicate IsNameOf(name: string, amenities: seq<Amenity>) {
    exists i :: 0 <= i < |amenities| && amenities[i].name == name
  }

  /** A step keeps what was emitted and processed, and emits at most one name. */
  lemma PassStepGrows(pm: map<string, string>, synonyms: set<string>, all: seq<Amenity>, p: Pass, amenity: Amenity)
    ensures var q := PassStep(pm, synonyms, all, p, amenity);
            && p.processed <= q.processed
            && |p.result| <= |q.result| <= |p.result| + 1
            && q.result[..|p.result|] == p.result
            && (NoDuplicates(p.result) ==> NoDuplicates(q.result))
  {
  }

  /** The names processed after a prefix of the pass stay processed. */
  lemma {:induction false} SecondPassProcessedGrows(pm: map<string, string>, synonyms: set<string>, all: seq<Amenity>, done: seq<Amenity>, k: nat)
    requires k <= |done|
    ensures SecondPass(pm, synonyms, all, done[..k]).processed <= SecondPass(pm, synonyms, all, done).processed
    decreases |done|
  {
    if k < |done| {
      var n := |done| - 1;
      assert done[..n][..k] == done[..k];
      SecondPassProcessedGrows(pm, synonyms, all, done[..n], k);
      PassStepGrows(pm, synonyms, all, SecondPass(pm, synonyms, all, done[..n]), done[n]);
    } else {
      assert done[..k] == done;
    }
  }

  /** The second pass emits each name once, and at most one name per amenity. */
  lemma {:induction false} SecondPassDistinct(pm: map<string, string>, synonyms: set<string>, all: seq<Amenity>, done: seq<Amenity>)
    ensures NoDuplicates(SecondPass(pm, synonyms, all, done).result)
    ensures |SecondPass(pm, synonyms, all, done).result| <= |done|
    decreases |done|
  {
    if done != [] {
      var n := |done| - 1;
      SecondPassDistinct(pm, synonyms, all, done[..n]);
      PassStepGrows(pm, synonyms, all, SecondPass(pm, synonyms, all, done[..n]), done[n]);
    }
  }

  /** Every emitted name is the name of an input amenity. */
  lemma {:induction false} SecondPassFromInputs(pm: map<string, string>, synonyms: set<string>, all: seq<Amenity>, done: seq<Amenity>)
    requires forall k :: 0 <= k < |done| ==> done[k] in all
    ensures forall x | x in SecondPass(pm, synonyms, all, done).result :: IsNameOf(x, all)
    decreases |done|
  {
    if done != [] {
      var n := |done| - 1;
      SecondPassFromInputs(pm, synonyms, all, done[..n]);
      var p := SecondPass(pm, synonyms, all, done[..n]);
      var q := SecondPass(pm, synonyms, all, done);
      PassStepGrows(pm, synonyms, all, p, done[n]);
      forall x | x in q.result
        ensures IsNameOf(x, all)
      {
        if x !in p.result {
          var i :| 0 <= i < |all| && all[i] == done[n];
          if x != done[n].name {
            var primary := pm[Norm(done[n].name)];
            var found := FindByLower(all, Lower(primary)).value;
            var j :| 0 <= j < |all| && all[j] == found;
            assert all[j].name == x;
          } else {
            assert all[i].name == x;
          }
        }
      }
    }
  }

  /**
   * What the second pass keeps true: every processed form is a synonym, or
   * the normal form or the lower-cased form of an emitted name.
   */
  predicate ProcessedAccounted(synonyms: set<string>, p: Pass) {
    forall s | s in p.processed :: s in synonyms || EmittedNorm(p.result, s) || EmittedLower(p.result, s)
  }

  /**
   * Emitting `x`, processing its normal or lower-cased form `e` and the
   * synonym forms `xs`, keeps every processed form accounted for and keeps
   * what was emitted as a prefix.
   */
  lemma AccountedEmit(synonyms: set<string>, p: Pass, x: string, e: string, xs: set<string>)
    requires ProcessedAccounted(synonyms, p)
    requires (e == Norm(x) || e == Lower(x)) && xs <= synonyms
    ensures var q := Pass(AddUnique(p.result, x), p.processed + {e} + xs);
            && ProcessedAccounted(synonyms, q)
            && |p.result| <= |q.result| && q.result[..|p.result|] == p.result
            && EmittedNorm(q.result, Norm(x))
  {
    var r := AddUnique(p.result, x);
    var j :| 0 <= j < |r| && r[j] == x;
    assert Norm(r[j]) == Norm(x) && Lower(r[j]) == Lower(x);
    forall s | s in p.processed + {e} + xs
      ensures s in synonyms || EmittedNorm(r, s) || EmittedLower(r, s)
    {
      if s == e || s in synonyms {
      } else if EmittedNorm(p.result, s) {
        var i :| 0 <= i < |p.result| && Norm(p.result[i]) == s;
        assert r[i] == p.result[i];
      } else {
        var i :| 0 <= i < |p.result| && Lower(p.result[i]) == s;
        assert r[i] == p.result[i];
      }
    }
  }

  /** A step of the second pass keeps every processed form accounted for. */
  lemma PassStepAccounted(pm: map<string, string>, all: seq<Amenity>, p: Pass, amenity: Amenity)
    requires amenity in all
    requires ProcessedAccounted(AllSynonyms(all), p)
    ensures var q := PassStep(pm, AllSynonyms(all), all, p, amenity);
            && ProcessedAccounted(AllSynonyms(all), q)
            && |p.result| <= |q.result| && q.result[..|p.result|] == p.result
  {
    var syn := AllSynonyms(all);
    var nn := Norm(amenity.name);
    if nn in p.processed {
    } else if nn !in syn {
      var k :| 0 <= k < |all| && all[k] == amenity;
      SynonymsOfMember(all, k);
      AccountedEmit(syn, p, amenity.name, nn, NormSet(amenity.synonyms));
    } else {
      var primary := if nn in pm then pm[nn] else "";
      if primary != "" && !EmittedLower(p.result, Lower(primary)) {
        match FindByLower(all, Lower(primary))
        case Some(found) =>
          var k :| 0 <= k < |all| && all[k] == found;
          SynonymsOfMember(all, k);
          AccountedEmit(syn, p, found.name, Lower(primary), NormSet(found.synonyms));
        case None =>
      }
    }
  }

  /**
   * After a step over an amenity that is nobody's synonym, a name of its
   * normal form has been emitted: either now, or earlier, when its form
   * was processed.
   */
  lemma PassStepEmits(pm: map<string, string>, all: seq<Amenity>, p: Pass, amenity: Amenity)
    requires amenity in all
    requires ProcessedAccounted(AllSynonyms(all), p)
    requires Norm(amenity.name) !in AllSynonyms(all)
    ensures EmittedNorm(PassStep(pm, AllSynonyms(all), all, p, amenity).result, Norm(amenity.name))
  {
    var nn := Norm(amenity.name);
    if nn in p.processed {
      if !EmittedNorm(p.result, nn) {
        var i :| 0 <= i < |p.result| && Lower(p.result[i]) == nn;
        LowerMatchesNorm(p.result[i], amenity.name);
      }
    } else {
      PassStepAccounted(pm, all, p, amenity);
    }
  }

  /** The second pass over a prefix of its input keeps every processed form accounted for. */
  lemma {:induction false} SecondPassAccounted(pm: map<string, string>, all: seq<Amenity>, done: seq<Amenity>)
    requires forall k :: 0 <= k < |done| ==> done[k] in all
    ensures ProcessedAccounted(AllSynonyms(all), SecondPass(pm, AllSynonyms(all), all, done))
    decreases |done|
  {
    if done != [] {
      var n := |done| - 1;
      PrefixWithin(all, done, n);
      SecondPassAccounted(pm, all, done[..n]);
      PassStepAccounted(pm, all, SecondPass(pm, AllSynonyms(all), all, done[..n]), done[n]);
    }
  }

  /**
   * The second pass over a prefix of its input has emitted a name of the
   * normal form of every amenity seen that is nobody's synonym.
   */
  lemma {:induction false} SecondPassComplete(pm: map<string, string>, all: seq<Amenity>, done: seq<Amenity>)
    requires forall k :: 0 <= k < |done| ==> done[k] in all
    ensures forall k :: 0 <= k < |done| && Norm(done[k].name) !in AllSynonyms(all) ==>
              EmittedNorm(SecondPass(pm, AllSynonyms(all), all, done).result, Norm(done[k].name))
    decreases |done|
  {
    if done != [] {
      var n := |done| - 1;
      var prefix := done[..n];
      PrefixWithin(all, done, n);
      SecondPassComplete(pm, all, prefix);
      SecondPassAccounted(pm, all, prefix);
      var p := SecondPass(pm, AllSynonyms(all), all, prefix);
      var q := SecondPass(pm, AllSynonyms(all), all, done);
      assert q == PassStep(pm, AllSynonyms(all), all, p, done[n]);
      PassStepAccounted(pm, all, p, done[n]);
      if Norm(done[n].name) !in AllSynonyms(all) {
        PassStepEmits(pm, all, p, done[n]);
      }
      forall k | 0 <= k < n && Norm(done[k].name) !in AllSynonyms(all)
        ensures EmittedNorm(q.result, Norm(done[k].name))
      {
        assert prefix[k] == done[k];
        var i :| 0 <= i < |p.result| && Norm(p.result[i]) == Norm(done[k].name);
        assert q.result[i] == p.result[i];
      }
    }
  }

  /**
   * The output of `removeSynonymDuplicates` has no repeated name, is no
   * longer than its input, lists names of input amenities only, and lists a
   * name of the normal form of every amenity that is nobody's synonym.
   */
  lemma SynonymDedupNames(amenities: seq<Amenity>)
    ensures NoDuplicates(SynonymDedup(amenities))
    ensures |SynonymDedup(amenities)| <= |amenities|
    ensures forall x | x in SynonymDedup(amenities) :: IsNameOf(x, amenities)
    ensures forall k :: 0 <= k < |amenities| && Norm(amenities[k].name) !in AllSynonyms(amenities) ==>
              EmittedNorm(SynonymDedup(amenities), Norm(amenities[k].name))
  {
    SecondPassDistinct(PrimaryMap(amenities), AllSynonyms(amenities), amenities, amenities);
    SecondPassFromInputs(PrimaryMap(amenities), AllSynonyms(amenities), amenities, amenities);
    SecondPassComplete(PrimaryMap(amenities), amenities, amenities);
  }

  /** `find` returns the first amenity with the looked-up lower-cased name. */
  lemma {:induction false} FindByLowerFirst(amenities: seq<Amenity>, lowerName: string)
    ensures var r := FindByLower(amenities, lowerName);
            r.Some? ==> exists i :: 0 <= i < |amenities| && amenities[i] == r.value &&
                          forall k :: 0 <= k < i ==> Lower(amenities[k].name) != lowerName
    decreases |amenities|
  {
    if amenities != [] {
      if Lower(amenities[0].name) == lowerName {
        assert amenities[0] == FindByLower(amenities, lowerName).value;
      } else {
        var tail := amenities[1..];
        FindByLowerFirst(tail, lowerName);
        if FindByLower(tail, lowerName).Some? {
          var i :| 0 <= i < |tail| && tail[i] == FindByLower(tail, lowerName).value &&
                   forall k :: 0 <= k < i ==> Lower(tail[k].name) != lowerName;
          assert amenities[i + 1] == tail[i];
          forall k | 0 <= k < i + 1
            ensures Lower(amenities[k].name) != lowerName
          {
            if k > 0 {
              assert amenities[k] == tail[k - 1];
            }
          }
        }
      }
    }
  }

  /**
   * Once an amenity that is nobody's synonym is emitted, every later
   * amenity whose normal form is its normal form or one of its synonyms'
   * changes nothing.
   */
  lemma SkipsAfterPrimary(amenities: seq<Amenity>, i: nat, j: nat)
    requires i < j < |amenities|
    requires Norm(amenities[i].name) !in SecondPass(PrimaryMap(amenities), AllSynonyms(amenities), amenities, amenities[..i]).processed
    requires Norm(amenities[i].name) !in AllSynonyms(amenities)
    requires Norm(amenities[j].name) == Norm(amenities[i].name) || Norm(amenities[j].name) in NormSet(amenities[i].synonyms)
    ensures amenities[i].name in SecondPass(PrimaryMap(amenities), AllSynonyms(amenities), amenities, amenities[..i + 1]).result
    ensures SecondPass(PrimaryMap(amenities), AllSynonyms(amenities), amenities, amenities[..j + 1])
         == SecondPass(PrimaryMap(amenities), AllSynonyms(amenities), amenities, amenities[..j])
  {
    SkipsAfterEmit(PrimaryMap(amenities), AllSynonyms(amenities), amenities, amenities, i, j);
  }

  lemma SkipsAfterEmit(pm: map<string, string>, synonyms: set<string>, all: seq<Amenity>, done: seq<Amenity>, i: nat, j: nat)
    requires i < j < |done|
    requires Norm(done[i].name) !in SecondPass(pm, synonyms, all, done[..i]).processed
    requires Norm(done[i].name) !in synonyms
    requires Norm(done[j].name) == Norm(done[i].name) || Norm(done[j].name) in NormSet(done[i].synonyms)
    ensures done[i].name in SecondPass(pm, synonyms, all, done[..i + 1]).result
    ensures SecondPass(pm, synonyms, all, done[..j + 1]) == SecondPass(pm, synonyms, all, done[..j])
  {
    SecondPassSnoc(pm, synonyms, all, done, i);
    assert Norm(done[j].name) in SecondPass(pm, synonyms, all, done[..i + 1]).processed;
    assert done[..j][..i + 1] == done[..i + 1];
    SecondPassProcessedGrows(pm, synonyms, all, done[..j], i + 1);
    SecondPassSnoc(pm, synonyms, all, done, j);
    PassStepProcessed(pm, synonyms, all, SecondPass(pm, synonyms, all, done[..j]), done[j]);
  }

  lemma SecondPassSnoc(pm: map<string, string>, synonyms: set<string>, all: seq<Amenity>, done: seq<Amenity>, k: nat)
    requires k < |done|
    ensures SecondPass(pm, synonyms, all, done[..k + 1]) == PassStep(pm, synonyms, all, SecondPass(pm, synonyms, all, done[..k]), done[k])
  {
    assert done[..k + 1][..k] == done[..k];
  }

  /** An amenity whose normal form was processed already changes nothing. */
  lemma PassStepProcessed(pm: map<string, string>, synonyms: set<string>, all: seq<Amenity>, p: Pass, amenity: Amenity)
    requires Norm(amenity.name) in p.processed
    ensures PassStep(pm, synonyms, all, p, amenity) == p
  {
  }

  /** The normal forms of the names of `amenities`. */
  function NormNames(amenities: seq<Amenity>): set<string>
    decreases |amenities|
  {
    if amenities == [] then {}
    else NormNames(amenities[..|amenities| - 1]) + {Norm(amenities[|amenities| - 1].name)}
  }

  /**
   * Reference behaviour without synonyms: the input names in input order,
   * dropping a name whose normal form an earlier name already had.
   */
  function FirstByNorm(amenities: seq<Amenity>): seq<string>
    decreases |amenities|
  {
    if amenities == [] then []
    else
      var n := |amenities| - 1;
      if Norm(amenities[n].name) in NormNames(amenities[..n]) then FirstByNorm(amenities[..n])
      else FirstByNorm(amenities[..n]) + [amenities[n].name]
  }

  predicate NoSynonyms(amenities: seq<Amenity>) {
    forall i :: 0 <= i < |amenities| ==> amenities[i].synonyms == []
  }

  lemma {:induction false} FirstByNormNorms(amenities: seq<Amenity>)
    ensures forall x | x in FirstByNorm(amenities) :: Norm(x) in NormNames(amenities)
    decreases |amenities|
  {
    if amenities != [] {
      FirstByNormNorms(amenities[..|amenities| - 1]);
    }
  }

  lemma {:induction false} AllSynonymsOfNone(amenities: seq<Amenity>)
    requires NoSynonyms(amenities)
    ensures AllSynonyms(amenities) == {}
    decreases |amenities|
  {
    if amenities != [] {
      var n := |amenities| - 1;
      AllSynonymsOfNone(amenities[..n]);
      assert amenities[n].synonyms == [];
    }
  }

  lemma {:induction false} SecondPassOfNone(pm: map<string, string>, all: seq<Amenity>, done: seq<Amenity>)
    requires NoSynonyms(done)
    ensures SecondPass(pm, {}, all, done) == Pass(FirstByNorm(done), NormNames(done))
    decreases |done|
  {
    if done != [] {
      var n := |done| - 1;
      SecondPassOfNone(pm, all, done[..n]);
      FirstByNormNorms(done[..n]);
      assert done[n].synonyms == [];
      if Norm(done[n].name) !in NormNames(done[..n]) {
        assert done[n].name !in FirstByNorm(done[..n]);
      }
    }
  }

  /** With no synonyms anywhere, the output is the input names with normal-form repeats dropped. */
  lemma SynonymDedupWithoutSynonyms(amenities: seq<Amenity>)
    requires NoSynonyms(amenities)
    ensures SynonymDedup(amenities) == FirstByNorm(amenities)
  {
    AllSynonymsOfNone(amenities);
    SecondPassOfNone(PrimaryMap(amenities), amenities, amenities);
  }

  /**
   * After the first pass every amenity's normal form and every synonym's
   * normal form has an entry.
   */
  lemma {:induction false} PrimaryMapKeys(amenities: seq<Amenity>)
    ensures AllSynonyms(amenities) <= PrimaryMap(amenities).Keys
    ensures forall i :: 0 <= i < |amenities| ==> Norm(amenities[i].name) in PrimaryMap(amenities)
    decreases |amenities|
  {
    if amenities != [] {
      var n := |amenities| - 1;
      var a := amenities[n];
      var prefix := amenities[..n];
      PrimaryMapKeys(prefix);
      var prev := PrimaryMap(prefix);
      var pm := PrimaryMap(amenities);
      assert pm.Keys == prev.Keys + {Norm(a.name)} + NormSet(a.synonyms);
      assert AllSynonyms(amenities) == AllSynonyms(prefix) + NormSet(a.synonyms);
      forall i | 0 <= i < |amenities|
        ensures Norm(amenities[i].name) in pm
      {
        if i < n {
          assert prefix[i] == amenities[i];
        }
      }
    }
  }

  /** Every entry of the primary map is the name of an input amenity. */
  lemma {:induction false} PrimaryMapValues(amenities: seq<Amenity>)
    ensures forall k | k in PrimaryMap(amenities) :: IsNameOf(PrimaryMap(amenities)[k], amenities)
    decreases |amenities|
  {
    if amenities != [] {
      var n := |amenities| - 1;
      var a := amenities[n];
      PrimaryMapValues(amenities[..n]);
      var prev := PrimaryMap(amenities[..n]);
      var pm0 := prev[Norm(a.name) := a.name];
      var pm := PrimaryMap(amenities);
      assert pm == RegisterSynonyms(pm0, a.synonyms, a.name);
      forall k | k in pm
        ensures IsNameOf(pm[k], amenities)
      {
        if k in prev && k != Norm(a.name) {
          assert pm[k] == prev[k];
          var i :| 0 <= i < n && amenities[..n][i].name == prev[k];
          assert amenities[i].name == pm[k];
        } else {
          assert pm[k] == a.name;
          assert amenities[n].name == pm[k];
        }
      }
    }
  }

  /**
   * In the synonym branch the primary name is always found in the map and
   * `find` always finds an amenity: only an empty primary name skips it.
   */
  lemma SynonymBranchFinds(amenities: seq<Amenity>, nn: string)
    requires nn in AllSynonyms(amenities)
    ensures nn in PrimaryMap(amenities)
    ensures FindByLower(amenities, Lower(PrimaryMap(amenities)[nn])).Some?
  {
    PrimaryMapKeys(amenities);
    PrimaryMapValues(amenities);
    var i :| 0 <= i < |amenities| && amenities[i].name == PrimaryMap(amenities)[nn];
  }

  /** A name of lower-case ASCII letters is its own normal form. */
  lemma NormOfWord(s: string)
    requires |s| > 0
    requires forall i :: 0 <= i < |s| ==> 'a' <= s[i] <= 'z'
    ensures Lower(s) == s && Norm(s) == s
  {
    assert Lower(s) == s;
    assert TrimStart(s) == s;
    assert TrimEnd(s) == s;
  }

  /**
   * A primary amenity before one of its synonyms: only the primary is listed.
   */
  lemma PrimaryBeforeSynonym()
    ensures SynonymDedup([Amenity("wifi", "general", ["wireless"]), Amenity("wireless", "general", [])]) == ["wifi"]
  {
    var a, b := Amenity("wifi", "general", ["wireless"]), Amenity("wireless", "general", []);
    var xs := [a, b];
    NormOfWord("wifi");
    NormOfWord("wireless");
    assert xs[..1] == [a] && xs[..2] == xs && [a][..0] == [];
    assert ["wireless"][..0] == [];
    assert NormSet(["wireless"]) == NormSet([]) + {"wireless"};
    assert AllSynonyms([a]) == AllSynonyms([]) + NormSet(["wireless"]);
    assert AllSynonyms(xs) == AllSynonyms([a]) + NormSet([]);
    assert "wifi" !in AllSynonyms(xs);
    var pm := PrimaryMap(xs);
    var p0 := SecondPass(pm, AllSynonyms(xs), xs, []);
    var p1 := SecondPass(pm, AllSynonyms(xs), xs, [a]);
    assert p1 == PassStep(pm, AllSynonyms(xs), xs, p0, a);
    assert p1 == Pass(["wifi"], {"wifi", "wireless"});
    assert SecondPass(pm, AllSynonyms(xs), xs, xs) == PassStep(pm, AllSynonyms(xs), xs, p1, b);
  }

  /**
   * An amenity listed as a synonym of a later amenity is itself emitted,
   * because the first pass maps its own normal form to its own name, and
   * the later primary is emitted as well.
   */
  lemma SynonymBeforePrimary()
    ensures SynonymDedup([Amenity("wifi", "general", []), Amenity("wireless", "general", ["wifi"])]) == ["wifi", "wireless"]
  {
    var xs := [Amenity("wifi", "general", []), Amenity("wireless", "general", ["wifi"])];
    SynonymBeforePrimaryFirstPass();
    SynonymBeforePrimarySecondPass(PrimaryMap(xs), AllSynonyms(xs));
  }

  lemma SynonymBeforePrimaryFirstPass()
    ensures var xs := [Amenity("wifi", "general", []), Amenity("wireless", "general", ["wifi"])];
            && AllSynonyms(xs) == {"wifi"}
            && "wifi" in PrimaryMap(xs) && PrimaryMap(xs)["wifi"] == "wifi"
  {
    var a, b := Amenity("wifi", "general", []), Amenity("wireless", "general", ["wifi"]);
    var xs := [a, b];
    NormOfWord("wifi");
    NormOfWord("wireless");
    assert xs[..1] == [a] && [a][..0] == [] && ["wifi"][..0] == [];
    assert NormSet(["wifi"]) == NormSet([]) + {"wifi"};
    assert AllSynonyms([a]) == AllSynonyms([]) + NormSet([]);
    assert AllSynonyms(xs) == AllSynonyms([a]) + NormSet(["wifi"]);
    var pm1 := PrimaryMap([a]);
    assert pm1 == RegisterSynonyms(PrimaryMap([])["wifi" := "wifi"], [], "wifi");
    assert PrimaryMap(xs) == RegisterSynonyms(pm1["wireless" := "wireless"], ["wifi"], "wireless");
  }

  lemma SynonymBeforePrimarySecondPass(pm: map<string, string>, synonyms: set<string>)
    requires synonyms == {"wifi"} && "wifi" in pm && pm["wifi"] == "wifi"
    ensures var xs := [Amenity("wifi", "general", []), Amenity("wireless", "general", ["wifi"])];
            SecondPass(pm, synonyms, xs, xs).result == ["wifi", "wireless"]
  {
    var a, b := Amenity("wifi", "general", []), Amenity("wireless", "general", ["wifi"]);
    var xs := [a, b];
    assert xs[..1] == [a] && xs[..2] == xs && [a][..0] == [];
    SynonymBeforePrimaryStep1(pm, synonyms);
    SynonymBeforePrimaryStep2(pm, synonyms, Pass(["wifi"], {"wifi"}));
  }

  /** The synonym `wifi` comes first: its own name is its primary, so it is emitted. */
  lemma SynonymBeforePrimaryStep1(pm: map<string, string>, synonyms: set<string>)
    requires synonyms == {"wifi"} && "wifi" in pm && pm["wifi"] == "wifi"
    ensures var a, b := Amenity("wifi", "general", []), Amenity("wireless", "general", ["wifi"]);
            PassStep(pm, synonyms, [a, b], Pass([], {}), a) == Pass(["wifi"], {"wifi"})
  {
    var a, b := Amenity("wifi", "general", []), Amenity("wireless", "general", ["wifi"]);
    NormOfWord("wifi");
    assert FindByLower([a, b], "wifi") == Some(a);
    assert !EmittedLower([], "wifi");
  }

  /** The primary `wireless` is nobody's synonym, so it is emitted too. */
  lemma SynonymBeforePrimaryStep2(pm: map<string, string>, synonyms: set<string>, p: Pass)
    requires synonyms == {"wifi"} && p == Pass(["wifi"], {"wifi"})
    ensures var a, b := Amenity("wifi", "general", []), Amenity("wireless", "general", ["wifi"]);
            PassStep(pm, synonyms, [a, b], p, b).result == ["wifi", "wireless"]
  {
    NormOfWord("wireless");
  }

  // ---------------------------------------------------------------------
  // removeSynonymDuplicates, corrected
  // ---------------------------------------------------------------------

  /**
   * The first pass without line 59's overwrite: each synonym's normal form
   * is mapped to the first amenity listing it, so a name that is a synonym
   * resolves to the amenity that lists it rather than to itself.
   */
  function SynonymOwners(amenities: seq<Amenity>): (r: map<string, string>)
    ensures r.Keys == AllSynonyms(amenities)
    decreases |amenities|
  {
    if amenities == [] then map[]
    else
      var n := |amenities| - 1;
      RegisterSynonyms(SynonymOwners(amenities[..n]), amenities[n].synonyms, amenities[n].name)
  }

  /**
   * One iteration of the corrected second pass: as `PassStep`, except that
   * a synonym's primary is its owner and is emitted only when it is not
   * itself a synonym, and the processed form is the primary's normal form.
   */
  function CorrectedStep(owners: map<string, string>, synonyms: set<string>, all: seq<Amenity>, p: Pass, amenity: Amenity): Pass {
    var nn := Norm(amenity.name);
    if nn in p.processed then p
    else if nn !in synonyms then
      Pass(AddUnique(p.result, amenity.name), p.processed + {nn} + NormSet(amenity.synonyms))
    else
      var primary := if nn in owners then owners[nn] else "";
      if primary != "" && !EmittedLower(p.result, Lower(primary)) then
        match FindByLower(all, Lower(primary))
        case Some(found) =>
          if Norm(found.name) !in synonyms then
            Pass(AddUnique(p.result, found.name), p.processed + {Norm(found.name)} + NormSet(found.synonyms))
          else p
        case None => p
      else p
  }

  /** The corrected second pass over the prefix `done` of `all`. */
  function CorrectedPass(all: seq<Amenity>, done: seq<Amenity>): Pass
    decreases |done|
  {
    if done == [] then Pass([], {})
    else
      var n := |done| - 1;
      CorrectedStep(SynonymOwners(all), AllSynonyms(all), all, CorrectedPass(all, done[..n]), done[n])
  }

  /** `removeSynonymDuplicates` as its comments describe it: primaries listed, their synonyms not. */
  function CorrectedSynonymDedup(amenities: seq<Amenity>): seq<string> {
    CorrectedPass(amenities, amenities).result
  }

  /** Some emitted name has the normal form `s`. */
  predicate EmittedNorm(result: seq<string>, s: string) {
    exists i :: 0 <= i < |result| && Norm(result[i]) == s
  }

  /**
   * What the corrected pass keeps true: no emitted name is a synonym, and
   * every processed form is a synonym or the form of an emitted name.
   */
  predicate PassSound(synonyms: set<string>, p: Pass) {
    && (forall i :: 0 <= i < |p.result| ==> Norm(p.result[i]) !in synonyms)
    && (forall s | s in p.processed :: s in synonyms || EmittedNorm(p.result, s))
  }

  /** Every synonym of an input amenity is among all synonyms. */
  lemma {:induction false} SynonymsOfMember(amenities: seq<Amenity>, i: nat)
    requires i < |amenities|
    ensures NormSet(amenities[i].synonyms) <= AllSynonyms(amenities)
    decreases |amenities|
  {
    var n := |amenities| - 1;
    if i < n {
      SynonymsOfMember(amenities[..n], i);
    }
  }

  /** Every synonym form is mapped to the name of an amenity that lists it. */
  lemma {:induction false} SynonymOwnersListed(amenities: seq<Amenity>)
    ensures forall k | k in SynonymOwners(amenities) ::
              exists i :: 0 <= i < |amenities| && amenities[i].name == SynonymOwners(amenities)[k] &&
                          k in NormSet(amenities[i].synonyms)
    decreases |amenities|
  {
    if amenities != [] {
      var n := |amenities| - 1;
      var prefix := amenities[..n];
      var prev := SynonymOwners(prefix);
      var r := SynonymOwners(amenities);
      SynonymOwnersListed(prefix);
      assert r == RegisterSynonyms(prev, amenities[n].synonyms, amenities[n].name);
      forall k | k in r
        ensures exists i :: 0 <= i < |amenities| && amenities[i].name == r[k] &&
                            k in NormSet(amenities[i].synonyms)
      {
        if k in prev {
          var i :| 0 <= i < |prefix| && prefix[i].name == prev[k] && k in NormSet(prefix[i].synonyms);
          assert amenities[i] == prefix[i];
        } else {
          assert amenities[n].name == r[k];
        }
      }
    }
  }

  /**
   * Emitting `x`, whose form is no synonym, and processing its form and its
   * synonyms' forms keeps the pass sound and keeps what was emitted.
   */
  lemma EmitSound(synonyms: set<string>, p: Pass, x: string, xs: set<string>)
    requires PassSound(synonyms, p)
    requires Norm(x) !in synonyms && xs <= synonyms
    ensures var q := Pass(AddUnique(p.result, x), p.processed + {Norm(x)} + xs);
            && PassSound(synonyms, q)
            && EmittedNorm(q.result, Norm(x))
            && forall s | EmittedNorm(p.result, s) :: EmittedNorm(q.result, s)
  {
    var r := AddUnique(p.result, x);
    var j :| 0 <= j < |r| && r[j] == x;
    assert Norm(r[j]) == Norm(x);
    forall s | EmittedNorm(p.result, s)
      ensures EmittedNorm(r, s)
    {
      var i :| 0 <= i < |p.result| && Norm(p.result[i]) == s;
      assert r[i] == p.result[i];
    }
    forall i | 0 <= i < |r|
      ensures Norm(r[i]) !in synonyms
    {
      if i < |p.result| {
        assert r[i] == p.result[i];
      }
    }
  }

  /**
   * A corrected step keeps the pass sound, keeps what was emitted, and
   * leaves an amenity that is nobody's synonym with its form emitted.
   */
  lemma CorrectedStepSound(all: seq<Amenity>, p: Pass, amenity: Amenity)
    requires amenity in all
    requires PassSound(AllSynonyms(all), p)
    ensures var q := CorrectedStep(SynonymOwners(all), AllSynonyms(all), all, p, amenity);
            && PassSound(AllSynonyms(all), q)
            && |p.result| <= |q.result| && q.result[..|p.result|] == p.result
            && (NoDuplicates(p.result) ==> NoDuplicates(q.result))
            && (forall s | EmittedNorm(p.result, s) :: EmittedNorm(q.result, s))
            && (Norm(amenity.name) !in AllSynonyms(all) ==> EmittedNorm(q.result, Norm(amenity.name)))
  {
    var syn := AllSynonyms(all);
    var owners := SynonymOwners(all);
    var nn := Norm(amenity.name);
    if nn in p.processed {
    } else if nn !in syn {
      var k :| 0 <= k < |all| && all[k] == amenity;
      SynonymsOfMember(all, k);
      EmitSound(syn, p, amenity.name, NormSet(amenity.synonyms));
    } else {
      var primary := if nn in owners then owners[nn] else "";
      if primary != "" && !EmittedLower(p.result, Lower(primary)) {
        match FindByLower(all, Lower(primary))
        case Some(found) =>
          if Norm(found.name) !in syn {
            var k :| 0 <= k < |all| && all[k] == found;
            SynonymsOfMember(all, k);
            EmitSound(syn, p, found.name, NormSet(found.synonyms));
          }
        case None =>
      }
    }
  }

  /** Every amenity of a prefix of `all` is in `all`. */
  lemma PrefixWithin(all: seq<Amenity>, done: seq<Amenity>, n: nat)
    requires n <= |done|
    requires forall k :: 0 <= k < |done| ==> done[k] in all
    ensures forall k :: 0 <= k < n ==> done[..n][k] in all
  {
  }

  /** The corrected pass over a prefix of its input is sound and emits each name once. */
  lemma {:induction false} CorrectedPassSound(all: seq<Amenity>, done: seq<Amenity>)
    requires forall k :: 0 <= k < |done| ==> done[k] in all
    ensures PassSound(AllSynonyms(all), CorrectedPass(all, done))
    ensures NoDuplicates(CorrectedPass(all, done).result)
    decreases |done|
  {
    if done != [] {
      var n := |done| - 1;
      PrefixWithin(all, done, n);
      CorrectedPassSound(all, done[..n]);
      CorrectedStepSound(all, CorrectedPass(all, done[..n]), done[n]);
    }
  }

  /** A corrected step keeps what was emitted as a prefix and emits the form of a primary. */
  lemma CorrectedStepEmits(all: seq<Amenity>, p: Pass, amenity: Amenity)
    requires amenity in all
    requires PassSound(AllSynonyms(all), p)
    ensures var q := CorrectedStep(SynonymOwners(all), AllSynonyms(all), all, p, amenity);
            && |p.result| <= |q.result| && q.result[..|p.result|] == p.result
            && (Norm(amenity.name) !in AllSynonyms(all) ==> EmittedNorm(q.result, Norm(amenity.name)))
  {
    CorrectedStepSound(all, p, amenity);
  }

  /**
   * The corrected pass over a prefix of its input has emitted the form of
   * every amenity seen that is nobody's synonym.
   */
  lemma {:induction false} CorrectedPassComplete(all: seq<Amenity>, done: seq<Amenity>)
    requires forall k :: 0 <= k < |done| ==> done[k] in all
    ensures forall k :: 0 <= k < |done| && Norm(done[k].name) !in AllSynonyms(all) ==>
              EmittedNorm(CorrectedPass(all, done).result, Norm(done[k].name))
    decreases |done|
  {
    if done != [] {
      var n := |done| - 1;
      var prefix := done[..n];
      PrefixWithin(all, done, n);
      CorrectedPassComplete(all, prefix);
      CorrectedPassSound(all, prefix);
      var p := CorrectedPass(all, prefix);
      var q := CorrectedPass(all, done);
      assert q == CorrectedStep(SynonymOwners(all), AllSynonyms(all), all, p, done[n]);
      CorrectedStepEmits(all, p, done[n]);
      forall k | 0 <= k < n && Norm(done[k].name) !in AllSynonyms(all)
        ensures EmittedNorm(q.result, Norm(done[k].name))
      {
        assert prefix[k] == done[k];
        var i :| 0 <= i < |p.result| && Norm(p.result[i]) == Norm(done[k].name);
        assert q.result[i] == p.result[i];
      }
    }
  }

  /**
   * The corrected output lists no amenity's synonym, repeats no name, and
   * for every amenity that is nobody's synonym lists a name of its form.
   */
  lemma CorrectedDedupNames(amenities: seq<Amenity>)
    ensures forall x | x in CorrectedSynonymDedup(amenities) :: Norm(x) !in AllSynonyms(amenities)
    ensures NoDuplicates(CorrectedSynonymDedup(amenities))
    ensures forall k :: 0 <= k < |amenities| && Norm(amenities[k].name) !in AllSynonyms(amenities) ==>
              EmittedNorm(CorrectedSynonymDedup(amenities), Norm(amenities[k].name))
  {
    CorrectedPassSound(amenities, amenities);
    CorrectedPassComplete(amenities, amenities);
  }

  /**
   * Of two amenities where the second is a synonym of the first, the
   * corrected output never lists the second, so never lists both.
   */
  lemma CorrectedNeverBoth(amenities: seq<Amenity>, i: nat, j: nat)
    requires i < |amenities| && j < |amenities|
    requires Norm(amenities[j].name) in NormSet(amenities[i].synonyms)
    ensures amenities[j].name !in CorrectedSynonymDedup(amenities)
  {
    SynonymsOfMember(amenities, i);
    CorrectedDedupNames(amenities);
  }

  /**
   * The input on which the code as written lists both names: corrected,
   * the synonym `wifi` resolves to its owner `wireless`, which alone is listed.
   */
  lemma CorrectedSynonymBeforePrimary()
    ensures CorrectedSynonymDedup([Amenity("wifi", "general", []), Amenity("wireless", "general", ["wifi"])]) == ["wireless"]
  {
    var a, b := Amenity("wifi", "general", []), Amenity("wireless", "general", ["wifi"]);
    var xs := [a, b];
    SynonymBeforePrimaryFirstPass();
    CorrectedBeforePrimaryOwners();
    CorrectedBeforePrimarySteps(SynonymOwners(xs), AllSynonyms(xs));
    assert xs[..1] == [a] && xs[..2] == xs && [a][..0] == [];
    assert CorrectedPass(xs, []) == Pass([], {});
    assert CorrectedPass(xs, [a]) == Pass(["wireless"], {"wireless", "wifi"});
  }

  lemma CorrectedBeforePrimaryOwners()
    ensures SynonymOwners([Amenity("wifi", "general", []), Amenity("wireless", "general", ["wifi"])]) == map["wifi" := "wireless"]
  {
    var a, b := Amenity("wifi", "general", []), Amenity("wireless", "general", ["wifi"]);
    var xs := [a, b];
    NormOfWord("wifi");
    assert xs[..1] == [a] && [a][..0] == [] && ["wifi"][..0] == [];
    assert SynonymOwners([a]) == map[];
  }

  /** `wifi` is a synonym owned by `wireless`, which is emitted; `wireless` is then processed. */
  lemma CorrectedBeforePrimarySteps(owners: map<string, string>, synonyms: set<string>)
    requires owners == map["wifi" := "wireless"] && synonyms == {"wifi"}
    ensures var a, b := Amenity("wifi", "general", []), Amenity("wireless", "general", ["wifi"]);
            var p1 := Pass(["wireless"], {"wireless", "wifi"});
            && CorrectedStep(owners, synonyms, [a, b], Pass([], {}), a) == p1
            && CorrectedStep(owners, synonyms, [a, b], p1, b) == p1
  {
    var a, b := Amenity("wifi", "general", []), Amenity("wireless", "general", ["wifi"]);
    NormOfWord("wifi");
    NormOfWord("wireless");
    assert NormSet(["wifi"]) == NormSet([]) + {"wifi"} by {
      assert ["wifi"][..0] == [];
    }
    assert FindByLower([a, b], "wireless") == Some(b);
    assert !EmittedLower([], "wireless");
  }

  // ---------------------------------------------------------------------
  // Properties of toDTO
  // ---------------------------------------------------------------------

  /** A category's group keeps the input order: grouping distributes over concatenation. */
  lemma {:induction false} OfCategoryAppend(a: seq<Amenity>, b: seq<Amenity>, c: string)
    ensures OfCategory(a + b, c) == OfCategory(a, c) + OfCategory(b, c)
    decreases |b|
  {
    if b == [] {
      assert a + b == a;
    } else {
      var n := |b| - 1;
      AppendLast(a, b);
      OfCategorySnoc(a + b, c);
      OfCategorySnoc(b, c);
      OfCategoryAppend(a, b[..n], c);
      var last := if b[n].category == c then [b[n]] else [];
      ConcatAssoc(OfCategory(a, c), OfCategory(b[..n], c), last);
    }
  }

  /** A category's group of a non-empty collection: the group of all but the last, then the last if it has `c`. */
  lemma OfCategorySnoc(items: seq<Amenity>, c: string)
    requires items != []
    ensures var n := |items| - 1;
            OfCategory(items, c) == OfCategory(items[..n], c) + if items[n].category == c then [items[n]] else []
  {
  }

  /** Dropping the last element of `a + b`, for a non-empty `b`, drops the last element of `b`. */
  lemma AppendLast(a: seq<Amenity>, b: seq<Amenity>)
    requires b != []
    ensures (a + b)[..|a + b| - 1] == a + b[..|b| - 1]
    ensures (a + b)[|a + b| - 1] == b[|b| - 1]
  {
    assert (a + b)[..|a + b| - 1] == a + b[..|b| - 1];
  }

  /** Concatenation is associative. */
  lemma ConcatAssoc(x: seq<Amenity>, y: seq<Amenity>, z: seq<Amenity>)
    ensures x + y + z == x + (y + z)
  {
  }

  /** A single amenity's group for `c` is itself when it has category `c`, and empty otherwise. */
  lemma OfCategorySingle(x: Amenity, c: string)
    ensures OfCategory([x], c) == if x.category == c then [x] else []
  {
    assert [x][..0] == [];
  }

  /**
   * The DTO's amenity groups are `general`, `room` and exactly the other
   * categories present; a group with no amenity is empty.
   */
  lemma ViewGroupKeys(h: Hotel, items: seq<Amenity>)
    ensures var groups := HotelViewOf(h, items).amenities;
            && (forall c :: c in groups <==> c == "general" || c == "room" || exists i :: 0 <= i < |items| && items[i].category == c)
            && (forall c | c in groups :: (forall i :: 0 <= i < |items| ==> items[i].category != c) ==> groups[c] == [])
  {
    GroupsByKeys(items, SynonymDedup);
    forall c | c in AmenityGroups(items) && (forall i :: 0 <= i < |items| ==> items[i].category != c)
      ensures AmenityGroups(items)[c] == []
    {
      assert OfCategory(items, c) == [];
    }
  }

  lemma GroupsByKeys(items: seq<Amenity>, dedup: seq<Amenity> -> seq<string>)
    ensures forall c :: c in GroupsBy(items, dedup) <==> c == "general" || c == "room" || exists i :: 0 <= i < |items| && items[i].category == c
  {
    CategoriesPresent(items);
  }

  /** The categories are those of the collection's amenities. */
  lemma CategoriesPresent(items: seq<Amenity>)
    ensures forall c :: c in Categories(items) <==> exists i :: 0 <= i < |items| && items[i].category == c
  {
    KeyOrderMembers(items, CategoryOf);
    forall c
      ensures HasKey(items, CategoryOf, c) <==> exists i :: 0 <= i < |items| && items[i].category == c
    {
      HasKeyIndex(items, CategoryOf, c);
    }
  }

  /** The DTO's amenity groups with the corrected duplicate removal. */
  function CorrectedAmenityGroups(items: seq<Amenity>): map<string, seq<string>> {
    GroupsBy(items, CorrectedSynonymDedup)
  }

  /**
   * With the corrected duplicate removal, the group of two amenities of one
   * category exists and does not list the second when the first lists it
   * as a synonym.
   */
  lemma CorrectedGroupsNeverBoth(items: seq<Amenity>, i: nat, j: nat)
    requires i < |items| && j < |items|
    requires items[i].category == items[j].category
    requires Norm(items[j].name) in NormSet(items[i].synonyms)
    ensures items[i].category in CorrectedAmenityGroups(items)
    ensures items[j].name !in CorrectedAmenityGroups(items)[items[i].category]
  {
    CategoriesPresent(items);
    var g := OfCategory(items, items[i].category);
    assert items[i] in g && items[j] in g;
    var gi :| 0 <= gi < |g| && g[gi] == items[i];
    var gj :| 0 <= gj < |g| && g[gj] == items[j];
    CorrectedNeverBoth(g, gi, gj);
  }

  /**
   * Each group is deduplicated on its own: it holds no repeated name, and
   * every name in it is the name of an input amenity of that category.
   */
  lemma ViewGroupNames(h: Hotel, items: seq<Amenity>)
    ensures var groups := HotelViewOf(h, items).amenities;
            forall c | c in groups ::
              && groups[c] == SynonymDedup(OfCategory(items, c))
              && NoDuplicates(groups[c])
              && forall x | x in groups[c] :: exists i :: 0 <= i < |items| && items[i].name == x && items[i].category == c
  {
    var groups := HotelViewOf(h, items).amenities;
    forall c | c in groups
      ensures NoDuplicates(groups[c])
      ensures forall x | x in groups[c] :: exists i :: 0 <= i < |items| && items[i].name == x && items[i].category == c
    {
      var group := OfCategory(items, c);
      SynonymDedupNames(group);
      forall x | x in groups[c]
        ensures exists i :: 0 <= i < |items| && items[i].name == x && items[i].category == c
      {
        var j :| 0 <= j < |group| && group[j].name == x;
        assert group[j] in group;
        var i :| 0 <= i < |items| && items[i] == group[j];
      }
    }
  }

  /**
   * The DTO copies id, destination id, name, location and description (a
   * missing description stays missing, shown as null); a missing image
   * category or booking-condition list becomes an empty list.
   */
  lemma ViewFields(h: Hotel, items: seq<Amenity>)
    ensures var v := HotelViewOf(h, items);
            && v.id == h.id && v.destinationId == h.destinationId && v.name == h.name
            && v.location == h.location && v.description == h.description
            && (h.bookingConditions.None? ==> v.bookingConditions == [])
            && (h.bookingConditions.Some? ==> v.bookingConditions == h.bookingConditions.value)
            && (h.images.None? ==> v.images == ImagesView([], [], []))
            && (h.images.Some? && Rooms !in h.images.value ==> v.images.rooms == [])
            && (h.images.Some? && Site !in h.images.value ==> v.images.site == [])
            && (h.images.Some? && Amenities !in h.images.value ==> v.images.amenities == [])
            && (h.images.Some? && Rooms in h.images.value ==> v.images.rooms == h.images.value[Rooms])
            && (h.images.Some? && Site in h.images.value ==> v.images.site == h.images.value[Site])
            && (h.images.Some? && Amenities in h.images.value ==> v.images.amenities == h.images.value[Amenities])
  {
  }
}
