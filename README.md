# hotel-data-merge: reconciliation core in Dafny

This project models the part of hotel-data-merge that turns three supplier
feeds (acme, paperflies, patagonia) into one catalog of destinations,
hotels and amenities. It also models the helpers that part relies on, the
read-side presentation of a hotel, the supplier registry and the pagination
metadata of the hotel listing.

Modules, one per component:

- `Common` holds `Option` (a property that may be `undefined`/`null`, with
  `??` as `GetOr`) and `AddUnique`, which is `add` on an insertion-ordered
  `Set` or on an ORM collection.
- `Strings` covers `getLongestString`, `toLowerCase` and `trim`, and the
  comparator of `sortByLengthAndLexicographically` as a total order
  (longer first, then lexicographic).
- `ArrayUtils` covers `src/utils/array.ts`:
  - `sortByLengthAndLexicographically` sorts an `array<string>` in place.
    It is proved to give a sorted permutation, equal to a functional
    insertion sort.
  - `getArrayMap` is a key-indexed map in which the last element wins.
  - `mergeArrayByKey` fills a `Map` and returns its values in
    key-insertion order. It is proved against the specification function
    `MergeByKey`.
- `Entities` holds the persisted entities `Destination`, `Amenity`,
  `Hotel` and `HotelImage` as values. A location is a map from its
  optional keys, so object spread `{...a, ...b}` is map union `a + b`.
- `Catalog` is the store the adapters' entity managers read and write: a
  class with three maps (destinations by id, hotels by id, amenities by
  name). It also holds the amenity resolution all adapters share:
  - lower-case the raw names, then sort them;
  - reuse an amenity stored under a name;
  - create a missing one with the adapter's category and no synonyms;
  - add each amenity to the hotel's collection.
- `Acme`, `Paperflies` and `Patagonia` each model one adapter's
  `transform`:
  - a class method `Transform` changes the store;
  - `Transforms` runs over a whole feed in order;
  - each is proved equal to a specification function (`AcmeNext`,
    `PaperfliesNext`, `PatagoniaNext`);
  - lemmas state the per-adapter merge rules. These are the destination
    upsert, name and description by length, and location precedence.
    They also cover images merged by link, amenity categories, that the
    catalog stays valid, and that a record applied twice gives the same
    result as once.
- `HotelTransformer` covers `toDTO`, which groups a hotel's amenities by
  category with `general` and `room` always present, and
  `removeSynonymDuplicates` with its two passes. Each loop is a method
  proved against a specification function; the lemmas state what the
  output contains.
- `Suppliers` covers `SuppliersStrategy`: the registry map built by the
  constructor, `processSuplier` (two `fetchData` invocations for a
  registered name, "Supplier not found" otherwise), and the settle-all
  `fetchData` over acme, paperflies and patagonia.
- `Pagination` covers `createPaginatedResponse`. The page count is the
  ceiling of `total / limit`, computed in integer arithmetic.

The source of `getLongestString` (`src/utils/string.ts`) is not part of
this model. `LongestString` follows its tests: the longer string, and the
first one on equal lengths. `UNDEFINED_DESTINATION_LABEL` lives in a file
that is not part of this model either; its tests fix it to `"?"`.

Synonym collapsing is meant never to display both an amenity and one of
its synonyms. The code does not keep that promise (see "## Findings"). The
`toDTO` model follows the code as written. `HotelTransformer.CorrectedSynonymDedup`
is the corrected duplicate removal, and `HotelTransformer.CorrectedAmenityGroups`
is the DTO grouping built on it.

## Model

| member | source | states |
|---|---|---|
| Common.AddUnique | src/transformers/hotel.transformer.ts:91 | adding to an insertion-ordered set keeps the old elements as a prefix, contains the new one, grows by at most one element (none when already present) and never introduces a duplicate |
| Strings.LowerAll | src/provider/suppliers/strategy/acme.strategy.ts:115 | mapping `toLowerCase` over names keeps the length and lower-cases each name at its own position |
| Strings.LowerIdempotent | src/provider/suppliers/strategy/acme.strategy.ts:115 | lower-casing an already lower-cased name changes nothing |
| Strings.NormIsTrimOfLower | src/transformers/hotel.transformer.ts:58 | `toLowerCase().trim()` equals trimming first and then lower-casing, because no letter is whitespace |
| Strings.LongestString | src/utils/string.spec.ts:5-40 | the result is one of the two inputs, is at least as long as both, and is the first input when the lengths are equal |
| Strings.LongestStringAbsorbs | src/utils/string.spec.ts:5-40 | merging the same string in again leaves the longest unchanged |
| Strings.LexLeTotal | src/utils/array.ts:6 | the tie-break comparison is total: of two strings, one precedes the other |
| Strings.LexLeTransitive | src/utils/array.ts:6 | the tie-break comparison is transitive |
| Strings.LexLeAntisymmetric | src/utils/array.ts:6 | two strings that each precede the other are equal |
| Strings.LexLeReflexive | src/utils/array.ts:6 | every string precedes itself in the tie-break comparison |
| Strings.LengthLexLeReflexive | src/utils/array.ts:2-8 | the sort comparator orders every string before itself |
| Strings.LengthLexLeTotal | src/utils/array.ts:2-8 | the sort comparator (longer first, then lexicographic) relates every pair of strings |
| Strings.LengthLexLeTransitive | src/utils/array.ts:2-8 | the sort comparator is transitive |
| Strings.LengthLexLeAntisymmetric | src/utils/array.ts:2-8 | the sort comparator never ties two different strings, so the sorted order is unique |
| ArrayUtils.SortByLengthAndLexicographically | src/utils/array.ts:1-9 | the array is reordered in place into a sorted permutation of its old contents (longer first, equal lengths ascending, nothing dropped or duplicated), equal to the reference sort |
| ArrayUtils.InsertSortedMultiset | src/utils/array.ts:1-9 | inserting into a list adds exactly the inserted string to its multiset |
| ArrayUtils.InsertSortedSpec | src/utils/array.ts:1-9 | inserting into a sorted list keeps it sorted and adds exactly one element |
| ArrayUtils.SortLengthLexSpec | src/utils/array.ts:1-9 | the reference sort returns a sorted permutation of its input |
| ArrayUtils.SortedPermutationUnique | src/utils/array.ts:1-9 | two sorted permutations of the same strings are equal, so the result does not depend on sort stability |
| ArrayUtils.WithKeyDistinct | src/utils/array.ts:14-16 | in a list with distinct keys, the first and the last element with an element's key are that element |
| ArrayUtils.KeyOrderMembers | src/utils/array.ts:27-43 | the first-seen key order of a list holds exactly the keys that occur, each once |
| ArrayUtils.KeyOrderOfDistinct | src/utils/array.ts:29-31 | for a list with distinct keys, the first-seen key order is the list's keys in list order |
| ArrayUtils.KeyOrderAbsorbs | src/utils/array.ts:33-41 | appending elements whose keys were all seen leaves the key order unchanged |
| ArrayUtils.KeyOrderAppend | src/utils/array.ts:27-43 | the key order of a concatenation is the first list's key order followed by the second list's new keys in first-seen order |
| ArrayUtils.GetArrayMap | src/utils/array.ts:11-19 | the map has a key iff some element has it, and each key maps to the last element with that key |
| ArrayUtils.LastWithKeyIsLast | src/utils/array.ts:14-16 | an element that no later element shares its key with is the one `getArrayMap` maps its key to |
| ArrayUtils.MergeWinner | src/utils/array.ts:29-41 | the element the merge keeps for a key carries that key |
| ArrayUtils.MergeArrayByKey | src/utils/array.ts:21-44 | the two loops and `Array.from(map.values())` compute the merge specification `MergeByKey` |
| ArrayUtils.MergeKeys | src/utils/array.ts:27-43 | the merge holds exactly one element per distinct key of the two inputs, ordered as the first list's keys in first-seen order and then the second list's new keys in first-seen order |
| ArrayUtils.MergeKeepsExisting | src/utils/array.ts:34-37 | without `replace`, every key of the first list keeps the first list's (last) element |
| ArrayUtils.MergeReplaces | src/utils/array.ts:35-36 | with `replace`, every key of the second list takes the second list's (last) element |
| ArrayUtils.MergeAbsorbs | src/utils/array.ts:33-41 | without `replace`, merging only known keys into a list with distinct keys returns that list |
| ArrayUtils.MergeIdempotent | src/utils/array.ts:21-44 | merging the same second list a second time changes nothing |
| ArrayUtils.MergeEmptySecond | src/utils/array.ts:29-43 | an empty second list returns the first list when its keys are distinct |
| ArrayUtils.MergeEmptyFirst | src/utils/array.ts:29-43 | an empty first list returns the second list when its keys are distinct |
| Entities.CategoryImages | src/transformers/hotel.transformer.ts:38-40 | an absent image category reads as the empty list |
| Entities.NewHotel | src/db/entities/hotel.entity.ts:31-64 | a new hotel has the given id, destination and name, no description, an empty location, empty images, no booking conditions and no amenities |
| Catalog.UpdateValid | src/provider/suppliers/strategy/acme.strategy.ts:159-161 | storing a hotel that refers only to stored rows keeps every reference of the catalog intact |
| Catalog.SortedLowerNames | src/provider/suppliers/strategy/acme.strategy.ts:114-116 | the lower-cased names, sorted: a sorted permutation of the lower-cased input |
| Catalog.AttachAmenities | src/provider/suppliers/strategy/acme.strategy.ts:118-137 | the resolution loop leaves the amenity table and the hotel's collection as the specification `AttachNames` says, and touches nothing else |
| Catalog.AttachKeeps | src/provider/suppliers/strategy/acme.strategy.ts:124-135 | every stored amenity is reused unchanged |
| Catalog.AttachStores | src/provider/suppliers/strategy/acme.strategy.ts:126-134 | after resolution an amenity is stored under every name |
| Catalog.AttachCreates | src/provider/suppliers/strategy/acme.strategy.ts:127-133 | only names of the list are created, each with the adapter's category and no synonyms |
| Catalog.AttachKeysNames | src/provider/suppliers/strategy/acme.strategy.ts:128-133 | every amenity stays stored under its own name |
| Catalog.AttachExtends | src/provider/suppliers/strategy/acme.strategy.ts:136 | the hotel's collection keeps its old members as a prefix and never holds an amenity twice |
| Catalog.AttachAdds | src/provider/suppliers/strategy/acme.strategy.ts:126-137 | every name is added to the hotel's collection, and nothing else is |
| Catalog.AttachAbsorbs | src/provider/suppliers/strategy/acme.strategy.ts:126-137 | resolving names that are all stored and already attached changes nothing |
| Catalog.AttachIdempotent | src/provider/suppliers/strategy/acme.strategy.ts:126-137 | resolving the same names a second time changes nothing |
| Acme.AcmeStrategy.Transform | src/provider/suppliers/strategy/acme.strategy.ts:68-140 | the store after `transform` and the persist of the hotel and `hotel.destination` is `AcmeNext` of the old store, and the returned hotel is the stored one |
| Acme.AcmeStrategy.Transforms | src/provider/suppliers/strategy/acme.strategy.ts:50-66 | a feed is applied record by record in feed order, and one hotel is returned per record |
| Acme.AcmeFeedHotels | src/provider/suppliers/strategy/acme.strategy.ts:50-66 | `transforms` returns one hotel per record |
| Acme.AcmeUpsertsDestination | src/provider/suppliers/strategy/acme.strategy.ts:71-89 | when the hotel is new or already refers to the record's destination, that destination exists afterwards with the record's country and city, whether new or stored, and no other destination changes |
| Acme.AcmeKeepsDestinations | src/provider/suppliers/strategy/acme.strategy.ts:80-109 | when the stored hotel refers to another destination, no destination changes, the hotel keeps its destination, and its location still takes the record's city |
| Acme.AcmeNewHotel | src/provider/suppliers/strategy/acme.strategy.ts:84-89 | a new hotel takes id, destination, name and description from the record, with empty images and no booking conditions |
| Acme.AcmeExistingHotel | src/provider/suppliers/strategy/acme.strategy.ts:90-99 | an existing hotel keeps its destination (even a different one), images and booking conditions; name and description become the longer value, a missing description counting as empty |
| Acme.AcmeOverwritesLocation | src/provider/suppliers/strategy/acme.strategy.ts:101-109 | the location is entirely the record's: coordinates (`null` where the record has none), address joined with the postal code by ", " (a `null` part joined as empty), and the record's city and country |
| Acme.AcmeAttachesFacilities | src/provider/suppliers/strategy/acme.strategy.ts:114-137 | every lower-cased facility is stored and attached; a new name gets a `general` amenity with no synonyms; stored amenities are reused unchanged |
| Acme.AcmeNameOrder | src/provider/suppliers/strategy/acme.strategy.ts:114-116 | names are resolved in length-then-lexicographic order, as a permutation of the lower-cased facilities |
| Acme.AcmePreservesValid | src/provider/suppliers/strategy/acme.strategy.ts:68-140 | a transform keeps every hotel referring to a stored destination and to stored amenities, each once |
| Acme.AcmeLocatedAbsorb | src/provider/suppliers/strategy/acme.strategy.ts:84-109 | after one transform, merging the record into its hotel again gives that hotel unchanged |
| Acme.AcmeFixpoint | src/provider/suppliers/strategy/acme.strategy.ts:68-140 | a catalog that already holds the record's destination, hotel and amenities is left unchanged |
| Acme.AcmeIdempotent | src/provider/suppliers/strategy/acme.strategy.ts:68-140 | transforming the same record twice leaves the catalog as after once |
| Paperflies.Captioned | src/provider/suppliers/strategy/paperflies.strategy.ts:131-134 | each feed image becomes an image with the same link and the caption as description, position by position; a missing list gives none |
| Paperflies.PaperfliesStrategy.Transform | src/provider/suppliers/strategy/paperflies.strategy.ts:83-185 | the store after `transform` and the persist of the hotel and `hotel.destination` is `PaperfliesNext` of the old store, and the returned hotel is the stored one |
| Paperflies.PaperfliesStrategy.Transforms | src/provider/suppliers/strategy/paperflies.strategy.ts:71-81 | a feed is applied record by record in feed order, and one hotel is returned per record |
| Paperflies.PaperfliesFeedHotels | src/provider/suppliers/strategy/paperflies.strategy.ts:71-81 | `transforms` returns one hotel per record |
| Paperflies.PaperfliesDestinationUpsert | src/provider/suppliers/strategy/paperflies.strategy.ts:86-101 | when the hotel is new or already refers to the record's destination, a missing destination is created with the record's country and the placeholder city; a stored one and every other one are untouched |
| Paperflies.PaperfliesKeepsDestinations | src/provider/suppliers/strategy/paperflies.strategy.ts:94-107 | when the stored hotel refers to another destination, no destination is written, not even a missing one, and the hotel keeps its destination |
| Paperflies.PaperfliesNewHotel | src/provider/suppliers/strategy/paperflies.strategy.ts:98-103 | a new hotel takes id, destination, `hotel_name` and `details` from the record, and no booking conditions |
| Paperflies.PaperfliesExistingHotel | src/provider/suppliers/strategy/paperflies.strategy.ts:104-113 | an existing hotel keeps destination and booking conditions; name and description become the longer value, a missing description counting as empty |
| Paperflies.PaperfliesLocationFills | src/provider/suppliers/strategy/paperflies.strategy.ts:115-122 | existing location keys keep their values; address, city and country fill only missing keys; no other key appears |
| Paperflies.PaperfliesMergesImages | src/provider/suppliers/strategy/paperflies.strategy.ts:125-145 | site and room images become the stored list merged by link with the record's (stored entries win, new links appended); amenity images are untouched |
| Paperflies.PaperfliesAttachesAmenities | src/provider/suppliers/strategy/paperflies.strategy.ts:150-182 | every lower-cased general and room name is stored and attached to the hotel |
| Paperflies.SortedLowerContains | src/provider/suppliers/strategy/paperflies.strategy.ts:150-156 | every raw name's lower-cased form is among the sorted names |
| Paperflies.PaperfliesNewAmenityCategory | src/provider/suppliers/strategy/paperflies.strategy.ts:166-177 | a new amenity takes the category of its list; a new name in both lists is created once, as `general`; stored amenities are unchanged |
| Paperflies.PaperfliesHotelValid | src/provider/suppliers/strategy/paperflies.strategy.ts:83-185 | the stored hotel refers to stored rows only, each amenity once |
| Paperflies.PaperfliesPreservesValid | src/provider/suppliers/strategy/paperflies.strategy.ts:83-185 | a transform keeps every reference of the catalog intact |
| Paperflies.PaperfliesHotelFieldsAbsorb | src/provider/suppliers/strategy/paperflies.strategy.ts:104-113 | re-reading a hotel whose name and description were already merged changes none of its fields |
| Paperflies.PaperfliesImagesIdempotent | src/provider/suppliers/strategy/paperflies.strategy.ts:125-145 | merging the record's images a second time changes nothing |
| Paperflies.PaperfliesAttachIdempotent | src/provider/suppliers/strategy/paperflies.strategy.ts:166-182 | resolving the record's two lists a second time changes nothing |
| Paperflies.PaperfliesLocatedAbsorb | src/provider/suppliers/strategy/paperflies.strategy.ts:98-145 | after one transform, merging the record into its hotel again gives that hotel unchanged |
| Paperflies.PaperfliesFixpoint | src/provider/suppliers/strategy/paperflies.strategy.ts:83-185 | a catalog that already holds the record's destination, hotel and amenities is left unchanged |
| Paperflies.PaperfliesIdempotent | src/provider/suppliers/strategy/paperflies.strategy.ts:83-185 | transforming the same record twice leaves the catalog as after once |
| Patagonia.Linked | src/provider/suppliers/strategy/patagonia.strategy.ts:123-126 | each feed image becomes an image with the `url` as link and the same description, position by position; a missing list gives none |
| Patagonia.PatagoniaStrategy.Transform | src/provider/suppliers/strategy/patagonia.strategy.ts:78-168 | the store after `transform` and the persist of the hotel and `hotel.destination` is `PatagoniaNext` of the old store, and the returned hotel is the stored one |
| Patagonia.PatagoniaStrategy.Transforms | src/provider/suppliers/strategy/patagonia.strategy.ts:66-76 | a feed is applied record by record in feed order, and one hotel is returned per record |
| Patagonia.PatagoniaFeedHotels | src/provider/suppliers/strategy/patagonia.strategy.ts:66-76 | `transforms` returns one hotel per record |
| Patagonia.PatagoniaDestinationUpsert | src/provider/suppliers/strategy/patagonia.strategy.ts:81-96 | when the hotel is new or already refers to the record's destination, a missing destination is created with placeholder country and city; a stored one and every other one are untouched |
| Patagonia.PatagoniaKeepsDestinations | src/provider/suppliers/strategy/patagonia.strategy.ts:89-101 | when the stored hotel refers to another destination, no destination is written, not even a missing one, and the hotel keeps its destination |
| Patagonia.PatagoniaNewHotel | src/provider/suppliers/strategy/patagonia.strategy.ts:93-97 | a new hotel takes id, destination and name from the record, with no description and no booking conditions |
| Patagonia.PatagoniaExistingHotel | src/provider/suppliers/strategy/patagonia.strategy.ts:98-103 | an existing hotel's name becomes the longer one; destination, description and booking conditions are unchanged |
| Patagonia.PatagoniaLocationFills | src/provider/suppliers/strategy/patagonia.strategy.ts:105-114 | existing location values (coordinates and address included, a stored `null` too) are kept; the record's values (`null` where it has none) and the destination's city and country fill only missing keys |
| Patagonia.PatagoniaMergesImages | src/provider/suppliers/strategy/patagonia.strategy.ts:117-137 | amenity and room images become the stored list merged by link with the record's (stored entries win, new links appended); site images are untouched |
| Patagonia.PatagoniaNoAmenities | src/provider/suppliers/strategy/patagonia.strategy.ts:142-144 | a missing amenity list creates and attaches nothing |
| Patagonia.PatagoniaAttachesAmenities | src/provider/suppliers/strategy/patagonia.strategy.ts:142-165 | every lower-cased amenity is stored and attached; a new name gets a `general` amenity with no synonyms; stored amenities are reused unchanged |
| Patagonia.PatagoniaHotelValid | src/provider/suppliers/strategy/patagonia.strategy.ts:78-168 | the stored hotel refers to stored rows only, each amenity once |
| Patagonia.PatagoniaPreservesValid | src/provider/suppliers/strategy/patagonia.strategy.ts:78-168 | a transform keeps every reference of the catalog intact |
| Patagonia.PatagoniaImagesIdempotent | src/provider/suppliers/strategy/patagonia.strategy.ts:117-137 | merging the record's images a second time changes nothing |
| Patagonia.PatagoniaLocatedAbsorb | src/provider/suppliers/strategy/patagonia.strategy.ts:93-137 | after one transform, merging the record into its hotel again gives that hotel unchanged |
| Patagonia.PatagoniaFixpoint | src/provider/suppliers/strategy/patagonia.strategy.ts:78-168 | a catalog that already holds the record's destination, hotel and amenities is left unchanged |
| Patagonia.PatagoniaIdempotent | src/provider/suppliers/strategy/patagonia.strategy.ts:78-168 | transforming the same record twice leaves the catalog as after once |
| HotelTransformer.RegisterSynonyms | src/transformers/hotel.transformer.ts:63-70 | every synonym's normal form gets an entry; existing entries are kept; new entries map to the amenity's name |
| HotelTransformer.FindByLower | src/transformers/hotel.transformer.ts:105 | a found amenity is in the list with the looked-up lower-cased name; none found means no amenity has that name |
| HotelTransformer.FindByLowerFirst | src/transformers/hotel.transformer.ts:105 | `find` returns the first amenity with the looked-up lower-cased name: no earlier amenity has it |
| HotelTransformer.MarkSynonyms | src/transformers/hotel.transformer.ts:95-99 | every synonym's normal form is added to the processed names |
| HotelTransformer.RegisterAmenity | src/transformers/hotel.transformer.ts:57-71 | one amenity of the first pass overwrites its own normal form's entry with its name, registers its synonyms, and adds them to the synonym set |
| HotelTransformer.CollectSynonyms | src/transformers/hotel.transformer.ts:53-72 | the first pass builds the primary map and the synonym set of the whole list |
| HotelTransformer.VisitAmenity | src/transformers/hotel.transformer.ts:78-119 | one iteration of the second loop performs the step `PassStep` |
| HotelTransformer.RemoveSynonymDuplicates | src/transformers/hotel.transformer.ts:51-122 | the two passes compute `SynonymDedup` of the input |
| HotelTransformer.OfCategory | src/transformers/hotel.transformer.ts:8-15 | a category's group holds exactly the amenities of that category (in order), and is empty iff no amenity has it |
| HotelTransformer.OfCategoryAppend | src/transformers/hotel.transformer.ts:8-15 | the group of a concatenation is the group of the first part followed by the group of the second, so a group keeps the input order |
| HotelTransformer.OfCategorySingle | src/transformers/hotel.transformer.ts:10-11 | one amenity's group is itself for its own category and empty for any other |
| HotelTransformer.GroupByCategory | src/transformers/hotel.transformer.ts:8-15 | the `reduce` has a group for exactly the categories present, each holding that category's amenities, with categories in first-seen order |
| HotelTransformer.DedupGroup | src/transformers/hotel.transformer.ts:19-20 | a group, or the empty list when absent, is deduplicated as the category's amenities |
| HotelTransformer.GroupAmenities | src/transformers/hotel.transformer.ts:18-28 | the groups are `general`, `room` and every present category, each the deduplication of that category's amenities |
| HotelTransformer.GroupsComplete | src/transformers/hotel.transformer.ts:18-28 | a map with those keys and those groups is the specification `GroupsBy` |
| HotelTransformer.ToDTO | src/transformers/hotel.transformer.ts:6-44 | the DTO is `HotelViewOf` of the hotel and its amenities |
| HotelTransformer.PassStepGrows | src/transformers/hotel.transformer.ts:78-119 | an iteration keeps what was emitted and processed, and emits at most one new name |
| HotelTransformer.SecondPassProcessedGrows | src/transformers/hotel.transformer.ts:76-119 | a processed name stays processed for the rest of the pass |
| HotelTransformer.SecondPassDistinct | src/transformers/hotel.transformer.ts:75-121 | the pass emits each name once and at most one name per amenity |
| HotelTransformer.SecondPassFromInputs | src/transformers/hotel.transformer.ts:89-107 | every emitted name is the name of an input amenity |
| HotelTransformer.SynonymDedupNames | src/transformers/hotel.transformer.ts:75-121 | the output has no repeated name, is no longer than the input, holds names of input amenities only, and holds a name of the normal form of every amenity that is nobody's synonym |
| HotelTransformer.PassStepAccounted | src/transformers/hotel.transformer.ts:82-118 | an iteration keeps what was emitted, and every processed form stays a synonym or the normal or lower-cased form of an emitted name |
| HotelTransformer.SecondPassComplete | src/transformers/hotel.transformer.ts:78-119 | after any prefix of the loop, every amenity seen that is nobody's synonym has a name of its normal form in the result |
| HotelTransformer.SkipsAfterPrimary | src/transformers/hotel.transformer.ts:82-98 | once an amenity that is nobody's synonym is emitted, a later amenity whose normal form is its own or one of its synonyms' changes nothing |
| HotelTransformer.PassStepProcessed | src/transformers/hotel.transformer.ts:82-84 | an amenity whose normal form was processed is skipped |
| HotelTransformer.FirstByNormNorms | src/transformers/hotel.transformer.ts:78-93 | the reference without synonyms lists only names whose normal form is an input's |
| HotelTransformer.AllSynonymsOfNone | src/transformers/hotel.transformer.ts:62-71 | amenities without synonyms give an empty synonym set |
| HotelTransformer.SecondPassOfNone | src/transformers/hotel.transformer.ts:78-99 | without synonyms, the pass emits the input names minus normal-form repeats and processes every normal form |
| HotelTransformer.SynonymDedupWithoutSynonyms | src/transformers/hotel.transformer.ts:78-93 | with no synonyms anywhere, the output is the input names in input order with repeats of a normal form dropped |
| HotelTransformer.PrimaryMapKeys | src/transformers/hotel.transformer.ts:57-72 | after the first pass every amenity's and every synonym's normal form has an entry |
| HotelTransformer.PrimaryMapValues | src/transformers/hotel.transformer.ts:57-72 | every entry of the primary map is the name of an input amenity |
| HotelTransformer.SynonymBranchFinds | src/transformers/hotel.transformer.ts:100-106 | in the synonym branch the primary name is always mapped and `find` always finds an amenity |
| HotelTransformer.PrimaryBeforeSynonym | src/transformers/hotel.transformer.ts:51-122 | a primary listed before its synonym: only the primary is displayed |
| HotelTransformer.SynonymBeforePrimary | src/transformers/hotel.transformer.ts:57-118 | a synonym listed before its primary: both names are displayed |
| HotelTransformer.SynonymOwners | src/transformers/hotel.transformer.ts:62-70 | corrected first pass: exactly the synonyms' normal forms are mapped, each to an amenity listing it |
| HotelTransformer.SynonymOwnersListed | src/transformers/hotel.transformer.ts:62-70 | corrected first pass: each synonym form is mapped to the name of an amenity whose synonyms include it |
| HotelTransformer.CorrectedDedupNames | src/transformers/hotel.transformer.ts:75-118 | corrected output: no name that is some amenity's synonym, no repeated name, and for every amenity that is nobody's synonym a name of its normal form |
| HotelTransformer.CorrectedNeverBoth | src/transformers/hotel.transformer.ts:80-118 | corrected output: when one amenity lists another as a synonym, the other is never displayed, so never both |
| HotelTransformer.CorrectedSynonymBeforePrimary | src/transformers/hotel.transformer.ts:99-116 | corrected output on `[wifi, wireless{synonyms: wifi}]` is `["wireless"]` |
| HotelTransformer.CorrectedGroupsNeverBoth | src/transformers/hotel.transformer.ts:18-28 | with the corrected removal, a DTO group never lists an amenity next to one of the same category that lists it as a synonym |
| HotelTransformer.ViewGroupKeys | src/transformers/hotel.transformer.ts:18-28 | the DTO's amenity groups are `general`, `room` and exactly the other categories present; a group with no amenity is empty |
| HotelTransformer.ViewGroupNames | src/transformers/hotel.transformer.ts:19-26 | each group is deduplicated on its own, holds no repeated name, and every name is that of an input amenity of that category |
| HotelTransformer.ViewFields | src/transformers/hotel.transformer.ts:30-43 | id, destination id, name, location and description are copied (missing description shown as null); missing image categories and booking conditions become empty lists |
| Suppliers.SettleAll | src/provider/suppliers/suppliers.strategy.ts:29-33 | settling over the names yields one outcome per name |
| Suppliers.SuppliersStrategy.constructor | src/provider/suppliers/suppliers.strategy.ts:21-25 | the registry maps exactly acme, paperflies and patagonia to their adapters, and no adapter has been invoked |
| Suppliers.SuppliersStrategy.Invoke | src/provider/suppliers/suppliers.strategy.ts:38-39 | one adapter `fetchData` call is recorded and settles as that adapter's outcome for that call |
| Suppliers.SuppliersStrategy.ProcessSupplier | src/provider/suppliers/suppliers.strategy.ts:36-42 | a registered name invokes its adapter twice and settles with the second outcome; any other name is rejected with "Supplier not found" |
| Suppliers.SuppliersStrategy.FetchData | src/provider/suppliers/suppliers.strategy.ts:28-34 | every supplier name is processed in order and each outcome is kept |
| Suppliers.RegistryNames | src/provider/suppliers/suppliers.strategy.ts:21-25 | the registry holds exactly `acme`, `paperflies` and `patagonia` |
| Suppliers.ProcessUnknown | src/provider/suppliers/suppliers.strategy.ts:37-41 | an unregistered name is rejected with "Supplier not found" and invokes no adapter |
| Suppliers.ProcessKnown | src/provider/suppliers/suppliers.strategy.ts:37-39 | a registered name invokes its adapter twice and settles with the second invocation's outcome |
| Suppliers.FetchDataSettlements | src/provider/suppliers/suppliers.strategy.ts:28-33 | exactly three settlements, for acme, paperflies and patagonia in order, each its own adapter's outcome whatever the others do, after six invocations |
| Suppliers.FetchDataRejections | src/provider/suppliers/suppliers.strategy.ts:29 | a rejected settlement comes from a failing adapter, never from an unknown name |
| Pagination.CeilDiv | src/dto/paginated-response.dto.ts:21 | the page count is the ceiling of `total / limit`: (pages - 1) * limit < total <= pages * limit, or no pages for no items |
| Pagination.TotalPagesIsCeiling | src/dto/paginated-response.dto.ts:21 | the page count holds all items and is the least count of `limit`-sized pages that does |
| Pagination.ResponseFields | src/dto/paginated-response.dto.ts:23-32 | data, page, limit and total are echoed; a next page exists iff page < page count; a previous page exists iff page > 1 |
| Pagination.EmptyTotal | src/dto/paginated-response.dto.ts:21-30 | no items give no pages and no next page |
| Pagination.NextPageMeansMoreItems | src/dto/paginated-response.dto.ts:21-30 | from page 1 on, a next page exists iff the items up to this page do not reach the total |

## Left out

- `extract` (network fetch and JSON parsing) and `load`/`loads` are left out. `load`/`loads` are ORM work: an optimistic lock, persist, flush, and re-running `transform` on a conflict. `Transform` includes what `load` persists: the hotel, its amenities and `hotel.destination`. So the record's destination is stored only when the hotel is new or already refers to it, and the store changes immediately.
- `transforms` runs all records concurrently through `Promise.all` on forked entity managers. The model applies them one after another in feed order, so each record sees the previous ones. Interleavings and lost updates are not modelled.
- `em.fork`, `em.populate` and `em.find` plus `getArrayMap` over the found amenities are modelled as lookups in the store's maps. The order in which the ORM returns a hotel's amenity collection is taken as the order it was added in.
- `Hotel.amenities` holds amenity names: amenities are identified by name, not by numeric id.
- The orphan cleanup and `HotelSupplier` membership are left out: nothing in the repository writes `HotelSupplier` rows or defines the cleanup.
- `suppliers.service.ts` (unfinished), `object.ts`, the scheduler, the read-side service, controller and zod schemas, migrations and module wiring are left out. Only the schema's guarantee that `limit` is an integer of at least 1 is kept, as `CreatePaginatedResponse`'s precondition.
- Pagination.CeilDiv: `limit <= 0`, for which `Math.ceil` yields `Infinity` or `NaN`, is excluded by the precondition `limit >= 1`.
- `console.log` output is left out, but the extra `fetchData` invocation it makes is kept. The first invocation's outcome is discarded. The model does not capture its possible unhandled rejection.
- An adapter's `fetchData` outcome is the parameter `fetch(adapter, n)`, where `n` counts earlier invocations. Network and database behaviour are not modelled.
- String lengths count Unicode code points, not UTF-16 code units. `getLongestString` can therefore differ on characters outside the Basic Multilingual Plane.
- `toLowerCase` maps only the ASCII letters A-Z. Other scripts' case mappings are not modelled.
- `localeCompare` is replaced by code-point order. Every caller lower-cases first, but locale-specific collation of accented or non-Latin letters is not modelled.
- Latitude and longitude are reals or `null` and are only copied. Floating-point behaviour is not modelled.
- A record field that is missing (`undefined`) is modelled like `null`. In the stored JSON a key with an `undefined` value is dropped, while a `null` value is kept.
- A location is a map from its five optional keys. The key order of the JSON object is not modelled, and neither are extra keys a stored row might hold.
- `toDTO`'s `groupedAmenities` is a map. The key order of the JSON object is not modelled, and neither are category names that collide with `Object.prototype` properties (such as `constructor`), where the JavaScript `reduce` misbehaves.
- An amenity's missing synonym list is the empty list, which is how `removeSynonymDuplicates` treats it.
- `HotelTransformer.SynonymDedupNames`, `HotelTransformer.SkipsAfterPrimary` and `HotelTransformer.SynonymBeforePrimary` describe the code as written, which `toDTO` uses. The promise that an amenity and its synonym are never both shown is stated for the corrected `HotelTransformer.CorrectedSynonymDedup` instead.
- `HotelTransformer.ToDTO`: the DTO's `images` lists and `booking_conditions` list are the entity's own arrays in the source, so the DTO and the entity share them. In the model `HotelView` holds sequence values, which are copies, so that sharing is not captured.
- Feed-level idempotence is not stated; only applying the same record twice is proved to equal applying it once. For a whole feed, a later record can change what an earlier one stored.

## Findings

| source | as written | input that shows it | evidently intended | confidence | as-written member | corrected member |
|---|---|---|---|---|---|---|
| src/transformers/hotel.transformer.ts:59-118 | the first pass maps every amenity's own normal form to its own name, so the synonym branch finds a synonym amenity as its own primary and emits it; the later primary is nobody's synonym and is emitted too | `[wifi, wireless{synonyms: [wifi]}]` gives `["wifi", "wireless"]` | an amenity listed as another's synonym is never displayed beside it; here only `wireless` | not executed | HotelTransformer.SynonymBeforePrimary | HotelTransformer.CorrectedNeverBoth |
