# tagflow hub core in Dafny

This project models the logic core of tagflow, a regional events hub for the Lehigh Valley.
On the server side, a Cloudflare durable object (`AppController`) keeps four in-memory maps:
sessions, events, geofences (named districts) and landmarks (point venues). It also keeps
two inverted indexes that map an H3 grid cell to the set of geofence or landmark ids
recorded under it. On first use the object loads its maps from durable storage and
rebuilds both indexes. Upserts add to the indexes and never remove from them.
Events are deduplicated on a normalised title plus the UTC day of their date.
`listEvents` ANDs the supplied filters and sorts newest first.

Around the object sit:
- the venue gazetteer: substring matching first, then a token-overlap fallback;
- the district resolver over the regional table;
- the ZIP-code extractor;
- the GeoJSON ingestion of district boundaries.

On the client sit:
- the OPML 2.0 export of the feed directory, whose XML escaping uses the five predefined
  entities of section 4.6 of XML 1.0;
- the zustand article store.

The modules follow the source files:

| module | file | models |
|---|---|---|
| `Hub` | hub.dfy | worker/app-controller.ts: class `AppController`, its loops and filter chain |
| `SpatialIndex` | spatialindex.dfy | the two cell indexes of worker/app-controller.ts, as values |
| `EventStore` | hubevents.dfy | the dedup key, the event write and the `listEvents` filters |
| `Gazetteer` | gazetteer.dfy | worker/gazetteer.ts |
| `Geofences` | geofences.dfy | worker/geofences.ts |
| `GeoJson` | geojson.dfy | worker/geojson-loader.ts |
| `Opml` | opml.dfy | src/lib/opml.ts |
| `AppStore` | appstore.dfy | src/store/useAppStore.ts |
| `Arrays`, `Text`, `OrderedMaps`, `Common`, `Types` | arrays.dfy, text.dfy, orderedmaps.dfy, common.dfy, types.dfy | the JavaScript built-ins the core uses (`filter`, `find`, `sort`, `toLowerCase`, `includes`, `trim`, `split`, `Map`, `Set`) and the records |

How the model is written:
- **The controller.** `AppController` is a Dafny class. Its maps are insertion-ordered
  `OrderedMap` fields, and each `Set` is the sequence of its members in insertion order.
  Each method proves that the new state is a named function of the old one. The invariant
  `Valid()` says that the indexes are well formed and cover the stored records. Once
  storage held each record under its own id, it also says that the indexes name only
  stored records.
- **Loops.** The index rebuild, the per-fence cell loop, the bounding-box scan and the
  OPML grouping `forEach` are methods with loops. Each is proved equal to a recursive
  specification function. Properties are then proved about that function.
- **Pure code.** Everything else is a function with lemmas.
- **Given functions.** The h3-js calls (`latLngToCell`, `gridDisk`, `polygonToCells`) are
  given functions held in a `HexGrid` value. So are the date functions in a `Calendar`
  value.
- **Parameters.** UUIDs, `Date.now()` and the date strings are parameters.

One behaviour of the code worth knowing is that titles are normalised by lower-casing,
trimming, deleting punctuation, then turning white-space runs into `_`. So
"Festival Kickoff!!" and "festival kickoff" share a key. "Festival Kickoff !!" does not:
the space before the punctuation survives the trim and becomes a trailing `_`. The lemmas
`FestivalKickoffCollapses` and `SpaceBeforePunctuationKeepsUnderscore` state both outcomes.

## Model

| member | source | states |
|---|---|---|
| Hub.AppController.constructor | worker/app-controller.ts:11-22 | a new object is unloaded, with empty maps and indexes, over the given storage snapshot |
| Hub.AppController.EnsureLoaded | worker/app-controller.ts:23-55 | afterwards the object is loaded and valid and its state is what the load produces from storage; when already loaded, nothing changes |
| Hub.AppController.Load | worker/app-controller.ts:24-53 | the maps become the stored ones and each index becomes the rebuild of its stored records, with the invariant established |
| Hub.BuildFenceIndex | worker/app-controller.ts:35-44 | the nested loops yield exactly the index `FenceIndex` of the fences taken in order |
| Hub.BuildLandmarkIndex | worker/app-controller.ts:45-52 | the loop yields exactly `LandmarkIndex` of the landmarks taken in order, skipping empty cells |
| Hub.IndexFence | worker/app-controller.ts:59-64 | the loop over a fence's cells adds the fence id under each of its cells and nothing else |
| Hub.IndexLandmark | worker/app-controller.ts:74-77 | a landmark's id is added under its cell only when the cell is non-empty |
| Hub.AddToIndex | worker/app-controller.ts:40-41 | a missing cell gets an empty set first, then the id is added to the cell's set |
| SpatialIndex.AddId | worker/app-controller.ts:40-41 | the index afterwards records exactly the old pairs plus (cell, id), and stays duplicate-free |
| SpatialIndex.AddCells | worker/app-controller.ts:60-63 | the index afterwards records exactly the old pairs plus the id under every given cell |
| SpatialIndex.FenceIndexExact | worker/app-controller.ts:35-44 | after a rebuild a cell lists an id if and only if some fence with that id covers the cell |
| SpatialIndex.LandmarkIndexExact | worker/app-controller.ts:45-52 | after a rebuild a cell lists an id if and only if some landmark with that id sits in that non-empty cell |
| SpatialIndex.RebuiltFenceIndex | worker/app-controller.ts:32-44 | the rebuilt fence index covers every stored fence and, for a store keyed by id, names only stored fences |
| SpatialIndex.RebuiltLandmarkIndex | worker/app-controller.ts:33-52 | the rebuilt landmark index covers every stored landmark with a cell and, for a store keyed by id, names only stored landmarks |
| SpatialIndex.UpsertFenceKeepsIndex | worker/app-controller.ts:58-64 | adding a fence keeps the index covering the store and naming only stored fences, and keeps the store keyed by id |
| SpatialIndex.UpsertLandmarkKeepsIndex | worker/app-controller.ts:73-77 | adding a landmark keeps the index covering the store and naming only stored landmarks |
| Hub.LoadHolds | worker/app-controller.ts:30-52 | the load establishes the index invariant |
| Hub.StoreFenceHolds | worker/app-controller.ts:58-64 | `upsertGeofence` preserves the index invariant |
| Hub.StoreLandmarkHolds | worker/app-controller.ts:73-77 | `upsertLandmark` preserves the index invariant |
| Hub.AppController.UpsertGeofence | worker/app-controller.ts:56-66 | the fence is stored under its id; every old (cell, id) pair stays, so the index only grows; the fence id is recorded under each of its cells; the other maps are untouched |
| Hub.AppController.StoreFence | worker/app-controller.ts:58-64 | on a loaded object, the fence map gets the fence and the index gets its cells; the invariant is kept |
| Hub.AppController.ListGeofences | worker/app-controller.ts:67-70 | the stored fences' values in the map's insertion order, one per key, after loading and with the state otherwise as loaded |
| Hub.AppController.UpsertLandmark | worker/app-controller.ts:71-79 | the landmark is stored under its id; the index only grows and records the id under the landmark's non-empty cell; the other maps are untouched |
| Hub.AppController.StoreLandmark | worker/app-controller.ts:73-77 | on a loaded object, the landmark map and index are updated and the invariant is kept |
| Hub.AppController.ListLandmarks | worker/app-controller.ts:80-83 | the stored landmarks' values in the map's insertion order, one per key, after loading and with the state otherwise as loaded |
| SpatialIndex.Resolve | worker/app-controller.ts:89 | mapping ids to stored values and dropping misses yields at most one value per id, includes every stored id's value, and drops nothing when every id is stored |
| SpatialIndex.ResolveOnlyStored | worker/app-controller.ts:89 | every value returned is the stored value of one of the ids |
| SpatialIndex.FencesAt | worker/app-controller.ts:91-97 | with a covering index every stored fence covering the cell is found; with an index naming only stored fences none of the recorded ids is dropped |
| SpatialIndex.LandmarksAt | worker/app-controller.ts:84-90 | the same two facts for landmark lookups |
| Hub.AppController.GetLandmarksAt | worker/app-controller.ts:84-90 | `[]` for an unindexed cell; otherwise every stored landmark in the point's cell, and exactly one landmark per recorded id |
| Hub.AppController.GetGeofencesAt | worker/app-controller.ts:91-97 | `[]` for an unindexed cell; otherwise every stored fence covering the point's cell, and exactly one fence per recorded id (the `filter(Boolean)` drops nothing) |
| EventStore.NormalizeTitle | worker/app-controller.ts:100 | a normalised title consists only of `[a-z0-9_]` |
| EventStore.NormalizeTitleIdempotent | worker/app-controller.ts:100 | normalising a normalised title changes nothing |
| EventStore.UnderscoreSpaces | worker/app-controller.ts:100 | white-space-free text is unchanged, and kept lower-case characters yield only key characters |
| EventStore.UnderscoreWord | worker/app-controller.ts:100 | a white-space-free word passes through the run replacement unchanged |
| EventStore.FestivalKickoffCollapses | worker/app-controller.ts:100 | "Festival Kickoff!!" and "festival kickoff" both normalise to "festival_kickoff" |
| EventStore.SpaceBeforePunctuationKeepsUnderscore | worker/app-controller.ts:100 | "Festival Kickoff !!" normalises to "festival_kickoff_", a key of its own |
| EventStore.NormalizeTwoWords | worker/app-controller.ts:100 | two key words with trailing punctuation normalise to the words joined by `_`, plus a trailing `_` when a space preceded the punctuation |
| EventStore.DedupKeySameDay | worker/app-controller.ts:101-102 | for days of one length, two events share a key if and only if their titles normalise alike and their days are equal |
| EventStore.StoreEvent | worker/app-controller.ts:102-103 | exactly one entry is written, under the dedup key; it holds the event with its id or the fresh id; every other key is untouched; the store grows by at most one |
| EventStore.StoreEventIdempotent | worker/app-controller.ts:103 | re-upserting the same event with a non-empty id leaves the store unchanged |
| EventStore.SameTitleReplaces | worker/app-controller.ts:100-103 | a second event whose title normalises alike on the same day replaces the first and does not grow the store |
| Hub.AppController.UpsertEvent | worker/app-controller.ts:98-105 | an invalid date throws and changes nothing; otherwise the key returned is the title-and-day key and the events map is `StoreEvent` of the old map; the other maps are untouched |
| EventStore.SearchIgnoresQueryCase | worker/app-controller.ts:120-126 | the search filter gives the same answer for a query and its upper-cased form |
| EventStore.NoFiltersMatchAll | worker/app-controller.ts:109 | with no filter supplied every event passes |
| Hub.StageStep | worker/app-controller.ts:110-127 | applying a supplied filter, or skipping an absent one, takes the events passing the earlier filters to those passing one more |
| Hub.ApplyStage | worker/app-controller.ts:110-127 | one conditional `results.filter` step keeps exactly the events passing the filters so far |
| Hub.FilterEvents | worker/app-controller.ts:108-128 | the chain of filters keeps exactly the stored events, in order, that pass every supplied filter |
| Hub.EventListingCorrect | worker/app-controller.ts:106-130 | the listing holds only stored events that match every supplied filter, holds every matching event, is a permutation of the filtered events, keeps only events with a cell under a point filter, and without filters is a permutation of all events |
| Hub.EventListingOrdered | worker/app-controller.ts:129 | the listing is non-increasing in event time, and events of equal time keep their stored order |
| Hub.AppController.ListEvents | worker/app-controller.ts:106-130 | the result is the filtered, newest-first listing of the stored events, and the state is unchanged apart from the load |
| Hub.AppController.AddSession | worker/app-controller.ts:131-136 | the session is stored with the given title, or "Chat " and the local date, with both times equal to now; the other maps are untouched |
| Hub.AppController.RemoveSession | worker/app-controller.ts:137-142 | returns true if and only if the id was present; the id is absent afterwards and no other session changes |
| Hub.AppController.UpdateSessionActivity | worker/app-controller.ts:143-150 | a known session gets `lastActive` set to now and keeps its place; an unknown id changes nothing |
| Hub.AppController.GetSyncStats | worker/app-controller.ts:151-159 | the counts equal the sizes of the events, geofences and landmarks maps |
| OrderedMaps.OrderedMap.Put | worker/app-controller.ts:58 | `Map.set`: the entry is written, an existing key keeps its place, a new key goes last, the size grows by at most one |
| OrderedMaps.OrderedMap.Delete | worker/app-controller.ts:139 | `Map.delete`: the entry of the key is removed, every other entry is kept, and exactly the other keys stay listed |
| OrderedMaps.DeleteKeepsOrder | worker/app-controller.ts:139 | deleting a listed key closes its gap in the insertion order and keeps the relative order of all other keys; deleting an absent key changes no order |
| OrderedMaps.RemoveListedKey | worker/app-controller.ts:139 | removing a key listed once at position i leaves the keys before i followed by the keys after i |
| OrderedMaps.RemoveAbsentKey | worker/app-controller.ts:139 | removing a key that is not listed leaves the list unchanged |
| OrderedMaps.OrderedMap.Size | worker/app-controller.ts:154-156 | `Map.size` is the number of keys |
| OrderedMaps.OrderedMap.Values | worker/app-controller.ts:69 | `Array.from(map.values())` lists the stored value of each key in insertion order |
| OrderedMaps.ValuesComplete | worker/app-controller.ts:69 | every stored value is listed |
| OrderedMaps.SetAdd | worker/app-controller.ts:41 | `Set.add` keeps members distinct and adds exactly the one member |
| Arrays.Filter | worker/app-controller.ts:110-127 | `filter` keeps exactly the elements that pass and never lengthens |
| Arrays.FilterKeepsOrder | worker/app-controller.ts:110-127 | the result reads the input at strictly increasing positions, and every position whose element passes is read: order and multiplicity are kept |
| Arrays.PassingReads | worker/app-controller.ts:110-127 | element j of the result is the input's element at the j-th passing position |
| Arrays.PassingIncreasing | worker/app-controller.ts:110-127 | the passing positions lie inside the input and increase strictly |
| Arrays.PassingComplete | worker/app-controller.ts:110-127 | every position whose element passes is a passing position |
| Arrays.FilterCount | worker/app-controller.ts:110-127 | each passing value occurs in the result as often as in the input, and a failing value not at all |
| Arrays.FilterRefine | worker/app-controller.ts:110-127 | filtering twice is filtering once by the conjunction |
| Arrays.SortDescByCorrect | worker/app-controller.ts:129 | the newest-first sort is non-increasing in its key and a permutation of its input |
| Arrays.SortDescByStable | worker/app-controller.ts:129 | among elements of equal key the sort keeps the input order |
| Gazetteer.ResolveVenueToLandmark | worker/gazetteer.ts:44-61 | the first substring match in list order when there is one; otherwise the first landmark sharing two long venue tokens; null if and only if neither tier matches; a result is always an element of the list |
| Gazetteer.SubstringTierFirst | worker/gazetteer.ts:47-52 | a substring match at position i means the result is a substring match at position i or earlier |
| Gazetteer.SubstringTierWins | worker/gazetteer.ts:47-59 | a later substring match beats an earlier token-only match |
| Gazetteer.EmptyVenueResolvesToFirst | worker/gazetteer.ts:49 | an empty venue resolves to the first landmark of a non-empty list |
| Gazetteer.PplCenterExample | worker/gazetteer.ts:5 | "Live music tonight at the PPL Center Plaza" resolves to `ppl-center` over the preset table |
| Gazetteer.ResolveVenueToCoords | worker/gazetteer.ts:40-43 | the `[lat, lng]` of the landmark `resolveVenueToLandmark` picks, and null exactly when it picks none |
| Gazetteer.LandmarkToNeighborhood | worker/gazetteer.ts:62-72 | with an associated id, the fence with that id or null, never a cell scan; otherwise the first fence whose cells include the landmark's cell, else null |
| Geofences.ResolveNeighborhoodIn | worker/geofences.ts:17-26 | the first district in table order whose lower-cased name or alias occurs in the lower-cased text; null if and only if there is none |
| Geofences.ResolvesAtOrBefore | worker/geofences.ts:19-24 | when the text mentions district i, the result is district i or an earlier one |
| Geofences.ResolveIgnoresCase | worker/geofences.ts:18-22 | changing the letter case of the text does not change the district |
| Geofences.SouthSideNeverBethlehem | worker/geofences.ts:6-10 | text mentioning "south side" resolves to an Allentown district, never `bt-ss` |
| Geofences.GetGeofencesForCity | worker/geofences.ts:27-29 | every district returned is in the table with that city, and every table district of that city is returned |
| Geofences.CityDistrictsInTableOrder | worker/geofences.ts:27-29 | the result reads the table at strictly increasing positions that cover every district of the city: table order and multiplicity |
| Geofences.FirstZipFrom | worker/geofences.ts:31 | the leftmost position at or after the start where five digits sit between word boundaries, or none |
| Geofences.ExtractZipCode | worker/geofences.ts:30-33 | the first five-digit run delimited by word boundaries, as a substring of the input; undefined if and only if there is none |
| Geofences.SixDigitsAreNoZip | worker/geofences.ts:31 | "123456" yields no ZIP code |
| Geofences.AddressZip | worker/geofences.ts:31 | "Allentown, PA 18101" yields "18101" |
| GeoJson.RingBounds | worker/geojson-loader.ts:11-17 | the scan yields the bounding box `Bounds` of the outer ring, which encloses every vertex |
| GeoJson.BoundsEnclose | worker/geojson-loader.ts:11-17 | every outer-ring vertex lies inside the box |
| GeoJson.BoundsAttained | worker/geojson-loader.ts:11-17 | for a non-empty ring of in-range vertices, each bound is some vertex's coordinate |
| GeoJson.EmptyRingKeepsSentinel | worker/geojson-loader.ts:11 | an empty ring leaves the sentinel box, whose minima exceed its maxima |
| GeoJson.FeatureToGeofence | worker/geojson-loader.ts:8-31 | each truthy `id`, `name`, `city` and each present `aliases`, `zipCodes` is taken over, and otherwise the fresh id, "Unnamed District", "Greater LV", no aliases, no ZIP codes, whether or not the feature has properties; the cells are `polygonToCells` of the outer ring as `[lat, lng]` pairs at resolution 9; the box is the ring's `Bounds` and encloses every vertex; the centroid is the midpoint of the box |
| GeoJson.DistrictBox | worker/geojson-loader.ts:11-30 | an empty outer ring leaves the sentinel box; otherwise each bound of the district's box is attained by a vertex |
| GeoJson.IngestGeoJSON | worker/geojson-loader.ts:3-33 | a non-FeatureCollection throws the stated error; otherwise one district per feature, in order, each the `FeatureToGeofence` of its feature with the i-th fresh id; for input of the modelled shape, the only other failure is a feature without an outer ring |
| Opml.EscapeXml | src/lib/opml.ts:5-17 | the empty string stays empty and escaping never shortens |
| Opml.UnescapeEscape | src/lib/opml.ts:7-16 | decoding the five entities recovers the input exactly |
| Opml.UnescapeChar | src/lib/opml.ts:8-15 | each replaced character decodes back to itself |
| Opml.EscapedHasNoMarkup | src/lib/opml.ts:7-16 | escaped text contains no `<`, `>`, `"` or `'` |
| Opml.EscapePlainText | src/lib/opml.ts:14 | text without the five special characters is unchanged |
| Opml.EscapeAppend | src/lib/opml.ts:7 | escaping works character by character |
| Opml.Categories | src/lib/opml.ts:24-30 | the keys of `groups`: each category once, exactly the feeds' categories |
| Opml.CategoryKeysCorrect | src/lib/opml.ts:31 | the sorted categories are ascending, distinct, and exactly the feeds' categories |
| Opml.GroupedFeedsPermutation | src/lib/opml.ts:32-44 | grouping by a distinct list covering every category lists every feed exactly once |
| Opml.EveryFeedOnce | src/lib/opml.ts:24-44 | the feeds grouped under the sorted categories are a permutation of the input feeds |
| Opml.ToOutline | src/lib/opml.ts:35-39 | `text` equals `title` and `xmlUrl` equals `htmlUrl`; each attribute decodes back to the feed's field and holds no markup |
| Opml.GroupOutline | src/lib/opml.ts:33-43 | `text` equals `title` and decodes to the category, with no markup; one child per feed of the category, in input order, whose text decodes to the feed's title and whose `xmlUrl` decodes to its url |
| Opml.OutlinesOf | src/lib/opml.ts:35-39 | the child outline at j is the outline of feed j |
| Opml.OutlinesAppend | src/lib/opml.ts:35-39 | the outlines of two feed lists joined are their outlines joined |
| Opml.Outlines | src/lib/opml.ts:31-44 | one category outline per sorted category: outline i's text equals its title and decodes to the i-th sorted category, and its children are the outlines of that category's feeds in input order |
| Opml.CategoryOutlinesChildren | src/lib/opml.ts:31-44 | the children of the category outlines, concatenated, are the outlines of the feeds grouped by those categories |
| Opml.DocumentListsEveryFeedOnce | src/lib/opml.ts:24-44 | the children of the document's outlines, concatenated, are the outlines of the grouped feeds, and the grouped feeds are a permutation of the input: every feed appears in the document exactly once |
| Opml.JoinLines | src/lib/opml.ts:40 | joining no lines gives "", joining one line gives that line |
| Opml.NoFeedsNoOutlines | src/lib/opml.ts:32-54 | with no feeds the body holds no outline |
| Opml.PushGroups | src/lib/opml.ts:26-29 | one step of the `forEach` keeps `groups` mapping each category met so far to its feeds in input order |
| Opml.PushFeed | src/lib/opml.ts:26-29 | creates the category's list when missing, then appends the feed |
| Opml.GroupFeedsCorrect | src/lib/opml.ts:24-30 | after all feeds, `groups` maps each category, in order of first appearance, to its feeds in input order |
| Opml.GroupByCategory | src/lib/opml.ts:24-30 | the `forEach` loop builds exactly that dictionary |
| Opml.GroupedOutlinesCorrect | src/lib/opml.ts:31-44 | the outlines built from the dictionary's sorted keys are the specified outlines |
| Opml.GenerateOpml | src/lib/opml.ts:21-56 | the text returned is the specified document for the feeds and date |
| Text.SortStringsCorrect | src/lib/opml.ts:31 | the default string sort is ascending and a permutation of its input |
| AppStore.SetArticles | src/store/useAppStore.ts:31 | the list is replaced and no other field changes |
| AppStore.AddArticles | src/store/useAppStore.ts:32-34 | the batch comes first, as given with any duplicates, followed by the old articles whose url is not in the batch, in their old order; no other field changes |
| AppStore.NotInMeans | src/store/useAppStore.ts:33 | the `find` test rejects an article exactly when some new article has its url |
| AppStore.AddArticlesSurvivors | src/store/useAppStore.ts:33 | no surviving old article shares a url with the batch, and every old article with a url outside the batch survives |
| AppStore.AddArticlesIdempotent | src/store/useAppStore.ts:32-34 | adding the same batch twice is adding it once |
| AppStore.UpdateArticle | src/store/useAppStore.ts:35-37 | length and order are kept; articles with the id get the patch merged; all others are unchanged; no other field changes |
| AppStore.MergeNothing | src/store/useAppStore.ts:36 | merging an empty patch changes nothing |
| AppStore.MergeTwice | src/store/useAppStore.ts:36 | merging two patches in turn is merging their combination, and merging one patch twice is merging it once |
| AppStore.UpdateNothing | src/store/useAppStore.ts:35-37 | an update mentioning no field leaves the state unchanged |
| AppStore.UpdateTwice | src/store/useAppStore.ts:35-37 | two updates of an article that keep its id are one update with the combined patch |
| AppStore.UpdateSettings | src/store/useAppStore.ts:40-42 | each supplied setting is overwritten and each other one kept; no other field changes |
| AppStore.UpdateSettingsLaws | src/store/useAppStore.ts:40-42 | an empty patch changes nothing; two updates are one with the combined patch; repeating a patch changes nothing more |
| AppStore.SetFeedUrl | src/store/useAppStore.ts:38 | only `feedUrl` changes |
| AppStore.SetLoading | src/store/useAppStore.ts:39 | only `isLoading` changes |
| AppStore.SetSearchQuery | src/store/useAppStore.ts:43 | only `searchQuery` changes |
| AppStore.SetSelectedCategory | src/store/useAppStore.ts:44 | only `selectedCategory` changes |

## Left out

- Durable storage (`ctx.storage.get`/`put`) and async/await are I/O. The storage snapshot read on first use is a set of constructor parameters, and the writes back are not modelled.
- The `Object.entries` / `Object.fromEntries` round trip through storage is not modelled. The stored snapshot is taken as an insertion-ordered map.
- `saveMorningBriefing` and `getMorningBriefing` (worker/app-controller.ts:160-167) only store and return a value produced elsewhere. They are left out with the `briefing` field.
- The h3-js functions `latLngToCell`, `gridDisk` and `polygonToCells` are a foreign library. They are given functions, so nothing is proved about the grid itself.
- `crypto.randomUUID`, `Date.now`, `new Date().toISOString()`, `toUTCString()` and `toLocaleDateString()` are parameters or `Calendar` functions.
- Date parsing is a `Calendar` function. An invalid date (`NaN` time) is not modelled in the sort key.
- `toLowerCase`/`toUpperCase` are modelled on ASCII letters only; Unicode case mapping is left out.
- Gazetteer.IsLongToken: `|t| > 3` counts characters (code points), whereas JavaScript's `length` counts UTF-16 code units, so a token such as "ab😀" is long in JavaScript and short here.
- The default string sort compares characters. JavaScript compares UTF-16 code units; these orders differ only outside the Basic Multilingual Plane.
- Categories whose name is an `Object.prototype` member, such as "constructor", are treated as ordinary keys. The code's `groups[category]` would find the inherited member.
- The integer-like keys that `Object.keys` would list first are not ordered specially. The sort that follows makes this order irrelevant.
- An explicit `undefined` in a patch for a required field is not modelled. A patch field is either absent or a value.
- zustand's subscription mechanism is not modelled; only the state transition is.
- `exportFeedsToOPML` (src/lib/opml.ts:60-77) is DOM and Blob I/O.
- GeoJson.IngestGeoJSON: the input (`any` in the code) is modelled only in the shape `{ type, features: [...] }` where each feature's geometry is a Polygon whose coordinates are rings of `[lng, lat]` pairs. Other shapes fail or misbehave in the code and are not modelled: a collection without `features` or a feature without `geometry` throws, a Point or LineString geometry throws when its numbers are destructured as pairs, and a MultiPolygon gives NaN bounds.
- GeoJson.BoundsAttained: requires vertices within the WGS 84 ranges. A vertex outside them could leave a sentinel bound.
- SpatialIndex.FencesAt and SpatialIndex.LandmarksAt: completeness is stated for a store that keeps each record under its own id. The upsert operations keep that property, and the load assumes storage has it.
- Hub.AppController.GetGeofencesAt and Hub.AppController.GetLandmarksAt: they state completeness and the one-per-id count only when storage was keyed by id, for the reason above.
- Coordinates are `real`; floating-point rounding is not modelled.
