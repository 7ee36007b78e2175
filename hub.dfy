/** The hub store (worker/app-controller.ts): in-memory maps of sessions,
    events, geofences and landmarks, two inverted cell indexes, and the
    lazy load from durable storage that every operation starts with. */
module Hub {
  import opened Common
  import opened Types
  import opened Arrays
  import opened OrderedMaps
  import opened SpatialIndex
  import opened EventStore

  /** The message of the `RangeError` `toISOString` throws for an invalid date. */
  const InvalidDate := "RangeError: Invalid time value"

  datatype SyncStats = SyncStats(total: nat, geofences: nat, landmarks: nat, lastSync: string)

  /** Inserts `id` into the set of `cell`, creating the set first if need be. */
  method AddToIndex(index: Index, cell: Cell, id: string) returns (r: Index)
    ensures r == AddId(index, cell, id)
  {
    r := index;
    if cell !in r {
      r := r[cell := []];
    }
    r := r[cell := SetAdd(r[cell], id)];
  }

  /** Adds the fence's id under every cell it covers, in order. */
  method IndexFence(index: Index, fence: Geofence) returns (r: Index)
    ensures r == AddFence(index, fence)
  {
    var cells := fence.h3Indexes;
    r := index;
    for j := 0 to |cells|
      invariant r == AddCells(index, cells[..j], fence.id)
    {
      AddCellsStep(index, cells, j, fence.id);
      r := AddToIndex(r, cells[j], fence.id);
    }
    assert cells[..|cells|] == cells;
  }

  /** Adds the landmark's id under its cell, when it has one. */
  method IndexLandmark(index: Index, landmark: Landmark) returns (r: Index)
    ensures r == AddLandmark(index, landmark)
  {
    r := index;
    if landmark.h3Index != "" {
      r := AddToIndex(r, landmark.h3Index, landmark.id);
    }
  }

  /** The rebuild of the geofence index in `ensureLoaded`. */
  method BuildFenceIndex(fences: seq<Geofence>) returns (index: Index)
    ensures index == FenceIndex(fences)
  {
    index := map[];
    for i := 0 to |fences|
      invariant index == FenceIndex(fences[..i])
    {
      FenceIndexStep(fences, i);
      index := IndexFence(index, fences[i]);
    }
    assert fences[..|fences|] == fences;
  }

  /** The rebuild of the landmark index in `ensureLoaded`. */
  method BuildLandmarkIndex(landmarks: seq<Landmark>) returns (index: Index)
    ensures index == LandmarkIndex(landmarks)
  {
    index := map[];
    for i := 0 to |landmarks|
      invariant index == LandmarkIndex(landmarks[..i])
    {
      LandmarkIndexStep(landmarks, i);
      index := IndexLandmark(index, landmarks[i]);
    }
    assert landmarks[..|landmarks|] == landmarks;
  }

  /** The test `listEvents` applies at `stage`, when that filter is supplied. */
  function StageTest(f: EventFilters, grid: HexGrid, stage: nat): Option<HubEvent -> bool>
    requires 1 <= stage <= AllStages
  {
    match stage
    case 1 => if Truthy(f.category) then Some(CategoryIs(f.category.value)) else None
    case 2 => if Truthy(f.location) then Some(LocationIs(f.location.value)) else None
    case 3 => if Truthy(f.neighborhoodId) then Some(NeighborhoodIdIs(f.neighborhoodId.value)) else None
    case 4 => if Truthy(f.neighborhood) then Some(NeighborhoodIs(f.neighborhood.value)) else None
    case 5 => if Truthy(f.landmarkId) then Some(LandmarkIdIs(f.landmarkId.value)) else None
    case 6 => if f.lat.Some? && f.lng.Some? then Some(InCellsOf(NearbyCells(grid, f.lat.value, f.lng.value))) else None
    case 7 => if Truthy(f.searchQuery) then Some(MentionsOf(Text.ToLower(f.searchQuery.value))) else None
  }

  /** Applying the test of `stage`, or skipping it when it is not supplied,
      takes the events passing the earlier stages to those passing this one. */
  lemma StageStep(all: seq<HubEvent>, f: EventFilters, grid: HexGrid, stage: nat)
    requires 1 <= stage <= AllStages
    ensures StageTest(f, grid, stage).Some? ==>
      Filter(Filter(all, Stage(f, grid, stage - 1)), StageTest(f, grid, stage).value) == Filter(all, Stage(f, grid, stage))
    ensures StageTest(f, grid, stage).None? ==>
      Filter(all, Stage(f, grid, stage - 1)) == Filter(all, Stage(f, grid, stage))
  {
    var p := Stage(f, grid, stage - 1);
    var pq := Stage(f, grid, stage);
    var test := StageTest(f, grid, stage);
    if test.Some? {
      forall e ensures pq(e) == (p(e) && test.value(e)) {
      }
      FilterRefine(all, p, test.value, pq);
    } else {
      forall e ensures p(e) == pq(e) {
      }
      FilterSame(all, p, pq);
    }
  }

  /** One `if (filter) results = results.filter(...)` step of `listEvents`. */
  method ApplyStage(all: seq<HubEvent>, results: seq<HubEvent>, filters: EventFilters, grid: HexGrid, stage: nat)
    returns (r: seq<HubEvent>)
    requires 1 <= stage <= AllStages
    requires results == Filter(all, Stage(filters, grid, stage - 1))
    ensures r == Filter(all, Stage(filters, grid, stage))
  {
    StageStep(all, filters, grid, stage);
    var test := StageTest(filters, grid, stage);
    if test.Some? {
      r := Filter(results, test.value);
    } else {
      r := results;
    }
  }

  /** The chain of `results.filter(...)` calls in `listEvents`, each applied
      only when its filter is supplied, keeps exactly the matching events. */
  method FilterEvents(all: seq<HubEvent>, filters: EventFilters, grid: HexGrid) returns (results: seq<HubEvent>)
    ensures results == Filter(all, Stage(filters, grid, AllStages))
  {
    FilterAll(all, Stage(filters, grid, 0));
    results := all;
    results := ApplyStage(all, results, filters, grid, 1);  // category
    results := ApplyStage(all, results, filters, grid, 2);  // location
    results := ApplyStage(all, results, filters, grid, 3);  // neighborhoodId
    results := ApplyStage(all, results, filters, grid, 4);  // neighborhood
    results := ApplyStage(all, results, filters, grid, 5);  // landmarkId
    results := ApplyStage(all, results, filters, grid, 6);  // lat and lng
    results := ApplyStage(all, results, filters, grid, 7);  // searchQuery
  }

  /** What `listEvents` returns for the stored events `all`. */
  function EventListing(all: seq<HubEvent>, filters: EventFilters, grid: HexGrid, calendar: Calendar): seq<HubEvent>
  {
    SortDescBy(Filter(all, Stage(filters, grid, AllStages)), TimeKey(calendar))
  }

  /** The listing holds exactly the matching events; without filters it
      holds them all. */
  lemma EventListingCorrect(all: seq<HubEvent>, filters: EventFilters, grid: HexGrid, calendar: Calendar)
    ensures var r := EventListing(all, filters, grid, calendar);
      && (forall i :: 0 <= i < |r| ==> r[i] in all && Matches(filters, grid, r[i]))
      && (forall i :: 0 <= i < |all| && Matches(filters, grid, all[i]) ==> all[i] in r)
      && multiset(r) == multiset(Filter(all, Stage(filters, grid, AllStages)))
      && (filters.lat.Some? && filters.lng.Some? ==> forall i :: 0 <= i < |r| ==> Truthy(r[i].h3Index))
      && (filters == NoFilters ==> multiset(r) == multiset(all))
  {
    var results := Filter(all, Stage(filters, grid, AllStages));
    var r := EventListing(all, filters, grid, calendar);
    SortDescByCorrect(results, TimeKey(calendar));
    forall i | 0 <= i < |r| ensures r[i] in all && Matches(filters, grid, r[i]) {
      assert r[i] in multiset(results);
      assert r[i] in results;
    }
    forall i | 0 <= i < |all| && Matches(filters, grid, all[i]) ensures all[i] in r {
      assert all[i] in results;
      assert all[i] in multiset(r);
    }
    if filters == NoFilters {
      forall j | 0 <= j < |all| ensures Stage(filters, grid, AllStages)(all[j]) {
        NoFiltersMatchAll(grid, all[j]);
      }
      FilterAll(all, Stage(filters, grid, AllStages));
    }
  }

  /** The listing is newest first, and events of equal time keep their
      stored order. */
  lemma EventListingOrdered(all: seq<HubEvent>, filters: EventFilters, grid: HexGrid, calendar: Calendar)
    ensures var r := EventListing(all, filters, grid, calendar);
      && SortedDesc(r, TimeKey(calendar))
      && (forall t :: Filter(r, KeyIs(TimeKey(calendar), t))
                   == Filter(Filter(all, Stage(filters, grid, AllStages)), KeyIs(TimeKey(calendar), t)))
  {
    var results := Filter(all, Stage(filters, grid, AllStages));
    SortDescByCorrect(results, TimeKey(calendar));
    forall t {
      SortDescByStable(results, TimeKey(calendar), t);
    }
  }

  /** The indexes are well formed; once loaded, both cover their stores and,
      when storage held each record under its own id, name only stored records. */
  ghost predicate IndexesHold(loaded: bool, fences: OrderedMap<Geofence>, fenceIndex: Index,
                              landmarks: OrderedMap<Landmark>, landmarkIndex: Index,
                              storedFences: OrderedMap<Geofence>, storedLandmarks: OrderedMap<Landmark>)
  {
    && WellFormed(fenceIndex) && WellFormed(landmarkIndex)
    && (loaded ==> FencesCovered(fenceIndex, fences) && LandmarksCovered(landmarkIndex, landmarks))
    && (loaded && FencesKeyedById(storedFences) ==> FencesKeyedById(fences) && OnlyStoredIds(fenceIndex, fences))
    && (loaded && LandmarksKeyedById(storedLandmarks) ==>
          LandmarksKeyedById(landmarks) && OnlyStoredIds(landmarkIndex, landmarks))
  }

  /** The rebuild establishes the index invariant. */
  lemma LoadHolds(storedFences: OrderedMap<Geofence>, storedLandmarks: OrderedMap<Landmark>)
    requires storedFences.Valid() && storedLandmarks.Valid()
    ensures IndexesHold(true, storedFences, FenceIndex(storedFences.Values()),
                        storedLandmarks, LandmarkIndex(storedLandmarks.Values()), storedFences, storedLandmarks)
  {
    RebuiltFenceIndex(storedFences);
    RebuiltLandmarkIndex(storedLandmarks);
  }

  /** `upsertGeofence` keeps the index invariant. */
  lemma StoreFenceHolds(fences: OrderedMap<Geofence>, fenceIndex: Index, landmarks: OrderedMap<Landmark>,
                        landmarkIndex: Index, storedFences: OrderedMap<Geofence>, storedLandmarks: OrderedMap<Landmark>,
                        fence: Geofence)
    requires fences.Valid()
    requires IndexesHold(true, fences, fenceIndex, landmarks, landmarkIndex, storedFences, storedLandmarks)
    ensures IndexesHold(true, fences.Put(fence.id, fence), AddFence(fenceIndex, fence),
                        landmarks, landmarkIndex, storedFences, storedLandmarks)
  {
    UpsertFenceKeepsIndex(fenceIndex, fences, fence);
  }

  /** `upsertLandmark` keeps the index invariant. */
  lemma StoreLandmarkHolds(fences: OrderedMap<Geofence>, fenceIndex: Index, landmarks: OrderedMap<Landmark>,
                           landmarkIndex: Index, storedFences: OrderedMap<Geofence>, storedLandmarks: OrderedMap<Landmark>,
                           landmark: Landmark)
    requires landmarks.Valid()
    requires IndexesHold(true, fences, fenceIndex, landmarks, landmarkIndex, storedFences, storedLandmarks)
    ensures IndexesHold(true, fences, fenceIndex, landmarks.Put(landmark.id, landmark),
                        AddLandmark(landmarkIndex, landmark), storedFences, storedLandmarks)
  {
    UpsertLandmarkKeepsIndex(landmarkIndex, landmarks, landmark);
  }

  class AppController {
    /** The h3-js functions and the date functions the controller calls. */
    const grid: HexGrid
    const calendar: Calendar
    /** What durable storage holds under `sessions`, `hub_events`,
        `geofences` and `landmarks` when the object is first used. */
    const storedSessions: OrderedMap<SessionInfo>
    const storedEvents: OrderedMap<HubEvent>
    const storedGeofences: OrderedMap<Geofence>
    const storedLandmarks: OrderedMap<Landmark>

    var sessions: OrderedMap<SessionInfo>
    var events: OrderedMap<HubEvent>
    var geofences: OrderedMap<Geofence>
    var landmarks: OrderedMap<Landmark>
    var invertedH3Index: Index
    var landmarkH3Index: Index
    var loaded: bool

    /** The maps are well formed and the indexes are as `IndexesHold` says. */
    ghost predicate Valid()
      reads this
    {
      && storedSessions.Valid() && storedEvents.Valid() && storedGeofences.Valid() && storedLandmarks.Valid()
      && sessions.Valid() && events.Valid() && geofences.Valid() && landmarks.Valid()
      && IndexesHold(loaded, geofences, invertedH3Index, landmarks, landmarkH3Index, storedGeofences, storedLandmarks)
    }

    constructor(grid: HexGrid, calendar: Calendar,
                storedSessions: OrderedMap<SessionInfo>, storedEvents: OrderedMap<HubEvent>,
                storedGeofences: OrderedMap<Geofence>, storedLandmarks: OrderedMap<Landmark>)
      requires storedSessions.Valid() && storedEvents.Valid() && storedGeofences.Valid() && storedLandmarks.Valid()
      ensures Valid() && !loaded
      ensures this.grid == grid && this.calendar == calendar
      ensures this.storedSessions == storedSessions && this.storedEvents == storedEvents
      ensures this.storedGeofences == storedGeofences && this.storedLandmarks == storedLandmarks
      ensures sessions.entries == map[] && events.entries == map[] && geofences.entries == map[] && landmarks.entries == map[]
      ensures invertedH3Index == map[] && landmarkH3Index == map[]
    {
      this.grid := grid;
      this.calendar := calendar;
      this.storedSessions := storedSessions;
      this.storedEvents := storedEvents;
      this.storedGeofences := storedGeofences;
      this.storedLandmarks := storedLandmarks;
      sessions := OrderedMap([], map[]);
      events := OrderedMap([], map[]);
      geofences := OrderedMap([], map[]);
      landmarks := OrderedMap([], map[]);
      invertedH3Index := map[];
      landmarkH3Index := map[];
      loaded := false;
    }

    // The state every operation works on: the fields once loaded, or what
    // the load will produce from storage.

    ghost function LoadedSessions(): OrderedMap<SessionInfo>
      reads this
    {
      if loaded then sessions else storedSessions
    }

    ghost function LoadedEvents(): OrderedMap<HubEvent>
      reads this
    {
      if loaded then events else storedEvents
    }

    ghost function LoadedFences(): OrderedMap<Geofence>
      reads this
    {
      if loaded then geofences else storedGeofences
    }

    ghost function LoadedLandmarks(): OrderedMap<Landmark>
      reads this
    {
      if loaded then landmarks else storedLandmarks
    }

    ghost function LoadedFenceIndex(): Index
      requires Valid()
      reads this
    {
      if loaded then invertedH3Index else FenceIndex(storedGeofences.Values())
    }

    ghost function LoadedLandmarkIndex(): Index
      requires Valid()
      reads this
    {
      if loaded then landmarkH3Index else LandmarkIndex(storedLandmarks.Values())
    }

    /** Nothing but the loading has changed since `old`. */
    twostate predicate OnlyLoaded()
      requires old(Valid())
      reads this
    {
      && sessions == old(LoadedSessions()) && events == old(LoadedEvents())
      && geofences == old(LoadedFences()) && landmarks == old(LoadedLandmarks())
      && invertedH3Index == old(LoadedFenceIndex()) && landmarkH3Index == old(LoadedLandmarkIndex())
    }

    /** `ensureLoaded`: on first use, copy the stored records in and rebuild
        both indexes from scratch; afterwards, do nothing. */
    method EnsureLoaded()
      requires Valid()
      modifies this
      ensures Valid() && loaded
      ensures OnlyLoaded()
      ensures old(loaded) ==> unchanged(this)
    {
      if !loaded {
        Load();
      }
    }

    /** The first-use branch of `ensureLoaded`. */
    method Load()
      requires Valid() && !loaded
      modifies this
      ensures Valid() && loaded
      ensures sessions == storedSessions && events == storedEvents
      ensures geofences == storedGeofences && landmarks == storedLandmarks
      ensures invertedH3Index == FenceIndex(storedGeofences.Values())
      ensures landmarkH3Index == LandmarkIndex(storedLandmarks.Values())
    {
      var fenceIndex := BuildFenceIndex(storedGeofences.Values());
      var landmarkIndex := BuildLandmarkIndex(storedLandmarks.Values());
      LoadHolds(storedGeofences, storedLandmarks);
      sessions, events, geofences, landmarks := storedSessions, storedEvents, storedGeofences, storedLandmarks;
      invertedH3Index, landmarkH3Index, loaded := fenceIndex, landmarkIndex, true;
    }

    /** `upsertGeofence`: store the fence under its id and add its id under
        each of its cells; nothing is ever removed from the index. */
    method UpsertGeofence(fence: Geofence)
      requires Valid()
      modifies this
      ensures Valid() && loaded
      ensures geofences == old(LoadedFences()).Put(fence.id, fence)
      ensures invertedH3Index == AddFence(old(LoadedFenceIndex()), fence)
      ensures forall c, id :: Indexed(old(LoadedFenceIndex()), c, id) ==> Indexed(invertedH3Index, c, id)
      ensures forall c :: c in fence.h3Indexes ==> Indexed(invertedH3Index, c, fence.id)
      ensures sessions == old(LoadedSessions()) && events == old(LoadedEvents())
      ensures landmarks == old(LoadedLandmarks()) && landmarkH3Index == old(LoadedLandmarkIndex())
    {
      EnsureLoaded();
      StoreFence(fence);
    }

    /** The body of `upsertGeofence` once the state is loaded. */
    method StoreFence(fence: Geofence)
      requires Valid() && loaded
      modifies this
      ensures Valid() && loaded
      ensures geofences == old(geofences).Put(fence.id, fence)
      ensures invertedH3Index == AddFence(old(invertedH3Index), fence)
      ensures sessions == old(sessions) && events == old(events)
      ensures landmarks == old(landmarks) && landmarkH3Index == old(landmarkH3Index)
    {
      StoreFenceHolds(geofences, invertedH3Index, landmarks, landmarkH3Index, storedGeofences, storedLandmarks, fence);
      var index := IndexFence(invertedH3Index, fence);
      geofences, invertedH3Index := geofences.Put(fence.id, fence), index;
    }

    /** `listGeofences`: the stored fences in insertion order. */
    method ListGeofences() returns (r: seq<Geofence>)
      requires Valid()
      modifies this
      ensures Valid() && loaded && OnlyLoaded()
      ensures r == geofences.Values()
      ensures |r| == |geofences.entries|
      ensures forall k :: k in geofences.entries ==> geofences.entries[k] in r
      ensures forall i :: 0 <= i < |r| ==> exists k :: k in geofences.entries && r[i] == geofences.entries[k]
    {
      EnsureLoaded();
      r := geofences.Values();
      assert geofences.Size() == |geofences.entries|;
      forall k | k in geofences.entries ensures geofences.entries[k] in r {
        ValuesComplete(geofences, k);
      }
    }

    /** `upsertLandmark`: store the landmark under its id and, when it has a
        cell, add its id under that cell. */
    method UpsertLandmark(landmark: Landmark)
      requires Valid()
      modifies this
      ensures Valid() && loaded
      ensures landmarks == old(LoadedLandmarks()).Put(landmark.id, landmark)
      ensures landmarkH3Index == AddLandmark(old(LoadedLandmarkIndex()), landmark)
      ensures forall c, id :: Indexed(old(LoadedLandmarkIndex()), c, id) ==> Indexed(landmarkH3Index, c, id)
      ensures landmark.h3Index != "" ==> Indexed(landmarkH3Index, landmark.h3Index, landmark.id)
      ensures sessions == old(LoadedSessions()) && events == old(LoadedEvents())
      ensures geofences == old(LoadedFences()) && invertedH3Index == old(LoadedFenceIndex())
    {
      EnsureLoaded();
      StoreLandmark(landmark);
    }

    /** The body of `upsertLandmark` once the state is loaded. */
    method StoreLandmark(landmark: Landmark)
      requires Valid() && loaded
      modifies this
      ensures Valid() && loaded
      ensures landmarks == old(landmarks).Put(landmark.id, landmark)
      ensures landmarkH3Index == AddLandmark(old(landmarkH3Index), landmark)
      ensures sessions == old(sessions) && events == old(events)
      ensures geofences == old(geofences) && invertedH3Index == old(invertedH3Index)
    {
      StoreLandmarkHolds(geofences, invertedH3Index, landmarks, landmarkH3Index, storedGeofences, storedLandmarks, landmark);
      var index := IndexLandmark(landmarkH3Index, landmark);
      landmarks, landmarkH3Index := landmarks.Put(landmark.id, landmark), index;
    }

    /** `listLandmarks`: the stored landmarks in insertion order. */
    method ListLandmarks() returns (r: seq<Landmark>)
      requires Valid()
      modifies this
      ensures Valid() && loaded && OnlyLoaded()
      ensures r == landmarks.Values()
      ensures |r| == |landmarks.entries|
      ensures forall k :: k in landmarks.entries ==> landmarks.entries[k] in r
      ensures forall i :: 0 <= i < |r| ==> exists k :: k in landmarks.entries && r[i] == landmarks.entries[k]
    {
      EnsureLoaded();
      r := landmarks.Values();
      assert landmarks.Size() == |landmarks.entries|;
      forall k | k in landmarks.entries ensures landmarks.entries[k] in r {
        ValuesComplete(landmarks, k);
      }
    }

    /** `getLandmarksAt`: the landmarks recorded under the point's cell. */
    method GetLandmarksAt(lat: real, lng: real) returns (r: seq<Landmark>)
      requires Valid()
      modifies this
      ensures Valid() && loaded && OnlyLoaded()
      ensures r == At(landmarkH3Index, landmarks, grid.latLngToCell(lat, lng, Resolution))
      ensures grid.latLngToCell(lat, lng, Resolution) !in landmarkH3Index ==> r == []
      ensures forall k :: (k in landmarks.entries && landmarks.entries[k].h3Index == grid.latLngToCell(lat, lng, Resolution) != "" &&
                           LandmarksKeyedById(storedLandmarks)) ==> landmarks.entries[k] in r
      ensures LandmarksKeyedById(storedLandmarks) && grid.latLngToCell(lat, lng, Resolution) in landmarkH3Index ==>
                |r| == |landmarkH3Index[grid.latLngToCell(lat, lng, Resolution)]|
    {
      EnsureLoaded();
      var cellId := grid.latLngToCell(lat, lng, Resolution);
      LandmarksAt(landmarkH3Index, landmarks, cellId);
      if cellId !in landmarkH3Index {
        return [];
      }
      r := Resolve(landmarkH3Index[cellId], landmarks);
    }

    /** `getGeofencesAt`: the geofences recorded under the point's cell. */
    method GetGeofencesAt(lat: real, lng: real) returns (r: seq<Geofence>)
      requires Valid()
      modifies this
      ensures Valid() && loaded && OnlyLoaded()
      ensures r == At(invertedH3Index, geofences, grid.latLngToCell(lat, lng, Resolution))
      ensures grid.latLngToCell(lat, lng, Resolution) !in invertedH3Index ==> r == []
      ensures forall k :: (k in geofences.entries && grid.latLngToCell(lat, lng, Resolution) in geofences.entries[k].h3Indexes &&
                           FencesKeyedById(storedGeofences)) ==> geofences.entries[k] in r
      ensures FencesKeyedById(storedGeofences) && grid.latLngToCell(lat, lng, Resolution) in invertedH3Index ==>
                |r| == |invertedH3Index[grid.latLngToCell(lat, lng, Resolution)]|
    {
      EnsureLoaded();
      var cellId := grid.latLngToCell(lat, lng, Resolution);
      FencesAt(invertedH3Index, geofences, cellId);
      if cellId !in invertedH3Index {
        return [];
      }
      r := Resolve(invertedH3Index[cellId], geofences);
    }

    /** `upsertEvent`: store the event under its title-and-day key, keeping its
        id or giving it `freshId`; an invalid date throws before anything is
        written. */
    method UpsertEvent(event: HubEvent, freshId: string) returns (r: Result<string>)
      requires Valid()
      modifies this
      ensures Valid() && loaded
      ensures calendar.utcDay(event.eventDate).None? ==> r == Err(InvalidDate) && OnlyLoaded()
      ensures calendar.utcDay(event.eventDate).Some? ==>
        var day := calendar.utcDay(event.eventDate).value;
        r == Ok(DedupKey(event.title, day)) && events == StoreEvent(old(LoadedEvents()), event, freshId, day)
      ensures sessions == old(LoadedSessions()) && geofences == old(LoadedFences()) && landmarks == old(LoadedLandmarks())
      ensures invertedH3Index == old(LoadedFenceIndex()) && landmarkH3Index == old(LoadedLandmarkIndex())
    {
      EnsureLoaded();
      var normalizedTitle := NormalizeTitle(event.title);
      var dateStr := calendar.utcDay(event.eventDate);
      if dateStr.None? {
        return Err(InvalidDate);
      }
      var dedupKey := normalizedTitle + "_" + dateStr.value;
      events := events.Put(dedupKey, WithId(event, freshId));
      r := Ok(dedupKey);
    }

    /** `listEvents`: the stored events that pass every supplied filter,
        newest first, ties in insertion order. */
    method ListEvents(filters: EventFilters) returns (r: seq<HubEvent>)
      requires Valid()
      modifies this
      ensures Valid() && loaded && OnlyLoaded()
      ensures r == EventListing(events.Values(), filters, grid, calendar)
    {
      EnsureLoaded();
      var results := FilterEvents(events.Values(), filters, grid);
      r := SortDescBy(results, TimeKey(calendar));
    }

    /** `addSession`: record a session created now, titled "Chat <local date>"
        unless a title is given. */
    method AddSession(sessionId: string, title: Option<string>, now: int)
      requires Valid()
      modifies this
      ensures Valid() && loaded
      ensures sessions == old(LoadedSessions()).Put(sessionId,
        SessionInfo(sessionId, if Truthy(title) then title.value else "Chat " + calendar.localDate(now), now, now))
      ensures events == old(LoadedEvents()) && geofences == old(LoadedFences()) && landmarks == old(LoadedLandmarks())
      ensures invertedH3Index == old(LoadedFenceIndex()) && landmarkH3Index == old(LoadedLandmarkIndex())
    {
      EnsureLoaded();
      var t := if Truthy(title) then title.value else "Chat " + calendar.localDate(now);
      sessions := sessions.Put(sessionId, SessionInfo(sessionId, t, now, now));
    }

    /** `removeSession`: true exactly when the session was there; it is gone afterwards. */
    method RemoveSession(sessionId: string) returns (deleted: bool)
      requires Valid()
      modifies this
      ensures Valid() && loaded
      ensures deleted <==> sessionId in old(LoadedSessions()).entries
      ensures sessionId !in sessions.entries
      ensures sessions.entries == old(LoadedSessions()).entries - {sessionId}
      ensures !deleted ==> sessions == old(LoadedSessions())
      ensures events == old(LoadedEvents()) && geofences == old(LoadedFences()) && landmarks == old(LoadedLandmarks())
      ensures invertedH3Index == old(LoadedFenceIndex()) && landmarkH3Index == old(LoadedLandmarkIndex())
    {
      EnsureLoaded();
      deleted := sessionId in sessions.entries;
      if deleted {
        sessions := sessions.Delete(sessionId);
      }
    }

    /** `updateSessionActivity`: stamp a known session as active now; an unknown id changes nothing. */
    method UpdateSessionActivity(sessionId: string, now: int)
      requires Valid()
      modifies this
      ensures Valid() && loaded
      ensures sessionId in old(LoadedSessions()).entries ==>
        sessions.keys == old(LoadedSessions()).keys &&
        sessions.entries == old(LoadedSessions()).entries[sessionId := old(LoadedSessions()).entries[sessionId].(lastActive := now)]
      ensures sessionId !in old(LoadedSessions()).entries ==> sessions == old(LoadedSessions())
      ensures events == old(LoadedEvents()) && geofences == old(LoadedFences()) && landmarks == old(LoadedLandmarks())
      ensures invertedH3Index == old(LoadedFenceIndex()) && landmarkH3Index == old(LoadedLandmarkIndex())
    {
      EnsureLoaded();
      var session := sessions.Get(sessionId);
      if session.Some? {
        sessions := sessions.Put(sessionId, session.value.(lastActive := now));
      }
    }

    /** `getSyncStats`: the number of events, geofences and landmarks, and the time of the call. */
    method GetSyncStats(nowIso: string) returns (stats: SyncStats)
      requires Valid()
      modifies this
      ensures Valid() && loaded && OnlyLoaded()
      ensures stats == SyncStats(|events.entries|, |geofences.entries|, |landmarks.entries|, nowIso)
    {
      EnsureLoaded();
      stats := SyncStats(events.Size(), geofences.Size(), landmarks.Size(), nowIso);
    }
  }
}
