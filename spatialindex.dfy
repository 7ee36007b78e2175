/** The two inverted indexes of the hub store, `invertedH3Index` and
    `landmarkH3Index`: maps from a grid cell to the set of ids recorded under
    it (worker/app-controller.ts). */
module SpatialIndex {
  import opened Types
  import opened OrderedMaps

  /** `Map<H3Index, Set<string>>`, each set as its members in insertion order. */
  type Index = map<Cell, seq<string>>

  /** `index.get(c)?.has(id)`. */
  ghost predicate Indexed(idx: Index, c: Cell, id: string)
  {
    c in idx && id in idx[c]
  }

  /** Every set of the index holds each id once. */
  ghost predicate WellFormed(idx: Index)
  {
    forall c :: c in idx ==> Distinct(idx[c])
  }

  /** `if (!index.has(c)) index.set(c, new Set()); index.get(c)!.add(id)`. */
  function AddId(idx: Index, c: Cell, id: string): (r: Index)
    ensures forall d, x :: Indexed(r, d, x) <==> Indexed(idx, d, x) || (d == c && x == id)
    ensures WellFormed(idx) ==> WellFormed(r)
  {
    idx[c := SetAdd(if c in idx then idx[c] else [], id)]
  }

  /** The inner loop over one fence's cells. */
  function AddCells(idx: Index, cells: seq<Cell>, id: string): (r: Index)
    ensures forall d, x :: Indexed(r, d, x) <==> Indexed(idx, d, x) || (x == id && d in cells)
    ensures WellFormed(idx) ==> WellFormed(r)
  {
    if cells == [] then idx
    else
      var init := cells[..|cells| - 1];
      assert cells == init + [cells[|cells| - 1]];
      AddId(AddCells(idx, init, id), cells[|cells| - 1], id)
  }

  /** One step of the loop over a fence's cells. */
  lemma AddCellsStep(idx: Index, cells: seq<Cell>, j: nat, id: string)
    requires j < |cells|
    ensures AddCells(idx, cells[..j + 1], id) == AddId(AddCells(idx, cells[..j], id), cells[j], id)
  {
    assert cells[..j + 1][..j] == cells[..j];
  }

  /** Indexing one geofence under every cell it covers. */
  function AddFence(idx: Index, fence: Geofence): Index
  {
    AddCells(idx, fence.h3Indexes, fence.id)
  }

  /** Indexing one landmark under its cell; an empty cell is falsy and skipped. */
  function AddLandmark(idx: Index, landmark: Landmark): Index
  {
    if landmark.h3Index != "" then AddId(idx, landmark.h3Index, landmark.id) else idx
  }

  /** The index the rebuild produces from the fences, taken in order. */
  function FenceIndex(fences: seq<Geofence>): Index
  {
    if fences == [] then map[] else AddFence(FenceIndex(fences[..|fences| - 1]), fences[|fences| - 1])
  }

  /** The index the rebuild produces from the landmarks, taken in order. */
  function LandmarkIndex(landmarks: seq<Landmark>): Index
  {
    if landmarks == [] then map[] else AddLandmark(LandmarkIndex(landmarks[..|landmarks| - 1]), landmarks[|landmarks| - 1])
  }

  /** One step of the rebuild loops. */
  lemma FenceIndexStep(fences: seq<Geofence>, i: nat)
    requires i < |fences|
    ensures FenceIndex(fences[..i + 1]) == AddFence(FenceIndex(fences[..i]), fences[i])
  {
    assert fences[..i + 1][..i] == fences[..i];
  }

  lemma LandmarkIndexStep(landmarks: seq<Landmark>, i: nat)
    requires i < |landmarks|
    ensures LandmarkIndex(landmarks[..i + 1]) == AddLandmark(LandmarkIndex(landmarks[..i]), landmarks[i])
  {
    assert landmarks[..i + 1][..i] == landmarks[..i];
  }

  /** After a rebuild, a cell lists an id exactly when some fence with that id covers the cell. */
  lemma {:induction false} FenceIndexExact(fences: seq<Geofence>)
    ensures WellFormed(FenceIndex(fences))
    ensures forall c, id :: Indexed(FenceIndex(fences), c, id) <==>
      exists i :: 0 <= i < |fences| && fences[i].id == id && c in fences[i].h3Indexes
  {
    if fences != [] {
      var n := |fences| - 1;
      var init := fences[..n];
      FenceIndexExact(init);
      forall c, id ensures Indexed(FenceIndex(fences), c, id) <==>
        exists i :: 0 <= i < |fences| && fences[i].id == id && c in fences[i].h3Indexes
      {
        if Indexed(FenceIndex(init), c, id) {
          var i :| 0 <= i < |init| && init[i].id == id && c in init[i].h3Indexes;
          assert fences[i] == init[i];
        }
        if exists i :: 0 <= i < |fences| && fences[i].id == id && c in fences[i].h3Indexes {
          var i :| 0 <= i < |fences| && fences[i].id == id && c in fences[i].h3Indexes;
          if i < n {
            assert init[i] == fences[i];
          }
        }
      }
    }
  }

  /** After a rebuild, a cell lists an id exactly when some landmark with that id sits in the (non-empty) cell. */
  lemma {:induction false} LandmarkIndexExact(landmarks: seq<Landmark>)
    ensures WellFormed(LandmarkIndex(landmarks))
    ensures forall c, id :: Indexed(LandmarkIndex(landmarks), c, id) <==>
      exists i :: 0 <= i < |landmarks| && landmarks[i].id == id && landmarks[i].h3Index == c && c != ""
  {
    if landmarks != [] {
      var n := |landmarks| - 1;
      var init := landmarks[..n];
      LandmarkIndexExact(init);
      forall c, id ensures Indexed(LandmarkIndex(landmarks), c, id) <==>
        exists i :: 0 <= i < |landmarks| && landmarks[i].id == id && landmarks[i].h3Index == c && c != ""
      {
        if Indexed(LandmarkIndex(init), c, id) {
          var i :| 0 <= i < |init| && init[i].id == id && init[i].h3Index == c && c != "";
          assert landmarks[i] == init[i];
        }
        if exists i :: 0 <= i < |landmarks| && landmarks[i].id == id && landmarks[i].h3Index == c && c != "" {
          var i :| 0 <= i < |landmarks| && landmarks[i].id == id && landmarks[i].h3Index == c && c != "";
          if i < n {
            assert init[i] == landmarks[i];
          }
        }
      }
    }
  }

  /** Every stored fence is listed under each cell it covers. */
  ghost predicate FencesCovered(idx: Index, fences: OrderedMap<Geofence>)
  {
    forall k, c :: k in fences.entries && c in fences.entries[k].h3Indexes ==> Indexed(idx, c, fences.entries[k].id)
  }

  /** Every stored landmark with a cell is listed under it. */
  ghost predicate LandmarksCovered(idx: Index, landmarks: OrderedMap<Landmark>)
  {
    forall k :: k in landmarks.entries && landmarks.entries[k].h3Index != "" ==>
      Indexed(idx, landmarks.entries[k].h3Index, landmarks.entries[k].id)
  }

  /** Every id in the index is a key of the store. */
  ghost predicate OnlyStoredIds<V>(idx: Index, store: OrderedMap<V>)
  {
    forall c, id :: Indexed(idx, c, id) ==> id in store.entries
  }

  /** Each fence is stored under its own id, as `upsertGeofence` writes it. */
  ghost predicate FencesKeyedById(fences: OrderedMap<Geofence>)
  {
    forall k :: k in fences.entries ==> fences.entries[k].id == k
  }

  ghost predicate LandmarksKeyedById(landmarks: OrderedMap<Landmark>)
  {
    forall k :: k in landmarks.entries ==> landmarks.entries[k].id == k
  }

  /** The rebuilt fence index covers every stored fence and, when the store is
      keyed by id, names only stored fences. */
  lemma RebuiltFenceIndex(fences: OrderedMap<Geofence>)
    requires fences.Valid()
    ensures WellFormed(FenceIndex(fences.Values()))
    ensures FencesCovered(FenceIndex(fences.Values()), fences)
    ensures FencesKeyedById(fences) ==> OnlyStoredIds(FenceIndex(fences.Values()), fences)
  {
    var vs := fences.Values();
    FenceIndexExact(vs);
    forall k, c | k in fences.entries && c in fences.entries[k].h3Indexes
      ensures Indexed(FenceIndex(vs), c, fences.entries[k].id)
    {
      var i :| 0 <= i < |fences.keys| && fences.keys[i] == k;
      assert vs[i] == fences.entries[k];
    }
    if FencesKeyedById(fences) {
      forall c, id | Indexed(FenceIndex(vs), c, id) ensures id in fences.entries {
        var i :| 0 <= i < |vs| && vs[i].id == id && c in vs[i].h3Indexes;
        assert vs[i] == fences.entries[fences.keys[i]];
      }
    }
  }

  /** The rebuilt landmark index covers every stored landmark with a cell and,
      when the store is keyed by id, names only stored landmarks. */
  lemma RebuiltLandmarkIndex(landmarks: OrderedMap<Landmark>)
    requires landmarks.Valid()
    ensures WellFormed(LandmarkIndex(landmarks.Values()))
    ensures LandmarksCovered(LandmarkIndex(landmarks.Values()), landmarks)
    ensures LandmarksKeyedById(landmarks) ==> OnlyStoredIds(LandmarkIndex(landmarks.Values()), landmarks)
  {
    var vs := landmarks.Values();
    LandmarkIndexExact(vs);
    forall k | k in landmarks.entries && landmarks.entries[k].h3Index != ""
      ensures Indexed(LandmarkIndex(vs), landmarks.entries[k].h3Index, landmarks.entries[k].id)
    {
      var i :| 0 <= i < |landmarks.keys| && landmarks.keys[i] == k;
      assert vs[i] == landmarks.entries[k];
    }
    if LandmarksKeyedById(landmarks) {
      forall c, id | Indexed(LandmarkIndex(vs), c, id) ensures id in landmarks.entries {
        var i :| 0 <= i < |vs| && vs[i].id == id && vs[i].h3Index == c && c != "";
        assert vs[i] == landmarks.entries[landmarks.keys[i]];
      }
    }
  }

  /** `upsertGeofence` keeps the index covering the store and naming only stored fences. */
  lemma UpsertFenceKeepsIndex(idx: Index, fences: OrderedMap<Geofence>, fence: Geofence)
    requires fences.Valid()
    ensures FencesCovered(idx, fences) ==> FencesCovered(AddFence(idx, fence), fences.Put(fence.id, fence))
    ensures OnlyStoredIds(idx, fences) ==> OnlyStoredIds(AddFence(idx, fence), fences.Put(fence.id, fence))
    ensures FencesKeyedById(fences) ==> FencesKeyedById(fences.Put(fence.id, fence))
  {
    var after := fences.Put(fence.id, fence);
    if FencesCovered(idx, fences) {
      forall k, c | k in after.entries && c in after.entries[k].h3Indexes
        ensures Indexed(AddFence(idx, fence), c, after.entries[k].id)
      {
        if k != fence.id {
          assert Indexed(idx, c, fences.entries[k].id);
        }
      }
    }
  }

  /** `upsertLandmark` keeps the index covering the store and naming only stored landmarks. */
  lemma UpsertLandmarkKeepsIndex(idx: Index, landmarks: OrderedMap<Landmark>, landmark: Landmark)
    requires landmarks.Valid()
    ensures LandmarksCovered(idx, landmarks) ==> LandmarksCovered(AddLandmark(idx, landmark), landmarks.Put(landmark.id, landmark))
    ensures OnlyStoredIds(idx, landmarks) ==> OnlyStoredIds(AddLandmark(idx, landmark), landmarks.Put(landmark.id, landmark))
    ensures LandmarksKeyedById(landmarks) ==> LandmarksKeyedById(landmarks.Put(landmark.id, landmark))
  {
    var after := landmarks.Put(landmark.id, landmark);
    if LandmarksCovered(idx, landmarks) {
      forall k | k in after.entries && after.entries[k].h3Index != ""
        ensures Indexed(AddLandmark(idx, landmark), after.entries[k].h3Index, after.entries[k].id)
      {
        if k != landmark.id {
          assert Indexed(idx, landmarks.entries[k].h3Index, landmarks.entries[k].id);
        }
      }
    }
  }

  /** `Array.from(ids).map(id => store.get(id)!).filter(Boolean)`: the stored
      values of the ids, in set order, dropping ids with no entry. */
  function Resolve<V>(ids: seq<string>, store: OrderedMap<V>): (r: seq<V>)
    ensures |r| <= |ids|
    ensures forall i :: 0 <= i < |ids| && ids[i] in store.entries ==> store.entries[ids[i]] in r
    ensures (forall i :: 0 <= i < |ids| ==> ids[i] in store.entries) ==>
      |r| == |ids| && forall i :: 0 <= i < |ids| ==> r[i] == store.entries[ids[i]]
  {
    if ids == [] then []
    else (if ids[0] in store.entries then [store.entries[ids[0]]] else []) + Resolve(ids[1..], store)
  }

  /** Every value `Resolve` returns is stored under one of the ids. */
  lemma {:induction false} ResolveOnlyStored<V>(ids: seq<string>, store: OrderedMap<V>, j: nat)
    requires j < |Resolve(ids, store)|
    ensures exists i :: 0 <= i < |ids| && ids[i] in store.entries && Resolve(ids, store)[j] == store.entries[ids[i]]
  {
    var head := if ids[0] in store.entries then [store.entries[ids[0]]] else [];
    var rest := Resolve(ids[1..], store);
    assert Resolve(ids, store) == head + rest;
    if j < |head| {
      assert ids[0] in store.entries && Resolve(ids, store)[j] == store.entries[ids[0]];
    } else {
      ResolveOnlyStored(ids[1..], store, j - |head|);
      var i :| 0 <= i < |ids[1..]| && ids[1..][i] in store.entries && rest[j - |head|] == store.entries[ids[1..][i]];
      assert ids[i + 1] == ids[1..][i];
      assert Resolve(ids, store)[j] == store.entries[ids[i + 1]];
    }
  }

  /** A point lookup: the values recorded under `c`, or `[]` for an unindexed cell. */
  function At<V>(idx: Index, store: OrderedMap<V>, c: Cell): seq<V>
  {
    if c in idx then Resolve(idx[c], store) else []
  }

  /** With an index that covers a store keyed by id, a lookup finds every stored
      fence covering the cell; with an index naming only stored fences, it drops
      none of the ids recorded there. */
  lemma FencesAt(idx: Index, fences: OrderedMap<Geofence>, c: Cell)
    ensures FencesCovered(idx, fences) && FencesKeyedById(fences) ==>
      forall k :: k in fences.entries && c in fences.entries[k].h3Indexes ==> fences.entries[k] in At(idx, fences, c)
    ensures OnlyStoredIds(idx, fences) ==> |At(idx, fences, c)| == (if c in idx then |idx[c]| else 0)
  {
    if FencesCovered(idx, fences) && FencesKeyedById(fences) {
      forall k | k in fences.entries && c in fences.entries[k].h3Indexes ensures fences.entries[k] in At(idx, fences, c) {
        assert Indexed(idx, c, k);
        var i :| 0 <= i < |idx[c]| && idx[c][i] == k;
      }
    }
    if OnlyStoredIds(idx, fences) && c in idx {
      assert forall i :: 0 <= i < |idx[c]| ==> Indexed(idx, c, idx[c][i]);
    }
  }

  /** The same two facts for landmark lookups. */
  lemma LandmarksAt(idx: Index, landmarks: OrderedMap<Landmark>, c: Cell)
    ensures LandmarksCovered(idx, landmarks) && LandmarksKeyedById(landmarks) ==>
      forall k :: k in landmarks.entries && landmarks.entries[k].h3Index == c && c != "" ==> landmarks.entries[k] in At(idx, landmarks, c)
    ensures OnlyStoredIds(idx, landmarks) ==> |At(idx, landmarks, c)| == (if c in idx then |idx[c]| else 0)
  {
    if LandmarksCovered(idx, landmarks) && LandmarksKeyedById(landmarks) {
      forall k | k in landmarks.entries && landmarks.entries[k].h3Index == c && c != "" ensures landmarks.entries[k] in At(idx, landmarks, c) {
        assert Indexed(idx, c, k);
        var i :| 0 <= i < |idx[c]| && idx[c][i] == k;
      }
    }
    if OnlyStoredIds(idx, landmarks) && c in idx {
      assert forall i :: 0 <= i < |idx[c]| ==> Indexed(idx, c, idx[c][i]);
    }
  }
}
