/** GeoJSON ingestion: a FeatureCollection of polygons becomes one district
    per feature, with bounding box, centroid, cells and defaults
    (worker/geojson-loader.ts). */
module GeoJson {
  import opened Common
  import opened Types

  /** The `properties` a feature may carry; `None` is an absent key. */
  datatype Properties = Properties(
    id: Option<string>,
    name: Option<string>,
    city: Option<string>,
    aliases: Option<seq<string>>,
    zipCodes: Option<seq<string>>)

  const NoProperties := Properties(None, None, None, None, None)

  /** A polygon feature: its `properties` (absent or null is `None`) and its
      `geometry.coordinates`, a list of rings of `[lng, lat]` positions. */
  datatype Feature = Feature(properties: Option<Properties>, coordinates: seq<seq<Position>>)

  /** `kind` is the collection's `type` member. */
  datatype FeatureCollection = FeatureCollection(kind: string, features: seq<Feature>)

  const InvalidCollection := "Invalid GeoJSON: Expected FeatureCollection"

  /** The `TypeError` raised when a feature has no outer ring to read. */
  const MissingRing := "TypeError: Cannot read properties of undefined (reading 'forEach')"

  /** The starting values of the running bounds, before any vertex is seen. */
  const Sentinel := BBox(180.0, 90.0, -180.0, -90.0)

  function Min(a: real, b: real): real { if a <= b then a else b }

  function Max(a: real, b: real): real { if a >= b then a else b }

  /** One step of the bounding-box scan. */
  function Extend(box: BBox, p: Position): BBox
  {
    BBox(Min(box.minLng, p.lng), Min(box.minLat, p.lat), Max(box.maxLng, p.lng), Max(box.maxLat, p.lat))
  }

  /** The bounds after scanning `ring` from its first vertex to its last. */
  function Bounds(ring: seq<Position>): BBox
  {
    if ring == [] then Sentinel else Extend(Bounds(ring[..|ring| - 1]), ring[|ring| - 1])
  }

  predicate Encloses(box: BBox, p: Position)
  {
    box.minLng <= p.lng <= box.maxLng && box.minLat <= p.lat <= box.maxLat
  }

  /** The scan of lines 11-17: running minima and maxima over the outer ring. */
  method RingBounds(ring: seq<Position>) returns (box: BBox)
    ensures box == Bounds(ring)
    ensures forall k :: 0 <= k < |ring| ==> Encloses(box, ring[k])
  {
    var minLng, minLat, maxLng, maxLat := 180.0, 90.0, -180.0, -90.0;
    for i := 0 to |ring|
      invariant BBox(minLng, minLat, maxLng, maxLat) == Bounds(ring[..i])
    {
      assert ring[..i + 1][..i] == ring[..i];
      minLng := Min(minLng, ring[i].lng);
      minLat := Min(minLat, ring[i].lat);
      maxLng := Max(maxLng, ring[i].lng);
      maxLat := Max(maxLat, ring[i].lat);
    }
    box := BBox(minLng, minLat, maxLng, maxLat);
    assert ring[..|ring|] == ring;
    BoundsEnclose(ring);
  }

  /** Every vertex of the ring lies inside its bounding box. */
  lemma {:induction false} BoundsEnclose(ring: seq<Position>)
    ensures forall k :: 0 <= k < |ring| ==> Encloses(Bounds(ring), ring[k])
  {
    if ring != [] {
      var init := ring[..|ring| - 1];
      BoundsEnclose(init);
      forall k | 0 <= k < |ring| - 1 ensures Encloses(Bounds(ring), ring[k]) {
        assert ring[k] == init[k];
      }
    }
  }

  /** A coordinate within the WGS 84 ranges the sentinel assumes. */
  predicate InRange(p: Position)
  {
    -180.0 <= p.lng <= 180.0 && -90.0 <= p.lat <= 90.0
  }

  /** For a non-empty ring of in-range vertices, each bound is some vertex's coordinate. */
  lemma {:induction false} BoundsAttained(ring: seq<Position>)
    requires ring != []
    requires forall k :: 0 <= k < |ring| ==> InRange(ring[k])
    ensures exists k :: 0 <= k < |ring| && ring[k].lng == Bounds(ring).minLng
    ensures exists k :: 0 <= k < |ring| && ring[k].lat == Bounds(ring).minLat
    ensures exists k :: 0 <= k < |ring| && ring[k].lng == Bounds(ring).maxLng
    ensures exists k :: 0 <= k < |ring| && ring[k].lat == Bounds(ring).maxLat
  {
    var last := |ring| - 1;
    var init := ring[..last];
    if init == [] {
      assert Bounds(ring) == Extend(Sentinel, ring[last]);
    } else {
      BoundsAttained(init);
      var b := Bounds(init);
      var a1 :| 0 <= a1 < |init| && init[a1].lng == b.minLng;
      var a2 :| 0 <= a2 < |init| && init[a2].lat == b.minLat;
      var a3 :| 0 <= a3 < |init| && init[a3].lng == b.maxLng;
      var a4 :| 0 <= a4 < |init| && init[a4].lat == b.maxLat;
      assert ring[a1] == init[a1] && ring[a2] == init[a2] && ring[a3] == init[a3] && ring[a4] == init[a4];
      assert Bounds(ring) == Extend(b, ring[last]);
    }
  }

  /** An empty ring leaves the sentinel, whose minima exceed its maxima. */
  lemma EmptyRingKeepsSentinel()
    ensures Bounds([]) == Sentinel
    ensures Bounds([]).minLng > Bounds([]).maxLng && Bounds([]).minLat > Bounds([]).maxLat
  {
  }

  /** h3-js takes `[lat, lng]` pairs. */
  function ToLatLngs(ring: seq<Position>): seq<LatLng>
  {
    seq(|ring|, i requires 0 <= i < |ring| => LatLng(ring[i].lat, ring[i].lng))
  }

  /** `feature.properties || {}`. */
  function PropsOf(feature: Feature): Properties
  {
    if feature.properties.Some? then feature.properties.value else NoProperties
  }

  /** The district built from one feature whose outer ring is `coordinates[0]`:
      each supplied property passes through, each missing one takes its
      default; the box is the scan of the ring and the centroid its midpoint. */
  function FeatureToGeofence(feature: Feature, freshId: string, grid: HexGrid): (g: Geofence)
    requires feature.coordinates != []
    ensures Truthy(PropsOf(feature).id) ==> g.id == PropsOf(feature).id.value
    ensures !Truthy(PropsOf(feature).id) ==> g.id == freshId
    ensures Truthy(PropsOf(feature).name) ==> g.name == PropsOf(feature).name.value
    ensures !Truthy(PropsOf(feature).name) ==> g.name == "Unnamed District"
    ensures Truthy(PropsOf(feature).city) ==> g.canonicalPlace == PropsOf(feature).city.value
    ensures !Truthy(PropsOf(feature).city) ==> g.canonicalPlace == "Greater LV"
    ensures PropsOf(feature).aliases.Some? ==> g.aliases == PropsOf(feature).aliases.value
    ensures PropsOf(feature).aliases.None? ==> g.aliases == []
    ensures PropsOf(feature).zipCodes.Some? ==> g.zipCodes == PropsOf(feature).zipCodes.value
    ensures PropsOf(feature).zipCodes.None? ==> g.zipCodes == []
    ensures g.h3Indexes == grid.polygonToCells(ToLatLngs(feature.coordinates[0]), Resolution)
    ensures g.bbox == Some(Bounds(feature.coordinates[0]))
    ensures g.centroid.Some? && 2.0 * g.centroid.value.lat == g.bbox.value.minLat + g.bbox.value.maxLat
                             && 2.0 * g.centroid.value.lng == g.bbox.value.minLng + g.bbox.value.maxLng
    ensures forall k :: 0 <= k < |feature.coordinates[0]| ==> Encloses(g.bbox.value, feature.coordinates[0][k])
    ensures feature.coordinates[0] != [] ==> Encloses(g.bbox.value, Position(g.centroid.value.lng, g.centroid.value.lat))
    ensures g.id != "" || freshId == ""
    ensures g.name != "" && g.canonicalPlace != ""
  {
    var props := PropsOf(feature);
    var ring := feature.coordinates[0];
    var box := Bounds(ring);
    BoundsEnclose(ring);
    Geofence(
      if Truthy(props.id) then props.id.value else freshId,
      if Truthy(props.name) then props.name.value else "Unnamed District",
      if Truthy(props.city) then props.city.value else "Greater LV",
      if props.aliases.Some? then props.aliases.value else [],
      if props.zipCodes.Some? then props.zipCodes.value else [],
      grid.polygonToCells(ToLatLngs(ring), Resolution),
      Some(LatLng((box.minLat + box.maxLat) / 2.0, (box.minLng + box.maxLng) / 2.0)),
      Some(box))
  }

  /** For an outer ring of in-range vertices, each bound of the district's box
      is some vertex's coordinate; for an empty ring it is the inverted sentinel. */
  lemma DistrictBox(feature: Feature, freshId: string, grid: HexGrid)
    requires feature.coordinates != []
    requires forall k :: 0 <= k < |feature.coordinates[0]| ==> InRange(feature.coordinates[0][k])
    ensures var ring := feature.coordinates[0];
            var box := FeatureToGeofence(feature, freshId, grid).bbox.value;
            && (ring == [] ==> box == Sentinel)
            && (ring != [] ==>
                  && (exists k :: 0 <= k < |ring| && ring[k].lng == box.minLng)
                  && (exists k :: 0 <= k < |ring| && ring[k].lat == box.minLat)
                  && (exists k :: 0 <= k < |ring| && ring[k].lng == box.maxLng)
                  && (exists k :: 0 <= k < |ring| && ring[k].lat == box.maxLat))
  {
    if feature.coordinates[0] != [] {
      BoundsAttained(feature.coordinates[0]);
    }
  }

  /** `ingestGeoJSON`: `freshId(i)` is the UUID feature `i` would draw. */
  function IngestGeoJSON(collection: FeatureCollection, freshId: nat -> string, grid: HexGrid): (r: Result<seq<Geofence>>)
    ensures collection.kind != "FeatureCollection" ==> r == Err(InvalidCollection)
    ensures r.Err? <==> collection.kind != "FeatureCollection"
                        || exists i :: 0 <= i < |collection.features| && collection.features[i].coordinates == []
    ensures r.Ok? ==> |r.value| == |collection.features|
    ensures r.Ok? ==> forall i :: 0 <= i < |r.value| ==>
      collection.features[i].coordinates != [] && r.value[i] == FeatureToGeofence(collection.features[i], freshId(i), grid)
  {
    if collection.kind != "FeatureCollection" then Err(InvalidCollection)
    else if exists i :: 0 <= i < |collection.features| && collection.features[i].coordinates == [] then Err(MissingRing)
    else Ok(seq(|collection.features|, i requires 0 <= i < |collection.features| =>
              FeatureToGeofence(collection.features[i], freshId(i), grid)))
  }
}
