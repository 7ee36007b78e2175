/** The records the worker exchanges, with the fields its code reads. */
module Types {
  import opened Common

  /** An H3 cell identifier (a string in h3-js). */
  type Cell = string

  /** The single grid resolution every producer and consumer of cells uses. */
  const Resolution: nat := 9

  /** Grid hops of the proximity query in `listEvents`. */
  const NearbySteps: nat := 2

  /** The h3-js functions the worker calls; they are a foreign library, so the
      model takes them as given functions. */
  datatype HexGrid = HexGrid(
    latLngToCell: (real, real, nat) -> Cell,
    gridDisk: (Cell, nat) -> seq<Cell>,
    polygonToCells: (seq<LatLng>, nat) -> seq<Cell>)

  /** The date functions the worker calls: `utcDay(s)` is the `YYYY-MM-DD`
      part of `new Date(s).toISOString()`, `None` where that throws on an
      invalid date; `time(s)` is `new Date(s).getTime()`; `localDate(t)` is
      `new Date(t).toLocaleDateString()`. */
  datatype Calendar = Calendar(
    utcDay: string -> Option<string>,
    time: string -> int,
    localDate: int -> string)

  /** A GeoJSON position, `[lng, lat]`. */
  datatype Position = Position(lng: real, lat: real)

  datatype LatLng = LatLng(lat: real, lng: real)

  /** `[minLng, minLat, maxLng, maxLat]`. */
  datatype BBox = BBox(minLng: real, minLat: real, maxLng: real, maxLat: real)

  /** A named district; `h3Indexes` is `[]` when the record carries no cells. */
  datatype Geofence = Geofence(
    id: string,
    name: string,
    canonicalPlace: string,
    aliases: seq<string>,
    zipCodes: seq<string>,
    h3Indexes: seq<Cell>,
    centroid: Option<LatLng>,
    bbox: Option<BBox>)

  /** A point venue; an empty `h3Index` is JavaScript-falsy and is not indexed. */
  datatype Landmark = Landmark(
    id: string,
    name: string,
    category: string,
    address: string,
    lat: real,
    lng: real,
    h3Index: Cell,
    associatedGeofenceId: Option<string>)

  datatype HubEvent = HubEvent(
    id: string,
    title: string,
    venue: string,
    location: string,
    neighborhood: Option<string>,
    neighborhoodId: Option<string>,
    landmarkId: Option<string>,
    h3Index: Option<Cell>,
    zipCode: Option<string>,
    eventDate: string,
    category: string,
    summary: string,
    sourceUrl: string,
    createdAt: string)

  datatype SessionInfo = SessionInfo(id: string, title: string, createdAt: int, lastActive: int)

  /** The optional predicates of `listEvents`; a call without a filter object
      is the value with every field `None`. */
  datatype EventFilters = EventFilters(
    category: Option<string>,
    location: Option<string>,
    neighborhoodId: Option<string>,
    neighborhood: Option<string>,
    landmarkId: Option<string>,
    lat: Option<real>,
    lng: Option<real>,
    searchQuery: Option<string>)

  const NoFilters := EventFilters(None, None, None, None, None, None, None, None)
}
