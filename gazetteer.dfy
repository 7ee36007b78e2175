/** Free-text venue resolution against the landmark list, and the landmark's
    district (worker/gazetteer.ts). */
module Gazetteer {
  import opened Common
  import opened Arrays
  import opened Text
  import opened Types

  /** Tier 1: the lower-cased venue includes the lower-cased landmark name, or the reverse. */
  predicate SubstringMatch(lowerVenue: string, l: Landmark)
  {
    var lName := ToLower(l.name);
    Contains(lowerVenue, lName) || Contains(lName, lowerVenue)
  }

  function SubstringTier(lowerVenue: string): Landmark -> bool
  {
    l => SubstringMatch(lowerVenue, l)
  }

  /** Venue tokens that take part in tier 2: longer than three characters. */
  predicate IsLongToken(t: string)
  {
    |t| > 3
  }

  function VenueTokens(lowerVenue: string): seq<string>
  {
    Filter(SplitOnSpace(lowerVenue), IsLongToken)
  }

  function Among(tokens: seq<string>): string -> bool
  {
    t => t in tokens
  }

  /** How many venue tokens (repeats counted) occur among the landmark-name tokens. */
  function Overlap(venueTokens: seq<string>, l: Landmark): nat
  {
    |Filter(venueTokens, Among(SplitOnSpace(ToLower(l.name))))|
  }

  /** Tier 2: at least two venue tokens occur in the landmark name. */
  predicate TokenMatch(venueTokens: seq<string>, l: Landmark)
  {
    Overlap(venueTokens, l) >= 2
  }

  function TokenTier(venueTokens: seq<string>): Landmark -> bool
  {
    l => TokenMatch(venueTokens, l)
  }

  /** `k` is the first position of `ls` whose landmark satisfies `p`. */
  ghost predicate IsFirst(ls: seq<Landmark>, k: int, p: Landmark -> bool)
  {
    0 <= k < |ls| && p(ls[k]) && forall j :: 0 <= j < k ==> !p(ls[j])
  }

  /** `resolveVenueToLandmark`: the first substring match in list order; only
      when there is none, the first token-overlap match; otherwise null. */
  function ResolveVenueToLandmark(venueName: string, landmarks: seq<Landmark>): (r: Option<Landmark>)
    ensures r.Some? ==> r.value in landmarks
    ensures (exists k :: 0 <= k < |landmarks| && SubstringMatch(ToLower(venueName), landmarks[k])) ==>
      exists k :: IsFirst(landmarks, k, SubstringTier(ToLower(venueName))) && r == Some(landmarks[k])
    ensures (forall k :: 0 <= k < |landmarks| ==> !SubstringMatch(ToLower(venueName), landmarks[k])) ==>
      (r.Some? ==> exists k :: IsFirst(landmarks, k, TokenTier(VenueTokens(ToLower(venueName)))) && r == Some(landmarks[k]))
    ensures r.None? <==> forall k :: 0 <= k < |landmarks| ==>
      !SubstringMatch(ToLower(venueName), landmarks[k]) && !TokenMatch(VenueTokens(ToLower(venueName)), landmarks[k])
  {
    var lowerVenue := ToLower(venueName);
    match FirstIndex(landmarks, SubstringTier(lowerVenue))
    case Some(k) => Some(landmarks[k])
    case None =>
      match FirstIndex(landmarks, TokenTier(VenueTokens(lowerVenue)))
      case Some(k) => Some(landmarks[k])
      case None => None
  }

  /** `resolveVenueToCoords`: the `[lat, lng]` of the resolved landmark. */
  function ResolveVenueToCoords(venueName: string, landmarks: seq<Landmark>): (r: Option<LatLng>)
    ensures r.None? <==> ResolveVenueToLandmark(venueName, landmarks).None?
    ensures r.Some? ==> exists l :: l in landmarks && ResolveVenueToLandmark(venueName, landmarks) == Some(l)
                                   && r.value == LatLng(l.lat, l.lng)
  {
    match ResolveVenueToLandmark(venueName, landmarks)
    case Some(l) => Some(LatLng(l.lat, l.lng))
    case None => None
  }

  /** When some landmark matches tier 1, the result is that tier's first match. */
  lemma SubstringTierFirst(venueName: string, landmarks: seq<Landmark>, i: nat)
    requires i < |landmarks| && SubstringMatch(ToLower(venueName), landmarks[i])
    ensures exists k :: 0 <= k <= i && ResolveVenueToLandmark(venueName, landmarks) == Some(landmarks[k])
                        && SubstringMatch(ToLower(venueName), landmarks[k])
  {
    var p := SubstringTier(ToLower(venueName));
    assert p(landmarks[i]);
    var k := FirstIndex(landmarks, p).value;
    assert p(landmarks[k]);
  }

  /** A later landmark that matches by substring beats an earlier one that only shares tokens. */
  lemma SubstringTierWins(venueName: string, landmarks: seq<Landmark>, i: nat, j: nat)
    requires j < i < |landmarks|
    requires TokenMatch(VenueTokens(ToLower(venueName)), landmarks[j])
    requires !SubstringMatch(ToLower(venueName), landmarks[j])
    requires SubstringMatch(ToLower(venueName), landmarks[i])
    ensures ResolveVenueToLandmark(venueName, landmarks).Some?
    ensures SubstringMatch(ToLower(venueName), ResolveVenueToLandmark(venueName, landmarks).value)
  {
    SubstringTierFirst(venueName, landmarks, i);
  }

  /** Every landmark name includes the empty string, so an empty venue resolves
      to the first landmark of a non-empty list. */
  lemma EmptyVenueResolvesToFirst(landmarks: seq<Landmark>)
    requires landmarks != []
    ensures ResolveVenueToLandmark("", landmarks) == Some(landmarks[0])
  {
    assert ToLower("") == "";
    ContainsEmpty(ToLower(landmarks[0].name));
    var p := SubstringTier(ToLower(""));
    assert p(landmarks[0]);
    assert FirstIndex(landmarks, p) == Some(0);
  }

  /** `landmarkToNeighborhood`: the explicitly associated district if an id is
      set (and nothing else, even if it is missing), otherwise the first
      district whose cells include the landmark's cell. */
  function LandmarkToNeighborhood(landmark: Landmark, geofences: seq<Geofence>): (r: Option<Geofence>)
    ensures Truthy(landmark.associatedGeofenceId) ==>
      && (r.Some? ==> r.value in geofences && r.value.id == landmark.associatedGeofenceId.value)
      && (r.Some? ==> exists k :: 0 <= k < |geofences| && r == Some(geofences[k])
                        && geofences[k].id == landmark.associatedGeofenceId.value
                        && forall j :: 0 <= j < k ==> geofences[j].id != landmark.associatedGeofenceId.value)
      && (r.None? <==> forall k :: 0 <= k < |geofences| ==> geofences[k].id != landmark.associatedGeofenceId.value)
    ensures !Truthy(landmark.associatedGeofenceId) ==>
      && (r.Some? ==> exists k :: 0 <= k < |geofences| && r == Some(geofences[k])
                        && landmark.h3Index in geofences[k].h3Indexes
                        && forall j :: 0 <= j < k ==> landmark.h3Index !in geofences[j].h3Indexes)
      && (r.None? <==> forall k :: 0 <= k < |geofences| ==> landmark.h3Index !in geofences[k].h3Indexes)
  {
    if Truthy(landmark.associatedGeofenceId) then
      Find(geofences, (f: Geofence) => f.id == landmark.associatedGeofenceId.value)
    else
      match FirstIndex(geofences, (f: Geofence) => landmark.h3Index in f.h3Indexes)
      case Some(k) => Some(geofences[k])
      case None => None
  }

  /** The preset venue table of worker/gazetteer.ts, used as a fixture; the
      presets carry no cell until they are seeded. */
  const PresetLandmarks: seq<Landmark> := [
      Landmark("ppl-center", "PPL Center", "Entertainment", "701 Hamilton St, Allentown, PA 18101", 40.6023, -75.4714, "", None),
      Landmark("coca-cola-park", "Coca-Cola Park", "Sports", "1050 IronPigs Way, Allentown, PA 18109", 40.6258, -75.4542, "", None),
      Landmark("allentown-art-museum", "Allentown Art Museum", "Culture", "31 N 5th St, Allentown, PA 18101", 40.6033, -75.4703, "", None),
      Landmark("miller-symphony-hall", "Miller Symphony Hall", "Arts", "23 N 6th St, Allentown, PA 18101", 40.6030, -75.4716, "", None),
      Landmark("muhlenberg-college", "Muhlenberg College", "Education", "2400 Chew St, Allentown, PA 18104", 40.5976, -75.5097, "", None),
      Landmark("allentown-fairgrounds", "Allentown Fairgrounds", "Entertainment", "302 N 17th St, Allentown, PA 18104", 40.6019, -75.4925, "", None),
      Landmark("cedar-crest-college", "Cedar Crest College", "Education", "100 College Dr, Allentown, PA 18104", 40.5878, -75.5186, "", None),
      Landmark("allentown-city-hall", "Allentown City Hall", "Government", "435 Hamilton St, Allentown, PA 18101", 40.6025, -75.4682, "", None),
      Landmark("da-vinci-science", "Da Vinci Science Center", "Education", "3145 Hamilton Blvd, Allentown, PA 18103", 40.5794, -75.5268, "", None),
      Landmark("lehigh-valley-zoo", "Lehigh Valley Zoo", "Public", "5150 Game Preserve Rd, Schnecksville, PA 18078", 40.6552, -75.6178, "", None),
      Landmark("steelstacks", "SteelStacks", "Entertainment", "101 Founders Way, Bethlehem, PA 18015", 40.6152, -75.3621, "", None),
      Landmark("wind-creek", "Wind Creek Event Center", "Entertainment", "77 Wind Creek Blvd, Bethlehem, PA 18015", 40.6145, -75.3678, "", None),
      Landmark("lehigh-university", "Lehigh University", "Education", "27 Memorial Dr W, Bethlehem, PA 18015", 40.6083, -75.3742, "", None),
      Landmark("moravian-university", "Moravian University", "Education", "1200 Main St, Bethlehem, PA 18018", 40.6300, -75.3812, "", None),
      Landmark("bethlehem-public-library", "Bethlehem Public Library", "Public", "11 W Church St, Bethlehem, PA 18018", 40.6219, -75.3783, "", None),
      Landmark("artsquest-center", "ArtsQuest Center", "Arts", "101 Founders Way, Bethlehem, PA 18015", 40.6155, -75.3615, "", None),
      Landmark("bethlehem-city-hall", "Bethlehem City Hall", "Government", "10 E Church St, Bethlehem, PA 18018", 40.6225, -75.3775, "", None),
      Landmark("historic-hotel-bethlehem", "Hotel Bethlehem", "Culture", "437 Main St, Bethlehem, PA 18018", 40.6205, -75.3815, "", None),
      Landmark("st-lukes-hospital", "St. Lukes Hospital", "Public", "801 Ostrum St, Bethlehem, PA 18015", 40.6062, -75.3725, "", None),
      Landmark("west-gate-mall", "Westgate Mall", "Retail", "2285 Schoenersville Rd, Bethlehem, PA 18017", 40.6485, -75.3952, "", None),
      Landmark("state-theatre", "State Theatre", "Arts", "453 Northampton St, Easton, PA 18042", 40.6914, -75.2114, "", None),
      Landmark("lafayette-college", "Lafayette College", "Education", "Easton, PA 18042", 40.6978, -75.2104, "", None),
      Landmark("easton-public-market", "Easton Public Market", "Retail", "325 Northampton St, Easton, PA 18042", 40.6912, -75.2102, "", None),
      Landmark("crayola-experience", "Crayola Experience", "Entertainment", "30 Centre Square, Easton, PA 18042", 40.6908, -75.2095, "", None),
      Landmark("sigal-museum", "Sigal Museum", "Culture", "342 Northampton St, Easton, PA 18042", 40.6910, -75.2105, "", None),
      Landmark("easton-city-hall", "Easton City Hall", "Government", "123 S 3rd St, Easton, PA 18042", 40.6895, -75.2110, "", None),
      Landmark("riverside-park", "Riverside Park Easton", "Public", "Easton, PA 18042", 40.6922, -75.2055, "", None),
      Landmark("lv-airport", "Lehigh Valley Airport", "Public", "3311 Airport Rd, Allentown, PA 18109", 40.6521, -75.4405, "", None),
      Landmark("dorney-park", "Dorney Park", "Entertainment", "3830 Dorney Park Rd, Allentown, PA 18104", 40.5815, -75.5348, "", None),
      Landmark("lv-health-network", "LVHN Cedar Crest", "Public", "1200 S Cedar Crest Blvd, Allentown, PA 18103", 40.5695, -75.5135, "", None),
      Landmark("promenade-saucon", "Promenade Saucon Valley", "Retail", "Center Valley, PA 18034", 40.5405, -75.4182, "", None)
    ]

  /** "Live music tonight at the PPL Center Plaza" includes "PPL Center", the
      first preset, so it resolves to it whatever follows in the table. */
  lemma PplCenterExample()
    ensures ResolveVenueToLandmark("Live music tonight at the PPL Center Plaza", PresetLandmarks).Some?
    ensures ResolveVenueToLandmark("Live music tonight at the PPL Center Plaza", PresetLandmarks).value.id == "ppl-center"
  {
    var venue := "Live music tonight at the PPL Center Plaza";
    assert PresetLandmarks[0].name == "PPL Center";
    ContainsAt(venue, "PPL Center", 26);
    ContainsToLower(venue, "PPL Center");
    SubstringTierFirst(venue, PresetLandmarks, 0);
  }
}
