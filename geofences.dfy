/** Text-to-district resolution over the regional table, the per-city
    listing, and the ZIP-code extractor (worker/geofences.ts). */
module Geofences {
  import opened Common
  import opened Arrays
  import opened Text
  import opened Types

  /** The regional district table of worker/geofences.ts, in its order. */
  const RegionalGeofences: seq<Geofence> := [
      Geofence("at-cc", "Center City", "Allentown", ["Downtown Allentown", "Hamilton District", "7th Street"], ["18101", "18102"], [], None, None),
      Geofence("at-we", "West End", "Allentown", ["West End Theatre District", "19th Street", "Muhlenberg area"], ["18104"], [], None, None),
      Geofence("at-ss", "South Side", "Allentown", ["South Allentown", "Lehigh Street corridor"], ["18103"], [], None, None),
      Geofence("at-es", "East Side", "Allentown", ["East Allentown", "Hanover Ave"], ["18109"], [], None, None),
      Geofence("bt-ns", "North Side", "Bethlehem", ["Historic District", "Main Street Bethlehem", "Moravian"], ["18018"], [], None, None),
      Geofence("bt-ss", "South Side", "Bethlehem", ["SteelStacks", "Lehigh University", "3rd Street", "4th Street"], ["18015"], [], None, None),
      Geofence("bt-ws", "West Side", "Bethlehem", ["West Bethlehem"], ["18017"], [], None, None),
      Geofence("et-dt", "Downtown", "Easton", ["Centre Square", "Easton Circle", "Riverside"], ["18042"], [], None, None),
      Geofence("et-ch", "College Hill", "Easton", ["Lafayette College area"], ["18042"], [], None, None),
      Geofence("et-ww", "West Ward", "Easton", ["Easton West Ward"], ["18042"], [], None, None)
    ]

  /** Some alias of `f`, lower-cased, occurs in the lower-cased text. */
  predicate AliasMatches(lowerText: string, f: Geofence)
  {
    exists k :: 0 <= k < |f.aliases| && Contains(lowerText, ToLower(f.aliases[k]))
  }

  /** The district's lower-cased name, or else one of its aliases, occurs in the lower-cased text. */
  predicate FenceMatches(lowerText: string, f: Geofence)
  {
    Contains(lowerText, ToLower(f.name)) || AliasMatches(lowerText, f)
  }

  function MatchesText(lowerText: string): Geofence -> bool
  {
    f => FenceMatches(lowerText, f)
  }

  /** `resolveNeighborhood` over a given table: the first district, in table
      order, whose name or any alias the text mentions. Checking the name
      before the aliases inside one district does not change which district
      is returned. */
  function ResolveNeighborhoodIn(text: string, table: seq<Geofence>): (r: Option<Geofence>)
    ensures r.Some? ==> exists k :: 0 <= k < |table| && r == Some(table[k])
                          && FenceMatches(ToLower(text), table[k])
                          && forall j :: 0 <= j < k ==> !FenceMatches(ToLower(text), table[j])
    ensures r.None? <==> forall k :: 0 <= k < |table| ==> !FenceMatches(ToLower(text), table[k])
  {
    match FirstIndex(table, MatchesText(ToLower(text)))
    case Some(k) => Some(table[k])
    case None => None
  }

  /** `resolveNeighborhood`, over the regional table. */
  function ResolveNeighborhood(text: string): Option<Geofence>
  {
    ResolveNeighborhoodIn(text, RegionalGeofences)
  }

  /** When the text mentions district `i`, the result is district `i` or an earlier one. */
  lemma {:induction false} ResolvesAtOrBefore(text: string, table: seq<Geofence>, i: nat)
    requires i < |table| && FenceMatches(ToLower(text), table[i])
    ensures exists k :: 0 <= k <= i && ResolveNeighborhoodIn(text, table) == Some(table[k])
  {
    var p := MatchesText(ToLower(text));
    assert p(table[i]);
    var k := FirstIndex(table, p).value;
  }

  /** Changing the letter case of the text does not change the district. */
  lemma ResolveIgnoresCase(text: string, table: seq<Geofence>)
    ensures ResolveNeighborhoodIn(ToUpper(text), table) == ResolveNeighborhoodIn(text, table)
    ensures ResolveNeighborhoodIn(ToLower(text), table) == ResolveNeighborhoodIn(text, table)
  {
    LowerOfUpper(text);
    ToLowerIdempotent(text);
  }

  /** Allentown's South Side comes before Bethlehem's in the table, so text
      mentioning "south side" never resolves to Bethlehem's. */
  lemma SouthSideNeverBethlehem(text: string)
    requires Contains(ToLower(text), "south side")
    ensures ResolveNeighborhood(text).Some?
    ensures ResolveNeighborhood(text).value.id in ["at-cc", "at-we", "at-ss"]
    ensures ResolveNeighborhood(text).value.id != "bt-ss"
  {
    assert RegionalGeofences[2].name == "South Side";
    assert ToLower("South Side") == "south side";
    assert FenceMatches(ToLower(text), RegionalGeofences[2]);
    ResolvesAtOrBefore(text, RegionalGeofences, 2);
  }

  /** `getGeofencesForCity`: exactly the table's districts of that city, in table order. */
  /** The test `getGeofencesForCity` filters by. */
  function OfCity(city: string): Geofence -> bool
  {
    (f: Geofence) => f.canonicalPlace == city
  }

  /** The table positions of the districts of `city`, in increasing order. */
  function CityPositions(city: string): seq<nat>
  {
    Passing(RegionalGeofences, OfCity(city))
  }

  function GetGeofencesForCity(city: string): (r: seq<Geofence>)
    ensures forall k :: 0 <= k < |r| ==> r[k] in RegionalGeofences && r[k].canonicalPlace == city
    ensures forall k :: 0 <= k < |RegionalGeofences| && RegionalGeofences[k].canonicalPlace == city ==>
                          RegionalGeofences[k] in r
  {
    Filter(RegionalGeofences, OfCity(city))
  }

  /** The districts of a city come in table order, each as often as the table
      lists it: the result reads the table at the increasing positions
      `CityPositions(city)`, which hold every district of that city. */
  lemma CityDistrictsInTableOrder(city: string)
    ensures |GetGeofencesForCity(city)| == |CityPositions(city)|
    ensures forall j :: 0 <= j < |CityPositions(city)| ==>
              CityPositions(city)[j] < |RegionalGeofences|
              && GetGeofencesForCity(city)[j] == RegionalGeofences[CityPositions(city)[j]]
    ensures forall j, k :: 0 <= j < k < |CityPositions(city)| ==> CityPositions(city)[j] < CityPositions(city)[k]
    ensures forall i :: 0 <= i < |RegionalGeofences| && RegionalGeofences[i].canonicalPlace == city ==>
              i in CityPositions(city)
  {
    FilterKeepsOrder(RegionalGeofences, OfCity(city));
    forall i | 0 <= i < |RegionalGeofences| && RegionalGeofences[i].canonicalPlace == city
      ensures i in CityPositions(city)
    {
      assert OfCity(city)(RegionalGeofences[i]);
    }
  }

  /** `/\b\d{5}\b/` matches at `i`: five digits, with a word boundary on each side. */
  predicate ZipAt(s: string, i: int)
  {
    && 0 <= i && i + 5 <= |s|
    && (forall k :: i <= k < i + 5 ==> IsDigit(s[k]))
    && (i == 0 || !IsWordChar(s[i - 1]))
    && (i + 5 == |s| || !IsWordChar(s[i + 5]))
  }

  /** The leftmost match at or after `from`. */
  function FirstZipFrom(s: string, from: nat): (r: Option<nat>)
    requires from <= |s|
    decreases |s| - from
    ensures r.Some? ==> from <= r.value && ZipAt(s, r.value)
                        && forall j :: from <= j < r.value ==> !ZipAt(s, j)
    ensures r.None? <==> forall j :: from <= j <= |s| ==> !ZipAt(s, j)
  {
    if from + 5 > |s| then None
    else if ZipAt(s, from) then Some(from)
    else FirstZipFrom(s, from + 1)
  }

  /** `extractZipCode`: the first five-digit run delimited by word boundaries. */
  function ExtractZipCode(text: string): (r: Option<string>)
    ensures r.Some? ==> |r.value| == 5 && forall k :: 0 <= k < 5 ==> IsDigit(r.value[k])
    ensures r.Some? ==> exists i :: ZipAt(text, i) && r.value == text[i..i + 5]
                                    && forall j :: 0 <= j < i ==> !ZipAt(text, j)
    ensures r.None? <==> forall i :: 0 <= i <= |text| ==> !ZipAt(text, i)
  {
    match FirstZipFrom(text, 0)
    case Some(i) => Some(text[i..i + 5])
    case None => None
  }

  /** A six-digit run has no word boundary after its first five digits. */
  lemma SixDigitsAreNoZip()
    ensures ExtractZipCode("123456") == None
  {
    var s := "123456";
    forall i | 0 <= i <= |s| ensures !ZipAt(s, i) {
      if i == 0 {
        assert IsWordChar(s[5]);
      } else if i == 1 {
        assert IsWordChar(s[0]);
      }
    }
  }

  lemma AddressZip()
    ensures ExtractZipCode("Allentown, PA 18101") == Some("18101")
  {
    var s := "Allentown, PA 18101";
    assert ZipAt(s, 14);
    forall j | 0 <= j < 14 ensures !ZipAt(s, j) {
      assert !IsDigit(s[j]);
    }
    var v := FirstZipFrom(s, 0).value;
    assert v == 14;
    assert s[14..19] == "18101";
  }
}
