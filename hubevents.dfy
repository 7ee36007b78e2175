/** The event side of the hub store: the deduplication key of `upsertEvent`
    and the optional filters of `listEvents` (worker/app-controller.ts). */
module EventStore {
  import opened Common
  import opened Types
  import opened Arrays
  import opened Text
  import opened OrderedMaps

  /** The characters `replace(/[^\w\s]/gi, '')` keeps. */
  predicate KeptChar(c: char)
  {
    IsWordChar(c) || IsSpace(c)
  }

  lemma HeadTail(word: string, tail: string)
    requires word != []
    ensures [word[0]] + (word[1..] + tail) == word + tail
  {
    assert word == [word[0]] + word[1..];
  }

  /** The characters a normalised title is made of: `[a-z0-9_]`. */
  predicate IsKeyChar(c: char)
  {
    ('a' <= c <= 'z') || IsDigit(c) || c == '_'
  }

  /** A kept character after lower-casing. */
  predicate LowerKept(c: char)
  {
    (IsWordChar(c) && !IsUpper(c)) || IsSpace(c)
  }

  /** `replace(/\s+/g, '_')`: every maximal run of white space becomes one `_`. */
  function UnderscoreSpaces(s: string): (r: string)
    decreases |s|
    ensures (forall i :: 0 <= i < |s| ==> LowerKept(s[i])) ==> forall i :: 0 <= i < |r| ==> IsKeyChar(r[i])
    ensures NoSpace(s) ==> r == s
  {
    if s == [] then ""
    else if IsSpace(s[0]) then "_" + UnderscoreSpaces(TrimStart(s))
    else [s[0]] + UnderscoreSpaces(s[1..])
  }

  /** A word of white-space-free text passes through unchanged, and a run of
      white space collapses to one `_`. */
  lemma {:induction false} UnderscoreWord(word: string, rest: string)
    requires NoSpace(word)
    ensures UnderscoreSpaces(word + rest) == word + UnderscoreSpaces(rest)
  {
    if word == [] {
      assert word + rest == rest;
    } else {
      var s := word + rest;
      assert s[0] == word[0] && !IsSpace(s[0]);
      assert s[1..] == word[1..] + rest;
      assert NoSpace(word[1..]) by {
        forall i | 0 <= i < |word[1..]| ensures !IsSpace(word[1..][i]) {
          assert word[1..][i] == word[i + 1];
        }
      }
      UnderscoreWord(word[1..], rest);
      calc {
        UnderscoreSpaces(s);
        [word[0]] + UnderscoreSpaces(s[1..]);
        [word[0]] + (word[1..] + UnderscoreSpaces(rest));
        { HeadTail(word, UnderscoreSpaces(rest)); }
        word + UnderscoreSpaces(rest);
      }
    }
  }


  /** Trimming keeps a subrange, so it adds no upper-case letter. */
  lemma TrimNoUpper(s: string)
    requires forall i :: 0 <= i < |s| ==> !IsUpper(s[i])
    ensures forall i :: 0 <= i < |Trim(s)| ==> !IsUpper(Trim(s)[i])
  {
    var front := TrimStart(s);
    assert forall i :: 0 <= i < |front| ==> front[i] == s[|s| - |front| + i];
    var both := TrimEnd(front);
    assert forall i :: 0 <= i < |both| ==> both[i] == front[i];
  }

  /** What survives the punctuation filter of a lower-cased, trimmed title is
      lower-case word characters and white space. */
  lemma KeptLowerKept(title: string)
    ensures forall j :: 0 <= j < |Filter(Trim(ToLower(title)), KeptChar)| ==>
      LowerKept(Filter(Trim(ToLower(title)), KeptChar)[j])
  {
    ToLowerHasNoUpper(title);
    var trimmed := Trim(ToLower(title));
    TrimNoUpper(ToLower(title));
    var kept := Filter(trimmed, KeptChar);
    forall j | 0 <= j < |kept| ensures LowerKept(kept[j]) {
      assert kept[j] in trimmed;
      var m :| 0 <= m < |trimmed| && trimmed[m] == kept[j];
    }
  }

  /** `title.toLowerCase().trim().replace(/[^\w\s]/gi, '').replace(/\s+/g, '_')`. */
  function NormalizeTitle(title: string): (r: string)
    ensures forall i :: 0 <= i < |r| ==> IsKeyChar(r[i])
  {
    KeptLowerKept(title);
    UnderscoreSpaces(Filter(Trim(ToLower(title)), KeptChar))
  }

  /** Text made of key characters only is left unchanged by `toLowerCase`. */
  lemma ToLowerOfKeyChars(s: string)
    requires forall i :: 0 <= i < |s| ==> IsKeyChar(s[i])
    ensures ToLower(s) == s
  {
  }

  /** Normalising twice is normalising once. */
  lemma NormalizeTitleIdempotent(title: string)
    ensures NormalizeTitle(NormalizeTitle(title)) == NormalizeTitle(title)
  {
    var n := NormalizeTitle(title);
    ToLowerOfKeyChars(n);
    assert NoSpace(n) by {
      forall i | 0 <= i < |n| ensures !IsSpace(n[i]) {
        assert IsKeyChar(n[i]);
      }
    }
    assert TrimStart(n) == n;
    assert TrimEnd(n) == n;
    FilterAll(n, KeptChar);
  }

  /** `${normalizedTitle}_${dateStr}`. */
  function DedupKey(title: string, day: string): string
  {
    NormalizeTitle(title) + "_" + day
  }

  /** For days of one length (`YYYY-MM-DD`), two events share a key exactly when
      their titles normalise alike and they fall on the same day. */
  lemma DedupKeySameDay(title1: string, day1: string, title2: string, day2: string)
    requires |day1| == |day2|
    ensures DedupKey(title1, day1) == DedupKey(title2, day2) <==>
      NormalizeTitle(title1) == NormalizeTitle(title2) && day1 == day2
  {
    JoinSameLength(NormalizeTitle(title1), day1, NormalizeTitle(title2), day2);
  }

  lemma JoinSameLength(n1: string, d1: string, n2: string, d2: string)
    requires |d1| == |d2|
    ensures n1 + "_" + d1 == n2 + "_" + d2 <==> n1 == n2 && d1 == d2
  {
    if n1 + "_" + d1 == n2 + "_" + d2 {
      var k := n1 + "_" + d1;
      assert |n1| == |n2|;
      assert n1 == k[..|n1|] && n2 == k[..|n2|];
      assert d1 == k[|n1| + 1..] && d2 == k[|n2| + 1..];
    }
  }

  /** A word of a normalised title: non-empty, made of `[a-z0-9_]`. */
  predicate IsKeyWord(s: string)
  {
    s != [] && forall i :: 0 <= i < |s| ==> IsKeyChar(s[i])
  }

  /** Text the punctuation filter removes entirely. */
  predicate AllDropped(s: string)
  {
    forall i :: 0 <= i < |s| ==> !KeptChar(s[i])
  }

  /** Two words with trailing punctuation: letter case and the punctuation
      vanish, the space becomes `_`; a space in front of the punctuation
      (`spaced`) is trimmed only after the punctuation is gone, so it survives
      as a final `_`. */
  lemma NormalizeTwoWords(first: string, second: string, spaced: bool, tail: string)
    requires IsKeyWord(ToLower(first)) && IsKeyWord(ToLower(second)) && AllDropped(tail)
    requires spaced ==> tail != []
    ensures NormalizeTitle(first + " " + second + (if spaced then " " else "") + tail)
         == ToLower(first) + "_" + ToLower(second) + (if spaced then "_" else "")
  {
    var a, b := ToLower(first), ToLower(second);
    var gap: string := if spaced then " " else "";
    TwoWordsLower(first, second, gap, tail);
    TwoWordsTrim(a, b, gap, tail);
    TwoWordsFilter(a, b, gap, tail);
    TwoWordsUnderscore(a, b, gap);
  }

  // The four stages of `NormalizeTwoWords`.

  lemma TwoWordsLower(first: string, second: string, gap: string, tail: string)
    requires gap == "" || gap == " "
    requires AllDropped(tail)
    ensures ToLower(first + " " + second + gap + tail) == ToLower(first) + " " + ToLower(second) + gap + tail
  {
    ToLowerAppend(first + " " + second + gap, tail);
    ToLowerAppend(first + " " + second, gap);
    ToLowerAppend(first + " ", second);
    ToLowerAppend(first, " ");
    assert ToLower(" ") == " " && ToLower(gap) == gap;
    assert ToLower(tail) == tail;
  }

  lemma TwoWordsTrim(a: string, b: string, gap: string, tail: string)
    requires IsKeyWord(a) && IsKeyWord(b) && AllDropped(tail)
    requires gap == "" || (gap == " " && tail != [])
    ensures Trim(a + " " + b + gap + tail) == a + " " + b + gap + tail
  {
    var s := a + " " + b + gap + tail;
    assert s[0] == a[0];
    assert s[|s| - 1] == (if tail != [] then tail[|tail| - 1] else b[|b| - 1]);
    assert TrimStart(s) == s;
    assert TrimEnd(s) == s;
  }

  lemma TwoWordsFilter(a: string, b: string, gap: string, tail: string)
    requires IsKeyWord(a) && IsKeyWord(b) && AllDropped(tail)
    requires gap == "" || gap == " "
    ensures Filter(a + " " + b + gap + tail, KeptChar) == a + " " + b + gap
  {
    FilterAppend(a + " " + b + gap, tail, KeptChar);
    FilterAppend(a + " " + b, gap, KeptChar);
    FilterAppend(a + " ", b, KeptChar);
    FilterAppend(a, " ", KeptChar);
    FilterAll(a, KeptChar);
    FilterAll(b, KeptChar);
    FilterAll(gap, KeptChar);
    assert Filter(" ", KeptChar) == " ";
    FilterNone(tail, KeptChar);
  }

  lemma TwoWordsUnderscore(a: string, b: string, gap: string)
    requires IsKeyWord(a) && IsKeyWord(b)
    requires gap == "" || gap == " "
    ensures UnderscoreSpaces(a + " " + b + gap) == a + "_" + b + (if gap == " " then "_" else "")
  {
    var mark: string := if gap == " " then "_" else "";
    var rest := " " + (b + gap);
    assert NoSpace(a);
    assert a + " " + b + gap == a + rest;
    UnderscoreWord(a, rest);
    SpaceThenWord(b, gap);
    Regroup(a, "_", b, mark);
  }

  lemma Regroup(w: string, x: string, y: string, z: string)
    ensures w + (x + (y + z)) == w + x + y + z
  {
  }

  lemma SpaceThenWord(b: string, gap: string)
    requires IsKeyWord(b)
    requires gap == "" || gap == " "
    ensures UnderscoreSpaces(" " + (b + gap)) == "_" + (b + (if gap == " " then "_" else ""))
  {
    var rest := " " + (b + gap);
    assert NoSpace(b);
    assert rest[0] == ' ' && rest[1..] == b + gap && (b + gap)[0] == b[0];
    assert TrimStart(rest) == TrimStart(rest[1..]);
    assert TrimStart(b + gap) == b + gap;
    UnderscoreWord(b, gap);
    assert UnderscoreSpaces(gap) == (if gap == " " then "_" else "");
  }

  /** `toLowerCase` works character by character. */
  lemma ToLowerAppend(s: string, t: string)
    ensures ToLower(s + t) == ToLower(s) + ToLower(t)
  {
  }

  /** Punctuation and case do not split a story: "Festival Kickoff!!" and
      "festival kickoff" normalise to the same title. */
  lemma FestivalKickoffCollapses()
    ensures NormalizeTitle("Festival Kickoff!!") == "festival_kickoff"
    ensures NormalizeTitle("festival kickoff") == "festival_kickoff"
  {
    KickoffWords();
    NormalizeTwoWords("Festival", "Kickoff", false, "!!");
    NormalizeTwoWords("festival", "kickoff", false, "");
  }

  /** ... while "Festival Kickoff !!" keeps a trailing `_` and gets a key of its own. */
  lemma SpaceBeforePunctuationKeepsUnderscore()
    ensures NormalizeTitle("Festival Kickoff !!") == "festival_kickoff_"
  {
    KickoffWords();
    NormalizeTwoWords("Festival", "Kickoff", true, "!!");
  }

  /** The literals of the two examples above. */
  lemma KickoffWords()
    ensures ToLower("Festival") == "festival" && ToLower("Kickoff") == "kickoff"
    ensures ToLower("festival") == "festival" && ToLower("kickoff") == "kickoff"
    ensures IsKeyWord("festival") && IsKeyWord("kickoff") && AllDropped("!!") && AllDropped("")
    ensures "Festival" + " " + "Kickoff" + "" + "!!" == "Festival Kickoff!!"
    ensures "Festival" + " " + "Kickoff" + " " + "!!" == "Festival Kickoff !!"
    ensures "festival" + " " + "kickoff" + "" + "" == "festival kickoff"
    ensures "festival" + "_" + "kickoff" + "" == "festival_kickoff"
    ensures "festival" + "_" + "kickoff" + "_" == "festival_kickoff_"
  {
    KickoffLower();
    KickoffKeyWords();
    KickoffJoins();
  }

  lemma KickoffLower()
    ensures ToLower("Festival") == "festival" && ToLower("Kickoff") == "kickoff"
    ensures ToLower("festival") == "festival" && ToLower("kickoff") == "kickoff"
  {
  }

  lemma KickoffKeyWords()
    ensures IsKeyWord("festival") && IsKeyWord("kickoff") && AllDropped("!!") && AllDropped("")
  {
  }

  lemma KickoffJoins()
    ensures "Festival" + " " + "Kickoff" + "" + "!!" == "Festival Kickoff!!"
    ensures "Festival" + " " + "Kickoff" + " " + "!!" == "Festival Kickoff !!"
    ensures "festival" + " " + "kickoff" + "" + "" == "festival kickoff"
    ensures "festival" + "_" + "kickoff" + "" == "festival_kickoff"
    ensures "festival" + "_" + "kickoff" + "_" == "festival_kickoff_"
  {
  }

  /** `{ ...event, id: event.id || crypto.randomUUID() }`. */
  function WithId(event: HubEvent, freshId: string): HubEvent
  {
    event.(id := if event.id != "" then event.id else freshId)
  }

  /** `events.set(dedupKey, …)` for an event whose UTC day is `day`. */
  function StoreEvent(events: OrderedMap<HubEvent>, event: HubEvent, freshId: string, day: string): (r: OrderedMap<HubEvent>)
    requires events.Valid()
    ensures r.Valid()
    ensures DedupKey(event.title, day) in r.entries
    ensures r.entries[DedupKey(event.title, day)].id == (if event.id != "" then event.id else freshId)
    ensures r.entries[DedupKey(event.title, day)].(id := event.id) == event
    ensures forall k :: k != DedupKey(event.title, day) ==>
      (k in r.entries <==> k in events.entries) && (k in events.entries ==> r.entries[k] == events.entries[k])
    ensures |events.entries| <= |r.entries| <= |events.entries| + 1
  {
    var r := events.Put(DedupKey(event.title, day), WithId(event, freshId));
    assert r.Size() == |r.entries|;
    r
  }

  /** Upserting the same event again, with a non-empty id, leaves the store as it was. */
  lemma StoreEventIdempotent(events: OrderedMap<HubEvent>, event: HubEvent, freshId1: string, freshId2: string, day: string)
    requires events.Valid() && event.id != ""
    ensures StoreEvent(StoreEvent(events, event, freshId1, day), event, freshId2, day) == StoreEvent(events, event, freshId1, day)
  {
    var once := StoreEvent(events, event, freshId1, day);
    PutSame(once, DedupKey(event.title, day));
  }

  /** A second event whose title normalises like the first, on the same day,
      replaces the first record instead of adding one. */
  lemma SameTitleReplaces(events: OrderedMap<HubEvent>, first: HubEvent, second: HubEvent, id1: string, id2: string, day: string)
    requires events.Valid()
    requires NormalizeTitle(first.title) == NormalizeTitle(second.title)
    ensures var once := StoreEvent(events, first, id1, day);
            var twice := StoreEvent(once, second, id2, day);
            twice.keys == once.keys && twice.entries[DedupKey(first.title, day)] == WithId(second, id2)
  {
    var once := StoreEvent(events, first, id1, day);
    assert DedupKey(first.title, day) == DedupKey(second.title, day);
    assert DedupKey(first.title, day) in once.keys;
  }

  predicate CategoryOk(f: EventFilters, e: HubEvent)
  {
    !Truthy(f.category) || e.category == f.category.value
  }

  predicate LocationOk(f: EventFilters, e: HubEvent)
  {
    !Truthy(f.location) || e.location == f.location.value
  }

  predicate NeighborhoodIdOk(f: EventFilters, e: HubEvent)
  {
    !Truthy(f.neighborhoodId) || e.neighborhoodId == f.neighborhoodId
  }

  predicate NeighborhoodOk(f: EventFilters, e: HubEvent)
  {
    !Truthy(f.neighborhood) || e.neighborhood == f.neighborhood
  }

  predicate LandmarkIdOk(f: EventFilters, e: HubEvent)
  {
    !Truthy(f.landmarkId) || e.landmarkId == f.landmarkId
  }

  /** `e.h3Index && nearbyCells.has(e.h3Index)`. */
  predicate InCells(e: HubEvent, cells: seq<Cell>)
  {
    Truthy(e.h3Index) && e.h3Index.value in cells
  }

  /** The cells within two grid steps of the point's cell. */
  function NearbyCells(grid: HexGrid, lat: real, lng: real): seq<Cell>
  {
    grid.gridDisk(grid.latLngToCell(lat, lng, Resolution), NearbySteps)
  }

  predicate NearOk(f: EventFilters, grid: HexGrid, e: HubEvent)
  {
    f.lat.None? || f.lng.None? || InCells(e, NearbyCells(grid, f.lat.value, f.lng.value))
  }

  /** The lower-cased title, summary or venue contains the (lower-cased) query. */
  predicate Mentions(e: HubEvent, query: string)
  {
    Contains(ToLower(e.title), query) || Contains(ToLower(e.summary), query) || Contains(ToLower(e.venue), query)
  }

  predicate SearchOk(f: EventFilters, e: HubEvent)
  {
    !Truthy(f.searchQuery) || Mentions(e, ToLower(f.searchQuery.value))
  }

  /** The first `stage` filters of the chain, in the order the code applies them. */
  predicate PassesUpTo(f: EventFilters, grid: HexGrid, stage: nat, e: HubEvent)
  {
    && (stage >= 1 ==> CategoryOk(f, e))
    && (stage >= 2 ==> LocationOk(f, e))
    && (stage >= 3 ==> NeighborhoodIdOk(f, e))
    && (stage >= 4 ==> NeighborhoodOk(f, e))
    && (stage >= 5 ==> LandmarkIdOk(f, e))
    && (stage >= 6 ==> NearOk(f, grid, e))
    && (stage >= 7 ==> SearchOk(f, e))
  }

  const AllStages: nat := 7

  /** An event satisfies every filter that is supplied. */
  predicate Matches(f: EventFilters, grid: HexGrid, e: HubEvent)
  {
    PassesUpTo(f, grid, AllStages, e)
  }

  function Stage(f: EventFilters, grid: HexGrid, stage: nat): HubEvent -> bool
  {
    e => PassesUpTo(f, grid, stage, e)
  }

  /** The tests of the individual `results.filter(...)` calls. */
  function CategoryIs(v: string): HubEvent -> bool { (e: HubEvent) => e.category == v }

  function LocationIs(v: string): HubEvent -> bool { (e: HubEvent) => e.location == v }

  function NeighborhoodIdIs(v: string): HubEvent -> bool { (e: HubEvent) => e.neighborhoodId == Some(v) }

  function NeighborhoodIs(v: string): HubEvent -> bool { (e: HubEvent) => e.neighborhood == Some(v) }

  function LandmarkIdIs(v: string): HubEvent -> bool { (e: HubEvent) => e.landmarkId == Some(v) }

  function InCellsOf(cells: seq<Cell>): HubEvent -> bool { e => InCells(e, cells) }

  function MentionsOf(query: string): HubEvent -> bool { e => Mentions(e, query) }

  /** The comparator key of the newest-first sort. */
  function TimeKey(calendar: Calendar): HubEvent -> int
  {
    (e: HubEvent) => calendar.time(e.eventDate)
  }

  /** The search filter ignores the letter case of the query. */
  lemma SearchIgnoresQueryCase(f: EventFilters, e: HubEvent, query: string)
    ensures SearchOk(f.(searchQuery := Some(ToUpper(query))), e) == SearchOk(f.(searchQuery := Some(query)), e)
  {
    LowerOfUpper(query);
  }

  /** With no filter supplied every event passes. */
  lemma NoFiltersMatchAll(grid: HexGrid, e: HubEvent)
    ensures Matches(NoFilters, grid, e)
  {
  }
}
