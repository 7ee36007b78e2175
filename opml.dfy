/** The OPML 2.0 export of the feed directory (src/lib/opml.ts): XML
    escaping, grouping the feeds by category, and the document text. */
module Opml {
  import opened Arrays
  import opened Text
  import opened OrderedMaps

  /** An entry of the feed directory. */
  datatype Feed = Feed(id: string, title: string, url: string, description: string, category: string)

  /** The characters that may not appear inside a quoted attribute value. */
  predicate Markup(c: char)
  {
    c == '<' || c == '>' || c == '"' || c == '\''
  }

  /** The entity that replaces one character. */
  function EscapeChar(c: char): string
  {
    match c
    case '<' => "&lt;"
    case '>' => "&gt;"
    case '&' => "&amp;"
    case '"' => "&quot;"
    case '\'' => "&apos;"
    case _ => [c]
  }

  /** `escapeXml`: every `<`, `>`, `&`, `"` and `'` replaced by its entity,
      all other characters kept; the empty string gives the empty string. */
  function EscapeXml(s: string): (r: string)
    ensures s == "" ==> r == ""
    ensures |r| >= |s|
  {
    if s == [] then [] else EscapeChar(s[0]) + EscapeXml(s[1..])
  }

  /** The decoder for the five entities: reads an entity back as its
      character, and every other character as itself. */
  function UnescapeXml(s: string): string
    decreases |s|
  {
    if s == [] then []
    else if |s| >= 4 && s[..4] == "&lt;" then "<" + UnescapeXml(s[4..])
    else if |s| >= 4 && s[..4] == "&gt;" then ">" + UnescapeXml(s[4..])
    else if |s| >= 5 && s[..5] == "&amp;" then "&" + UnescapeXml(s[5..])
    else if |s| >= 6 && s[..6] == "&quot;" then "\"" + UnescapeXml(s[6..])
    else if |s| >= 6 && s[..6] == "&apos;" then "'" + UnescapeXml(s[6..])
    else [s[0]] + UnescapeXml(s[1..])
  }

  lemma UnescapeLt(t: string)
    ensures UnescapeXml("&lt;" + t) == "<" + UnescapeXml(t)
  {
    assert ("&lt;" + t)[..4] == "&lt;";
    assert ("&lt;" + t)[4..] == t;
  }

  lemma UnescapeGt(t: string)
    ensures UnescapeXml("&gt;" + t) == ">" + UnescapeXml(t)
  {
    assert ("&gt;" + t)[..4] == "&gt;";
    assert ("&gt;" + t)[4..] == t;
  }

  lemma UnescapeAmp(t: string)
    ensures UnescapeXml("&amp;" + t) == "&" + UnescapeXml(t)
  {
    var s := "&amp;" + t;
    assert s[..4] != "&lt;" by { assert s[1] == 'a'; }
    assert s[..4] != "&gt;" by { assert s[1] == 'a'; }
    assert s[..5] == "&amp;";
    assert s[5..] == t;
  }

  lemma UnescapeQuot(t: string)
    ensures UnescapeXml("&quot;" + t) == "\"" + UnescapeXml(t)
  {
    var s := "&quot;" + t;
    assert s[..4] != "&lt;" by { assert s[1] == 'q'; }
    assert s[..4] != "&gt;" by { assert s[1] == 'q'; }
    assert s[..5] != "&amp;" by { assert s[1] == 'q'; }
    assert s[..6] == "&quot;";
    assert s[6..] == t;
  }

  lemma UnescapeApos(t: string)
    ensures UnescapeXml("&apos;" + t) == "'" + UnescapeXml(t)
  {
    var s := "&apos;" + t;
    assert s[..4] != "&lt;" by { assert s[1] == 'a'; }
    assert s[..4] != "&gt;" by { assert s[1] == 'a'; }
    assert s[..5] != "&amp;" by { assert s[4] == 's'; }
    assert s[..6] != "&quot;" by { assert s[1] == 'a'; }
    assert s[..6] == "&apos;";
    assert s[6..] == t;
  }

  lemma UnescapePlain(c: char, t: string)
    requires c != '&'
    ensures UnescapeXml([c] + t) == [c] + UnescapeXml(t)
  {
    var s := [c] + t;
    assert s[0] == c;
    assert s[1..] == t;
  }

  /** Decoding undoes one escaped character. */
  lemma UnescapeChar(c: char, t: string)
    ensures UnescapeXml(EscapeChar(c) + t) == [c] + UnescapeXml(t)
  {
    match c
    case '<' => UnescapeLt(t);
    case '>' => UnescapeGt(t);
    case '&' => UnescapeAmp(t);
    case '"' => UnescapeQuot(t);
    case '\'' => UnescapeApos(t);
    case _ => UnescapePlain(c, t);
  }

  /** The escaping round-trips: decoding the entities recovers the input. */
  lemma {:induction false} UnescapeEscape(s: string)
    ensures UnescapeXml(EscapeXml(s)) == s
  {
    if s != [] {
      UnescapeEscape(s[1..]);
      UnescapeChar(s[0], EscapeXml(s[1..]));
      assert s == [s[0]] + s[1..];
    }
  }

  /** Escaped text never holds `<`, `>`, `"` or `'`, so it cannot end an
      attribute value or open a tag. */
  lemma {:induction false} EscapedHasNoMarkup(s: string)
    ensures forall i :: 0 <= i < |EscapeXml(s)| ==> !Markup(EscapeXml(s)[i])
  {
    if s != [] {
      EscapedHasNoMarkup(s[1..]);
      var head := EscapeChar(s[0]);
      assert forall i :: 0 <= i < |head| ==> !Markup(head[i]);
      forall i | 0 <= i < |EscapeXml(s)| ensures !Markup(EscapeXml(s)[i]) {
        if i >= |head| {
          assert EscapeXml(s)[i] == EscapeXml(s[1..])[i - |head|];
        }
      }
    }
  }

  /** Text without the five special characters is left as it is. */
  lemma {:induction false} EscapePlainText(s: string)
    requires forall i :: 0 <= i < |s| ==> !Markup(s[i]) && s[i] != '&'
    ensures EscapeXml(s) == s
  {
    if s != [] {
      EscapePlainText(s[1..]);
      assert s == [s[0]] + s[1..];
    }
  }

  /** Escaping works character by character. */
  lemma {:induction false} EscapeAppend(a: string, b: string)
    ensures EscapeXml(a + b) == EscapeXml(a) + EscapeXml(b)
  {
    if a == [] {
      assert a + b == b;
    } else {
      assert (a + b)[0] == a[0];
      assert (a + b)[1..] == a[1..] + b;
      calc {
        EscapeXml(a + b);
        EscapeChar(a[0]) + EscapeXml(a[1..] + b);
        { EscapeAppend(a[1..], b); }
        EscapeChar(a[0]) + (EscapeXml(a[1..]) + EscapeXml(b));
        EscapeXml(a) + EscapeXml(b);
      }
    }
  }

  /** The categories in the order they first appear: the keys of `groups`. */
  function Categories(feeds: seq<Feed>): (r: seq<string>)
    ensures Distinct(r)
    ensures forall c :: c in r <==> exists i :: 0 <= i < |feeds| && feeds[i].category == c
  {
    if feeds == [] then []
    else
      var init := feeds[..|feeds| - 1];
      var r := SetAdd(Categories(init), feeds[|feeds| - 1].category);
      assert forall i :: 0 <= i < |init| ==> init[i] == feeds[i];
      r
  }

  function InCategory(c: string): Feed -> bool
  {
    (f: Feed) => f.category == c
  }

  /** The feeds of one category, in input order. */
  function FeedsIn(feeds: seq<Feed>, c: string): seq<Feed>
  {
    Filter(feeds, InCategory(c))
  }

  /** `Object.keys(groups).sort()`. */
  function CategoryKeys(feeds: seq<Feed>): seq<string>
  {
    SortStrings(Categories(feeds))
  }

  /** No element of a distinct sequence occurs more than once in its multiset. */
  lemma {:induction false} DistinctCount<T>(s: seq<T>, x: T)
    requires Distinct(s)
    ensures multiset(s)[x] <= 1
  {
    if s != [] {
      DistinctCount(s[1..], x);
      assert s == [s[0]] + s[1..];
      if s[0] == x {
        assert x !in s[1..] by {
          forall j | 0 <= j < |s[1..]| ensures s[1..][j] != x {
            assert s[1..][j] == s[j + 1];
          }
        }
      }
    }
  }

  /** A reordering of a distinct sequence is distinct. */
  lemma DistinctPermutation<T>(a: seq<T>, b: seq<T>)
    requires Distinct(a) && multiset(a) == multiset(b)
    ensures Distinct(b)
  {
    forall i, j | 0 <= i < j < |b| ensures b[i] != b[j] {
      DistinctCount(a, b[i]);
      assert b == b[..i] + [b[i]] + b[i + 1..j] + [b[j]] + b[j + 1..];
    }
  }

  /** The sorted categories: ascending, each once, exactly those of the feeds. */
  lemma CategoryKeysCorrect(feeds: seq<Feed>)
    ensures SortedAsc(CategoryKeys(feeds))
    ensures Distinct(CategoryKeys(feeds))
    ensures forall c :: c in CategoryKeys(feeds) <==> exists i :: 0 <= i < |feeds| && feeds[i].category == c
  {
    var cats := Categories(feeds);
    SortStringsCorrect(cats);
    DistinctPermutation(cats, CategoryKeys(feeds));
    forall c ensures c in CategoryKeys(feeds) <==> c in cats {
      assert c in CategoryKeys(feeds) <==> c in multiset(CategoryKeys(feeds));
      assert c in cats <==> c in multiset(cats);
    }
  }

  /** The feeds in the order the document lists them: category by category. */
  function GroupedFeeds(cats: seq<string>, feeds: seq<Feed>): seq<Feed>
  {
    if cats == [] then [] else FeedsIn(feeds, cats[0]) + GroupedFeeds(cats[1..], feeds)
  }

  /** The tail of a distinct sequence is distinct and lacks its head. */
  lemma DistinctTail(cats: seq<string>)
    requires Distinct(cats) && cats != []
    ensures Distinct(cats[1..]) && cats[0] !in cats[1..]
  {
    forall i, j | 0 <= i < j < |cats[1..]| ensures cats[1..][i] != cats[1..][j] {
      assert cats[1..][i] == cats[i + 1] && cats[1..][j] == cats[j + 1];
    }
    forall j | 0 <= j < |cats[1..]| ensures cats[1..][j] != cats[0] {
      assert cats[1..][j] == cats[j + 1];
    }
  }

  /** A feed counts once for a distinct list of categories when its category
      is the first or one of the rest, never for both. */
  lemma CountOnce(cats: seq<string>, f: Feed)
    requires Distinct(cats) && cats != []
    ensures (if f.category in cats then multiset{f} else multiset{})
         == (if f.category == cats[0] then multiset{f} else multiset{})
            + (if f.category in cats[1..] then multiset{f} else multiset{})
  {
    DistinctTail(cats);
    assert cats == [cats[0]] + cats[1..];
  }

  lemma MultisetRegroup<T>(head: seq<T>, a: seq<T>, g: seq<T>, h: seq<T>, m: multiset<T>)
    requires multiset(g) == multiset(h) + m
    ensures multiset(head + a + g) == multiset(a + h) + (multiset(head) + m)
  {
  }

  /** One more feed at the front appears once in the grouping when its
      category is listed, and not at all otherwise. */
  lemma {:induction false} GroupedFeedsCons(cats: seq<string>, f: Feed, rest: seq<Feed>)
    requires Distinct(cats)
    ensures multiset(GroupedFeeds(cats, [f] + rest))
         == multiset(GroupedFeeds(cats, rest)) + (if f.category in cats then multiset{f} else multiset{})
  {
    if cats != [] {
      var c := cats[0];
      DistinctTail(cats);
      GroupedFeedsCons(cats[1..], f, rest);
      FilterCons(f, rest, InCategory(c));
      CountOnce(cats, f);
      MultisetRegroup(if f.category == c then [f] else [], FeedsIn(rest, c),
        GroupedFeeds(cats[1..], [f] + rest), GroupedFeeds(cats[1..], rest),
        if f.category in cats[1..] then multiset{f} else multiset{});
    }
  }

  /** Every feed appears exactly once in the grouping by a list of distinct
      categories that covers them all. */
  lemma {:induction false} GroupedFeedsPermutation(cats: seq<string>, feeds: seq<Feed>)
    requires Distinct(cats)
    requires forall i :: 0 <= i < |feeds| ==> feeds[i].category in cats
    ensures multiset(GroupedFeeds(cats, feeds)) == multiset(feeds)
  {
    if feeds == [] {
      assert forall c :: FeedsIn(feeds, c) == [];
      GroupedEmpty(cats);
    } else {
      GroupedFeedsPermutation(cats, feeds[1..]);
      GroupedFeedsCons(cats, feeds[0], feeds[1..]);
      assert feeds == [feeds[0]] + feeds[1..];
    }
  }

  lemma {:induction false} GroupedEmpty(cats: seq<string>)
    ensures GroupedFeeds(cats, []) == []
  {
    if cats != [] {
      GroupedEmpty(cats[1..]);
    }
  }

  /** The document lists every input feed exactly once. */
  lemma EveryFeedOnce(feeds: seq<Feed>)
    ensures multiset(GroupedFeeds(CategoryKeys(feeds), feeds)) == multiset(feeds)
  {
    CategoryKeysCorrect(feeds);
    GroupedFeedsPermutation(CategoryKeys(feeds), feeds);
  }

  /** The attribute values of a feed's `type="rss"` outline. */
  datatype FeedOutline = FeedOutline(text: string, title: string, xmlUrl: string, htmlUrl: string, description: string)

  /** The attribute values of a category's outline and the outlines inside it. */
  datatype CategoryOutline = CategoryOutline(text: string, title: string, children: seq<FeedOutline>)

  /** Every attribute value is escaped: it decodes back to the feed's field,
      holds no markup, and the feed URL serves as both `xmlUrl` and `htmlUrl`. */
  function ToOutline(feed: Feed): (o: FeedOutline)
    ensures o.text == o.title && o.xmlUrl == o.htmlUrl
    ensures UnescapeXml(o.text) == feed.title
    ensures UnescapeXml(o.xmlUrl) == feed.url
    ensures UnescapeXml(o.description) == feed.description
    ensures forall i :: 0 <= i < |o.text| ==> !Markup(o.text[i])
    ensures forall i :: 0 <= i < |o.xmlUrl| ==> !Markup(o.xmlUrl[i])
    ensures forall i :: 0 <= i < |o.description| ==> !Markup(o.description[i])
  {
    UnescapeEscape(feed.title);
    UnescapeEscape(feed.url);
    UnescapeEscape(feed.description);
    EscapedHasNoMarkup(feed.title);
    EscapedHasNoMarkup(feed.url);
    EscapedHasNoMarkup(feed.description);
    var title := EscapeXml(feed.title);
    var xmlUrl := EscapeXml(feed.url);
    FeedOutline(title, title, xmlUrl, xmlUrl, EscapeXml(feed.description))
  }

  /** The feed outlines of a list of feeds, in order. */
  function OutlinesOf(fs: seq<Feed>): (r: seq<FeedOutline>)
    ensures |r| == |fs|
    ensures forall j :: 0 <= j < |fs| ==> r[j] == ToOutline(fs[j])
  {
    if fs == [] then [] else [ToOutline(fs[0])] + OutlinesOf(fs[1..])
  }

  lemma OutlinesAppend(a: seq<Feed>, b: seq<Feed>)
    ensures OutlinesOf(a + b) == OutlinesOf(a) + OutlinesOf(b)
  {
    assert forall j :: 0 <= j < |a + b| ==> OutlinesOf(a + b)[j] == (OutlinesOf(a) + OutlinesOf(b))[j];
  }

  /** A category's outline holds one child per feed of the category, in order,
      and its name decodes back to the category. */
  function GroupOutline(category: string, categoryFeeds: seq<Feed>): (o: CategoryOutline)
    ensures o.text == o.title && UnescapeXml(o.text) == category
    ensures forall i :: 0 <= i < |o.text| ==> !Markup(o.text[i])
    ensures |o.children| == |categoryFeeds|
    ensures forall j :: 0 <= j < |categoryFeeds| ==> UnescapeXml(o.children[j].text) == categoryFeeds[j].title
    ensures forall j :: 0 <= j < |categoryFeeds| ==> UnescapeXml(o.children[j].xmlUrl) == categoryFeeds[j].url
  {
    UnescapeEscape(category);
    EscapedHasNoMarkup(category);
    var categoryTitle := EscapeXml(category);
    CategoryOutline(categoryTitle, categoryTitle, OutlinesOf(categoryFeeds))
  }

  /** The outline of each category of `cats`, holding that category's feeds. */
  function CategoryOutlines(cats: seq<string>, feeds: seq<Feed>): seq<CategoryOutline>
  {
    seq(|cats|, i requires 0 <= i < |cats| => GroupOutline(cats[i], FeedsIn(feeds, cats[i])))
  }

  /** The outlines of the document body, one per category in sorted order:
      the i-th decodes to the i-th sorted category and holds the outlines of
      that category's feeds. */
  function Outlines(feeds: seq<Feed>): (r: seq<CategoryOutline>)
    ensures |r| == |CategoryKeys(feeds)|
    ensures forall i :: 0 <= i < |r| ==> r[i].text == r[i].title && UnescapeXml(r[i].text) == CategoryKeys(feeds)[i]
    ensures forall i :: 0 <= i < |r| ==> r[i].children == OutlinesOf(FeedsIn(feeds, CategoryKeys(feeds)[i]))
  {
    CategoryOutlines(CategoryKeys(feeds), feeds)
  }

  /** The feed outlines of the whole body, category after category. */
  function AllChildren(os: seq<CategoryOutline>): seq<FeedOutline>
  {
    if os == [] then [] else os[0].children + AllChildren(os[1..])
  }

  /** The feed outlines under the categories of `cats` are the outlines of the
      feeds grouped by those categories. */
  lemma {:induction false} CategoryOutlinesChildren(cats: seq<string>, feeds: seq<Feed>)
    ensures AllChildren(CategoryOutlines(cats, feeds)) == OutlinesOf(GroupedFeeds(cats, feeds))
  {
    if cats != [] {
      var os := CategoryOutlines(cats, feeds);
      assert os[1..] == CategoryOutlines(cats[1..], feeds);
      CategoryOutlinesChildren(cats[1..], feeds);
      OutlinesAppend(FeedsIn(feeds, cats[0]), GroupedFeeds(cats[1..], feeds));
    }
  }

  /** The body lists every input feed exactly once: its feed outlines are
      those of a rearrangement of the input. */
  lemma DocumentListsEveryFeedOnce(feeds: seq<Feed>)
    ensures AllChildren(Outlines(feeds)) == OutlinesOf(GroupedFeeds(CategoryKeys(feeds), feeds))
    ensures multiset(GroupedFeeds(CategoryKeys(feeds), feeds)) == multiset(feeds)
  {
    CategoryOutlinesChildren(CategoryKeys(feeds), feeds);
    EveryFeedOnce(feeds);
  }

  /** `Array.prototype.join('\n')`. */
  function JoinLines(lines: seq<string>): (r: string)
    ensures lines == [] ==> r == ""
    ensures |lines| == 1 ==> r == lines[0]
  {
    if lines == [] then ""
    else if |lines| == 1 then lines[0]
    else lines[0] + "\n" + JoinLines(lines[1..])
  }

  function RenderFeed(o: FeedOutline): string
  {
    "      <outline type=\"rss\" text=\"" + o.text + "\" title=\"" + o.title + "\" xmlUrl=\"" + o.xmlUrl
      + "\" htmlUrl=\"" + o.htmlUrl + "\" description=\"" + o.description + "\" />"
  }

  function RenderCategory(o: CategoryOutline): string
  {
    "    <outline text=\"" + o.text + "\" title=\"" + o.title + "\">\n"
      + JoinLines(seq(|o.children|, j requires 0 <= j < |o.children| => RenderFeed(o.children[j])))
      + "\n    </outline>"
  }

  /** The document around the body, `dateStr` being `new Date().toUTCString()`. */
  function Document(dateStr: string, body: string): string
  {
    "<?xml version=\"1.0\" encoding=\"UTF-8\"?>\n<opml version=\"2.0\">\n  <head>\n"
      + "    <title>Lehigh Valley Regional Intelligence Directory</title>\n"
      + "    <dateCreated>" + dateStr + "</dateCreated>\n"
      + "    <ownerName>TagFlow AI</ownerName>\n  </head>\n  <body>\n"
      + body + "\n  </body>\n</opml>"
  }

  /** The text `generateOPML` returns. */
  function OpmlText(feeds: seq<Feed>, dateStr: string): string
  {
    var outlines := Outlines(feeds);
    Document(dateStr, JoinLines(seq(|outlines|, i requires 0 <= i < |outlines| => RenderCategory(outlines[i]))))
  }

  /** With no feeds the body holds no outline at all. */
  lemma NoFeedsNoOutlines(dateStr: string)
    ensures Outlines([]) == []
    ensures OpmlText([], dateStr) == Document(dateStr, "")
  {
    assert Categories([]) == [];
  }

  /** `groups` holds, under each category met so far, the feeds of `done`
      in that category, its keys in order of first appearance. */
  ghost predicate GroupsOf(groups: OrderedMap<seq<Feed>>, done: seq<Feed>)
  {
    && groups.Valid()
    && groups.keys == Categories(done)
    && forall c :: c in groups.entries ==> groups.entries[c] == FeedsIn(done, c)
  }

  /** One step of the `forEach`: create the category's list if missing, then push. */
  function Push(groups: OrderedMap<seq<Feed>>, feed: Feed): OrderedMap<seq<Feed>>
    requires groups.Valid()
  {
    var g := if feed.category in groups.entries then groups else groups.Put(feed.category, []);
    g.Put(feed.category, g.entries[feed.category] + [feed])
  }

  lemma PushKeys(groups: OrderedMap<seq<Feed>>, done: seq<Feed>, feed: Feed)
    requires groups.Valid() && groups.keys == Categories(done)
    ensures Push(groups, feed).Valid()
    ensures Push(groups, feed).keys == Categories(done + [feed])
  {
    var all := done + [feed];
    assert all[..|all| - 1] == done;
    assert Categories(all) == SetAdd(Categories(done), feed.category);
  }

  lemma PushEntries(groups: OrderedMap<seq<Feed>>, done: seq<Feed>, feed: Feed, c: string)
    requires GroupsOf(groups, done)
    requires c in Push(groups, feed).entries
    ensures Push(groups, feed).entries[c] == FeedsIn(done + [feed], c)
  {
    FilterAppend(done, [feed], InCategory(c));
    if c == feed.category {
      assert FeedsIn([feed], c) == [feed];
      if c !in groups.entries {
        assert c !in Categories(done);
        FilterNone(done, InCategory(c));
      }
    } else {
      assert FeedsIn([feed], c) == [];
      assert c in groups.entries;
    }
  }

  lemma PushGroups(groups: OrderedMap<seq<Feed>>, done: seq<Feed>, feed: Feed)
    requires GroupsOf(groups, done)
    ensures GroupsOf(Push(groups, feed), done + [feed])
  {
    PushKeys(groups, done, feed);
    forall c | c in Push(groups, feed).entries ensures Push(groups, feed).entries[c] == FeedsIn(done + [feed], c) {
      PushEntries(groups, done, feed, c);
    }
  }

  /** The body of the `forEach`. */
  method PushFeed(groups: OrderedMap<seq<Feed>>, feed: Feed) returns (r: OrderedMap<seq<Feed>>)
    requires groups.Valid()
    ensures r == Push(groups, feed)
  {
    r := groups;
    if feed.category !in r.entries {
      r := r.Put(feed.category, []);
    }
    r := r.Put(feed.category, r.entries[feed.category] + [feed]);
  }

  /** The dictionary the `forEach` builds, one feed at a time. */
  function GroupFeeds(feeds: seq<Feed>): (groups: OrderedMap<seq<Feed>>)
    ensures groups.Valid()
  {
    if feeds == [] then OrderedMap([], map[]) else Push(GroupFeeds(feeds[..|feeds| - 1]), feeds[|feeds| - 1])
  }

  /** The dictionary maps each category, in order of first appearance, to
      its feeds in input order. */
  lemma {:induction false} GroupFeedsCorrect(feeds: seq<Feed>)
    ensures GroupsOf(GroupFeeds(feeds), feeds)
  {
    if feeds != [] {
      var init := feeds[..|feeds| - 1];
      assert init + [feeds[|feeds| - 1]] == feeds;
      GroupFeedsCorrect(init);
      PushGroups(GroupFeeds(init), init, feeds[|feeds| - 1]);
    }
  }

  /** The `forEach` of `generateOPML`: each feed is appended to the list of
      its category, the list being created on the category's first feed. */
  method GroupByCategory(feeds: seq<Feed>) returns (groups: OrderedMap<seq<Feed>>)
    ensures groups == GroupFeeds(feeds)
  {
    groups := OrderedMap([], map[]);
    for i := 0 to |feeds|
      invariant groups == GroupFeeds(feeds[..i])
    {
      assert feeds[..i + 1][..i] == feeds[..i];
      groups := PushFeed(groups, feeds[i]);
    }
    assert feeds[..|feeds|] == feeds;
  }

  /** The outline of each sorted key of the grouping, its feeds looked up in
      the grouping, is the outline of that category's feeds. */
  function GroupedOutlines(groups: OrderedMap<seq<Feed>>, categories: seq<string>): seq<CategoryOutline>
  {
    seq(|categories|, i requires 0 <= i < |categories| =>
      GroupOutline(categories[i], if categories[i] in groups.entries then groups.entries[categories[i]] else []))
  }

  lemma GroupedOutlinesCorrect(feeds: seq<Feed>)
    ensures GroupedOutlines(GroupFeeds(feeds), SortStrings(GroupFeeds(feeds).keys)) == Outlines(feeds)
  {
    var groups := GroupFeeds(feeds);
    GroupFeedsCorrect(feeds);
    var categories := SortStrings(groups.keys);
    assert categories == CategoryKeys(feeds);
    CategoryKeysCorrect(feeds);
    forall i | 0 <= i < |categories| ensures categories[i] in groups.entries {
      assert categories[i] in CategoryKeys(feeds);
    }
  }

  /** `generateOPML`: group the feeds, then render the sorted categories. */
  method GenerateOpml(feeds: seq<Feed>, dateStr: string) returns (r: string)
    ensures r == OpmlText(feeds, dateStr)
  {
    var groups := GroupByCategory(feeds);
    var categories := SortStrings(groups.keys);
    var outlines := GroupedOutlines(groups, categories);
    GroupedOutlinesCorrect(feeds);
    r := Document(dateStr, JoinLines(seq(|outlines|, i requires 0 <= i < |outlines| => RenderCategory(outlines[i]))));
  }
}
