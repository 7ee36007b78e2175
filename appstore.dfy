/** The client's article store (src/store/useAppStore.ts): a single state
    value and the actions that compute the next one from it. */
module AppStore {
  import opened Common
  import opened Arrays

  datatype TaggingStatus = Pending | Analyzing | Tagged | Syncing | Synced | Failed

  datatype Tag = Tag(id: string, name: string, confidence: real, isCustom: Option<bool>)

  datatype Article = Article(
    id: string,
    title: string,
    content: string,
    excerpt: string,
    url: string,
    author: Option<string>,
    publishedDate: Option<string>,
    thumbnail: Option<string>,
    tags: seq<Tag>,
    status: TaggingStatus,
    error: Option<string>)

  /** A `Partial<Article>`: `None` leaves a field out; for an optional field,
      `Some(None)` sets it to `undefined`. */
  datatype ArticlePatch = ArticlePatch(
    id: Option<string>,
    title: Option<string>,
    content: Option<string>,
    excerpt: Option<string>,
    url: Option<string>,
    author: Option<Option<string>>,
    publishedDate: Option<Option<string>>,
    thumbnail: Option<Option<string>>,
    tags: Option<seq<Tag>>,
    status: Option<TaggingStatus>,
    error: Option<Option<string>>)

  const NoArticleChanges := ArticlePatch(None, None, None, None, None, None, None, None, None, None, None)

  datatype AppSettings = AppSettings(wpApiUrl: string, wpApiKey: string, aiPrompt: string, autoSync: bool)

  /** A `Partial<AppSettings>`. */
  datatype SettingsPatch = SettingsPatch(
    wpApiUrl: Option<string>, wpApiKey: Option<string>, aiPrompt: Option<string>, autoSync: Option<bool>)

  const NoSettingsChanges := SettingsPatch(None, None, None, None)

  datatype AppState = AppState(
    articles: seq<Article>,
    feedUrl: string,
    isLoading: bool,
    settings: AppSettings,
    searchQuery: string,
    selectedCategory: Option<string>)

  /** The state the store is created with. */
  const InitialState := AppState([], "", false,
    AppSettings("https://demo.wordpress.org/wp-json", "",
      "Extract 5 SEO-friendly tags for this blog post. Return as a JSON array of strings.", false),
    "", None)

  /** The value a spread leaves in one field: the patch's when it has the key. */
  function Pick<T>(base: T, patch: Option<T>): (r: T)
    ensures patch.Some? ==> r == patch.value
    ensures patch.None? ==> r == base
  {
    if patch.Some? then patch.value else base
  }

  /** `{ ...a, ...updates }`. */
  function MergeArticle(a: Article, u: ArticlePatch): Article
  {
    Article(Pick(a.id, u.id), Pick(a.title, u.title), Pick(a.content, u.content), Pick(a.excerpt, u.excerpt),
      Pick(a.url, u.url), Pick(a.author, u.author), Pick(a.publishedDate, u.publishedDate),
      Pick(a.thumbnail, u.thumbnail), Pick(a.tags, u.tags), Pick(a.status, u.status), Pick(a.error, u.error))
  }

  /** The patch equivalent to applying `u` and then `v`: `v` wins where both
      mention a field. */
  function ThenArticle(u: ArticlePatch, v: ArticlePatch): ArticlePatch
  {
    ArticlePatch(Later(u.id, v.id), Later(u.title, v.title), Later(u.content, v.content), Later(u.excerpt, v.excerpt),
      Later(u.url, v.url), Later(u.author, v.author), Later(u.publishedDate, v.publishedDate),
      Later(u.thumbnail, v.thumbnail), Later(u.tags, v.tags), Later(u.status, v.status), Later(u.error, v.error))
  }

  function Later<T>(first: Option<T>, second: Option<T>): Option<T>
  {
    if second.Some? then second else first
  }

  /** Merging an empty patch changes nothing. */
  lemma MergeNothing(a: Article)
    ensures MergeArticle(a, NoArticleChanges) == a
  {
  }

  /** Merging twice is merging the combined patch; merging the same patch
      twice is merging it once. */
  lemma MergeTwice(a: Article, u: ArticlePatch, v: ArticlePatch)
    ensures MergeArticle(MergeArticle(a, u), v) == MergeArticle(a, ThenArticle(u, v))
    ensures MergeArticle(MergeArticle(a, u), u) == MergeArticle(a, u)
  {
  }

  /** `setArticles`: the list is replaced; nothing else changes. */
  function SetArticles(s: AppState, articles: seq<Article>): (r: AppState)
    ensures r.articles == articles
    ensures r.(articles := s.articles) == s
  {
    s.(articles := articles)
  }

  /** The test handed to `find`: an article with the url `url`. */
  function SameUrl(url: string): Article -> bool
  {
    (n: Article) => n.url == url
  }

  /** The test handed to `filter`: `find` returned `undefined`, so no new
      article has the old article's url. */
  function NotIn(batch: seq<Article>): Article -> bool
  {
    (a: Article) => Find(batch, SameUrl(a.url)).None?
  }

  /** Whether some article of `batch` has the url `url`. */
  predicate HasUrl(batch: seq<Article>, url: string)
  {
    exists j :: 0 <= j < |batch| && batch[j].url == url
  }

  lemma NotInMeans(batch: seq<Article>, a: Article)
    ensures NotIn(batch)(a) <==> !HasUrl(batch, a.url)
  {
  }

  /** `addArticles`: the batch first, in its own order and with any duplicates
      inside it, then the old articles whose url is not in the batch, in their
      old order. */
  function AddArticles(s: AppState, batch: seq<Article>): (r: AppState)
    ensures |r.articles| >= |batch|
    ensures r.articles[..|batch|] == batch
    ensures r.articles[|batch|..] == Filter(s.articles, NotIn(batch))
    ensures r.(articles := s.articles) == s
  {
    var kept := Filter(s.articles, NotIn(batch));
    assert (batch + kept)[..|batch|] == batch;
    assert (batch + kept)[|batch|..] == kept;
    s.(articles := batch + kept)
  }

  /** After `addArticles` no surviving old article shares a url with the
      batch, and every old article whose url the batch lacks survives. */
  lemma AddArticlesSurvivors(s: AppState, batch: seq<Article>)
    ensures forall i :: |batch| <= i < |AddArticles(s, batch).articles| ==>
      AddArticles(s, batch).articles[i] in s.articles && !HasUrl(batch, AddArticles(s, batch).articles[i].url)
    ensures forall i :: 0 <= i < |s.articles| && !HasUrl(batch, s.articles[i].url) ==>
      s.articles[i] in AddArticles(s, batch).articles
  {
    var r := AddArticles(s, batch).articles;
    var kept := Filter(s.articles, NotIn(batch));
    forall i | |batch| <= i < |r| ensures r[i] in s.articles && !HasUrl(batch, r[i].url) {
      assert r[i] == kept[i - |batch|];
      NotInMeans(batch, r[i]);
    }
    forall i | 0 <= i < |s.articles| && !HasUrl(batch, s.articles[i].url) ensures s.articles[i] in r {
      NotInMeans(batch, s.articles[i]);
      assert s.articles[i] in kept;
      var k :| 0 <= k < |kept| && kept[k] == s.articles[i];
      assert r[|batch| + k] == kept[k];
    }
  }

  /** Adding the same batch again changes nothing. */
  lemma AddArticlesIdempotent(s: AppState, batch: seq<Article>)
    ensures AddArticles(AddArticles(s, batch), batch) == AddArticles(s, batch)
  {
    var once := AddArticles(s, batch).articles;
    var kept := Filter(s.articles, NotIn(batch));
    assert once == batch + kept;
    FilterAppend(batch, kept, NotIn(batch));
    forall j | 0 <= j < |batch| ensures !NotIn(batch)(batch[j]) {
      NotInMeans(batch, batch[j]);
    }
    FilterNone(batch, NotIn(batch));
    FilterAll(kept, NotIn(batch));
    assert Filter(once, NotIn(batch)) == kept;
  }

  /** `updateArticle`: the article with id `id` gets `updates` merged in;
      the list keeps its length and order, and other articles are untouched. */
  function UpdateArticle(s: AppState, id: string, updates: ArticlePatch): (r: AppState)
    ensures |r.articles| == |s.articles|
    ensures forall i :: 0 <= i < |s.articles| && s.articles[i].id == id ==>
      r.articles[i] == MergeArticle(s.articles[i], updates)
    ensures forall i :: 0 <= i < |s.articles| && s.articles[i].id != id ==> r.articles[i] == s.articles[i]
    ensures r.(articles := s.articles) == s
  {
    s.(articles := seq(|s.articles|, i requires 0 <= i < |s.articles| =>
      if s.articles[i].id == id then MergeArticle(s.articles[i], updates) else s.articles[i]))
  }

  /** An update that mentions no field leaves the state as it was. */
  lemma {:induction false} UpdateNothing(s: AppState, id: string)
    ensures UpdateArticle(s, id, NoArticleChanges) == s
  {
    var r := UpdateArticle(s, id, NoArticleChanges);
    forall i | 0 <= i < |s.articles| ensures r.articles[i] == s.articles[i] {
      MergeNothing(s.articles[i]);
    }
  }

  /** Two updates of an article that keep its id amount to one update with
      the combined patch. */
  lemma {:induction false} UpdateTwice(s: AppState, id: string, u: ArticlePatch, v: ArticlePatch)
    requires u.id.None? || u.id == Some(id)
    ensures UpdateArticle(UpdateArticle(s, id, u), id, v) == UpdateArticle(s, id, ThenArticle(u, v))
  {
    var once := UpdateArticle(s, id, u);
    var twice := UpdateArticle(once, id, v);
    var direct := UpdateArticle(s, id, ThenArticle(u, v));
    forall i | 0 <= i < |s.articles| ensures twice.articles[i] == direct.articles[i] {
      MergeTwice(s.articles[i], u, v);
    }
  }

  /** `setFeedUrl`. */
  function SetFeedUrl(s: AppState, feedUrl: string): (r: AppState)
    ensures r.feedUrl == feedUrl && r.(feedUrl := s.feedUrl) == s
  {
    s.(feedUrl := feedUrl)
  }

  /** `setLoading`. */
  function SetLoading(s: AppState, isLoading: bool): (r: AppState)
    ensures r.isLoading == isLoading && r.(isLoading := s.isLoading) == s
  {
    s.(isLoading := isLoading)
  }

  /** `{ ...state.settings, ...settings }`. */
  function MergeSettings(a: AppSettings, u: SettingsPatch): AppSettings
  {
    AppSettings(Pick(a.wpApiUrl, u.wpApiUrl), Pick(a.wpApiKey, u.wpApiKey), Pick(a.aiPrompt, u.aiPrompt),
      Pick(a.autoSync, u.autoSync))
  }

  function ThenSettings(u: SettingsPatch, v: SettingsPatch): SettingsPatch
  {
    SettingsPatch(Later(u.wpApiUrl, v.wpApiUrl), Later(u.wpApiKey, v.wpApiKey), Later(u.aiPrompt, v.aiPrompt),
      Later(u.autoSync, v.autoSync))
  }

  /** `updateSettings`: the supplied fields are overwritten, the others kept. */
  function UpdateSettings(s: AppState, u: SettingsPatch): (r: AppState)
    ensures r.settings.wpApiUrl == Pick(s.settings.wpApiUrl, u.wpApiUrl)
    ensures r.settings.wpApiKey == Pick(s.settings.wpApiKey, u.wpApiKey)
    ensures r.settings.aiPrompt == Pick(s.settings.aiPrompt, u.aiPrompt)
    ensures r.settings.autoSync == Pick(s.settings.autoSync, u.autoSync)
    ensures r.(settings := s.settings) == s
  {
    s.(settings := MergeSettings(s.settings, u))
  }

  /** Updating with no field changes nothing; two updates are one update with
      the combined patch; the same update twice is the update once. */
  lemma UpdateSettingsLaws(s: AppState, u: SettingsPatch, v: SettingsPatch)
    ensures UpdateSettings(s, NoSettingsChanges) == s
    ensures UpdateSettings(UpdateSettings(s, u), v) == UpdateSettings(s, ThenSettings(u, v))
    ensures UpdateSettings(UpdateSettings(s, u), u) == UpdateSettings(s, u)
  {
  }

  /** `setSearchQuery`. */
  function SetSearchQuery(s: AppState, searchQuery: string): (r: AppState)
    ensures r.searchQuery == searchQuery && r.(searchQuery := s.searchQuery) == s
  {
    s.(searchQuery := searchQuery)
  }

  /** `setSelectedCategory`; `None` is `null`. */
  function SetSelectedCategory(s: AppState, selectedCategory: Option<string>): (r: AppState)
    ensures r.selectedCategory == selectedCategory && r.(selectedCategory := s.selectedCategory) == s
  {
    s.(selectedCategory := selectedCategory)
  }
}
