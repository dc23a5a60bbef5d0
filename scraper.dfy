/**
 * The exported operations of scraper.js over its one shared cache (default
 * TTL two hours): the catalogue, the search, the details of a title, the
 * episodes and the streams of a season, and the latest episodes. Each
 * operation answers from the cache while its entry lives, otherwise from the
 * page it is handed, and stores what it computed except after the failures
 * the source does not cache.
 */
module Scraper {
  import opened Wrappers
  import opened Text
  import opened Fetching
  import opened NodeCache
  import opened Catalog
  import opened Search
  import opened DetailPages = Details
  import opened Player
  import opened Episodes
  import Streams
  import Latest

  /** What the shared cache holds; the prefix of the key says which. */
  datatype Cached =
    | Titles(titles: seq<Title>)
    | DetailsValue(details: Details)
    | EpisodeList(episodes: seq<Episode>)
    | StreamList(streams: seq<Streams.Stream>)
    | LatestList(latest: seq<Latest.LatestEntry>)

  type Entries = map<string, Entry<Cached>>

  /** The time-to-live of each kind of entry, in seconds. */
  const CatalogTtl: nat := 7200
  const SearchTtl: nat := 3600
  const DetailsTtl: nat := 7200
  const EpisodesTtl: nat := 3600
  const StreamsTtl: nat := 1800
  const LatestTtl: nat := 900

  /** The size of the catalogue window the search runs over: `getCatalog(0, 1000)`. */
  const SearchWindow: nat := 1000

  const CatalogKey: string := "catalog_full"
  const LatestKey: string := "latest_episodes"

  /** `search_${query.toLowerCase().trim()}`, the key as written. */
  function SearchKey(query: string): (r: string)
    ensures StartsWith(r, "search_") && |r| <= |"search_"| + |query|
    ensures |r| == |"search_"| || (!IsSpace(r[|"search_"|]) && !IsSpace(r[|r| - 1]))
  {
    var t := Trim(ToLower(query));
    PrefixedTrimmed("search_", t);
    "search_" + t
  }

  /** The search key that names exactly what is searched. */
  function ExactSearchKey(query: string): (r: string)
    ensures StartsWith(r, "search_")
  {
    var r := "search_" + query;
    assert r[..7] == "search_";
    r
  }

  function DetailsKey(slug: string): (r: string)
    ensures StartsWith(r, "details_")
  {
    var r := "details_" + slug;
    assert r[..8] == "details_";
    r
  }

  /** `episodes_${slug}_s${seasonNum}_${lang}`. */
  function EpisodesKey(slug: string, season: nat, lang: string): (r: string)
    ensures StartsWith(r, "episodes_")
  {
    var r := "episodes_" + (slug + "_s" + NatToString(season) + "_" + lang);
    assert r[..9] == "episodes_";
    r
  }

  /** `stream_${slug}_s${seasonNum}_e${episodeNum}_${lang}`. */
  function StreamKey(slug: string, season: nat, episode: nat, lang: string): (r: string)
    ensures StartsWith(r, "stream_")
  {
    var r := "stream_" + (slug + "_s" + NatToString(season) + "_e" + NatToString(episode) + "_" + lang);
    assert r[..7] == "stream_";
    r
  }

  /** The value stored under a key is of the kind its prefix names. */
  predicate Fits(key: string, v: Cached) {
    match v
    case Titles(_) => key == CatalogKey || StartsWith(key, "search_")
    case DetailsValue(_) => StartsWith(key, "details_")
    case EpisodeList(_) => StartsWith(key, "episodes_")
    case StreamList(_) => StartsWith(key, "stream_")
    case LatestList(_) => key == LatestKey
  }

  predicate ValidEntries(e: Entries) {
    forall k :: k in e ==> Fits(k, e[k].value)
  }

  /** A key's prefix determines the kind of value that fits it. */
  lemma FitsKind(key: string, v: Cached)
    requires Fits(key, v)
    ensures StartsWith(key, "search_") ==> v.Titles?
    ensures StartsWith(key, "details_") ==> v.DetailsValue?
    ensures StartsWith(key, "episodes_") ==> v.EpisodeList?
    ensures StartsWith(key, "stream_") ==> v.StreamList?
    ensures key == CatalogKey || key == LatestKey ==> (key == CatalogKey <==> v.Titles?)
  {
    if StartsWith(key, "search_") || StartsWith(key, "stream_") {
      assert key[0] == 's';
      if StartsWith(key, "search_") {
        assert key[1] == 'e';
      } else {
        assert key[1] == 't';
      }
    } else if StartsWith(key, "details_") {
      assert key[0] == 'd';
    } else if StartsWith(key, "episodes_") {
      assert key[0] == 'e';
    }
  }

  /** In valid entries, a live entry under a key is of the kind its prefix names. */
  lemma ValidGet(e: Entries, key: string, now: nat)
    requires ValidEntries(e) && Get(e, key, now).Some?
    ensures StartsWith(key, "search_") ==> Get(e, key, now).value.Titles?
    ensures StartsWith(key, "details_") ==> Get(e, key, now).value.DetailsValue?
    ensures StartsWith(key, "episodes_") ==> Get(e, key, now).value.EpisodeList?
    ensures StartsWith(key, "stream_") ==> Get(e, key, now).value.StreamList?
    ensures key == CatalogKey ==> Get(e, key, now).value.Titles?
    ensures key == LatestKey ==> Get(e, key, now).value.LatestList?
  {
    FitsKind(key, e[key].value);
  }

  lemma PutValid(e: Entries, key: string, v: Cached, ttl: nat, now: nat)
    requires ValidEntries(e) && Fits(key, v)
    ensures ValidEntries(Put(e, key, v, ttl, now))
  {
  }

  // ---- getCatalog ----

  /** The full list `getCatalog` slices: the cached one while it lives, else
      the live catalogue when the page yields titles, else `POPULAR_ANIMES`. */
  function CatalogSource(e: Entries, page: Fetch<seq<Anchor>>, now: nat): seq<Title> {
    var c := Get(e, CatalogKey, now);
    if c.Some? && c.value.Titles? then c.value.titles
    else FullCatalog(page)
  }

  /** The entries after `getCatalog`: only a non-empty live catalogue is stored. */
  function CatalogStore(e: Entries, page: Fetch<seq<Anchor>>, now: nat): Entries {
    var c := Get(e, CatalogKey, now);
    if c.Some? && c.value.Titles? then e
    else if LiveCatalog(page) then Put(e, CatalogKey, Titles(CatalogOf(page.content)), CatalogTtl, now) else e
  }

  /** A live catalogue fetched on a miss is what every later call answers for
      two hours, whatever page it is handed; a fallback is never stored. */
  lemma CatalogCached(e: Entries, page: Fetch<seq<Anchor>>, later: Fetch<seq<Anchor>>, now: nat, t: nat)
    requires Get(e, CatalogKey, now).None?
    ensures LiveCatalog(page) && now <= t <= now + CatalogTtl * 1000 ==>
              CatalogSource(CatalogStore(e, page, now), later, t) == CatalogOf(page.content)
    ensures !LiveCatalog(page) ==> CatalogStore(e, page, now) == e && CatalogSource(e, page, now) == Popular
  {
    if page.Loaded? {
      PutGet(e, CatalogKey, Titles(CatalogOf(page.content)), CatalogTtl, now);
    }
  }

  lemma CatalogStoreValid(e: Entries, page: Fetch<seq<Anchor>>, now: nat)
    requires ValidEntries(e)
    ensures ValidEntries(CatalogStore(e, page, now))
    ensures forall k, t :: k != CatalogKey ==> Get(CatalogStore(e, page, now), k, t) == Get(e, k, t)
  {
    if page.Loaded? {
      PutGet(e, CatalogKey, Titles(CatalogOf(page.content)), CatalogTtl, now);
    }
  }

  /** The catalogue stored under `CatalogKey`, if any, has each slug once. */
  predicate StoredCatalogUnique(e: Entries) {
    CatalogKey in e && e[CatalogKey].value.Titles? ==> UniqueSlugs(e[CatalogKey].value.titles)
  }

  /** While the stored catalogue has unique slugs, so has every window
      `getCatalog` hands out, cached, live or fallback. */
  lemma CatalogWindowUnique(e: Entries, page: Fetch<seq<Anchor>>, now: nat, skip: int, limit: int)
    requires StoredCatalogUnique(e)
    ensures UniqueSlugs(JsSlice(CatalogSource(e, page, now), skip, skip + limit))
  {
    var c := Get(e, CatalogKey, now);
    if !(c.Some? && c.value.Titles?) {
      FullCatalogUnique(page);
    }
    JsSliceUnique(CatalogSource(e, page, now), skip, skip + limit);
  }

  /** `getCatalog` only ever stores a catalogue with unique slugs. */
  lemma CatalogStoreUnique(e: Entries, page: Fetch<seq<Anchor>>, now: nat)
    requires StoredCatalogUnique(e)
    ensures StoredCatalogUnique(CatalogStore(e, page, now))
  {
    if LiveCatalog(page) {
      CatalogUnique(page.content);
    }
  }

  // ---- searchAnime ----

  /** The search's answer over the catalogue window, as the source computes it. */
  function FreshSearch(e: Entries, query: string, page: Fetch<seq<Anchor>>, now: nat): seq<Title> {
    SearchResults(JsSlice(CatalogSource(e, page, now), 0, SearchWindow), query)
  }

  /** While the stored catalogue has unique slugs, a fresh search answer has
      unique slugs. */
  lemma FreshSearchUnique(e: Entries, query: string, page: Fetch<seq<Anchor>>, now: nat)
    requires StoredCatalogUnique(e)
    ensures UniqueSlugs(FreshSearch(e, query, page, now))
  {
    CatalogWindowUnique(e, page, now, 0, SearchWindow);
    SearchUnique(JsSlice(CatalogSource(e, page, now), 0, SearchWindow), Popular, query);
  }

  /** `searchAnime(query)` keyed by the query it searches. */
  function SearchAnswer(e: Entries, query: string, page: Fetch<seq<Anchor>>, now: nat): seq<Title> {
    var c := Get(e, ExactSearchKey(query), now);
    if c.Some? && c.value.Titles? then c.value.titles
    else FreshSearch(e, query, page, now)
  }

  /** The entries after a search: on a miss, the catalogue's update and the answer. */
  function SearchStore(e: Entries, query: string, page: Fetch<seq<Anchor>>, now: nat): Entries {
    var c := Get(e, ExactSearchKey(query), now);
    if c.Some? && c.value.Titles? then e else MissStore(e, query, page, now)
  }

  /** The entries after a search that misses. */
  function MissStore(e: Entries, query: string, page: Fetch<seq<Anchor>>, now: nat): Entries {
    Put(CatalogStore(e, page, now), ExactSearchKey(query), Titles(FreshSearch(e, query, page, now)), SearchTtl, now)
  }

  /** With the key as written, "zq" and "zq " share an entry, while a catalogue
      holding a title "Zq" gives them different answers, whatever the popular
      list: whichever is searched first, the other is answered wrongly for an hour. */
  lemma SearchKeyCollision(popular: seq<Title>)
    ensures var t := Title(TitleId("zq"), "Zq", "zq", None, "");
            SearchKey("zq") == SearchKey("zq ")
            && SearchIn([t], popular, "zq")[0] == t
            && t !in SearchIn([t], popular, "zq ")
  {
    var t := Title(TitleId("zq"), "Zq", "zq", None, "");
    CollidingKeys();
    MatchedFirst(t, popular);
    Unmatched(t, popular);
  }

  lemma CollidingKeys()
    ensures SearchKey("zq") == SearchKey("zq ")
  {
    assert ToLower("zq ") == "zq ";
    assert ToLower("zq") == "zq";
    assert TrimStart("zq ") == "zq ";
    assert TrimEnd("zq ") == TrimEnd("zq");
  }

  lemma MatchedFirst(t: Title, popular: seq<Title>)
    requires t == Title(TitleId("zq"), "Zq", "zq", None, "")
    ensures SearchIn([t], popular, "zq")[0] == t
  {
    assert ToLower("zq") == "zq";
    assert ToLower(t.name) == "zq";
    assert StartsWith("zq", "zq");
    assert Hits([t], "zq", QuerySlug("zq")) == [t];
    SearchOrder([t], popular, "zq");
  }

  lemma Unmatched(t: Title, popular: seq<Title>)
    requires t == Title(TitleId("zq"), "Zq", "zq", None, "")
    ensures t !in SearchIn([t], popular, "zq ")
  {
    SpacedQuery();
    NotMatched(t);
    SearchSound([t], popular, "zq ", t);
  }

  lemma SpacedQuery()
    ensures ToLower("zq ") == "zq " && QuerySlug("zq ") == "zq-"
  {
    LowerSpaced();
    KeepSpaced();
    DashSpaced();
  }

  lemma LowerSpaced()
    ensures ToLower("zq ") == "zq "
  {
    assert LowerChar('z') == 'z' && LowerChar('q') == 'q' && LowerChar(' ') == ' ';
  }

  lemma KeepSpaced()
    ensures KeepSlugChars("zq ") == "zq "
  {
    assert "zq "[1..] == "q " && "q "[1..] == " " && " "[1..] == "";
    assert IsSpace(' ') && SlugChar('z') && SlugChar('q');
    assert KeepSlugChars(" ") == " ";
    assert KeepSlugChars("q ") == "q ";
  }

  lemma DashSpaced()
    ensures DashSpaces("zq ") == "zq-"
  {
    assert !IsSpace('z') && !IsSpace('q');
    DashTrailingSpace("zq");
    assert "zq" + " " == "zq ";
  }

  lemma NotMatched(t: Title)
    requires t == Title(TitleId("zq"), "Zq", "zq", None, "")
    ensures !Hit(t, "zq ", "zq-")
  {
    assert ToLower(t.name) == "zq";
    if Contains("zq", "zq ") {
      ContainsShorter("zq", "zq ");
    }
    if Contains("zq", "zq-") {
      ContainsShorter("zq", "zq-");
    }
  }

  /** With the exact key, an answer stored on a miss is, for an hour, the fresh
      answer to every query that shares its key, over the catalogue of that
      moment. */
  lemma SearchCached(e: Entries, query: string, other: string, page: Fetch<seq<Anchor>>,
                     later: Fetch<seq<Anchor>>, now: nat, t: nat)
    requires Get(e, ExactSearchKey(query), now).None?
    requires ExactSearchKey(other) == ExactSearchKey(query) && now <= t <= now + SearchTtl * 1000
    ensures SearchAnswer(SearchStore(e, query, page, now), other, later, t) == FreshSearch(e, other, page, now)
  {
    ExactSearchKeyInjective(other, query);
    SearchStoreHit(e, query, page, now, t);
  }

  lemma ExactSearchKeyInjective(a: string, b: string)
    requires ExactSearchKey(a) == ExactSearchKey(b)
    ensures a == b
  {
    assert a == ExactSearchKey(a)[7..];
    assert b == ExactSearchKey(b)[7..];
  }

  /** On a miss, the answer is stored under the query's key for an hour. */
  lemma SearchStoreHit(e: Entries, query: string, page: Fetch<seq<Anchor>>, now: nat, t: nat)
    requires Get(e, ExactSearchKey(query), now).None? && now <= t <= now + SearchTtl * 1000
    ensures Get(SearchStore(e, query, page, now), ExactSearchKey(query), t) == Some(Titles(FreshSearch(e, query, page, now)))
  {
    PutGet(CatalogStore(e, page, now), ExactSearchKey(query), Titles(FreshSearch(e, query, page, now)), SearchTtl, now);
  }

  /** A search that misses stores the catalogue as `getCatalog` does and the
      answer under its key, and keeps the entries valid. */
  lemma SearchStoreValid(e: Entries, query: string, page: Fetch<seq<Anchor>>, now: nat)
    requires ValidEntries(e)
    ensures ValidEntries(SearchStore(e, query, page, now))
  {
    CatalogStoreValid(e, page, now);
    MissStoreValid(e, query, page, now);
  }

  lemma MissStoreValid(e: Entries, query: string, page: Fetch<seq<Anchor>>, now: nat)
    requires ValidEntries(CatalogStore(e, page, now))
    ensures ValidEntries(MissStore(e, query, page, now))
  {
    var v := Titles(FreshSearch(e, query, page, now));
    assert Fits(ExactSearchKey(query), v);
    PutValid(CatalogStore(e, page, now), ExactSearchKey(query), v, SearchTtl, now);
  }

  // ---- getAnimeDetails ----

  /** The details computed from the page: the page's details, the defaults when
      it does not load, the single-season error result when an exception occurs. */
  function FreshDetails(slug: string, page: Fetch<DetailPage>): (r: Details)
    ensures r.id == TitleId(slug) && r.slug == slug && |r.seasons| > 0
    ensures page.Loaded? ==> r == PageDetails(slug, page.content)
    ensures page.Failed? ==> r == DefaultDetails(slug)
    ensures page.Raised? ==> r == ErrorDetails(slug) && |r.seasons| == 1
  {
    match page
    case Loaded(p) => PageDetails(slug, p)
    case Failed => DefaultDetails(slug)
    case Raised => ErrorDetails(slug)
  }

  function DetailsAnswer(e: Entries, slug: string, page: Fetch<DetailPage>, now: nat): Details {
    var c := Get(e, DetailsKey(slug), now);
    if c.Some? && c.value.DetailsValue? then c.value.details
    else FreshDetails(slug, page)
  }

  /** Only details read off a loaded page are stored. */
  function DetailsStore(e: Entries, slug: string, page: Fetch<DetailPage>, now: nat): Entries {
    var c := Get(e, DetailsKey(slug), now);
    if c.Some? && c.value.DetailsValue? then e
    else if page.Loaded? then Put(e, DetailsKey(slug), DetailsValue(FreshDetails(slug, page)), DetailsTtl, now) else e
  }

  /** Details read off a page on a miss are answered for two hours; the
      defaults of a failure are not stored. */
  lemma DetailsCached(e: Entries, slug: string, page: Fetch<DetailPage>, later: Fetch<DetailPage>, now: nat, t: nat)
    requires Get(e, DetailsKey(slug), now).None?
    ensures page.Loaded? && now <= t <= now + DetailsTtl * 1000 ==>
              DetailsAnswer(DetailsStore(e, slug, page, now), slug, later, t) == PageDetails(slug, page.content)
    ensures !page.Loaded? ==> DetailsStore(e, slug, page, now) == e
  {
    PutGet(e, DetailsKey(slug), DetailsValue(FreshDetails(slug, page)), DetailsTtl, now);
  }

  // ---- getSeasonEpisodes ----

  /** The episodes `1..EpisodeCount(page)` of the season. */
  function FreshEpisodes(slug: string, season: nat, lang: string, page: Fetch<SeasonPage>): (r: seq<Episode>)
    ensures |r| == EpisodeCount(page) && |r| >= 1
    ensures forall k :: 0 <= k < |r| ==> r[k] == MakeEpisode(slug, season, lang, k + 1)
  {
    seq(EpisodeCount(page), k requires 0 <= k < EpisodeCount(page) => MakeEpisode(slug, season, lang, k + 1))
  }

  function EpisodesAnswer(e: Entries, slug: string, season: nat, lang: string, page: Fetch<SeasonPage>, now: nat)
    : seq<Episode>
  {
    var c := Get(e, EpisodesKey(slug, season, lang), now);
    if c.Some? && c.value.EpisodeList? then c.value.episodes
    else FreshEpisodes(slug, season, lang, page)
  }

  /** The list is stored, the default twelve of a failed page too, except after an exception. */
  function EpisodesStore(e: Entries, slug: string, season: nat, lang: string, page: Fetch<SeasonPage>, now: nat)
    : Entries
  {
    var c := Get(e, EpisodesKey(slug, season, lang), now);
    if c.Some? && c.value.EpisodeList? then e
    else
      if page.Raised? then e
      else Put(e, EpisodesKey(slug, season, lang), EpisodeList(FreshEpisodes(slug, season, lang, page)), EpisodesTtl, now)
  }

  /** The fresh list is numbered `1..n` with distinct ids, `n` the page's
      largest episode signal or 12; a stored list is answered for an hour. */
  lemma EpisodesCached(e: Entries, slug: string, season: nat, lang: string, page: Fetch<SeasonPage>,
                       later: Fetch<SeasonPage>, now: nat, t: nat)
    requires Get(e, EpisodesKey(slug, season, lang), now).None?
    ensures var es := EpisodesAnswer(e, slug, season, lang, page, now);
            |es| == EpisodeCount(page)
            && (forall k :: 0 <= k < |es| ==> es[k].number == k + 1 && es[k].id == EpisodeId(slug, season, k + 1))
            && (forall k, m :: 0 <= k < m < |es| ==> es[k].id != es[m].id)
    ensures !page.Raised? && now <= t <= now + EpisodesTtl * 1000 ==>
              EpisodesAnswer(EpisodesStore(e, slug, season, lang, page, now), slug, season, lang, later, t)
              == FreshEpisodes(slug, season, lang, page)
    ensures page.Raised? ==> EpisodesStore(e, slug, season, lang, page, now) == e
  {
    var answer := FreshEpisodes(slug, season, lang, page);
    assert EpisodesAnswer(e, slug, season, lang, page, now) == answer;
    EpisodeListShape(slug, season, lang, answer);
    if !page.Raised? {
      var key := EpisodesKey(slug, season, lang);
      assert EpisodesStore(e, slug, season, lang, page, now) == Put(e, key, EpisodeList(answer), EpisodesTtl, now);
      PutGet(e, key, EpisodeList(answer), EpisodesTtl, now);
    }
  }

  // ---- getStreamUrls ----

  function StreamsAnswer(e: Entries, slug: string, season: nat, episode: nat, lang: string,
                         page: Fetch<SeasonPage>, now: nat): seq<Streams.Stream>
  {
    var c := Get(e, StreamKey(slug, season, episode, lang), now);
    if c.Some? && c.value.StreamList? then c.value.streams
    else Streams.EpisodeStreams(slug, season, episode, lang, page)
  }

  /** The streams are stored, the lone web link of a failed page too, except after an exception. */
  function StreamsStore(e: Entries, slug: string, season: nat, episode: nat, lang: string,
                        page: Fetch<SeasonPage>, now: nat): Entries
  {
    var c := Get(e, StreamKey(slug, season, episode, lang), now);
    if c.Some? && c.value.StreamList? then e
    else
      if page.Raised? then e
      else Put(e, StreamKey(slug, season, episode, lang),
               StreamList(Streams.EpisodeStreams(slug, season, episode, lang, page)), StreamsTtl, now)
  }

  lemma StreamsCached(e: Entries, slug: string, season: nat, episode: nat, lang: string,
                      page: Fetch<SeasonPage>, later: Fetch<SeasonPage>, now: nat, t: nat)
    requires Get(e, StreamKey(slug, season, episode, lang), now).None?
    ensures |StreamsAnswer(e, slug, season, episode, lang, page, now)| >= 1
    ensures !page.Raised? && now <= t <= now + StreamsTtl * 1000 ==>
              StreamsAnswer(StreamsStore(e, slug, season, episode, lang, page, now), slug, season, episode, lang, later, t)
              == Streams.EpisodeStreams(slug, season, episode, lang, page)
    ensures page.Raised? ==> StreamsStore(e, slug, season, episode, lang, page, now) == e
  {
    PutGet(e, StreamKey(slug, season, episode, lang),
           StreamList(Streams.EpisodeStreams(slug, season, episode, lang, page)), StreamsTtl, now);
  }

  // ---- getLatestEpisodes ----

  /** The latest episodes of a loaded home page, nothing otherwise. */
  function FreshLatest(page: Fetch<seq<Latest.HomeLink>>): (r: seq<Latest.LatestEntry>)
    ensures |r| <= Latest.MaxLatest
    ensures !page.Loaded? ==> r == []
  {
    match page
    case Loaded(links) => Latest.Capped(Latest.LatestOf(links))
    case _ => []
  }

  function LatestAnswer(e: Entries, page: Fetch<seq<Latest.HomeLink>>, now: nat): seq<Latest.LatestEntry> {
    var c := Get(e, LatestKey, now);
    if c.Some? && c.value.LatestList? then c.value.latest
    else FreshLatest(page)
  }

  /** Only a loaded home page's list is stored, an empty one included. */
  function LatestStore(e: Entries, page: Fetch<seq<Latest.HomeLink>>, now: nat): Entries {
    var c := Get(e, LatestKey, now);
    if c.Some? && c.value.LatestList? then e
    else if page.Loaded? then Put(e, LatestKey, LatestList(FreshLatest(page)), LatestTtl, now) else e
  }

  lemma LatestCached(e: Entries, page: Fetch<seq<Latest.HomeLink>>, later: Fetch<seq<Latest.HomeLink>>, now: nat, t: nat)
    requires Get(e, LatestKey, now).None?
    ensures page.Loaded? && now <= t <= now + LatestTtl * 1000 ==>
              LatestAnswer(LatestStore(e, page, now), later, t) == FreshLatest(page)
    ensures !page.Loaded? ==> LatestStore(e, page, now) == e && LatestAnswer(e, page, now) == []
  {
    PutGet(e, LatestKey, LatestList(FreshLatest(page)), LatestTtl, now);
  }

  /** The module state of scraper.js: its one cache. */
  class Scraper {
    const cache: Cache<Cached>

    /** Each live entry holds the kind of value its key names. */
    predicate Valid()
      reads cache
    {
      ValidEntries(cache.entries)
    }

    constructor ()
      ensures fresh(cache) && cache.entries == map[] && Valid()
    {
      cache := new Cache();
    }

    /** `getCatalog(skip, limit)`. */
    method GetCatalog(skip: int, limit: int, page: Fetch<seq<Anchor>>, now: nat) returns (r: seq<Title>)
      requires Valid()
      modifies cache
      ensures Valid()
      ensures r == JsSlice(CatalogSource(old(cache.entries), page, now), skip, skip + limit)
      ensures cache.entries == CatalogStore(old(cache.entries), page, now)
    {
      CatalogStoreValid(cache.entries, page, now);
      var cached := cache.Lookup(CatalogKey, now);
      if cached.Some? && cached.value.Titles? {
        return JsSlice(cached.value.titles, skip, skip + limit);
      }
      if page.Loaded? {
        var animes := ExtractCatalog(page.content);
        if |animes| > 0 {
          cache.Set(CatalogKey, Titles(animes), CatalogTtl, now);
          return JsSlice(animes, skip, skip + limit);
        }
      }
      return JsSlice(Popular, skip, skip + limit);
    }

    /** `searchAnime(query)`, with the search keyed by the query it searches. */
    method SearchAnime(query: string, page: Fetch<seq<Anchor>>, now: nat) returns (results: seq<Title>)
      requires Valid()
      modifies cache
      ensures Valid()
      ensures results == SearchAnswer(old(cache.entries), query, page, now)
      ensures cache.entries == SearchStore(old(cache.entries), query, page, now)
    {
      SearchStoreValid(cache.entries, query, page, now);
      var key := ExactSearchKey(query);
      var cached := cache.Lookup(key, now);
      if cached.Some? && cached.value.Titles? {
        return cached.value.titles;
      }
      ghost var before := cache.entries;
      var catalog := GetCatalog(0, SearchWindow, page, now);
      results := RunSearch(catalog, Popular, query);
      assert results == FreshSearch(before, query, page, now);
      cache.Set(key, Titles(results), SearchTtl, now);
    }

    /** `getAnimeDetails(slug)`. */
    method GetAnimeDetails(slug: string, page: Fetch<DetailPage>, now: nat) returns (d: Details)
      requires Valid()
      modifies cache
      ensures Valid()
      ensures d == DetailsAnswer(old(cache.entries), slug, page, now)
      ensures cache.entries == DetailsStore(old(cache.entries), slug, page, now)
    {
      var key := DetailsKey(slug);
      var cached := cache.Lookup(key, now);
      if cached.Some? && cached.value.DetailsValue? {
        return cached.value.details;
      }
      match page {
        case Failed => return DefaultDetails(slug);
        case Raised => return ErrorDetails(slug);
        case Loaded(p) =>
          var seasons := DiscoverSeasons(p.links);
          if |seasons| == 0 {
            seasons := DefaultSeasons;
          }
          seasons := SortSeasons(seasons);
          d := Details(TitleId(slug), PageTitle(p, slug), slug, PagePoster(p.images, slug),
                       PageDescription(p.paragraphs), PageGenres(p.genreCapture), seasons);
          assert d == PageDetails(slug, p);
          PutValid(cache.entries, key, DetailsValue(d), DetailsTtl, now);
          cache.Set(key, DetailsValue(d), DetailsTtl, now);
      }
    }

    /** `getSeasonEpisodes(slug, seasonNum, lang)`. */
    method GetSeasonEpisodes(slug: string, season: nat, lang: string, page: Fetch<SeasonPage>, now: nat)
      returns (episodes: seq<Episode>)
      requires Valid()
      modifies cache
      ensures Valid()
      ensures episodes == EpisodesAnswer(old(cache.entries), slug, season, lang, page, now)
      ensures cache.entries == EpisodesStore(old(cache.entries), slug, season, lang, page, now)
    {
      var key := EpisodesKey(slug, season, lang);
      var cached := cache.Lookup(key, now);
      if cached.Some? && cached.value.EpisodeList? {
        return cached.value.episodes;
      }
      if page.Raised? {
        episodes := SynthesizeEpisodes(slug, season, lang, 12);
        return;
      }
      var episodeCount := 12;
      if page.Loaded? {
        var maxEpisode := ScanMaxEpisode(page.content);
        if maxEpisode != 0 {
          episodeCount := maxEpisode;
        }
      }
      episodes := SynthesizeEpisodes(slug, season, lang, episodeCount);
      assert episodes == FreshEpisodes(slug, season, lang, page);
      PutValid(cache.entries, key, EpisodeList(episodes), EpisodesTtl, now);
      cache.Set(key, EpisodeList(episodes), EpisodesTtl, now);
    }

    /** `getStreamUrls(slug, seasonNum, episodeNum, lang)`. */
    method GetStreamUrls(slug: string, season: nat, episode: nat, lang: string, page: Fetch<SeasonPage>, now: nat)
      returns (streams: seq<Streams.Stream>)
      requires Valid()
      modifies cache
      ensures Valid()
      ensures streams == StreamsAnswer(old(cache.entries), slug, season, episode, lang, page, now)
      ensures cache.entries == StreamsStore(old(cache.entries), slug, season, episode, lang, page, now)
    {
      var key := StreamKey(slug, season, episode, lang);
      var cached := cache.Lookup(key, now);
      if cached.Some? && cached.value.StreamList? {
        return cached.value.streams;
      }
      if page.Raised? {
        return [Streams.WebLink(slug, season, lang)];
      }
      streams := [];
      if page.Loaded? {
        var candidates := Streams.CollectStreams(page.content, episode);
        streams := Streams.HostStreams(candidates);
      }
      if |streams| == 0 {
        streams := [Streams.WebLink(slug, season, lang)];
      }
      assert streams == Streams.EpisodeStreams(slug, season, episode, lang, page);
      PutValid(cache.entries, key, StreamList(streams), StreamsTtl, now);
      cache.Set(key, StreamList(streams), StreamsTtl, now);
    }

    /** `getLatestEpisodes()`. */
    method GetLatestEpisodes(page: Fetch<seq<Latest.HomeLink>>, now: nat) returns (result: seq<Latest.LatestEntry>)
      requires Valid()
      modifies cache
      ensures Valid()
      ensures result == LatestAnswer(old(cache.entries), page, now)
      ensures cache.entries == LatestStore(old(cache.entries), page, now)
    {
      var cached := cache.Lookup(LatestKey, now);
      if cached.Some? && cached.value.LatestList? {
        return cached.value.latest;
      }
      if !page.Loaded? {
        return [];
      }
      var latest := Latest.ScanLatest(page.content);
      result := Latest.Capped(latest);
      PutValid(cache.entries, LatestKey, LatestList(result), LatestTtl, now);
      cache.Set(LatestKey, LatestList(result), LatestTtl, now);
    }
  }
}
