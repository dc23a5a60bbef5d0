# anime-sama-stremio scraper core, modelled in Dafny

This project models the core of the Stremio add-on for Anime-Sama. The core lives
in two files:

- `src/scraper.js` reads the anime-sama.org pages. From them it builds:
  - the catalogue;
  - the search answer;
  - the details of a title, with its seasons;
  - the episodes and the stream links of a season;
  - the latest episodes.

  It also holds the hand-written `POPULAR_ANIMES` fallback list and one shared cache.
- `src/cinemeta.js` looks up the IMDb id of a title. It first consults the
  hand-written `ANIME_IMDB_MAP`. Otherwise it searches Cinemeta, cleaning the
  name before the search and choosing the best match afterwards. It keeps its own
  cache for a day.

Pages enter the model after they are parsed. A page is a sequence of records, such as
the anchors of the listing page, the links and paragraphs of a title page, or the
`eps` arrays, options and iframes of a player page. Every fetch arrives as a
`Fetch<T>` with three cases:

- `Loaded(content)`: status 200 with data;
- `Failed`: any other status, or no data;
- `Raised`: an exception reached the operation's catch block.

The clock is an explicit `now` parameter, in milliseconds.

The modules follow the program:

- **Text**: the JavaScript string operations the code uses, including `trim`, `toLowerCase`, `includes`, `split`, `substring` and `parseInt` of digits.
- **Patterns**: the regular expressions `/\/catalogue\/([^\/]+)/`, `saison(\d+)` and `[ÉEe]pisode\s*(\d+)`, each read as the leftmost match.
- **NodeCache**: the keyed, expiring store.
- **Catalog**: the listing page, `POPULAR_ANIMES` and `slice`.
- **Search**: the query slug, the filter, the merge of popular entries and the placeholder.
- **Details**: the title page, including title, poster, description, genres, and season discovery and sorting.
- **Player**, **Episodes**, **Streams**: the player page, the two in-page scripts, episode synthesis and the stream fallback.
- **Latest**: the home page's latest episodes.
- **Scraper**: the six exported operations as methods of a class that owns the shared cache.
- **Cinemeta**: cleaning, best match, the record, the IMDb map and `getImdbId`, as a class that owns its cache.

Loops of the source are methods with loop invariants, each proved equal to a specification function. This covers:

- the catalogue scan;
- the popular merge;
- the season discovery;
- both in-page scripts;
- episode synthesis;
- the latest scan;
- the best-match loop.

The properties are lemmas about those functions.

## Model

| member | source | states |
|---|---|---|
| Patterns.CatalogueSlugFrom | src/scraper.js:108 | the capture is none exactly when `/catalogue/` followed by a character other than '/' occurs nowhere; otherwise it is the run of characters other than '/' after the leftmost such occurrence |
| Catalog.AnchorSlug | src/scraper.js:99-112 | a slug exactly for a title link (contains "/catalogue/", does not end in "/catalogue/" or "/catalogue", none of "/saison", "/vostfr", "/vf", "/vo") whose capture has at least 2 characters; the slug is then the lower-cased capture, with no '/' and no upper-case ASCII letter |
| Catalog.CapturedSlug | src/scraper.js:111-112 | lower-casing keeps the capture's length and leaves no trailing '/', so the slug is the lower-cased capture when it has at least 2 characters, and none otherwise |
| Catalog.NameCandidate | src/scraper.js:117-119 | the trimmed heading when it is non-empty, else the non-empty alt text, else the first line of the trimmed anchor text (a prefix of it with no line break, cut at the first one) |
| Catalog.EntryName | src/scraper.js:117-124 | the candidate cut to 100 characters and trimmed, when that has at least 2 characters, else the title-cased slug; a candidate of 2 to 100 characters without white space at its ends is the name unchanged |
| Catalog.AnchorPoster | src/scraper.js:127-130 | the source is the non-empty src, else the data-src; no poster exactly when that is absent; an empty or "http" source is kept; any other source is joined to the site address with exactly one '/' between them; the poster always ends with the source, and a non-empty one starts with "http" |
| Catalog.ExtractCatalog | src/scraper.js:90-142 | the `each` loop with its `seenSlugs` set computes exactly the scan `CatalogOf` of the anchors |
| Catalog.CatalogIsDedupe | src/scraper.js:90-142 | the scan equals the independent definition: the candidate entries of the title links in document order, with repeated slugs dropped (first one wins) |
| Catalog.CatalogUnique | src/scraper.js:112-114 | the catalogue never holds a slug twice |
| Catalog.CatalogEntryFrom | src/scraper.js:108-140 | every catalogue entry was built from an anchor whose slug it carries |
| Catalog.CatalogComplete | src/scraper.js:108-114 | every slug some title link contributes is in the catalogue |
| Catalog.AppendNewUnique | src/scraper.js:190-194 | appending only titles with new slugs keeps slugs unique |
| Catalog.AppendNewSlugs | src/scraper.js:190-194 | the earlier list stays in front, and no slug of either list is lost |
| Catalog.AppendNewFirst | src/scraper.js:190-194 | each appended title has a slug not yet present and comes from the appended list |
| Catalog.PageWindow | src/scraper.js:73 | `slice(skip, skip + limit)` is the window of at most `limit` entries at `skip`, empty when `skip` is past the end |
| Catalog.PopularShape | src/scraper.js:14-63 | `POPULAR_ANIMES` gives 40 titles, each with the id `animesama:{slug}`, no poster, and the description "Regardez {name} en streaming VOSTFR/VF sur Anime-Sama" |
| Catalog.PopularUnique | src/scraper.js:14-63 | no two titles of `POPULAR_ANIMES` share a slug |
| Catalog.JsSliceUnique | src/scraper.js:73 | a `slice` window of a list with unique slugs has unique slugs |
| Catalog.FullCatalogUnique | src/scraper.js:84-157 | the full list, live or `POPULAR_ANIMES`, has each slug once |
| Search.QuerySlug | src/scraper.js:175-176 | the query slug has only `[a-z0-9-]` characters |
| Search.QuerySlugIdempotent | src/scraper.js:175-176 | normalising a query slug again changes nothing |
| Search.KeepSlugChars | src/scraper.js:176 | only slug characters and white space remain, and a string of those is unchanged |
| Search.DashSpaces | src/scraper.js:176 | no white space remains, and a string without white space is unchanged |
| Search.Hits | src/scraper.js:178-181 | the filter keeps only titles of the list that the query matches |
| Search.HitsComplete | src/scraper.js:178-181 | every matching title of the list is kept |
| Search.HitsUnique | src/scraper.js:178-181 | filtering a list with unique slugs keeps them unique |
| Search.SearchIn | src/scraper.js:174-208 | the answer is never empty |
| Search.MergePopular | src/scraper.js:190-194 | the push loop appends exactly the popular hits whose slug is new |
| Search.RunSearch | src/scraper.js:174-208 | the body after the catalogue fetch computes exactly `SearchIn` |
| Search.SearchPlaceholder | src/scraper.js:197-208 | with no hit, the answer is the single placeholder, whose slug is the query slug; otherwise every entry is a matching catalogue or popular title |
| Search.SearchSound | src/scraper.js:178-208 | a title the query does not match is never in the answer, unless it is the placeholder |
| Search.SearchOrder | src/scraper.js:178-195 | the catalogue hits come first and in order; five or more hits are the whole answer; with fewer, every popular hit's slug is in the answer and each added title has a slug not among the catalogue hits |
| Search.SearchUnique | src/scraper.js:178-195 | a catalogue with unique slugs gives an answer with unique slugs |
| Details.SeasonKeyInjective | src/scraper.js:325 | the key `s{n}_{lang}` determines the number and the language |
| Details.PageTitle | src/scraper.js:256-258 | the title is the first h1's text, else the first h2's, else the title-cased slug |
| Details.Qualify | src/scraper.js:266 | the result starts with "http" and ends with the source; a source starting with "http" is kept, any other one is prefixed by the site address |
| Details.PosterLikeFrom | src/scraper.js:262-268 | none exactly when no image from the index on is poster-like; otherwise the first poster-like one's src made absolute, which starts with "http" |
| Details.PosterLikeSrc | src/scraper.js:262-268 | none exactly when no image is poster-like (src mentions "poster" or "cover", or the lower-cased alt mentions the slug's first word); otherwise the first poster-like image's src made absolute |
| Details.PagePoster | src/scraper.js:261-274 | the first poster-like image when there is one; else none without images or without a src on the first image; else the first image's src, made absolute unless empty |
| Details.FirstDescriptionAt | src/scraper.js:278-284 | the index found is that of the first suitable trimmed paragraph |
| Details.FirstDescriptionIs | src/scraper.js:278-284 | the first suitable trimmed paragraph is the one the search finds |
| Details.PageDescription | src/scraper.js:277-284 | the trimmed text of the first paragraph whose trimmed text has 101 to 1999 characters and no '©'; the default text when no paragraph qualifies |
| Details.KeptGenres | src/scraper.js:291-296 | only pieces of 3 to 29 characters without ':' are kept, and each kept piece comes from the list |
| Details.KeptGenresAppend | src/scraper.js:291-296 | keeping distributes over concatenation, so the kept pieces are in list order |
| Details.KeptGenresSingle | src/scraper.js:293-294 | a single piece is kept exactly when it qualifies |
| Details.KeptGenresComplete | src/scraper.js:291-296 | every piece that qualifies is kept |
| Details.Genres | src/scraper.js:291-297 | the first min(5, n) of the n kept pieces, in order, each a qualifying piece of the list; when fewer than 5 are returned, every qualifying piece is among them |
| Details.PageGenres | src/scraper.js:287-297 | at most 5 genres, none without a captured genre list |
| Details.LinkSeasonNumber | src/scraper.js:309-310 | the number is that of `saison(\d+)` in the href, else of `saison\s*(\d+)` in the text, else 1 |
| Details.LinkLangs | src/scraper.js:313-322 | a season link offers VOSTFR, VF or both, never none and never one twice |
| Details.AddLinkSeasons | src/scraper.js:324-335 | the inner loop adds each season of the link whose key is new, and keeps `seenSeasons` equal to the set of keys |
| Details.DiscoverSeasons | src/scraper.js:300-337 | the scan over the links computes exactly `SeasonsOf` |
| Details.SeasonsOfUnique | src/scraper.js:324-327 | the discovered seasons have each key once |
| Details.SeasonsOfKeys | src/scraper.js:325-333 | every discovered season carries the key of its number and language |
| Details.SortSeasons | src/scraper.js:348-351 | sorting returns a permutation of its input |
| Details.SortSeasonsSorted | src/scraper.js:348-351 | the sorted list is ordered by number, with VOSTFR before VF at equal number |
| Details.SortSeasonsUnique | src/scraper.js:348-351 | sorting keeps the keys unique |
| Details.SortSeasonsStrict | src/scraper.js:348-351 | well-formed seasons with unique keys sort to a strictly increasing list |
| Details.DefaultSeasonsSorted | src/scraper.js:339-345 | the two default seasons `s1_vostfr`, `s1_vf` are already in order |
| Details.PageSeasonsProperties | src/scraper.js:300-351 | the seasons shown are strictly ordered, have unique keys and are a permutation of the discovered seasons; with none discovered they are exactly the two defaults |
| Details.PageSeasonsNonEmpty | src/scraper.js:339-351 | the seasons shown are never empty: the two defaults stand in when no link gives a season, and sorting keeps the count |
| Details.PageDetails | src/scraper.js:253-362 | a loaded page gives the requested id and slug; the page's title and poster; the trimmed first suitable paragraph as description, else the default text; the page's genres (at most 5, genre-like) and its sorted seasons (at least one) |
| Player.SeasonUrl | src/scraper.js:485 | the URL is the head `https://anime-sama.org/catalogue/{slug}/saison`, then the season number's decimal text, then `/{lang}/` |
| Player.SeasonUrlInjective | src/scraper.js:485 | different seasons of a title and language have different URLs |
| Episodes.ArrayMax | src/scraper.js:414-417 | the running maximum bounds every eps array's length and is the start value or one of them |
| Episodes.ScriptsMax | src/scraper.js:408-419 | the maximum over all scripts bounds every eps array and is 0 or the length of one |
| Episodes.OptionsMax | src/scraper.js:422-428 | the running maximum bounds every announced option number and is the start value or one of them |
| Episodes.MaxEpisode | src/scraper.js:406-430 | `maxEpisode` is at least every eps array's length and every option's number, and is 0 or one of these signals |
| Episodes.ScanArrays | src/scraper.js:412-418 | the `forEach` over one script's eps declarations computes exactly the running maximum `ArrayMax` |
| Episodes.ScanOptions | src/scraper.js:422-428 | the option loop computes exactly the running maximum `OptionsMax` of the announced numbers |
| Episodes.ScanMaxEpisode | src/scraper.js:400-430 | the in-page script's loops compute exactly `MaxEpisode` |
| Episodes.EpisodeCount | src/scraper.js:433-437 | the count is `maxEpisode` when the page loads with a non-zero one, and 12 otherwise (also after an exception) |
| Episodes.SynthesizeEpisodes | src/scraper.js:439-449 | the loop produces exactly `count` episodes, the k-th numbered k + 1, with the season, language, id and title of that number |
| Episodes.EpisodeIdParts | src/scraper.js:442 | an id `animesama:{slug}:{season}:{i}` splits at ':' back into its four parts, and the last two parse back to the season and the number, when the slug has no ':' |
| Episodes.EpisodeIdsDistinct | src/scraper.js:442 | different numbers of one season give different ids |
| Episodes.EpisodeListShape | src/scraper.js:439-449 | the episodes are numbered 1..count in order, with the requested season and language and pairwise distinct ids |
| Streams.PlayerName | src/scraper.js:508 | a player name is never empty |
| Streams.EpsStream | src/scraper.js:503-511 | an eps array yields a stream exactly when its element at `epNum - 1` exists and starts with "http"; the stream carries that URL |
| Streams.ArrayStreams | src/scraper.js:492-513 | at most one stream per eps array, each with an http URL |
| Streams.ArrayStreamsComplete | src/scraper.js:498-512 | every eps array that has the episode contributes its stream |
| Streams.ArrayStreamsSound | src/scraper.js:498-512 | every stream comes from one of the eps arrays |
| Streams.IframeStream | src/scraper.js:516-523 | an iframe yields a stream only for an http source (its src, else its data-src), named `Lecteur Embed {idx + 1}` |
| Streams.IframeStreams | src/scraper.js:516-524 | at most one stream per iframe, each with an http URL |
| Streams.PageStreams | src/scraper.js:489-526 | every stream the in-page script returns has an http URL |
| Streams.CollectScript | src/scraper.js:496-512 | the loop over one script's eps declarations appends exactly their streams |
| Streams.CollectIframes | src/scraper.js:516-524 | the iframe loop appends exactly `IframeStreams` of the page's iframes |
| Streams.CollectStreams | src/scraper.js:489-526 | the in-page script computes exactly `PageStreams` |
| Streams.HostStreams | src/scraper.js:531-536 | each candidate becomes one "HD" stream with its URL, and its name or "Lecteur" |
| Streams.EpisodeStreams | src/scraper.js:529-547 | never empty; it is exactly the single web link to the season page iff the page did not load or gave no candidate; otherwise one HD, non-web-link stream with an http URL per candidate, in order |
| Latest.LinkSlug | src/scraper.js:592-596 | only a catalogue link whose text mentions an episode gives a slug, which is non-empty and has no '/' |
| Latest.EntryOf | src/scraper.js:599-607 | episode and season are the numbers after "Episode" and "Saison" in the text, else 1; the title is the prefix of the text of length min(100, its length) |
| Latest.ScanLatest | src/scraper.js:585-610 | the `each` loop with its `seen` set computes exactly `LatestOf` |
| Latest.Capped | src/scraper.js:612 | at most 30 entries, the first ones of the list |
| Latest.CollectUnique | src/scraper.js:596-597 | the scan never keeps a slug twice |
| Latest.LatestSources | src/scraper.js:588-610 | every entry is the entry of some qualifying link, and every qualifying link's slug is among the entries |
| Latest.RecentProperties | src/scraper.js:588-612 | at most 30 entries with distinct, non-empty slugs free of '/', and titles of at most 100 characters |
| NodeCache.PutGet | src/scraper.js:148 | a value set is returned up to its expiry and not after, and every other key answers as before |
| NodeCache.Cache.Set | src/scraper.js:148 | `set` stores the value under the key until `now + ttl * 1000` and leaves every other key's answer unchanged |
| Scraper.Scraper.constructor | src/scraper.js:6 | the shared cache starts empty, which is a valid state |
| NodeCache.Cache.constructor | src/scraper.js:6 | a new cache holds no entry |
| Cinemeta.Client.constructor | src/cinemeta.js:5 | the Cinemeta cache starts empty |
| Scraper.SearchKey | src/scraper.js:165 | the key as the code writes it starts with "search_", is never longer than "search_" plus the query, and the part after "search_" has no white space at either end |
| Scraper.ExactSearchKey | src/scraper.js:165 | the corrected search key starts with `search_` |
| Scraper.ExactSearchKeyInjective | src/scraper.js:165 | two queries share a corrected search key only when they are equal |
| Scraper.DetailsKey | src/scraper.js:223 | the details key starts with `details_` |
| Scraper.EpisodesKey | src/scraper.js:390 | the episodes key starts with `episodes_` |
| Scraper.StreamKey | src/scraper.js:478 | the stream key starts with `stream_` |
| Text.Trim | src/scraper.js:117 | `trim` leaves no white space at either end, and a string without white space at its ends is unchanged |
| Text.TrimShape | src/scraper.js:117 | the trimmed string is the piece of the input right after its leading white space, and only white space is dropped at either end |
| Text.TrimOffset | src/scraper.js:117 | the number of leading white-space characters: all before it are white space, the one at it is not |
| Text.ParseNatToString | src/scraper.js:442 | parsing the decimal text of a number gives the number back |
| Text.NatToStringInjective | src/scraper.js:442 | different numbers have different decimal texts |
| Scraper.FitsKind | src/scraper.js:6 | the key prefixes are disjoint, so a key's prefix decides which kind of value may be stored under it |
| Scraper.ValidGet | src/scraper.js:70-71 | in valid entries, a live entry read under an operation's key is of that operation's kind |
| Scraper.CatalogCached | src/scraper.js:70-157 | a non-empty live catalogue fetched on a miss is the list every call slices for two hours, whatever page it is given; a fallback is never stored and the popular list is served |
| Scraper.CatalogStoreValid | src/scraper.js:148 | `getCatalog` keeps the cache valid and touches no other key |
| Scraper.CatalogWindowUnique | src/scraper.js:68-159 | while the stored catalogue has unique slugs, every window `getCatalog` returns (cached, live or fallback) has unique slugs |
| Scraper.CatalogStoreUnique | src/scraper.js:147-148 | `getCatalog` only stores a catalogue with unique slugs |
| Scraper.SearchKeyCollision | src/scraper.js:165-210 | with the key as written, "zq" and "zq " share a cache entry although a catalogue holding "Zq" gives them different answers |
| Scraper.SearchCached | src/scraper.js:165-210 | with the corrected key, an answer stored on a miss is, for an hour, the fresh answer to every query with that key |
| Scraper.SearchStoreValid | src/scraper.js:173-210 | a search keeps the cache valid |
| Scraper.FreshSearchUnique | src/scraper.js:173-208 | while the stored catalogue has unique slugs, a fresh search answer has unique slugs |
| Scraper.FreshDetails | src/scraper.js:235-382 | the page's details when it loads, the two-season default on a failed fetch, the single `s1_vostfr` error result after an exception; id and slug always those requested |
| Scraper.DetailsCached | src/scraper.js:223-364 | details read off a page on a miss are answered for two hours; the defaults of a failure are not stored |
| Scraper.FreshEpisodes | src/scraper.js:433-449 | `EpisodeCount` episodes, the k-th built for number k + 1 |
| Scraper.EpisodesCached | src/scraper.js:390-470 | the fresh list is numbered 1..count with distinct ids; it is stored for an hour unless an exception occurred |
| Scraper.StreamsCached | src/scraper.js:478-561 | the answer is never empty; it is stored for 30 minutes, the failed page's web link too, unless an exception occurred |
| Scraper.FreshLatest | src/scraper.js:580-620 | at most 30 entries, and none when the home page does not load |
| Scraper.LatestCached | src/scraper.js:569-613 | a loaded home page's list is answered for 15 minutes; nothing is stored otherwise |
| Scraper.Scraper.GetCatalog | src/scraper.js:68-159 | returns the window of the cached, live or popular list and stores only a non-empty live list, keeping the cache valid |
| Scraper.Scraper.SearchAnime | src/scraper.js:164-211 | returns the cached answer on a hit, else the search over the catalogue's first 1000 entries, storing it for an hour, and the catalogue as `getCatalog` stores it |
| Scraper.Scraper.GetAnimeDetails | src/scraper.js:222-384 | returns the cached details on a hit, else the page's, default or error details, storing only the page's |
| Scraper.Scraper.GetSeasonEpisodes | src/scraper.js:389-472 | returns the cached list on a hit, else the synthesised one, stored unless an exception occurred |
| Scraper.Scraper.GetStreamUrls | src/scraper.js:477-563 | returns the cached streams on a hit, else `EpisodeStreams`, stored unless an exception occurred |
| Scraper.Scraper.GetLatestEpisodes | src/scraper.js:568-622 | returns the cached list on a hit, else the capped scan of a loaded page (stored) or nothing |
| Cinemeta.RemoveGroups | src/cinemeta.js:20 | no '(' is left before a ')', every character comes from the name, and a name without '(' or without ')' is unchanged |
| Cinemeta.RemoveGroupsDrops | src/cinemeta.js:20 | the first group, up to the first ')' after the first '(', is removed with its parentheses and the text before it is kept |
| Cinemeta.RemoveGroupsPrefix | src/cinemeta.js:20 | text without '(' in front of a string is kept as it is |
| Cinemeta.SpaceSeparators | src/cinemeta.js:21 | every ':' and '-' becomes a space and every other character stays |
| Cinemeta.CleanName | src/cinemeta.js:19-22 | the cleaned name has no ':' or '-', no '(' before a ')', and no white space at either end |
| Cinemeta.CleanNameShape | src/cinemeta.js:19-22 | the cleaned name is the name with its groups removed and ':' and '-' made spaces, with only white space dropped at either end |
| Cinemeta.ScanFrom | src/cinemeta.js:34-44 | the loop stops at the first result whose name is close to the searched name, or throws at the first result without a name, and every result before the stop has a name that is not close |
| Cinemeta.BestMatch | src/cinemeta.js:33-44 | the loop with `break` returns the first close result, else `results[0]`, or nothing when it throws first |
| Cinemeta.RecordOf | src/cinemeta.js:46-54 | the record keeps id, name, poster and year; the background falls back to the poster and the genres to [] |
| Cinemeta.SearchResult | src/cinemeta.js:28-66 | a record exists only for a non-empty metas list, and it is the best match's record |
| Cinemeta.SearchKey | src/cinemeta.js:13 | the cache key starts with "cinemeta_", is never longer than "cinemeta_" plus the name, and the part after "cinemeta_" has no white space at either end |
| Cinemeta.Mapped | src/cinemeta.js:149-150 | a mapped slug answers exactly when it is a key of `ANIME_IMDB_MAP`, since every id there is truthy, and the answer is that key's id, which starts with "tt" |
| Cinemeta.SearchText | src/cinemeta.js:154 | the name when it is non-empty, else the slug with '-' made spaces |
| Cinemeta.Client.SearchAnime | src/cinemeta.js:12-66 | the cached record on a hit, keyed `cinemeta_` plus the lower-cased trimmed name; else the fresh record, stored for a day; nothing is stored for null |
| Cinemeta.Client.ImdbId | src/cinemeta.js:147-156 | a mapped slug answers its map entry without a search and without touching the cache; otherwise the imdbId of what searching the name (or the spaced slug) answers, with the cache changed exactly as that search changes it |
| Cinemeta.CachedSearchStable | src/cinemeta.js:13-15 | while a record is cached, every name with that key is answered the stored record, whatever Cinemeta would answer |
| Cinemeta.MappedIds | src/cinemeta.js:100-142 | every mapped id starts with "tt" and has at least 9 characters; the one for kuroko-no-basket is not all digits after "tt" |

## Left out

- Loading pages is not modelled. Puppeteer in src/browser.js, axios, Cheerio and CSS selectors are replaced by the parsed page records and the `Fetch` outcome, which are inputs.
- The genre regex `Genre[s]?\s*:?\s*([^\n\.]+)` over the body text is not modelled. Its captured group is an input (`genreCapture`).
- The tokenising of the `eps` array declarations by regex is not modelled. Each declaration is given as its variable name and its quoted strings.
- The resolution of a relative iframe `src` by the DOM is not modelled. The `src` is taken as given.
- `toLowerCase` and `toUpperCase` cover ASCII and the Latin-1 letters only. Lengths count characters, not UTF-16 code units.
- `parseInt` is read as the exact value of the captured digits, with no floating-point rounding of very long digit strings.
- Details.SortSeasons: the in-place `Array.prototype.sort` is modelled as a pure insertion sort with the same comparator. The seasons always have unique keys, so the order is the one any correct sort gives.
- The node-cache library is not modelled, including `checkperiod` sweeping, cloning of stored values and `stdTTL` when no TTL is given. The cache is a map with explicit expiry times.
- The clock, the `waitTime` delays, the console output and the error messages are left out.
- The `catch` of scraper.js `searchAnime` is not modelled. Nothing inside its `try` can throw, because `getCatalog` catches its own errors.
- Scraper.Scraper.GetStreamUrls and Scraper.StreamKey take the episode number as a natural number. A negative or non-numeric episode argument is not modelled.
- Scraper.Scraper.SearchAnime: the model's search key is the exact query (`ExactSearchKey`), not the lower-cased, trimmed key the code writes. The as-written key is `Scraper.SearchKey`; see Findings.
- Cinemeta.Mapped: only the 41 own keys of `ANIME_IMDB_MAP` are modelled. Keys inherited from `Object.prototype` (such as "constructor") are not.
- Cinemeta: `getMeta` (src/cinemeta.js:71-95) and the network request are left out. The Cinemeta answer is an input.
- src/addon.js and index.js are not part of this model.

A link to "saison0" gives a season numbered 0. The model follows the code.

## Findings

| source | as written | input that shows it | evidently intended | confidence | as-written member | corrected member |
|---|---|---|---|---|---|---|
| src/scraper.js:165-210 | The result is cached under `search_` plus the lower-cased, trimmed query. The result itself is computed from the raw query, and a trailing space turns into a `-` in the query slug. | A catalogue holds the title "Zq" (slug `zq`). Searching "zq " misses it, and that answer is then served for "zq" for an hour. If "zq" is searched first, its answer is served for "zq ". | A cached answer is the answer a fresh search would give for every query that shares its key. | medium (not executed) | Scraper.SearchKeyCollision | Scraper.SearchCached |
