/**
 * The title page of scraper.js's `getAnimeDetails`: the page title, poster,
 * description and genres, the season links with their `s{n}_{lang}` keys, the
 * sort of the seasons, and the results the function degrades to.
 */
module Details {
  import opened Wrappers
  import opened Text
  import opened Patterns
  import opened Catalog

  datatype Lang = Vostfr | Vf

  /** The language as it appears in keys and URLs. */
  function LangCode(l: Lang): string {
    match l
    case Vostfr => "vostfr"
    case Vf => "vf"
  }

  /** The language as shown in a season's name (`lang.toUpperCase()`). */
  function LangLabel(l: Lang): string {
    match l
    case Vostfr => "VOSTFR"
    case Vf => "VF"
  }

  datatype Season = Season(key: string, number: nat, lang: Lang, name: string)

  /** The key `s{n}_{lang}`. */
  function SeasonKey(n: nat, l: Lang): string {
    "s" + NatToString(n) + "_" + LangCode(l)
  }

  function MakeSeason(n: nat, l: Lang): Season {
    Season(SeasonKey(n, l), n, l, "Saison " + NatToString(n) + " (" + LangLabel(l) + ")")
  }

  /** A key names one season number and one language. */
  lemma SeasonKeyInjective(n: nat, l: Lang, m: nat, k: Lang)
    requires SeasonKey(n, l) == SeasonKey(m, k)
    ensures n == m && l == k
  {
    var a, b := NatToString(n), NatToString(m);
    var key := SeasonKey(n, l);
    assert key == "s" + a + "_" + LangCode(l);
    assert key == "s" + b + "_" + LangCode(k);
    assert key[1 + |a|] == '_';
    assert key[1 + |b|] == '_';
    assert |a| == |b|;
    assert a == key[1..1 + |a|] == b;
    NatToStringInjective(n, m);
    assert LangCode(l) == key[2 + |a|..] == LangCode(k);
  }

  /** An image of the page: its src and alt attributes. */
  datatype Img = Img(src: Option<string>, alt: Option<string>)

  /** A link of the page: its href attribute and its text. */
  datatype Link = Link(href: Option<string>, text: string)

  /** The parts of a title page the scraper reads. `genreCapture` is group 1 of
      the first match of `/Genre[s]?\s*:?\s*([^\n\.]+)/i` in the body text. */
  datatype DetailPage = DetailPage(
    h1: string,                  // text of the first h1, "" if none
    h2: string,                  // text of the first h2, "" if none
    images: seq<Img>,
    paragraphs: seq<string>,     // text of each p
    genreCapture: Option<string>,
    links: seq<Link>)

  datatype Details = Details(
    id: string,
    name: string,
    slug: string,
    poster: Option<string>,
    description: string,
    genres: seq<string>,
    seasons: seq<Season>)

  const DefaultDescription: string := "Regardez cet anime en streaming sur Anime-Sama"

  /** The two seasons assumed when the page shows none. */
  const DefaultSeasons: seq<Season> := [MakeSeason(1, Vostfr), MakeSeason(1, Vf)]

  /** The result when the page cannot be loaded. */
  function DefaultDetails(slug: string): Details {
    Details(TitleId(slug), TitleCaseSlug(slug), slug, None, DefaultDescription, [], DefaultSeasons)
  }

  /** The result when an exception occurs: a single VOSTFR season 1. */
  function ErrorDetails(slug: string): Details {
    Details(TitleId(slug), TitleCaseSlug(slug), slug, None, DefaultDescription, [], [MakeSeason(1, Vostfr)])
  }

  /** The first h1's text, else the first h2's, else the title-cased slug. */
  function PageTitle(p: DetailPage, slug: string): (r: string)
    ensures Trim(p.h1) != "" ==> r == Trim(p.h1)
    ensures Trim(p.h1) == "" && Trim(p.h2) != "" ==> r == Trim(p.h2)
    ensures Trim(p.h1) == "" && Trim(p.h2) == "" ==> r == TitleCaseSlug(slug)
  {
    if Trim(p.h1) != "" then Trim(p.h1)
    else if Trim(p.h2) != "" then Trim(p.h2)
    else TitleCaseSlug(slug)
  }

  /** An image that looks like the poster: "poster" or "cover" in its src, or the
      slug's first word in its lower-cased alt text. */
  predicate PosterLike(img: Img, slug: string) {
    var src := img.src.GetOr("");
    Contains(src, "poster") || Contains(src, "cover")
    || Contains(ToLower(img.alt.GetOr("")), FirstPiece(slug, '-'))
  }

  /** A poster src made absolute by prefixing the site's address. */
  function Qualify(src: string): (r: string)
    ensures StartsWith(r, "http") && EndsWith(r, src)
    ensures StartsWith(src, "http") ==> r == src
    ensures !StartsWith(src, "http") ==> |r| == |BaseUrl| + |src| && StartsWith(r, BaseUrl)
  {
    if StartsWith(src, "http") then src
    else
      assert (BaseUrl + src)[..4] == "http";
      assert (BaseUrl + src)[..|BaseUrl|] == BaseUrl;
      assert (BaseUrl + src)[|BaseUrl|..] == src;
      BaseUrl + src
  }

  /** Image `k` is the first poster-like one at index `i` or later. */
  predicate FirstPosterLike(images: seq<Img>, slug: string, i: nat, k: nat) {
    i <= k < |images| && PosterLike(images[k], slug)
    && forall j :: i <= j < k ==> !PosterLike(images[j], slug)
  }

  /** The first poster-like image of `images` at index `i` or later, made absolute. */
  function PosterLikeFrom(images: seq<Img>, slug: string, i: nat): (r: Option<string>)
    requires i <= |images|
    ensures r.None? <==> forall k :: i <= k < |images| ==> !PosterLike(images[k], slug)
    ensures r.Some? ==> StartsWith(r.value, "http")
    ensures forall k: nat :: FirstPosterLike(images, slug, i, k) ==> r == Some(Qualify(images[k].src.GetOr("")))
    decreases |images| - i
  {
    if i == |images| then None
    else if PosterLike(images[i], slug) then
      FirstPosterLikeHere(images, slug, i);
      Some(Qualify(images[i].src.GetOr("")))
    else
      FirstPosterLikeNext(images, slug, i);
      PosterLikeFrom(images, slug, i + 1)
  }

  /** A poster-like image is the first one from its own index on. */
  lemma FirstPosterLikeHere(images: seq<Img>, slug: string, i: nat)
    requires i < |images| && PosterLike(images[i], slug)
    ensures forall k: nat :: FirstPosterLike(images, slug, i, k) ==> k == i
  {
  }

  /** Past an image that is not poster-like, the first poster-like one is unchanged. */
  lemma FirstPosterLikeNext(images: seq<Img>, slug: string, i: nat)
    requires i < |images| && !PosterLike(images[i], slug)
    ensures forall k: nat :: FirstPosterLike(images, slug, i, k) ==> FirstPosterLike(images, slug, i + 1, k)
  {
  }

  /** The first poster-like image of `images`, made absolute. */
  function PosterLikeSrc(images: seq<Img>, slug: string): (r: Option<string>)
    ensures r.None? <==> forall i :: 0 <= i < |images| ==> !PosterLike(images[i], slug)
    ensures r.Some? ==> StartsWith(r.value, "http")
    ensures forall k: nat :: FirstPosterLike(images, slug, 0, k) ==> r == Some(Qualify(images[k].src.GetOr("")))
  {
    PosterLikeFrom(images, slug, 0)
  }

  /** The page's poster: the first poster-like image, else the first image's src,
      prefixed with the site's address unless it starts with "http". */
  function PagePoster(images: seq<Img>, slug: string): (r: Option<string>)
    ensures r.Some? && r.value != "" ==> StartsWith(r.value, "http")
    ensures match PosterLikeSrc(images, slug)
            case Some(u) => r == Some(u)
            case None =>
              if images == [] || images[0].src.None? then r.None?
              else r == Some(if images[0].src.value == "" then "" else Qualify(images[0].src.value))
  {
    match PosterLikeSrc(images, slug)
    case Some(u) => Some(u)
    case None =>
      if images == [] then None
      else match images[0].src
        case None => None
        case Some(u) => if u == "" then Some(u) else Some(Qualify(u))
  }

  /** Each string trimmed. */
  function TrimEach(pieces: seq<string>): (r: seq<string>)
    ensures |r| == |pieces|
    ensures forall i :: 0 <= i < |r| ==> r[i] == Trim(pieces[i])
    decreases |pieces|
  {
    if pieces == [] then [] else [Trim(pieces[0])] + TrimEach(pieces[1..])
  }

  /** A paragraph that can serve as the description. */
  predicate DescriptionLike(t: string) {
    100 < |t| < 2000 && '\U{00A9}' !in t
  }

  /** The index of the first of the trimmed paragraphs `ts` at `i` or later
      that can serve as the description. */
  function FirstDescriptionAt(ts: seq<string>, i: nat): (r: Option<nat>)
    requires i <= |ts|
    ensures r.None? <==> forall k :: i <= k < |ts| ==> !DescriptionLike(ts[k])
    ensures r.Some? ==> i <= r.value < |ts| && DescriptionLike(ts[r.value])
                        && forall k :: i <= k < r.value ==> !DescriptionLike(ts[k])
    decreases |ts| - i
  {
    if i == |ts| then None
    else if DescriptionLike(ts[i]) then Some(i)
    else FirstDescriptionAt(ts, i + 1)
  }

  /** Paragraph `k` is the first that, trimmed, can serve as the description. */
  predicate FirstSuitable(paragraphs: seq<string>, k: nat) {
    k < |paragraphs| && DescriptionLike(Trim(paragraphs[k]))
    && forall j :: 0 <= j < k ==> !DescriptionLike(Trim(paragraphs[j]))
  }

  lemma FirstDescriptionIs(paragraphs: seq<string>)
    ensures forall k: nat :: FirstSuitable(paragraphs, k) ==> FirstDescriptionAt(TrimEach(paragraphs), 0) == Some(k)
  {
    var ts := TrimEach(paragraphs);
    forall k: nat | FirstSuitable(paragraphs, k) ensures FirstDescriptionAt(ts, 0) == Some(k) {
      FirstSuitableTrimmed(paragraphs, ts, k);
      FirstDescriptionIsAt(ts, k);
    }
  }

  lemma FirstSuitableTrimmed(paragraphs: seq<string>, ts: seq<string>, k: nat)
    requires ts == TrimEach(paragraphs) && FirstSuitable(paragraphs, k)
    ensures k < |ts| && DescriptionLike(ts[k]) && forall j :: 0 <= j < k ==> !DescriptionLike(ts[j])
  {
  }

  /** The first suitable of the trimmed paragraphs is the one found. */
  lemma FirstDescriptionIsAt(ts: seq<string>, k: nat)
    requires k < |ts| && DescriptionLike(ts[k]) && forall j :: 0 <= j < k ==> !DescriptionLike(ts[j])
    ensures FirstDescriptionAt(ts, 0) == Some(k)
  {
  }

  /** The description shown: the first paragraph that, trimmed, is suitable,
      else the default text. */
  function PageDescription(paragraphs: seq<string>): (r: string)
    ensures DescriptionLike(r) || r == DefaultDescription
    ensures forall k: nat :: FirstSuitable(paragraphs, k) ==> r == Trim(paragraphs[k])
    ensures (forall k :: 0 <= k < |paragraphs| ==> !DescriptionLike(Trim(paragraphs[k]))) ==> r == DefaultDescription
  {
    var ts := TrimEach(paragraphs);
    FirstDescriptionIs(paragraphs);
    match FirstDescriptionAt(ts, 0)
    case Some(k) => ts[k]
    case None => DefaultDescription
  }

  /** A trimmed piece of the genre list that is kept. */
  predicate GenreLike(g: string) {
    2 < |g| < 30 && ':' !in g
  }

  /** The pieces that qualify as genres, in order. */
  function KeptGenres(gs: seq<string>): (r: seq<string>)
    ensures |r| <= |gs|
    ensures forall i :: 0 <= i < |r| ==> r[i] in gs && GenreLike(r[i])
    decreases |gs|
  {
    if gs == [] then [] else (if GenreLike(gs[0]) then [gs[0]] else []) + KeptGenres(gs[1..])
  }

  /** Keeping distributes over concatenation, so the kept pieces keep their order. */
  lemma {:induction false} KeptGenresAppend(a: seq<string>, b: seq<string>)
    ensures KeptGenres(a + b) == KeptGenres(a) + KeptGenres(b)
    decreases |a|
  {
    if a == [] {
      assert a + b == b;
    } else {
      assert (a + b)[0] == a[0];
      assert (a + b)[1..] == a[1..] + b;
      KeptGenresAppend(a[1..], b);
    }
  }

  /** A single piece is kept exactly when it qualifies. */
  lemma KeptGenresSingle(g: string)
    ensures KeptGenres([g]) == if GenreLike(g) then [g] else []
  {
    assert [g][1..] == [];
  }

  /** Every piece that qualifies is kept. */
  lemma {:induction false} KeptGenresComplete(gs: seq<string>, g: string)
    requires g in gs && GenreLike(g)
    ensures g in KeptGenres(gs)
    decreases |gs|
  {
    if gs[0] != g {
      KeptGenresComplete(gs[1..], g);
    }
  }

  /** The pieces of the captured genre list, trimmed. */
  function GenrePieces(capture: string): seq<string> {
    TrimEach(SplitAny(capture, {',', '/'}))
  }

  /** The genres taken from the trimmed pieces of the list: the qualifying
      ones, in order, at most five. */
  function Genres(pieces: seq<string>): (r: seq<string>)
    ensures |r| <= 5
    ensures forall i :: 0 <= i < |r| ==> GenreLike(r[i]) && r[i] in pieces
    ensures |r| < 5 ==> forall g :: g in pieces && GenreLike(g) ==> g in r
    ensures |r| == (if |KeptGenres(pieces)| <= 5 then |KeptGenres(pieces)| else 5)
    ensures r == KeptGenres(pieces)[..|r|]
  {
    var kept := KeptGenres(pieces);
    forall g | g in pieces && GenreLike(g) ensures g in kept {
      KeptGenresComplete(pieces, g);
    }
    if |kept| <= 5 then kept
    else
      assert forall i :: 0 <= i < 5 ==> kept[..5][i] == kept[i];
      kept[..5]
  }

  /** The genres of the page: none without a captured list. */
  function PageGenres(capture: Option<string>): (r: seq<string>)
    ensures |r| <= 5
    ensures capture.None? ==> r == []
  {
    match capture
    case None => []
    case Some(c) => Genres(GenrePieces(c))
  }

  /** A link about a season: "saison" in its href or in its text. */
  predicate SeasonLink(href: string, text: string) {
    Contains(href, "saison") || Contains(text, "saison")
  }

  /** The season number: `saison(\d+)` in the href, else `saison\s*(\d+)` in the
      text, else 1. */
  function LinkSeasonNumber(href: string, text: string): (n: nat)
    ensures FindNumber(href, Saison, false).Some? ==> n == FindNumber(href, Saison, false).value
    ensures FindNumber(href, Saison, false).None? && FindNumber(text, Saison, true).Some?
            ==> n == FindNumber(text, Saison, true).value
    ensures FindNumber(href, Saison, false).None? && FindNumber(text, Saison, true).None? ==> n == 1
  {
    match FindNumber(href, Saison, false)
    case Some(n) => n
    case None => FindNumber(text, Saison, true).GetOr(1)
  }

  /** The languages a season link offers: VOSTFR when "vostfr" is in its href or
      "vo" in its text, VF when "/vf" is in its href or "vf" in its text, and
      VOSTFR when neither is. */
  function LinkLangs(href: string, text: string): (r: seq<Lang>)
    ensures 1 <= |r| <= 2
    ensures Vostfr in r <==> Contains(href, "vostfr") || Contains(text, "vostfr") || Contains(text, "vo")
                             || !(Contains(href, "/vf") || Contains(text, "vf"))
    ensures Vf in r <==> Contains(href, "/vf") || Contains(text, "vf")
    ensures |r| == 2 ==> r == [Vostfr, Vf]
  {
    var vo := Contains(href, "vostfr") || Contains(text, "vostfr") || Contains(text, "vo");
    var vf := Contains(href, "/vf") || Contains(text, "vf");
    if vo && vf then [Vostfr, Vf]
    else if vf then [Vf]
    else [Vostfr]
  }

  /** One season per language, all with number `n`. */
  function SeasonsFor(n: nat, langs: seq<Lang>): (r: seq<Season>)
    ensures |r| == |langs|
    ensures forall j :: 0 <= j < |r| ==> r[j] == MakeSeason(n, langs[j])
    decreases |langs|
  {
    if langs == [] then [] else [MakeSeason(n, langs[0])] + SeasonsFor(n, langs[1..])
  }

  /** The href and lower-cased, trimmed text the scraper reads from a link. */
  function LinkHref(l: Link): string {
    l.href.GetOr("")
  }

  function LinkText(l: Link): string {
    ToLower(Trim(l.text))
  }

  /** The seasons a link announces, before de-duplication. */
  function LinkSeasons(l: Link): seq<Season> {
    var href, text := LinkHref(l), LinkText(l);
    if SeasonLink(href, text) then SeasonsFor(LinkSeasonNumber(href, text), LinkLangs(href, text)) else []
  }

  function KeysOf(ss: seq<Season>): (r: set<string>)
    ensures forall i :: 0 <= i < |ss| ==> ss[i].key in r
    ensures forall key :: key in r ==> exists i :: 0 <= i < |ss| && ss[i].key == key
    decreases |ss|
  {
    if ss == [] then {} else KeysOf(ss[..|ss| - 1]) + {ss[|ss| - 1].key}
  }

  predicate UniqueKeys(ss: seq<Season>) {
    forall i, j :: 0 <= i < j < |ss| ==> ss[i].key != ss[j].key
  }

  /** `prev` followed by the seasons of `ss` whose key is new, in order. */
  function AddSeasons(prev: seq<Season>, ss: seq<Season>): seq<Season>
    decreases |ss|
  {
    if ss == [] then prev
    else
      var r := AddSeasons(prev, ss[..|ss| - 1]);
      if ss[|ss| - 1].key in KeysOf(r) then r else r + [ss[|ss| - 1]]
  }

  /** The seasons the page's links announce, each key once, in document order. */
  function SeasonsOf(links: seq<Link>): seq<Season>
    decreases |links|
  {
    if links == [] then [] else AddSeasons(SeasonsOf(links[..|links| - 1]), LinkSeasons(links[|links| - 1]))
  }

  lemma AddSeasonsStep(prev: seq<Season>, ss: seq<Season>, n: nat)
    requires n < |ss|
    ensures AddSeasons(prev, ss[..n + 1])
            == if ss[n].key in KeysOf(AddSeasons(prev, ss[..n])) then AddSeasons(prev, ss[..n])
               else AddSeasons(prev, ss[..n]) + [ss[n]]
  {
    assert ss[..n + 1][..n] == ss[..n];
  }

  lemma SeasonsOfStep(links: seq<Link>, n: nat)
    requires n < |links|
    ensures SeasonsOf(links[..n + 1]) == AddSeasons(SeasonsOf(links[..n]), LinkSeasons(links[n]))
  {
    assert links[..n + 1][..n] == links[..n];
  }

  lemma KeysOfSnoc(ss: seq<Season>, s: Season)
    ensures KeysOf(ss + [s]) == KeysOf(ss) + {s.key}
  {
    assert (ss + [s])[..|ss|] == ss;
  }

  /** The inner `langs.forEach` of the scan: each season of number `n` whose
      key is not in `seen` is appended and its key recorded. */
  method AddLinkSeasons(seasons: seq<Season>, seen: set<string>, n: nat, langs: seq<Lang>)
    returns (seasons': seq<Season>, seen': set<string>)
    requires seen == KeysOf(seasons)
    ensures seasons' == AddSeasons(seasons, SeasonsFor(n, langs))
    ensures seen' == KeysOf(seasons')
  {
    ghost var announced := SeasonsFor(n, langs);
    seasons', seen' := seasons, seen;
    var j := 0;
    while j < |langs|
      invariant 0 <= j <= |langs|
      invariant seasons' == AddSeasons(seasons, announced[..j])
      invariant seen' == KeysOf(seasons')
    {
      AddSeasonsStep(seasons, announced, j);
      var key := SeasonKey(n, langs[j]);
      if key !in seen' {
        KeysOfSnoc(seasons', MakeSeason(n, langs[j]));
        seen' := seen' + {key};
        seasons' := seasons' + [MakeSeason(n, langs[j])];
      }
      j := j + 1;
    }
    assert announced[..j] == announced;
  }

  /** The scan over `$('a')` with its `seenSeasons` set. */
  method DiscoverSeasons(links: seq<Link>) returns (seasons: seq<Season>)
    ensures seasons == SeasonsOf(links)
  {
    seasons := [];
    var seen: set<string> := {};
    var i := 0;
    while i < |links|
      invariant 0 <= i <= |links|
      invariant seasons == SeasonsOf(links[..i])
      invariant seen == KeysOf(seasons)
    {
      SeasonsOfStep(links, i);
      var href := LinkHref(links[i]);
      var text := LinkText(links[i]);
      if SeasonLink(href, text) {
        var n := LinkSeasonNumber(href, text);
        var langs := LinkLangs(href, text);
        seasons, seen := AddLinkSeasons(seasons, seen, n, langs);
      }
      i := i + 1;
    }
    assert links[..i] == links;
  }

  /** What `AddSeasons` adds keeps the keys unique. */
  lemma {:induction false} AddSeasonsUnique(prev: seq<Season>, ss: seq<Season>)
    requires UniqueKeys(prev)
    ensures UniqueKeys(AddSeasons(prev, ss))
    decreases |ss|
  {
    if ss != [] {
      var init := AddSeasons(prev, ss[..|ss| - 1]);
      AddSeasonsUnique(prev, ss[..|ss| - 1]);
      var r := AddSeasons(prev, ss);
      if r != init {
        forall i, j | 0 <= i < j < |r| ensures r[i].key != r[j].key {
          if j == |r| - 1 {
            assert r[i] == init[i];
          }
        }
      }
    }
  }

  /** The discovered seasons have each key once. */
  lemma {:induction false} SeasonsOfUnique(links: seq<Link>)
    ensures UniqueKeys(SeasonsOf(links))
    decreases |links|
  {
    if links != [] {
      SeasonsOfUnique(links[..|links| - 1]);
      AddSeasonsUnique(SeasonsOf(links[..|links| - 1]), LinkSeasons(links[|links| - 1]));
    }
  }

  /** The season's key is the one its number and language give. */
  predicate KeyOf(s: Season) {
    s.key == SeasonKey(s.number, s.lang)
  }

  /** Every season `AddSeasons` keeps comes from one of its two lists. */
  lemma {:induction false} AddSeasonsFrom(prev: seq<Season>, ss: seq<Season>)
    ensures forall s :: s in AddSeasons(prev, ss) ==> s in prev || s in ss
    decreases |ss|
  {
    if ss != [] {
      AddSeasonsFrom(prev, ss[..|ss| - 1]);
      assert forall s :: s in ss[..|ss| - 1] ==> s in ss;
    }
  }

  /** Every discovered season carries the key of its number and language. */
  lemma {:induction false} SeasonsOfKeys(links: seq<Link>)
    ensures forall s :: s in SeasonsOf(links) ==> KeyOf(s)
    decreases |links|
  {
    if links != [] {
      var n := |links| - 1;
      SeasonsOfKeys(links[..n]);
      AddSeasonsFrom(SeasonsOf(links[..n]), LinkSeasons(links[n]));
    }
  }

  /** The sort comparator's order: by number, VOSTFR before VF at equal number.
      `SeasonOrder(a, b)` says `a` may come before `b`. */
  predicate SeasonOrder(a: Season, b: Season) {
    a.number < b.number || (a.number == b.number && (a.lang == Vostfr || b.lang == Vf))
  }

  predicate SortedSeasons(ss: seq<Season>) {
    forall i, j :: 0 <= i < j < |ss| ==> SeasonOrder(ss[i], ss[j])
  }

  function InsertSeason(x: Season, ss: seq<Season>): (r: seq<Season>)
    ensures multiset(r) == multiset(ss) + multiset{x}
    decreases |ss|
  {
    if ss == [] then [x]
    else if SeasonOrder(x, ss[0]) then [x] + ss
    else
      assert ss == [ss[0]] + ss[1..];
      [ss[0]] + InsertSeason(x, ss[1..])
  }

  lemma InsertSeasonMembers(x: Season, ss: seq<Season>)
    ensures forall s :: s in InsertSeason(x, ss) ==> s == x || s in ss
  {
    forall s | s in InsertSeason(x, ss) ensures s == x || s in ss {
      assert s in multiset(InsertSeason(x, ss));
    }
  }

  lemma {:induction false} InsertSeasonSorted(x: Season, ss: seq<Season>)
    requires SortedSeasons(ss)
    ensures SortedSeasons(InsertSeason(x, ss))
    decreases |ss|
  {
    if ss != [] && !SeasonOrder(x, ss[0]) {
      InsertSeasonSorted(x, ss[1..]);
      var rest := InsertSeason(x, ss[1..]);
      var r := [ss[0]] + rest;
      InsertSeasonMembers(x, ss[1..]);
      forall j | 0 <= j < |rest| ensures SeasonOrder(ss[0], rest[j]) {
        assert rest[j] in rest;
        if rest[j] != x {
          var k :| 0 <= k < |ss[1..]| && ss[1..][k] == rest[j];
          assert ss[k + 1] == rest[j];
        }
      }
      forall i, j | 0 <= i < j < |r| ensures SeasonOrder(r[i], r[j]) {
        if i > 0 {
          assert r[i] == rest[i - 1] && r[j] == rest[j - 1];
        }
      }
    }
  }

  /** `seasons.sort(...)` with the comparator above (insertion sort). */
  function SortSeasons(ss: seq<Season>): (r: seq<Season>)
    ensures multiset(r) == multiset(ss)
    decreases |ss|
  {
    if ss == [] then []
    else
      assert ss == [ss[0]] + ss[1..];
      InsertSeason(ss[0], SortSeasons(ss[1..]))
  }

  lemma {:induction false} SortSeasonsSorted(ss: seq<Season>)
    ensures SortedSeasons(SortSeasons(ss))
    decreases |ss|
  {
    if ss != [] {
      SortSeasonsSorted(ss[1..]);
      InsertSeasonSorted(ss[0], SortSeasons(ss[1..]));
    }
  }

  /** Inserting a season with a new key keeps the keys unique. */
  lemma {:induction false} InsertSeasonUnique(x: Season, ss: seq<Season>)
    requires UniqueKeys(ss) && forall i :: 0 <= i < |ss| ==> ss[i].key != x.key
    ensures UniqueKeys(InsertSeason(x, ss))
    decreases |ss|
  {
    if ss != [] && !SeasonOrder(x, ss[0]) {
      InsertSeasonUnique(x, ss[1..]);
      var rest := InsertSeason(x, ss[1..]);
      var r := [ss[0]] + rest;
      InsertSeasonMembers(x, ss[1..]);
      forall j | 0 <= j < |rest| ensures rest[j].key != ss[0].key {
        assert rest[j] in rest;
        if rest[j] != x {
          var k :| 0 <= k < |ss[1..]| && ss[1..][k] == rest[j];
          assert ss[k + 1] == rest[j];
        }
      }
      forall i, j | 0 <= i < j < |r| ensures r[i].key != r[j].key {
        if i > 0 {
          assert r[i] == rest[i - 1] && r[j] == rest[j - 1];
        }
      }
    }
  }

  /** Sorting keeps the keys unique. */
  lemma {:induction false} SortSeasonsUnique(ss: seq<Season>)
    requires UniqueKeys(ss)
    ensures UniqueKeys(SortSeasons(ss))
    decreases |ss|
  {
    if ss != [] {
      var sorted := SortSeasons(ss[1..]);
      SortSeasonsUnique(ss[1..]);
      forall i | 0 <= i < |sorted| ensures sorted[i].key != ss[0].key {
        assert sorted[i] in multiset(ss[1..]);
        var k :| 0 <= k < |ss[1..]| && ss[1..][k] == sorted[i];
        assert ss[k + 1] == sorted[i];
      }
      InsertSeasonUnique(ss[0], sorted);
    }
  }

  /** Strictly increasing by number, with VOSTFR before VF at equal number. */
  predicate StrictSeasons(ss: seq<Season>) {
    forall i, j :: 0 <= i < j < |ss| ==>
      ss[i].number < ss[j].number
      || (ss[i].number == ss[j].number && ss[i].lang == Vostfr && ss[j].lang == Vf)
  }

  /** With unique keys of well-formed seasons, the sorted list is strict. */
  lemma SortedStrict(ss: seq<Season>)
    requires SortedSeasons(ss) && UniqueKeys(ss)
    requires forall i :: 0 <= i < |ss| ==> KeyOf(ss[i])
    ensures StrictSeasons(ss)
  {
    forall i, j | 0 <= i < j < |ss|
      ensures ss[i].number < ss[j].number
              || (ss[i].number == ss[j].number && ss[i].lang == Vostfr && ss[j].lang == Vf)
    {
      assert SeasonOrder(ss[i], ss[j]);
    }
  }

  /** Sorting well-formed seasons with unique keys gives a strict list with
      unique keys. */
  lemma SortSeasonsStrict(ss: seq<Season>)
    requires UniqueKeys(ss) && forall s :: s in ss ==> KeyOf(s)
    ensures UniqueKeys(SortSeasons(ss)) && StrictSeasons(SortSeasons(ss))
  {
    var r := SortSeasons(ss);
    SortSeasonsSorted(ss);
    SortSeasonsUnique(ss);
    forall i | 0 <= i < |r| ensures KeyOf(r[i]) {
      assert r[i] in multiset(ss);
    }
    SortedStrict(r);
  }

  /** Two seasons already in order are left as they are. */
  lemma SortPair(a: Season, b: Season)
    requires SeasonOrder(a, b)
    ensures SortSeasons([a, b]) == [a, b]
  {
    assert [a, b][1..] == [b];
    assert SortSeasons([b]) == [b] by {
      assert [b][1..] == [];
    }
  }

  /** The two default seasons are already in order. */
  lemma DefaultSeasonsSorted()
    ensures SortSeasons(DefaultSeasons) == DefaultSeasons
    ensures UniqueKeys(DefaultSeasons) && forall s :: s in DefaultSeasons ==> KeyOf(s)
  {
    var a, b := MakeSeason(1, Vostfr), MakeSeason(1, Vf);
    SortPair(a, b);
    if a.key == b.key {
      SeasonKeyInjective(1, Vostfr, 1, Vf);
    }
  }

  /** The seasons shown: the discovered ones, or the two defaults, sorted. */
  function PageSeasons(links: seq<Link>): seq<Season> {
    var found := SeasonsOf(links);
    SortSeasons(if found == [] then DefaultSeasons else found)
  }

  /** The seasons shown are sorted by number, VOSTFR first at equal number, each
      key once; they are the discovered seasons, or exactly the two defaults
      when the page announces none. */
  lemma PageSeasonsProperties(links: seq<Link>)
    ensures var r := PageSeasons(links);
            UniqueKeys(r) && StrictSeasons(r)
            && multiset(r) == multiset(if SeasonsOf(links) == [] then DefaultSeasons else SeasonsOf(links))
    ensures SeasonsOf(links) == [] ==> PageSeasons(links) == DefaultSeasons
  {
    var found := SeasonsOf(links);
    SeasonsOfUnique(links);
    SeasonsOfKeys(links);
    DefaultSeasonsSorted();
    SortSeasonsStrict(if found == [] then DefaultSeasons else found);
  }

  lemma PageSeasonsNonEmpty(links: seq<Link>)
    ensures |PageSeasons(links)| > 0
  {
    var found := SeasonsOf(links);
    var ss := if found == [] then DefaultSeasons else found;
    assert |SortSeasons(ss)| == |multiset(ss)| == |ss|;
  }

  /** The details built from a loaded title page. */
  function PageDetails(slug: string, p: DetailPage): (r: Details)
    ensures r.id == TitleId(slug) && r.slug == slug
    ensures |r.genres| <= 5 && (forall i :: 0 <= i < |r.genres| ==> GenreLike(r.genres[i]))
    ensures DescriptionLike(r.description) || r.description == DefaultDescription
    ensures |r.seasons| > 0
    ensures r.name == PageTitle(p, slug) && r.poster == PagePoster(p.images, slug)
    ensures forall k: nat :: FirstSuitable(p.paragraphs, k) ==> r.description == Trim(p.paragraphs[k])
    ensures (forall k :: 0 <= k < |p.paragraphs| ==> !DescriptionLike(Trim(p.paragraphs[k]))) ==> r.description == DefaultDescription
    ensures r.genres == PageGenres(p.genreCapture) && r.seasons == PageSeasons(p.links)
  {
    var seasons := PageSeasons(p.links);
    PageSeasonsNonEmpty(p.links);
    Details(TitleId(slug), PageTitle(p, slug), slug, PagePoster(p.images, slug),
            PageDescription(p.paragraphs), PageGenres(p.genreCapture), seasons)
  }
}
