/**
 * The catalogue of scraper.js: the fallback list `POPULAR_ANIMES`, the
 * extraction of title entries from the listing page's catalogue links, and
 * the `skip`/`limit` window `getCatalog` cuts from the full list.
 */
module Catalog {
  import opened Wrappers
  import opened Text
  import opened Patterns
  import opened Fetching

  const BaseUrl: string := "https://anime-sama.org"

  /** A title as the scraper hands it out. Its `type` is always 'series' and its
      `genres` always empty, so neither is kept. */
  datatype Title = Title(
    id: string,
    name: string,
    slug: string,
    poster: Option<string>,
    description: string)

  /** The title id format `animesama:{slug}`. */
  function TitleId(slug: string): string {
    "animesama:" + slug
  }

  function PopularEntry(slug: string, name: string): Title {
    Title(TitleId(slug), name, slug, None,
          "Regardez " + name + " en streaming VOSTFR/VF sur Anime-Sama")
  }

  /** `POPULAR_ANIMES`: the hand-maintained fallback catalogue. */
  const Popular: seq<Title> := [
    PopularEntry("one-piece", "One Piece"),
    PopularEntry("naruto", "Naruto"),
    PopularEntry("naruto-shippuden", "Naruto Shippuden"),
    PopularEntry("dragon-ball-z", "Dragon Ball Z"),
    PopularEntry("dragon-ball-super", "Dragon Ball Super"),
    PopularEntry("bleach", "Bleach"),
    PopularEntry("one-punch-man", "One Punch Man"),
    PopularEntry("demon-slayer", "Demon Slayer (Kimetsu no Yaiba)"),
    PopularEntry("jujutsu-kaisen", "Jujutsu Kaisen"),
    PopularEntry("my-hero-academia", "My Hero Academia"),
    PopularEntry("shingeki-no-kyojin", "Attack on Titan (SNK)"),
    PopularEntry("spy-x-family", "Spy x Family"),
    PopularEntry("chainsaw-man", "Chainsaw Man"),
    PopularEntry("hunter-x-hunter", "Hunter x Hunter"),
    PopularEntry("death-note", "Death Note"),
    PopularEntry("fullmetal-alchemist-brotherhood", "Fullmetal Alchemist Brotherhood"),
    PopularEntry("tokyo-revengers", "Tokyo Revengers"),
    PopularEntry("solo-leveling", "Solo Leveling"),
    PopularEntry("blue-lock", "Blue Lock"),
    PopularEntry("vinland-saga", "Vinland Saga"),
    PopularEntry("kingdom", "Kingdom"),
    PopularEntry("mob-psycho-100", "Mob Psycho 100"),
    PopularEntry("black-clover", "Black Clover"),
    PopularEntry("fairy-tail", "Fairy Tail"),
    PopularEntry("sword-art-online", "Sword Art Online"),
    PopularEntry("mushoku-tensei", "Mushoku Tensei"),
    PopularEntry("frieren", "Frieren: Beyond Journey's End"),
    PopularEntry("dandadan", "Dandadan"),
    PopularEntry("kaiju-no-8", "Kaiju No. 8"),
    PopularEntry("oshi-no-ko", "Oshi no Ko"),
    PopularEntry("dr-stone", "Dr. Stone"),
    PopularEntry("the-rising-of-the-shield-hero", "The Rising of the Shield Hero"),
    PopularEntry("overlord", "Overlord"),
    PopularEntry("re-zero", "Re:Zero"),
    PopularEntry("konosuba", "KonoSuba"),
    PopularEntry("that-time-i-got-reincarnated-as-a-slime", "That Time I Got Reincarnated as a Slime"),
    PopularEntry("bocchi-the-rock", "Bocchi the Rock!"),
    PopularEntry("haikyuu", "Haikyuu!!"),
    PopularEntry("kuroko-no-basket", "Kuroko's Basketball"),
    PopularEntry("code-geass", "Code Geass")
  ]

  /** The slugs of a list of titles. */
  function SlugsOf(ts: seq<Title>): (r: set<string>)
    ensures forall i :: 0 <= i < |ts| ==> ts[i].slug in r
    ensures forall slug :: slug in r ==> exists i :: 0 <= i < |ts| && ts[i].slug == slug
    decreases |ts|
  {
    if ts == [] then {} else SlugsOf(ts[..|ts| - 1]) + {ts[|ts| - 1].slug}
  }

  predicate UniqueSlugs(ts: seq<Title>) {
    forall i, j :: 0 <= i < j < |ts| ==> ts[i].slug != ts[j].slug
  }

  /** `POPULAR_ANIMES` holds 40 titles, each carrying the id, the missing poster
      and the description its slug and name give. */
  lemma PopularShape()
    ensures |Popular| == 40
    ensures forall i :: 0 <= i < |Popular| ==>
      Popular[i] == PopularEntry(Popular[i].slug, Popular[i].name)
  {
  }

  /** No two titles of `POPULAR_ANIMES` share a slug. */
  lemma PopularUnique()
    ensures UniqueSlugs(Popular)
  {
    PopularRows0();
    PopularRows2();
    PopularRows4();
    PopularRows6();
    PopularRows8();
    PopularRows10();
    PopularRows15();
    PopularRows20();
    PopularRows25();
    PopularRows30();
    PopularRows35();
  }

  lemma PopularRows0()
    ensures forall i, j :: 0 <= i < 2 && i < j < |Popular| ==> Popular[i].slug != Popular[j].slug
  {
  }

  lemma PopularRows2()
    ensures forall i, j :: 2 <= i < 4 && i < j < |Popular| ==> Popular[i].slug != Popular[j].slug
  {
  }

  lemma PopularRows4()
    ensures forall i, j :: 4 <= i < 6 && i < j < |Popular| ==> Popular[i].slug != Popular[j].slug
  {
  }

  lemma PopularRows6()
    ensures forall i, j :: 6 <= i < 8 && i < j < |Popular| ==> Popular[i].slug != Popular[j].slug
  {
  }

  lemma PopularRows8()
    ensures forall i, j :: 8 <= i < 10 && i < j < |Popular| ==> Popular[i].slug != Popular[j].slug
  {
  }

  lemma PopularRows10()
    ensures forall i, j :: 10 <= i < 15 && i < j < |Popular| ==> Popular[i].slug != Popular[j].slug
  {
  }

  lemma PopularRows15()
    ensures forall i, j :: 15 <= i < 20 && i < j < |Popular| ==> Popular[i].slug != Popular[j].slug
  {
  }

  lemma PopularRows20()
    ensures forall i, j :: 20 <= i < 25 && i < j < |Popular| ==> Popular[i].slug != Popular[j].slug
  {
  }

  lemma PopularRows25()
    ensures forall i, j :: 25 <= i < 30 && i < j < |Popular| ==> Popular[i].slug != Popular[j].slug
  {
  }

  lemma PopularRows30()
    ensures forall i, j :: 30 <= i < 35 && i < j < |Popular| ==> Popular[i].slug != Popular[j].slug
  {
  }

  lemma PopularRows35()
    ensures forall i, j :: 35 <= i < 40 && i < j < |Popular| ==> Popular[i].slug != Popular[j].slug
  {
  }

  /** An `<a>` element of the listing page, reduced to what the scraper reads from it. */
  datatype Anchor = Anchor(
    href: Option<string>,        // its href attribute
    heading: string,             // text of its first `h3, h2, h4, .title` descendant, "" if none
    imgAlt: Option<string>,      // alt attribute of its first img descendant
    imgSrc: Option<string>,      // src attribute of that img
    imgDataSrc: Option<string>,  // data-src attribute of that img
    text: string)                // its whole text

  /** The link leads to a title page: not to the catalogue root, a season or a language. */
  predicate IsTitleLink(href: string) {
    Contains(href, "/catalogue/")
    && !EndsWith(href, "/catalogue/") && !EndsWith(href, "/catalogue")
    && !Contains(href, "/saison") && !Contains(href, "/vostfr")
    && !Contains(href, "/vf") && !Contains(href, "/vo")
  }

  /** `.replace(/\/$/, '')`. */
  function DropTrailingSlash(s: string): string {
    if |s| > 0 && s[|s| - 1] == '/' then s[..|s| - 1] else s
  }

  /** The slug an anchor contributes, if any: the lower-cased path segment after
      `/catalogue/` of a title link, at least two characters long. */
  function AnchorSlug(a: Anchor): (r: Option<string>)
    ensures r.Some? ==> |r.value| >= 2 && '/' !in r.value && IsTitleLink(a.href.GetOr(""))
    ensures r.Some? ==> forall i :: 0 <= i < |r.value| ==> !('A' <= r.value[i] <= 'Z')
    ensures var href := a.href.GetOr("");
            r == if IsTitleLink(href) && CatalogueSlug(href).Some? && |CatalogueSlug(href).value| >= 2
                 then Some(ToLower(CatalogueSlug(href).value)) else None
  {
    var href := a.href.GetOr("");
    if !IsTitleLink(href) then None
    else
      match CatalogueSlug(href)
      case None => None
      case Some(m) => CapturedSlug(m)
  }

  /** The slug made of a capture: lower-cased, a trailing '/' dropped, kept
      only when at least two characters long. */
  function CapturedSlug(m: string): (r: Option<string>)
    requires |m| > 0 && '/' !in m
    ensures r == if |m| >= 2 then Some(ToLower(m)) else None
    ensures r.Some? ==> |r.value| >= 2 && '/' !in r.value
    ensures r.Some? ==> forall i :: 0 <= i < |r.value| ==> !('A' <= r.value[i] <= 'Z')
  {
    var slug := DropTrailingSlash(ToLower(m));
    LowerKeepsSlug(m);
    if |slug| < 2 then None else Some(slug)
  }

  /** Lower-casing a captured slug keeps its length and puts no '/' at its
      end, so the trailing-slash removal leaves it alone. */
  lemma LowerKeepsSlug(m: string)
    requires |m| > 0 && '/' !in m
    ensures DropTrailingSlash(ToLower(m)) == ToLower(m) && |ToLower(m)| == |m|
    ensures '/' !in ToLower(m)
  {
    forall i | 0 <= i < |m| ensures ToLower(m)[i] != '/' {
      assert m[i] in m;
    }
    assert m[|m| - 1] in m;
    assert ToLower(m)[|m| - 1] == LowerChar(m[|m| - 1]);
  }

  /** The name the anchor offers before it is cut: the trimmed text of its
      first heading, else its image's alt text, else the first line of its
      trimmed text. */
  function NameCandidate(a: Anchor): (r: string)
    ensures Trim(a.heading) != "" ==> r == Trim(a.heading)
    ensures Trim(a.heading) == "" && a.imgAlt.Some? && a.imgAlt.value != "" ==> r == a.imgAlt.value
    ensures Trim(a.heading) == "" && (a.imgAlt.None? || a.imgAlt.value == "") ==>
              StartsWith(Trim(a.text), r) && '\n' !in r && (|r| < |Trim(a.text)| ==> Trim(a.text)[|r|] == '\n')
  {
    var heading := Trim(a.heading);
    var name1 := if heading != "" then heading else a.imgAlt.GetOr("");
    if name1 != "" then name1 else FirstPiece(Trim(a.text), '\n')
  }

  /** The entry's name: the candidate cut to 100 characters and trimmed; a name
      shorter than 2 characters is replaced by the title-cased slug. */
  function EntryName(a: Anchor, slug: string): (r: string)
    requires |slug| >= 2
    ensures |r| >= 2
    ensures |r| <= 100 || r == TitleCaseSlug(slug)
    ensures var cut := Trim(Prefix(NameCandidate(a), 100));
            (|cut| >= 2 ==> r == cut)
            && (|cut| < 2 ==> r == TitleCaseSlug(slug))
    ensures |NameCandidate(a)| <= 100 && |NameCandidate(a)| >= 2
            && !IsSpace(NameCandidate(a)[0]) && !IsSpace(NameCandidate(a)[|NameCandidate(a)| - 1])
            ==> r == NameCandidate(a)
  {
    var name := Trim(Prefix(NameCandidate(a), 100));
    if |name| < 2 then TitleCaseSlug(slug) else name
  }

  /** The entry's poster: the image's non-empty src, else its data-src; one
      that is neither empty nor starts with "http" is joined to the site's
      address with exactly one '/' between them. */
  function AnchorPoster(a: Anchor): (r: Option<string>)
    ensures r.Some? && r.value != "" ==> StartsWith(r.value, "http")
    ensures var p := if a.imgSrc.Some? && a.imgSrc.value != "" then a.imgSrc else a.imgDataSrc;
            (r.None? <==> p.None?)
            && (p.Some? ==> EndsWith(r.value, p.value))
            && (p.Some? && (p.value == "" || StartsWith(p.value, "http")) ==> r == p)
            && (p.Some? && p.value != "" && !StartsWith(p.value, "http") ==>
                  r.value == BaseUrl + "/" + (if p.value[0] == '/' then p.value[1..] else p.value))
  {
    var p := if a.imgSrc.Some? && a.imgSrc.value != "" then a.imgSrc else a.imgDataSrc;
    match p
    case None => None
    case Some(u) =>
      if u != "" && !StartsWith(u, "http") then
        var abs := BaseUrl + (if StartsWith(u, "/") then "" else "/") + u;
        assert abs[..4] == "http";
        assert abs[|abs| - |u|..] == u;
        assert StartsWith(u, "/") <==> u[0] == '/';
        assert u[0] == '/' ==> u == "/" + u[1..];
        Some(abs)
      else p
  }

  function MakeEntry(a: Anchor, slug: string): Title
    requires |slug| >= 2
  {
    var name := EntryName(a, slug);
    Title(TitleId(slug), name, slug, AnchorPoster(a), "Regardez " + name + " en streaming sur Anime-Sama")
  }

  /** One anchor's contribution to the entries gathered so far: its entry,
      unless it has no slug or its slug is already taken. */
  function AddAnchor(prev: seq<Title>, a: Anchor): seq<Title> {
    match AnchorSlug(a)
    case Some(slug) => if slug in SlugsOf(prev) then prev else prev + [MakeEntry(a, slug)]
    case None => prev
  }

  /** The entries the listing page's anchors give, as the scan gathers them. */
  function CatalogOf(anchors: seq<Anchor>): seq<Title>
    decreases |anchors|
  {
    if anchors == [] then [] else AddAnchor(CatalogOf(anchors[..|anchors| - 1]), anchors[|anchors| - 1])
  }

  /** An anchor adds its slug, if it has one, to the slugs gathered so far. */
  lemma SlugsOfSnoc(prev: seq<Title>, t: Title)
    ensures SlugsOf(prev + [t]) == SlugsOf(prev) + {t.slug}
  {
    assert (prev + [t])[..|prev|] == prev;
  }

  lemma AddAnchorSlugs(prev: seq<Title>, a: Anchor)
    ensures SlugsOf(AddAnchor(prev, a))
            == SlugsOf(prev) + (if AnchorSlug(a).Some? then {AnchorSlug(a).value} else {})
  {
    var r := AddAnchor(prev, a);
    if r != prev {
      var slug := AnchorSlug(a).value;
      assert r == prev + [MakeEntry(a, slug)];
      SlugsOfSnoc(prev, MakeEntry(a, slug));
    }
  }

  /** The catalogue built from the first `n + 1` anchors. */
  lemma PrefixAnchors(anchors: seq<Anchor>, n: nat)
    requires n < |anchors|
    ensures CatalogOf(anchors[..n + 1]) == AddAnchor(CatalogOf(anchors[..n]), anchors[n])
  {
    assert anchors[..n + 1][..n] == anchors[..n];
  }

  /** The scan over `$('a[href*="/catalogue/"]')` with its `seenSlugs` set. */
  method ExtractCatalog(anchors: seq<Anchor>) returns (animes: seq<Title>)
    ensures animes == CatalogOf(anchors)
  {
    animes := [];
    var seenSlugs: set<string> := {};
    var i := 0;
    while i < |anchors|
      invariant 0 <= i <= |anchors|
      invariant animes == CatalogOf(anchors[..i])
      invariant seenSlugs == SlugsOf(animes)
    {
      var a := anchors[i];
      PrefixAnchors(anchors, i);
      AddAnchorSlugs(animes, a);
      var slug := AnchorSlug(a);
      if slug.Some? && slug.value !in seenSlugs {
        seenSlugs := seenSlugs + {slug.value};
        animes := animes + [MakeEntry(a, slug.value)];
      }
      i := i + 1;
    }
    assert anchors[..i] == anchors;
  }

  /** The entry an anchor contributes, if it has a slug. */
  function Candidate(a: Anchor): (r: seq<Title>)
    ensures |r| <= 1
  {
    match AnchorSlug(a)
    case Some(slug) => [MakeEntry(a, slug)]
    case None => []
  }

  /** The entries of the anchors that lead to a title, in document order,
      repeats included. */
  function Candidates(anchors: seq<Anchor>): seq<Title>
    decreases |anchors|
  {
    if anchors == [] then [] else Candidates(anchors[..|anchors| - 1]) + Candidate(anchors[|anchors| - 1])
  }

  /** `prev` followed by the titles of `ts` whose slug is not yet present,
      in order: of several titles with one slug, the first stays. */
  function AppendNew(prev: seq<Title>, ts: seq<Title>): seq<Title>
    decreases |ts|
  {
    if ts == [] then prev
    else
      var r := AppendNew(prev, ts[..|ts| - 1]);
      if ts[|ts| - 1].slug in SlugsOf(r) then r else r + [ts[|ts| - 1]]
  }

  /** The titles of `ts` without repeated slugs. */
  function Dedupe(ts: seq<Title>): seq<Title> {
    AppendNew([], ts)
  }

  lemma AppendNewSnoc(prev: seq<Title>, ts: seq<Title>, t: Title)
    ensures AppendNew(prev, ts + [t])
            == if t.slug in SlugsOf(AppendNew(prev, ts)) then AppendNew(prev, ts) else AppendNew(prev, ts) + [t]
  {
    assert (ts + [t])[..|ts|] == ts;
  }

  /** The scan's catalogue is the page's candidate entries with repeated slugs dropped. */
  lemma {:induction false} CatalogIsDedupe(anchors: seq<Anchor>)
    ensures CatalogOf(anchors) == Dedupe(Candidates(anchors))
    decreases |anchors|
  {
    if anchors != [] {
      var n := |anchors| - 1;
      var init := anchors[..n];
      CatalogIsDedupe(init);
      assert anchors[..n + 1] == anchors;
      assert Candidates(anchors) == Candidates(init) + Candidate(anchors[n]);
      var slug := AnchorSlug(anchors[n]);
      if slug.Some? {
        AppendNewSnoc([], Candidates(init), MakeEntry(anchors[n], slug.value));
      } else {
        assert Candidates(anchors) == Candidates(init);
      }
    }
  }

  /** `AppendNew` over the first `n + 1` titles of `ts`. */
  lemma AppendNewStep(prev: seq<Title>, ts: seq<Title>, n: nat)
    requires n < |ts|
    ensures AppendNew(prev, ts[..n + 1])
            == if ts[n].slug in SlugsOf(AppendNew(prev, ts[..n])) then AppendNew(prev, ts[..n])
               else AppendNew(prev, ts[..n]) + [ts[n]]
  {
    assert ts[..n + 1][..n] == ts[..n];
  }

  /** What `AppendNew` adds keeps the slugs unique. */
  lemma {:induction false} AppendNewUnique(prev: seq<Title>, ts: seq<Title>)
    requires UniqueSlugs(prev)
    ensures UniqueSlugs(AppendNew(prev, ts))
    decreases |ts|
  {
    if ts != [] {
      var init := AppendNew(prev, ts[..|ts| - 1]);
      AppendNewUnique(prev, ts[..|ts| - 1]);
      var r := AppendNew(prev, ts);
      if r != init {
        forall i, j | 0 <= i < j < |r| ensures r[i].slug != r[j].slug {
          if j == |r| - 1 {
            assert r[i] == init[i];
          }
        }
      }
    }
  }

  /** `AppendNew` keeps `prev` in front and loses no slug of either list. */
  lemma {:induction false} AppendNewSlugs(prev: seq<Title>, ts: seq<Title>)
    ensures |prev| <= |AppendNew(prev, ts)| && AppendNew(prev, ts)[..|prev|] == prev
    ensures SlugsOf(AppendNew(prev, ts)) == SlugsOf(prev) + SlugsOf(ts)
    decreases |ts|
  {
    if ts != [] {
      var init := ts[..|ts| - 1];
      AppendNewSlugs(prev, init);
      var before := AppendNew(prev, init);
      var r := AppendNew(prev, ts);
      if r != before {
        assert r[..|r| - 1] == before;
        assert r[..|prev|] == before[..|prev|];
      }
    }
  }

  /** Each title `AppendNew` adds is the first of `ts` with its slug, and that
      slug is not in `prev`. */
  lemma {:induction false} AppendNewFirst(prev: seq<Title>, ts: seq<Title>, i: nat)
    requires |prev| <= i < |AppendNew(prev, ts)|
    ensures AppendNew(prev, ts)[i].slug !in SlugsOf(prev)
    ensures exists k :: 0 <= k < |ts| && AppendNew(prev, ts)[i] == ts[k]
                        && forall m :: 0 <= m < k ==> ts[m].slug != ts[k].slug
    decreases |ts|
  {
    var n := |ts| - 1;
    var init := ts[..n];
    var before := AppendNew(prev, init);
    assert forall k :: 0 <= k < n ==> init[k] == ts[k];
    if i < |before| {
      AppendNewFirst(prev, init, i);
      var k :| 0 <= k < n && before[i] == init[k]
               && forall m :: 0 <= m < k ==> init[m].slug != init[k].slug;
      assert AppendNew(prev, ts)[i] == ts[k];
    } else {
      AppendNewSlugs(prev, init);
      assert ts[n].slug !in SlugsOf(init);
      assert AppendNew(prev, ts)[i] == ts[n];
    }
  }

  /** Every candidate is the entry of one of the anchors. */
  lemma {:induction false} CandidatesFrom(anchors: seq<Anchor>, i: nat)
    requires i < |Candidates(anchors)|
    ensures exists k :: 0 <= k < |anchors| && Candidate(anchors[k]) == [Candidates(anchors)[i]]
    decreases |anchors|
  {
    var n := |anchors| - 1;
    var init := anchors[..n];
    var cs := Candidates(init);
    var d := Candidate(anchors[n]);
    assert Candidates(anchors) == cs + d;
    if i < |cs| {
      CandidatesFrom(init, i);
      var k :| 0 <= k < n && Candidate(init[k]) == [cs[i]];
      assert init[k] == anchors[k];
      AppendFront(cs, d, i);
    } else {
      AppendLast(cs, d, i);
    }
  }

  lemma AppendFront(cs: seq<Title>, d: seq<Title>, i: nat)
    requires i < |cs|
    ensures (cs + d)[i] == cs[i]
  {
  }

  lemma AppendLast(cs: seq<Title>, d: seq<Title>, i: nat)
    requires |d| <= 1 && |cs| <= i < |cs| + |d|
    ensures d == [(cs + d)[i]]
  {
  }

  lemma SlugsOfAppendLeft(prev: seq<Title>, tail: seq<Title>, slug: string)
    requires slug in SlugsOf(prev)
    ensures slug in SlugsOf(prev + tail)
  {
    var j :| 0 <= j < |prev| && prev[j].slug == slug;
    assert (prev + tail)[j] == prev[j];
  }

  lemma SlugsOfAppendRight(prev: seq<Title>, tail: seq<Title>)
    requires tail != []
    ensures tail[0].slug in SlugsOf(prev + tail)
  {
    assert (prev + tail)[|prev|] == tail[0];
  }

  /** The slug every anchor that leads to a title contributes is among the candidates. */
  lemma {:induction false} CandidateOf(anchors: seq<Anchor>, k: nat)
    requires k < |anchors| && AnchorSlug(anchors[k]).Some?
    ensures AnchorSlug(anchors[k]).value in SlugsOf(Candidates(anchors))
    decreases |anchors|
  {
    var n := |anchors| - 1;
    var init := anchors[..n];
    assert Candidates(anchors) == Candidates(init) + Candidate(anchors[n]);
    if k == n {
      var slug := AnchorSlug(anchors[n]).value;
      assert Candidate(anchors[n]) == [MakeEntry(anchors[n], slug)];
      SlugsOfAppendRight(Candidates(init), Candidate(anchors[n]));
    } else {
      assert init[k] == anchors[k];
      CandidateOf(init, k);
      SlugsOfAppendLeft(Candidates(init), Candidate(anchors[n]), AnchorSlug(anchors[k]).value);
    }
  }

  /** The catalogue has each slug once. */
  lemma CatalogUnique(anchors: seq<Anchor>)
    ensures UniqueSlugs(CatalogOf(anchors))
  {
    CatalogIsDedupe(anchors);
    AppendNewUnique([], Candidates(anchors));
  }

  /** Each entry of the catalogue is built from an anchor with its slug. */
  lemma CatalogEntryFrom(anchors: seq<Anchor>, i: nat)
    requires i < |CatalogOf(anchors)|
    ensures exists k :: 0 <= k < |anchors| && AnchorSlug(anchors[k]) == Some(CatalogOf(anchors)[i].slug)
                        && CatalogOf(anchors)[i] == MakeEntry(anchors[k], CatalogOf(anchors)[i].slug)
  {
    var cs := Candidates(anchors);
    CatalogIsDedupe(anchors);
    AppendNewFirst([], cs, i);
    var j :| 0 <= j < |cs| && Dedupe(cs)[i] == cs[j];
    CandidatesFrom(anchors, j);
    var k :| 0 <= k < |anchors| && Candidate(anchors[k]) == [cs[j]];
    assert AnchorSlug(anchors[k]) == Some(cs[j].slug);
  }

  /** Every slug some anchor contributes is in the catalogue. */
  lemma CatalogComplete(anchors: seq<Anchor>, k: nat)
    requires k < |anchors| && AnchorSlug(anchors[k]).Some?
    ensures AnchorSlug(anchors[k]).value in SlugsOf(CatalogOf(anchors))
  {
    CatalogIsDedupe(anchors);
    AppendNewSlugs([], Candidates(anchors));
    CandidateOf(anchors, k);
  }

  /** `Array.prototype.slice`'s reading of one index argument. */
  function SliceIndex(len: nat, k: int): (r: nat)
    ensures r <= len
  {
    if k < 0 then (if len + k < 0 then 0 else len + k)
    else if k > len then len
    else k
  }

  /** `s.slice(start, end)`. */
  function JsSlice<T>(s: seq<T>, start: int, end: int): seq<T> {
    var i := SliceIndex(|s|, start);
    var j := SliceIndex(|s|, end);
    if i < j then s[i..j] else []
  }

  /** For a non-negative `skip` and `limit`, `list.slice(skip, skip + limit)` is
      the window of at most `limit` entries starting at `skip`, empty when `skip`
      is past the end. */
  lemma PageWindow<T>(list: seq<T>, skip: int, limit: int)
    requires skip >= 0 && limit >= 0
    ensures |JsSlice(list, skip, skip + limit)| <= limit
    ensures skip >= |list| ==> JsSlice(list, skip, skip + limit) == []
    ensures skip < |list| ==>
              JsSlice(list, skip, skip + limit)
              == list[skip..if skip + limit <= |list| then skip + limit else |list|]
  {
  }

  /** The live catalogue when it has entries, otherwise `POPULAR_ANIMES`. */
  function FullCatalog(page: Fetch<seq<Anchor>>): seq<Title> {
    match page
    case Loaded(anchors) =>
      var live := CatalogOf(anchors);
      if |live| > 0 then live else Popular
    case _ => Popular
  }

  /** A window of a list with unique slugs has unique slugs. */
  lemma JsSliceUnique(list: seq<Title>, start: int, end: int)
    requires UniqueSlugs(list)
    ensures UniqueSlugs(JsSlice(list, start, end))
  {
    var i := SliceIndex(|list|, start);
    var j := SliceIndex(|list|, end);
    if i < j {
      forall a, b | 0 <= a < b < j - i
        ensures list[i..j][a].slug != list[i..j][b].slug
      {
        assert list[i..j][a] == list[i + a] && list[i..j][b] == list[i + b];
      }
    }
  }

  /** Whether live or fallback, the full catalogue has each slug once. */
  lemma FullCatalogUnique(page: Fetch<seq<Anchor>>)
    ensures UniqueSlugs(FullCatalog(page))
  {
    if page.Loaded? && |CatalogOf(page.content)| > 0 {
      CatalogUnique(page.content);
    } else {
      PopularUnique();
    }
  }

  /** Only a non-empty live catalogue is worth caching. */
  predicate LiveCatalog(page: Fetch<seq<Anchor>>) {
    page.Loaded? && |CatalogOf(page.content)| > 0
  }
}
