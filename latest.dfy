/**
 * The latest episodes of scraper.js: the home page's links to a catalogue
 * page whose text mentions an episode, at most one per slug, each with its
 * episode and season numbers (1 when the text gives none), at most 30.
 */
module Latest {
  import opened Wrappers
  import opened Text
  import opened Patterns

  /** A link of the home page: its href attribute and its text. */
  datatype HomeLink = HomeLink(href: Option<string>, text: string)

  datatype LatestEntry = LatestEntry(slug: string, episode: nat, season: nat, title: string)

  /** The most entries the list holds. */
  const MaxLatest: nat := 30

  function LinkHref(l: HomeLink): string {
    l.href.GetOr("")
  }

  function LinkText(l: HomeLink): string {
    Trim(l.text)
  }

  /** A link to a catalogue page whose lower-cased text says "episode" or "épisode". */
  predicate EpisodeLink(l: HomeLink) {
    Contains(LinkHref(l), "/catalogue/")
    && (Contains(ToLower(LinkText(l)), "episode") || Contains(ToLower(LinkText(l)), "\U{00E9}pisode"))
  }

  /** The slug of a qualifying link: the `/catalogue/([^/]+)` capture, as written. */
  function LinkSlug(l: HomeLink): (r: Option<string>)
    ensures r.Some? ==> EpisodeLink(l) && |r.value| > 0 && '/' !in r.value
  {
    if EpisodeLink(l) then CatalogueSlug(LinkHref(l)) else None
  }

  /** The entry of a qualifying link: the numbers after "Episode" and "Saison"
      in its text, 1 where there is none, and its first 100 characters. */
  function EntryOf(l: HomeLink, slug: string): (r: LatestEntry)
    ensures r.slug == slug && |r.title| <= 100 && StartsWith(LinkText(l), r.title)
    ensures |r.title| == if |LinkText(l)| <= 100 then |LinkText(l)| else 100
    ensures r.episode == FindNumber(LinkText(l), Head.Episode, true).GetOr(1)
    ensures r.season == FindNumber(LinkText(l), Saison, true).GetOr(1)
  {
    var text := LinkText(l);
    LatestEntry(slug, FindNumber(text, Head.Episode, true).GetOr(1),
                FindNumber(text, Saison, true).GetOr(1), Prefix(text, 100))
  }

  /** The entry a link offers, if it qualifies. */
  function Offer(l: HomeLink): (r: Option<LatestEntry>)
    ensures r.Some? ==> EpisodeLink(l) && LinkSlug(l) == Some(r.value.slug)
                        && |r.value.slug| > 0 && '/' !in r.value.slug && |r.value.title| <= 100
  {
    match LinkSlug(l)
    case Some(slug) => Some(EntryOf(l, slug))
    case None => None
  }

  function Offers(links: seq<HomeLink>): (r: seq<Option<LatestEntry>>)
    ensures |r| == |links|
    ensures forall k :: 0 <= k < |links| ==> r[k] == Offer(links[k])
  {
    seq(|links|, k requires 0 <= k < |links| => Offer(links[k]))
  }

  /** The slugs of the entries. */
  function SlugsOf(es: seq<LatestEntry>): (r: set<string>)
    ensures forall i :: 0 <= i < |es| ==> es[i].slug in r
    ensures forall slug :: slug in r ==> exists i :: 0 <= i < |es| && es[i].slug == slug
  {
    set e | e in es :: e.slug
  }

  predicate UniqueSlugs(es: seq<LatestEntry>) {
    forall i, j :: 0 <= i < j < |es| ==> es[i].slug != es[j].slug
  }

  /** One step of the scan: an offered entry with a new slug is added. */
  function AddOffer(prev: seq<LatestEntry>, o: Option<LatestEntry>): seq<LatestEntry> {
    if o.Some? && o.value.slug !in SlugsOf(prev) then prev + [o.value] else prev
  }

  /** The offered entries with the first of each slug kept, in order. */
  function Collect(offers: seq<Option<LatestEntry>>): seq<LatestEntry>
    decreases |offers|
  {
    if offers == [] then [] else AddOffer(Collect(offers[..|offers| - 1]), offers[|offers| - 1])
  }

  /** The entries of the links, in document order, before the cap. */
  function LatestOf(links: seq<HomeLink>): seq<LatestEntry> {
    Collect(Offers(links))
  }

  lemma CollectStep(offers: seq<Option<LatestEntry>>, n: nat)
    requires n < |offers|
    ensures Collect(offers[..n + 1]) == AddOffer(Collect(offers[..n]), offers[n])
  {
    assert offers[..n + 1][..n] == offers[..n];
  }

  lemma SlugsOfSnoc(es: seq<LatestEntry>, e: LatestEntry)
    ensures SlugsOf(es + [e]) == SlugsOf(es) + {e.slug}
  {
    assert (es + [e])[..|es|] == es;
  }

  /** The `$('a').each` scan with its `seen` set. */
  method ScanLatest(links: seq<HomeLink>) returns (latest: seq<LatestEntry>)
    ensures latest == LatestOf(links)
  {
    ghost var offers := Offers(links);
    latest := [];
    var seen: set<string> := {};
    var i := 0;
    while i < |links|
      invariant 0 <= i <= |links|
      invariant latest == Collect(offers[..i])
      invariant seen == SlugsOf(latest)
    {
      CollectStep(offers, i);
      var slug := LinkSlug(links[i]);
      if slug.Some? && slug.value !in seen {
        var entry := EntryOf(links[i], slug.value);
        SlugsOfSnoc(latest, entry);
        seen := seen + {slug.value};
        latest := latest + [entry];
      }
      i := i + 1;
    }
    assert offers[..i] == offers;
  }

  /** `latest.slice(0, 30)`. */
  function Capped(latest: seq<LatestEntry>): (r: seq<LatestEntry>)
    ensures |r| <= MaxLatest
    ensures |latest| <= MaxLatest ==> r == latest
    ensures |latest| > MaxLatest ==> |r| == MaxLatest
    ensures forall i :: 0 <= i < |r| ==> r[i] == latest[i]
  {
    if |latest| <= MaxLatest then latest else latest[..MaxLatest]
  }

  /** The scan never repeats a slug. */
  lemma {:induction false} CollectUnique(offers: seq<Option<LatestEntry>>)
    ensures UniqueSlugs(Collect(offers))
    decreases |offers|
  {
    if offers != [] {
      var prev := Collect(offers[..|offers| - 1]);
      CollectUnique(offers[..|offers| - 1]);
      var r := Collect(offers);
      if r != prev {
        forall i, j | 0 <= i < j < |r| ensures r[i].slug != r[j].slug {
          if j == |r| - 1 {
            assert r[i] == prev[i];
          }
        }
      }
    }
  }

  /** Every entry kept was offered. */
  lemma {:induction false} CollectFrom(offers: seq<Option<LatestEntry>>, i: nat) returns (k: nat)
    requires i < |Collect(offers)|
    ensures k < |offers| && offers[k] == Some(Collect(offers)[i])
    decreases |offers|
  {
    var init := offers[..|offers| - 1];
    var prev := Collect(init);
    if i < |prev| {
      k := CollectFrom(init, i);
      assert init[k] == offers[k];
    } else {
      k := |offers| - 1;
    }
  }

  /** The slug of every offered entry is kept. */
  lemma {:induction false} CollectComplete(offers: seq<Option<LatestEntry>>, k: nat)
    requires k < |offers| && offers[k].Some?
    ensures offers[k].value.slug in SlugsOf(Collect(offers))
    decreases |offers|
  {
    var n := |offers| - 1;
    var init := offers[..n];
    var prev := Collect(init);
    var r := Collect(offers);
    assert forall j :: 0 <= j < |prev| ==> r[j] == prev[j];
    if k < n {
      assert init[k] == offers[k];
      CollectComplete(init, k);
      var j :| 0 <= j < |prev| && prev[j].slug == offers[k].value.slug;
      assert r[j].slug == offers[k].value.slug;
    } else if r != prev {
      assert r[|prev|] == offers[k].value;
    }
  }

  /** Some link of the page offers `e`. */
  predicate Offered(links: seq<HomeLink>, e: LatestEntry) {
    exists k :: 0 <= k < |links| && Offer(links[k]) == Some(e)
  }

  /** Before the cap, each entry is the entry of a qualifying link of the page,
      and every qualifying link has its slug among the entries. */
  lemma LatestSources(links: seq<HomeLink>)
    ensures forall i :: 0 <= i < |LatestOf(links)| ==> Offered(links, LatestOf(links)[i])
    ensures forall k :: 0 <= k < |links| && LinkSlug(links[k]).Some? ==>
              LinkSlug(links[k]).value in SlugsOf(LatestOf(links))
  {
    var offers := Offers(links);
    forall i | 0 <= i < |LatestOf(links)| ensures Offered(links, LatestOf(links)[i]) {
      var k := CollectFrom(offers, i);
      assert Offer(links[k]) == offers[k] == Some(LatestOf(links)[i]);
    }
    forall k | 0 <= k < |links| && LinkSlug(links[k]).Some?
      ensures LinkSlug(links[k]).value in SlugsOf(LatestOf(links))
    {
      assert offers[k] == Offer(links[k]);
      assert Offer(links[k]) == Some(EntryOf(links[k], LinkSlug(links[k]).value));
      CollectComplete(offers, k);
    }
  }

  /** What the home page gives: at most 30 entries with distinct slugs, each
      with a non-empty slug free of '/' and a title of at most 100 characters. */
  lemma RecentProperties(links: seq<HomeLink>)
    ensures var r := Capped(LatestOf(links));
            |r| <= MaxLatest && UniqueSlugs(r)
            && forall i :: 0 <= i < |r| ==> |r[i].slug| > 0 && '/' !in r[i].slug && |r[i].title| <= 100
  {
    var offers := Offers(links);
    var latest := LatestOf(links);
    CollectUnique(offers);
    forall i | 0 <= i < |latest| ensures |latest[i].slug| > 0 && '/' !in latest[i].slug && |latest[i].title| <= 100 {
      var k := CollectFrom(offers, i);
      assert offers[k] == Offer(links[k]);
    }
  }
}
