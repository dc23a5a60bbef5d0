/**
 * The search of scraper.js: the query slug, the substring filter over the
 * catalogue, the merge of matching `POPULAR_ANIMES` entries when there are
 * fewer than five hits, and the placeholder entry when nothing matches.
 */
module Search {
  import opened Wrappers
  import opened Text
  import opened Catalog

  /** A character the regex class `[a-z0-9-]` matches. */
  predicate SlugChar(c: char) {
    'a' <= c <= 'z' || IsDigit(c) || c == '-'
  }

  /** `.replace(/[^a-z0-9\s-]/g, '')`. */
  function KeepSlugChars(s: string): (r: string)
    ensures |r| <= |s|
    ensures forall i :: 0 <= i < |r| ==> SlugChar(r[i]) || IsSpace(r[i])
    ensures (forall i :: 0 <= i < |s| ==> SlugChar(s[i]) || IsSpace(s[i])) ==> r == s
    decreases |s|
  {
    if s == [] then []
    else (if SlugChar(s[0]) || IsSpace(s[0]) then [s[0]] else []) + KeepSlugChars(s[1..])
  }

  /** `.replace(/\s+/g, '-')`: each run of white space becomes one '-'. */
  function DashSpaces(s: string): (r: string)
    ensures |r| <= |s|
    ensures forall i :: 0 <= i < |r| ==> !IsSpace(r[i])
    ensures (forall i :: 0 <= i < |s| ==> SlugChar(s[i]) || IsSpace(s[i]))
            ==> forall i :: 0 <= i < |r| ==> SlugChar(r[i])
    ensures (forall i :: 0 <= i < |s| ==> !IsSpace(s[i])) ==> r == s
    decreases |s|
  {
    if s == [] then []
    else if IsSpace(s[0]) then ['-'] + DashSpaces(TrimStart(s[1..]))
    else [s[0]] + DashSpaces(s[1..])
  }

  /** A word followed by one space becomes the word followed by '-'. */
  lemma {:induction false} DashTrailingSpace(w: string)
    requires forall i :: 0 <= i < |w| ==> !IsSpace(w[i])
    ensures DashSpaces(w + " ") == w + "-"
    decreases |w|
  {
    if w == [] {
      assert w + " " == " " && " "[1..] == [];
      assert TrimStart([]) == [];
    } else {
      assert (w + " ")[0] == w[0] && (w + " ")[1..] == w[1..] + " ";
      DashTrailingSpace(w[1..]);
      assert w == [w[0]] + w[1..];
    }
  }

  /** The query as a slug: lower-cased, stripped of everything but letters,
      digits, white space and '-', with each run of white space made one '-'. */
  function QuerySlug(query: string): (r: string)
    ensures forall i :: 0 <= i < |r| ==> SlugChar(r[i])
  {
    DashSpaces(KeepSlugChars(ToLower(query)))
  }

  /** A query slug is its own query slug. */
  lemma QuerySlugIdempotent(query: string)
    ensures QuerySlug(QuerySlug(query)) == QuerySlug(query)
  {
    var r := QuerySlug(query);
    assert ToLower(r) == r;
  }

  /** `anime.name.toLowerCase().includes(queryLower) || anime.slug.includes(querySlug)`. */
  predicate Hit(t: Title, queryLower: string, querySlug: string) {
    Contains(ToLower(t.name), queryLower) || Contains(t.slug, querySlug)
  }

  /** The titles of `ts` the query matches, in order (`Array.prototype.filter`). */
  function Hits(ts: seq<Title>, queryLower: string, querySlug: string): (r: seq<Title>)
    ensures |r| <= |ts|
    ensures forall i :: 0 <= i < |r| ==> r[i] in ts && Hit(r[i], queryLower, querySlug)
    decreases |ts|
  {
    if ts == [] then []
    else (if Hit(ts[0], queryLower, querySlug) then [ts[0]] else []) + Hits(ts[1..], queryLower, querySlug)
  }

  /** Every title the query matches is kept. */
  lemma {:induction false} HitsComplete(ts: seq<Title>, queryLower: string, querySlug: string, t: Title)
    requires t in ts && Hit(t, queryLower, querySlug)
    ensures t in Hits(ts, queryLower, querySlug)
    decreases |ts|
  {
    if ts[0] != t {
      HitsComplete(ts[1..], queryLower, querySlug, t);
    }
  }

  /** Filtering keeps the slugs unique. */
  lemma {:induction false} HitsUnique(ts: seq<Title>, queryLower: string, querySlug: string)
    requires UniqueSlugs(ts)
    ensures UniqueSlugs(Hits(ts, queryLower, querySlug))
    decreases |ts|
  {
    if ts != [] {
      var rest := Hits(ts[1..], queryLower, querySlug);
      HitsUnique(ts[1..], queryLower, querySlug);
      forall j | 0 <= j < |rest| ensures rest[j].slug != ts[0].slug {
        var k :| 0 <= k < |ts[1..]| && ts[1..][k] == rest[j];
        assert ts[k + 1] == rest[j];
      }
    }
  }

  /** The entry offered when nothing matches. */
  function Placeholder(query: string, querySlug: string): Title {
    Title(TitleId(querySlug), query, querySlug, None, "Rechercher \"" + query + "\" sur Anime-Sama")
  }

  /** The search's answer over the catalogue it is given, with `popular` as
      the list consulted when there are fewer than five hits. */
  function SearchIn(catalog: seq<Title>, popular: seq<Title>, query: string): (r: seq<Title>)
    ensures |r| > 0
  {
    var queryLower := ToLower(query);
    var querySlug := QuerySlug(query);
    var hits := Hits(catalog, queryLower, querySlug);
    var merged := if |hits| < 5 then AppendNew(hits, Hits(popular, queryLower, querySlug)) else hits;
    if merged == [] then [Placeholder(query, querySlug)] else merged
  }

  /** The search as scraper.js runs it: the fallback list is `POPULAR_ANIMES`. */
  function SearchResults(catalog: seq<Title>, query: string): seq<Title> {
    SearchIn(catalog, Popular, query)
  }

  /** The loop that pushes the popular hits whose slug is not yet among the results. */
  method MergePopular(results: seq<Title>, popularHits: seq<Title>) returns (merged: seq<Title>)
    ensures merged == AppendNew(results, popularHits)
  {
    merged := results;
    var i := 0;
    while i < |popularHits|
      invariant 0 <= i <= |popularHits|
      invariant merged == AppendNew(results, popularHits[..i])
    {
      var anime := popularHits[i];
      AppendNewStep(results, popularHits, i);
      if anime.slug !in SlugsOf(merged) {
        merged := merged + [anime];
      }
      i := i + 1;
    }
    assert popularHits[..i] == popularHits;
  }

  /** The body of `searchAnime` after the catalogue is fetched: the catalogue's
      hits, the popular hits merged in when there are fewer than five, and the
      placeholder when there is still nothing. */
  method RunSearch(catalog: seq<Title>, popular: seq<Title>, query: string) returns (results: seq<Title>)
    ensures results == SearchIn(catalog, popular, query)
  {
    var queryLower := ToLower(query);
    var querySlug := QuerySlug(query);
    results := Hits(catalog, queryLower, querySlug);
    if |results| < 5 {
      var popularResults := Hits(popular, queryLower, querySlug);
      results := MergePopular(results, popularResults);
    }
    if |results| == 0 {
      results := [Placeholder(query, querySlug)];
    }
  }

  /** When neither the catalogue nor the popular list matches, the answer is the
      single placeholder, whose slug is the query slug; otherwise every entry is
      a title of one of the two lists that the query matches. */
  lemma SearchPlaceholder(catalog: seq<Title>, popular: seq<Title>, query: string)
    ensures var ql, qs := ToLower(query), QuerySlug(query);
            Hits(catalog, ql, qs) == [] && Hits(popular, ql, qs) == [] ==>
              SearchIn(catalog, popular, query) == [Placeholder(query, qs)]
    ensures var ql, qs := ToLower(query), QuerySlug(query);
            Hits(catalog, ql, qs) != [] || Hits(popular, ql, qs) != [] ==>
              forall i :: 0 <= i < |SearchIn(catalog, popular, query)| ==>
                var t := SearchIn(catalog, popular, query)[i];
                (t in catalog || t in popular) && Hit(t, ql, qs)
  {
    var ql, qs := ToLower(query), QuerySlug(query);
    var hits := Hits(catalog, ql, qs);
    var pop := Hits(popular, ql, qs);
    if |hits| < 5 {
      AppendNewSlugs(hits, pop);
      var merged := AppendNew(hits, pop);
      if hits != [] || pop != [] {
        if merged == [] {
          assert false;
        }
        forall i | 0 <= i < |merged|
          ensures (merged[i] in catalog || merged[i] in popular) && Hit(merged[i], ql, qs)
        {
          if i >= |hits| {
            AppendNewFirst(hits, pop, i);
          } else {
            assert merged[i] == hits[i];
          }
        }
      }
    }
  }

  /** A title the query does not match is never in the answer, unless it is the placeholder. */
  lemma SearchSound(catalog: seq<Title>, popular: seq<Title>, query: string, t: Title)
    requires !Hit(t, ToLower(query), QuerySlug(query)) && t != Placeholder(query, QuerySlug(query))
    ensures t !in SearchIn(catalog, popular, query)
  {
    SearchPlaceholder(catalog, popular, query);
  }

  /** The catalogue's hits come first, in order; five or more hits are the whole
      answer; with fewer, every popular title the query matches has its slug in
      the answer, and a popular title is only added when its slug is new. */
  lemma SearchOrder(catalog: seq<Title>, popular: seq<Title>, query: string)
    ensures var hits := Hits(catalog, ToLower(query), QuerySlug(query));
            |hits| <= |SearchIn(catalog, popular, query)|
            && (hits != [] ==> SearchIn(catalog, popular, query)[..|hits|] == hits)
    ensures var hits := Hits(catalog, ToLower(query), QuerySlug(query));
            |hits| >= 5 ==> SearchIn(catalog, popular, query) == hits
    ensures var hits := Hits(catalog, ToLower(query), QuerySlug(query));
            var pop := Hits(popular, ToLower(query), QuerySlug(query));
            |hits| < 5 ==>
              (forall i :: 0 <= i < |pop| ==> pop[i].slug in SlugsOf(SearchIn(catalog, popular, query)))
              && (hits != [] || pop != [] ==>
                    forall i :: |hits| <= i < |SearchIn(catalog, popular, query)| ==>
                      SearchIn(catalog, popular, query)[i].slug !in SlugsOf(hits))
  {
    var ql, qs := ToLower(query), QuerySlug(query);
    var hits := Hits(catalog, ql, qs);
    var pop := Hits(popular, ql, qs);
    if |hits| < 5 {
      AppendNewSlugs(hits, pop);
      var merged := AppendNew(hits, pop);
      forall i | |hits| <= i < |merged| ensures merged[i].slug !in SlugsOf(hits) {
        AppendNewFirst(hits, pop, i);
      }
      if merged == [] {
        assert hits == [];
      }
    }
  }

  /** A catalogue with unique slugs gives an answer with unique slugs. */
  lemma SearchUnique(catalog: seq<Title>, popular: seq<Title>, query: string)
    requires UniqueSlugs(catalog)
    ensures UniqueSlugs(SearchIn(catalog, popular, query))
  {
    var ql, qs := ToLower(query), QuerySlug(query);
    HitsUnique(catalog, ql, qs);
    AppendNewUnique(Hits(catalog, ql, qs), Hits(popular, ql, qs));
  }
}
