/**
 * The Cinemeta client of cinemeta.js: the cleaning of a title before it is
 * searched, the choice of the best of the returned metas, the record built
 * from it, its cache (24 hours), and the IMDb id lookup that consults the
 * hand-written map before searching.
 */
module Cinemeta {
  import opened Wrappers
  import opened Text
  import opened Fetching
  import opened NodeCache

  /** The time-to-live of the cache, in seconds (`stdTTL`). */
  const StdTtl: nat := 86400

  /** The end of the first ')' at or after `j`, or `|s|` when there is none. */
  function CloseAt(s: string, j: nat): (k: nat)
    requires j <= |s|
    ensures j <= k <= |s|
    ensures forall m :: j <= m < k ==> s[m] != ')'
    ensures k < |s| ==> s[k] == ')'
    decreases |s| - j
  {
    if j == |s| || s[j] == ')' then j else CloseAt(s, j + 1)
  }

  /** `s.replace(/\([^)]*\)/g, '')`: from left to right, each '(' with a ')'
      somewhere after it is removed together with everything up to that ')'. */
  function RemoveGroups(s: string): (r: string)
    ensures |r| <= |s|
    ensures forall i, j :: 0 <= i < j < |r| ==> !(r[i] == '(' && r[j] == ')')
    ensures forall i :: 0 <= i < |r| ==> r[i] in s
    ensures '(' !in s ==> r == s
    ensures ')' !in s ==> r == s
    decreases |s|
  {
    if s == [] then []
    else if s[0] == '(' && CloseAt(s, 1) < |s| then
      var rest := RemoveGroups(s[CloseAt(s, 1) + 1..]);
      InSuffix(s, CloseAt(s, 1) + 1, rest);
      rest
    else
      var rest := RemoveGroups(s[1..]);
      KeepFirst(s, rest);
      [s[0]] + rest
  }

  /** The first character kept in front of the rest keeps what the rest has. */
  lemma KeepFirst(s: string, rest: string)
    requires s != [] && !(s[0] == '(' && CloseAt(s, 1) < |s|)
    requires |rest| <= |s| - 1
    requires forall i, j :: 0 <= i < j < |rest| ==> !(rest[i] == '(' && rest[j] == ')')
    requires forall i :: 0 <= i < |rest| ==> rest[i] in s[1..]
    requires '(' !in s[1..] ==> rest == s[1..]
    requires ')' !in s[1..] ==> rest == s[1..]
    ensures |[s[0]] + rest| <= |s|
    ensures forall i, j :: 0 <= i < j < |[s[0]] + rest| ==> !(([s[0]] + rest)[i] == '(' && ([s[0]] + rest)[j] == ')')
    ensures forall i :: 0 <= i < |[s[0]] + rest| ==> ([s[0]] + rest)[i] in s
    ensures '(' !in s ==> [s[0]] + rest == s
    ensures ')' !in s ==> [s[0]] + rest == s
  {
    InSuffix(s, 1, rest);
    if s[0] == '(' {
      assert forall m :: 0 <= m < |s[1..]| ==> s[1..][m] == s[1 + m] != ')';
    }
    assert ')' !in s ==> ')' !in s[1..];
    assert s == [s[0]] + s[1..];
  }

  /** What a suffix holds, the string holds. */
  lemma InSuffix(s: string, k: nat, t: string)
    requires k <= |s| && forall i :: 0 <= i < |t| ==> t[i] in s[k..]
    ensures forall i :: 0 <= i < |t| ==> t[i] in s
  {
    forall i | 0 <= i < |t| ensures t[i] in s {
      var m :| 0 <= m < |s[k..]| && s[k..][m] == t[i];
      assert s[k + m] == t[i];
    }
  }

  /** A group closed by the first ')' after the first '(' is removed, and the
      text before it is kept. */
  lemma RemoveGroupsDrops(u: string, g: string, v: string)
    requires '(' !in u && ')' !in g
    ensures RemoveGroups(u + "(" + g + ")" + v) == u + RemoveGroups(v)
  {
    NoOpenAt(u);
    GroupSplit(u, g, v);
    RemoveGroupsPrefix(u, "(" + g + ")" + v);
    RemoveGroupFirst(g, v);
  }

  lemma NoOpenAt(u: string)
    requires '(' !in u
    ensures forall i :: 0 <= i < |u| ==> u[i] != '('
  {
    forall i | 0 <= i < |u| ensures u[i] != '(' {
      assert u[i] in u;
    }
  }

  lemma GroupSplit(u: string, g: string, v: string)
    ensures u + "(" + g + ")" + v == u + ("(" + g + ")" + v)
  {
  }

  /** Text without '(' in front of a string is kept as it is. */
  lemma {:induction false} RemoveGroupsPrefix(u: string, w: string)
    requires forall i :: 0 <= i < |u| ==> u[i] != '('
    ensures RemoveGroups(u + w) == u + RemoveGroups(w)
    decreases |u|
  {
    if u == [] {
      assert u + w == w;
    } else {
      assert forall i :: 0 <= i < |u| - 1 ==> u[1..][i] == u[i + 1];
      RemoveGroupsPrefix(u[1..], w);
      RemoveGroupsPrefixStep(u, w);
    }
  }

  lemma RemoveGroupsPrefixStep(u: string, w: string)
    requires u != [] && u[0] != '('
    requires RemoveGroups(u[1..] + w) == u[1..] + RemoveGroups(w)
    ensures RemoveGroups(u + w) == u + RemoveGroups(w)
  {
    ConsSplit(u, w);
    RemoveGroupsKeep(u[0], u[1..] + w);
    ConsSplit(u, RemoveGroups(w));
  }

  lemma ConsSplit(u: string, w: string)
    requires u != []
    ensures u + w == [u[0]] + (u[1..] + w)
  {
  }

  /** A group at the very start is dropped. */
  lemma RemoveGroupFirst(g: string, v: string)
    requires ')' !in g
    ensures RemoveGroups("(" + g + ")" + v) == RemoveGroups(v)
  {
    var s := "(" + g + ")" + v;
    assert s[1 + |g|] == ')';
    forall m | 1 <= m < 1 + |g| ensures s[m] != ')' {
      assert s[m] == g[m - 1];
    }
    assert CloseAt(s, 1) == 1 + |g|;
    assert s[2 + |g|..] == v;
  }

  /** A character other than '(' at the start is kept. */
  lemma RemoveGroupsKeep(c: char, w: string)
    requires c != '('
    ensures RemoveGroups([c] + w) == [c] + RemoveGroups(w)
  {
    assert ([c] + w)[1..] == w;
  }

  /** `.replace(/[:-]/g, ' ')`. */
  function SpaceSeparators(s: string): (r: string)
    ensures |r| == |s|
    ensures forall i :: 0 <= i < |r| ==> r[i] == (if s[i] == ':' || s[i] == '-' then ' ' else s[i])
  {
    seq(|s|, i requires 0 <= i < |s| => if s[i] == ':' || s[i] == '-' then ' ' else s[i])
  }

  /** The title as it is searched: parenthesised groups dropped, ':' and '-'
      made spaces, white space trimmed. */
  function CleanName(name: string): (r: string)
    ensures |r| <= |name|
    ensures forall i :: 0 <= i < |r| ==> r[i] != ':' && r[i] != '-'
    ensures forall i, j :: 0 <= i < j < |r| ==> !(r[i] == '(' && r[j] == ')')
    ensures r == [] || (!IsSpace(r[0]) && !IsSpace(r[|r| - 1]))
  {
    var spaced := SpaceSeparators(RemoveGroups(name));
    TrimKeeps(spaced);
    Trim(spaced)
  }

  /** The cleaned name is the groups-free, separator-spaced name with only
      white space dropped at either end. */
  lemma CleanNameShape(name: string)
    ensures TrimmedAt(SpaceSeparators(RemoveGroups(name)), CleanName(name),
                      TrimOffset(SpaceSeparators(RemoveGroups(name))))
  {
    TrimShape(SpaceSeparators(RemoveGroups(name)));
  }

  /** Trimming keeps the absence of ':' and '-' and of a '(' before a ')'. */
  lemma TrimKeeps(s: string)
    requires forall i :: 0 <= i < |s| ==> s[i] != ':' && s[i] != '-'
    requires forall i, j :: 0 <= i < j < |s| ==> !(s[i] == '(' && s[j] == ')')
    ensures forall i :: 0 <= i < |Trim(s)| ==> Trim(s)[i] != ':' && Trim(s)[i] != '-'
    ensures forall i, j :: 0 <= i < j < |Trim(s)| ==> !(Trim(s)[i] == '(' && Trim(s)[j] == ')')
  {
    var k, r := TrimOffset(s), Trim(s);
    TrimOccurs(s);
    SliceKeeps(s, r, k);
  }

  lemma SliceKeeps(s: string, r: string, lo: nat)
    requires lo + |r| <= |s| && r == s[lo..lo + |r|]
    requires forall i :: 0 <= i < |s| ==> s[i] != ':' && s[i] != '-'
    requires forall i, j :: 0 <= i < j < |s| ==> !(s[i] == '(' && s[j] == ')')
    ensures forall i :: 0 <= i < |r| ==> r[i] != ':' && r[i] != '-'
    ensures forall i, j :: 0 <= i < j < |r| ==> !(r[i] == '(' && r[j] == ')')
  {
    forall i | 0 <= i < |r| ensures r[i] != ':' && r[i] != '-' {
      assert r[i] == s[lo + i];
    }
    forall i, j | 0 <= i < j < |r| ensures !(r[i] == '(' && r[j] == ')') {
      assert r[i] == s[lo + i] && r[j] == s[lo + j];
    }
  }

  /** A meta of the Cinemeta search answer; `name` is absent on some. */
  datatype Meta = Meta(
    id: string,
    name: Option<string>,
    poster: Option<string>,
    background: Option<string>,
    description: Option<string>,
    genres: Option<seq<string>>,
    year: Option<string>)

  /** A result name close to the searched name: equal, or one contains the other. */
  predicate Close(resultName: string, searchName: string) {
    resultName == searchName || Contains(resultName, searchName) || Contains(searchName, resultName)
  }

  /** How the best-match loop ends from index `i` on. */
  datatype Scan =
    | Matched(index: nat)  // the first close result
    | Exhausted            // no result is close
    | Threw(at: nat)       // a result without a name: `result.name.toLowerCase()` throws

  function ScanFrom(results: seq<Meta>, searchName: string, i: nat): (r: Scan)
    requires i <= |results|
    ensures r.Matched? ==> i <= r.index < |results| && results[r.index].name.Some?
                           && Close(ToLower(results[r.index].name.value), searchName)
    ensures r.Threw? ==> i <= r.at < |results| && results[r.at].name.None?
    ensures forall m :: i <= m < (match r case Matched(k) => k case Threw(k) => k case Exhausted => |results|) ==>
              results[m].name.Some? && !Close(ToLower(results[m].name.value), searchName)
    decreases |results| - i
  {
    if i == |results| then Exhausted
    else match results[i].name
      case None => Threw(i)
      case Some(n) => if Close(ToLower(n), searchName) then Matched(i) else ScanFrom(results, searchName, i + 1)
  }

  /** The best match: the first close result, else the first result; `None`
      when the loop throws before either is settled. */
  function BestOf(results: seq<Meta>, cleanName: string): Option<Meta>
    requires |results| > 0
  {
    match ScanFrom(results, ToLower(cleanName), 0)
    case Matched(k) => Some(results[k])
    case Exhausted => Some(results[0])
    case Threw(_) => None
  }

  /** The `for (const result of results)` loop with its `break`. */
  method BestMatch(results: seq<Meta>, cleanName: string) returns (best: Option<Meta>)
    requires |results| > 0
    ensures best == BestOf(results, cleanName)
  {
    var searchName := ToLower(cleanName);
    var bestMatch := results[0];
    var i := 0;
    while i < |results|
      invariant 0 <= i <= |results|
      invariant ScanFrom(results, searchName, 0) == ScanFrom(results, searchName, i)
      invariant bestMatch == results[0]
    {
      var result := results[i];
      if result.name.None? {
        return None;
      }
      var resultName := ToLower(result.name.value);
      if Close(resultName, searchName) {
        bestMatch := result;
        return Some(bestMatch);
      }
      i := i + 1;
    }
    return Some(bestMatch);
  }

  /** The record `searchAnime` returns. */
  datatype MatchRecord = MatchRecord(
    imdbId: string,
    name: Option<string>,
    poster: Option<string>,
    background: Option<string>,
    description: Option<string>,
    genres: seq<string>,
    year: Option<string>)

  /** `background: m.background || m.poster`, `genres: m.genres || []`. */
  function RecordOf(m: Meta): (r: MatchRecord)
    ensures r.imdbId == m.id && r.name == m.name && r.poster == m.poster && r.year == m.year
    ensures r.background == (if m.background.Some? && m.background.value != "" then m.background else m.poster)
    ensures r.genres == (if m.genres.Some? then m.genres.value else [])
  {
    MatchRecord(m.id, m.name, m.poster,
                if m.background.Some? && m.background.value != "" then m.background else m.poster,
                m.description, m.genres.GetOr([]), m.year)
  }

  /** The answer of a search that misses the cache: the record of the best match
      when Cinemeta returns metas, null when it returns none, when the answer has
      no metas, when the request fails and when the loop throws. */
  function SearchResult(name: string, response: Fetch<seq<Meta>>): (r: Option<MatchRecord>)
    ensures r.Some? ==> response.Loaded? && |response.content| > 0
    ensures response.Loaded? && |response.content| > 0 ==>
              r == match BestOf(response.content, CleanName(name))
                   case Some(m) => Some(RecordOf(m))
                   case None => None
  {
    match response
    case Loaded(metas) =>
      if |metas| > 0 then
        match BestOf(metas, CleanName(name))
        case Some(m) => Some(RecordOf(m))
        case None => None
      else None
    case _ => None
  }

  /** `cinemeta_${name.toLowerCase().trim()}`. */
  function SearchKey(name: string): (r: string)
    ensures StartsWith(r, "cinemeta_") && |r| <= |"cinemeta_"| + |name|
    ensures |r| == |"cinemeta_"| || (!IsSpace(r[|"cinemeta_"|]) && !IsSpace(r[|r| - 1]))
  {
    var t := Trim(ToLower(name));
    PrefixedTrimmed("cinemeta_", t);
    "cinemeta_" + t
  }

  /** `ANIME_IMDB_MAP`, as written, in two halves of its entries in source order. */
  const ImdbMapFront: map<string, string> := map[
    "one-piece" := "tt0388629",
    "naruto" := "tt0409591",
    "naruto-shippuden" := "tt0988824",
    "dragon-ball-z" := "tt0121220",
    "dragon-ball-super" := "tt4644488",
    "bleach" := "tt0434665",
    "one-punch-man" := "tt4508902",
    "demon-slayer" := "tt9335498",
    "jujutsu-kaisen" := "tt12343534",
    "my-hero-academia" := "tt5626028",
    "shingeki-no-kyojin" := "tt2560140",
    "attack-on-titan" := "tt2560140",
    "spy-x-family" := "tt13706018",
    "chainsaw-man" := "tt13245028",
    "hunter-x-hunter" := "tt2098220",
    "death-note" := "tt0877057",
    "fullmetal-alchemist-brotherhood" := "tt1355642",
    "tokyo-revengers" := "tt13465574",
    "solo-leveling" := "tt21209876",
    "blue-lock" := "tt21210604"
  ]

  const ImdbMapBack: map<string, string> := map[
    "vinland-saga" := "tt10233448",
    "kingdom" := "tt6741278",
    "mob-psycho-100" := "tt5897304",
    "black-clover" := "tt7441658",
    "fairy-tail" := "tt1528406",
    "sword-art-online" := "tt2071645",
    "mushoku-tensei" := "tt13293588",
    "frieren" := "tt22248376",
    "dandadan" := "tt32015629",
    "kaiju-no-8" := "tt28479092",
    "oshi-no-ko" := "tt21447976",
    "dr-stone" := "tt9362936",
    "the-rising-of-the-shield-hero" := "tt8524278",
    "overlord" := "tt5765632",
    "re-zero" := "tt5607616",
    "konosuba" := "tt5476454",
    "that-time-i-got-reincarnated-as-a-slime" := "tt8513906",
    "bocchi-the-rock" := "tt21216528",
    "haikyuu" := "tt3398540",
    "kuroko-no-basket" := "tt2erta540",
    "code-geass" := "tt0994314"
  ]

  const ImdbMap: map<string, string> := ImdbMapFront + ImdbMapBack

  /** `ANIME_IMDB_MAP[slug]` when it is truthy. Every id in the map is non-empty,
      so the truthiness test is plain membership. */
  function Mapped(slug: string): (r: Option<string>)
    ensures r.Some? <==> slug in ImdbMap
    ensures r.Some? ==> r.value == ImdbMap[slug] && StartsWith(r.value, "tt")
  {
    MappedIds();
    if slug in ImdbMap && ImdbMap[slug] != "" then Some(ImdbMap[slug]) else None
  }

  /** The text searched for a slug that is not mapped: `name || slug.replace(/-/g, ' ')`. */
  function SearchText(slug: string, name: Option<string>): (r: string)
    ensures name.Some? && name.value != "" ==> r == name.value
    ensures !(name.Some? && name.value != "") ==> r == ReplaceChar(slug, '-', ' ') && '-' !in r
  {
    if name.Some? && name.value != "" then name.value
    else
      var r := ReplaceChar(slug, '-', ' ');
      assert forall i :: 0 <= i < |r| ==> r[i] != '-';
      r
  }

  /** The module state of cinemeta.js: its cache of search records. */
  class Client {
    const cache: Cache<MatchRecord>

    constructor ()
      ensures fresh(cache) && cache.entries == map[]
    {
      cache := new Cache();
    }

    /** What `searchAnime(name)` answers at time `now`: the stored record on a
        cache hit, else the fresh answer. */
    function SearchOutcome(name: string, response: Fetch<seq<Meta>>, now: nat): Option<MatchRecord>
      reads this, cache
    {
      match cache.Lookup(SearchKey(name), now)
      case Some(rec) => Some(rec)
      case None => SearchResult(name, response)
    }

    /** The cache entries after `searchAnime(name)` at time `now`: unchanged on
        a hit or when nothing is found, else the found record stored under the
        name's key for a day. */
    function SearchStore(name: string, response: Fetch<seq<Meta>>, now: nat): map<string, Entry<MatchRecord>>
      reads this, cache
    {
      if cache.Lookup(SearchKey(name), now).Some? then cache.entries
      else match SearchResult(name, response)
           case Some(rec) => cache.entries[SearchKey(name) := Entry(rec, now + StdTtl * 1000)]
           case None => cache.entries
    }

    /** `searchAnime(name)`: a fresh record is stored under the name's key for a
        day; nothing else is stored. */
    method SearchAnime(name: string, response: Fetch<seq<Meta>>, now: nat) returns (r: Option<MatchRecord>)
      modifies cache
      ensures r == old(SearchOutcome(name, response, now))
      ensures old(cache.Lookup(SearchKey(name), now)).Some? ==> cache.entries == old(cache.entries)
      ensures old(cache.Lookup(SearchKey(name), now)).None? ==>
                cache.entries == (if r.Some? then old(cache.entries)[SearchKey(name) := Entry(r.value, now + StdTtl * 1000)]
                                  else old(cache.entries))
      ensures r.Some? ==> forall t :: now <= t <= now + StdTtl * 1000 && old(cache.Lookup(SearchKey(name), now)).None?
                            ==> cache.Lookup(SearchKey(name), t) == r
    {
      var key := SearchKey(name);
      var cached := cache.Lookup(key, now);
      if cached.Some? {
        return cached;
      }
      if response.Loaded? && |response.content| > 0 {
        var best := BestMatch(response.content, CleanName(name));
        if best.None? {
          return None;
        }
        r := Some(RecordOf(best.value));
        cache.Set(key, r.value, StdTtl, now);
        return r;
      }
      return None;
    }

    /** `getImdbId(slug, name)`: the mapped id without a search, else the id of
        what searching the name (or the slug with spaces) answers. */
    method ImdbId(slug: string, name: Option<string>, response: Fetch<seq<Meta>>, now: nat) returns (id: Option<string>)
      modifies cache
      ensures Mapped(slug).Some? ==> id == Mapped(slug) && cache.entries == old(cache.entries)
      ensures Mapped(slug).None? ==>
                id == match old(SearchOutcome(SearchText(slug, name), response, now))
                      case Some(rec) => Some(rec.imdbId)
                      case None => None
      ensures Mapped(slug).None? ==> cache.entries == old(SearchStore(SearchText(slug, name), response, now))
    {
      var mapped := Mapped(slug);
      if mapped.Some? {
        return mapped;
      }
      var result := SearchAnime(SearchText(slug, name), response, now);
      id := if result.Some? then Some(result.value.imdbId) else None;
    }
  }

  /** A record fetched once is answered from the cache for a day, whatever
      Cinemeta would answer then. */
  lemma CachedSearchStable(c: Client, name: string, other: string, r1: Fetch<seq<Meta>>, r2: Fetch<seq<Meta>>, t: nat)
    requires c.cache.Lookup(SearchKey(name), t).Some?
    requires SearchKey(other) == SearchKey(name)
    ensures c.SearchOutcome(other, r2, t) == c.SearchOutcome(name, r1, t) == c.cache.Lookup(SearchKey(name), t)
  {
  }

  /** Every mapped id is an IMDb-style "tt" id; one of them, as written, has
      letters after the prefix. */
  lemma MappedIds()
    ensures forall slug :: slug in ImdbMap ==> StartsWith(ImdbMap[slug], "tt") && |ImdbMap[slug]| >= 9
    ensures !(forall i :: 2 <= i < |ImdbMap["kuroko-no-basket"]| ==> IsDigit(ImdbMap["kuroko-no-basket"][i]))
  {
    FrontIds();
    BackIds();
    assert ImdbMap["kuroko-no-basket"] == ImdbMapBack["kuroko-no-basket"];
    assert ImdbMap["kuroko-no-basket"][3] == 'e';
  }

  lemma FrontIds()
    ensures forall slug :: slug in ImdbMapFront ==> StartsWith(ImdbMapFront[slug], "tt") && |ImdbMapFront[slug]| >= 9
  {
  }

  lemma BackIds()
    ensures forall slug :: slug in ImdbMapBack ==> StartsWith(ImdbMapBack[slug], "tt") && |ImdbMapBack[slug]| >= 9
  {
  }
}
