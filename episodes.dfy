/**
 * The episodes of a season in scraper.js: the in-page script that reads the
 * largest episode signal off the player page (the length of each `eps`
 * array and the number in each "Episode N" option), the episode count with
 * its default of 12, and the synthesised list `1..count`.
 */
module Episodes {
  import opened Wrappers
  import opened Text
  import opened Patterns
  import opened Fetching
  import opened Player

  function Max(a: nat, b: nat): nat {
    if a < b then b else a
  }

  /** `Math.max` of `m` and the lengths of `arrays`, applied in order. */
  function ArrayMax(m: nat, arrays: seq<EpsArray>): (r: nat)
    ensures m <= r
    ensures forall k :: 0 <= k < |arrays| ==> |arrays[k].urls| <= r
    ensures r == m || exists k :: 0 <= k < |arrays| && r == |arrays[k].urls|
    decreases |arrays|
  {
    if arrays == [] then m
    else Max(ArrayMax(m, arrays[..|arrays| - 1]), |arrays[|arrays| - 1].urls|)
  }

  /** The largest eps array of all scripts, 0 when there is none. */
  function ScriptsMax(scripts: seq<seq<EpsArray>>): (r: nat)
    ensures forall i, k :: 0 <= i < |scripts| && 0 <= k < |scripts[i]| ==> |scripts[i][k].urls| <= r
    ensures r == 0 || exists i, k :: 0 <= i < |scripts| && 0 <= k < |scripts[i]| && r == |scripts[i][k].urls|
    decreases |scripts|
  {
    if scripts == [] then 0
    else
      var init := scripts[..|scripts| - 1];
      var r := ArrayMax(ScriptsMax(init), scripts[|scripts| - 1]);
      assert forall i, k :: 0 <= i < |init| && 0 <= k < |init[i]| ==> init[i][k] == scripts[i][k];
      r
  }

  /** The number an option label announces: `text.match(/[ÉEe]pisode\s*(\d+)/i)`. */
  function OptionNumber(text: string): Option<nat> {
    FindNumber(text, Head.Episode, true)
  }

  /** `Math.max` of `m` and the numbers among `signals`, applied in order. */
  function OptionsMax(m: nat, signals: seq<Option<nat>>): (r: nat)
    ensures m <= r
    ensures forall k :: 0 <= k < |signals| && signals[k].Some? ==> signals[k].value <= r
    ensures r == m || exists k :: 0 <= k < |signals| && signals[k] == Some(r)
    decreases |signals|
  {
    if signals == [] then m
    else
      var prev := OptionsMax(m, signals[..|signals| - 1]);
      match signals[|signals| - 1]
      case Some(v) => Max(prev, v)
      case None => prev
  }

  /** What each option label announces. */
  function OptionNumbers(options: seq<string>): (r: seq<Option<nat>>)
    ensures |r| == |options|
    ensures forall k :: 0 <= k < |options| ==> r[k] == OptionNumber(options[k])
  {
    seq(|options|, k requires 0 <= k < |options| => OptionNumber(options[k]))
  }

  /** The `maxEpisode` the in-page script returns: no eps array is longer and no
      option announces a higher number, and it is 0 or one of those signals. */
  function MaxEpisode(page: SeasonPage): (r: nat)
    ensures forall i, k :: 0 <= i < |page.scripts| && 0 <= k < |page.scripts[i]| ==> |page.scripts[i][k].urls| <= r
    ensures forall k :: 0 <= k < |page.options| && OptionNumber(page.options[k]).Some? ==> OptionNumber(page.options[k]).value <= r
    ensures r == 0
            || (exists i, k :: 0 <= i < |page.scripts| && 0 <= k < |page.scripts[i]| && r == |page.scripts[i][k].urls|)
            || (exists k :: 0 <= k < |page.options| && OptionNumber(page.options[k]) == Some(r))
  {
    var signals := OptionNumbers(page.options);
    var r := OptionsMax(ScriptsMax(page.scripts), signals);
    assert r != ScriptsMax(page.scripts) ==> exists k :: 0 <= k < |signals| && signals[k] == Some(r);
    r
  }

  lemma ArrayMaxStep(m: nat, arrays: seq<EpsArray>, n: nat)
    requires n < |arrays|
    ensures ArrayMax(m, arrays[..n + 1]) == Max(ArrayMax(m, arrays[..n]), |arrays[n].urls|)
  {
    assert arrays[..n + 1][..n] == arrays[..n];
  }

  lemma ScriptsMaxStep(scripts: seq<seq<EpsArray>>, n: nat)
    requires n < |scripts|
    ensures ScriptsMax(scripts[..n + 1]) == ArrayMax(ScriptsMax(scripts[..n]), scripts[n])
  {
    assert scripts[..n + 1][..n] == scripts[..n];
  }

  lemma OptionsMaxStep(m: nat, signals: seq<Option<nat>>, n: nat)
    requires n < |signals|
    ensures OptionsMax(m, signals[..n + 1])
            == match signals[n]
               case Some(v) => Max(OptionsMax(m, signals[..n]), v)
               case None => OptionsMax(m, signals[..n])
  {
    assert signals[..n + 1][..n] == signals[..n];
  }

  /** The `epsMatch.forEach` loop of one script. */
  method ScanArrays(before: nat, matches: seq<EpsArray>) returns (m: nat)
    ensures m == ArrayMax(before, matches)
  {
    m := before;
    var j := 0;
    while j < |matches|
      invariant 0 <= j <= |matches|
      invariant m == ArrayMax(before, matches[..j])
    {
      ArrayMaxStep(before, matches, j);
      m := Max(m, |matches[j].urls|);
      j := j + 1;
    }
    assert matches[..j] == matches;
  }

  /** The `select option` loop, starting from the scripts' maximum. */
  method ScanOptions(start: nat, options: seq<string>) returns (m: nat)
    ensures m == OptionsMax(start, OptionNumbers(options))
  {
    ghost var signals := OptionNumbers(options);
    m := start;
    var k := 0;
    while k < |options|
      invariant 0 <= k <= |options|
      invariant m == OptionsMax(start, signals[..k])
    {
      OptionsMaxStep(start, signals, k);
      var number := OptionNumber(options[k]);
      if number.Some? {
        m := Max(m, number.value);
      }
      k := k + 1;
    }
    assert signals[..k] == signals;
  }

  /** The in-page script of `getSeasonEpisodes`. */
  method ScanMaxEpisode(page: SeasonPage) returns (maxEpisode: nat)
    ensures maxEpisode == MaxEpisode(page)
  {
    maxEpisode := 0;
    var i := 0;
    while i < |page.scripts|
      invariant 0 <= i <= |page.scripts|
      invariant maxEpisode == ScriptsMax(page.scripts[..i])
    {
      ScriptsMaxStep(page.scripts, i);
      maxEpisode := ScanArrays(maxEpisode, page.scripts[i]);
      i := i + 1;
    }
    assert page.scripts[..i] == page.scripts;
    maxEpisode := ScanOptions(maxEpisode, page.options);
  }

  /** The number of episodes listed: the page's `maxEpisode` unless it is 0, and
      12 when it is 0, when the page does not load and when an exception occurs. */
  function EpisodeCount(response: Fetch<SeasonPage>): (r: nat)
    ensures r >= 1
    ensures response.Loaded? && MaxEpisode(response.content) != 0 ==> r == MaxEpisode(response.content)
    ensures !(response.Loaded? && MaxEpisode(response.content) != 0) ==> r == 12
  {
    match response
    case Loaded(page) => var m := MaxEpisode(page); if m != 0 then m else 12
    case Failed => 12
    case Raised => 12
  }

  datatype Episode = Episode(id: string, number: nat, title: string, season: nat, lang: string)

  /** `animesama:${slug}:${seasonNum}:${i}`. */
  function EpisodeId(slug: string, season: nat, i: nat): string {
    "animesama:" + slug + ":" + NatToString(season) + ":" + NatToString(i)
  }

  function MakeEpisode(slug: string, season: nat, lang: string, i: nat): Episode {
    Episode.Episode(EpisodeId(slug, season, i), i, "\U{00C9}pisode " + NatToString(i), season, lang)
  }

  /** The `for (let i = 1; i <= episodeCount; i++)` loop: episodes `1..count`. */
  method SynthesizeEpisodes(slug: string, season: nat, lang: string, count: nat) returns (episodes: seq<Episode>)
    ensures |episodes| == count
    ensures forall k :: 0 <= k < count ==> episodes[k] == MakeEpisode(slug, season, lang, k + 1)
  {
    episodes := [];
    var i := 1;
    while i <= count
      invariant 1 <= i <= count + 1
      invariant |episodes| == i - 1
      invariant forall k :: 0 <= k < i - 1 ==> episodes[k] == MakeEpisode(slug, season, lang, k + 1)
    {
      episodes := episodes + [MakeEpisode(slug, season, lang, i)];
      i := i + 1;
    }
  }

  /** Pieces joined by a separator none of them holds split back into the pieces. */
  lemma SplitTwo(c: string, d: string, sep: char)
    requires sep !in c && sep !in d
    ensures SplitAny(c + [sep] + d, {sep}) == [c, d]
  {
    SplitAfterPiece(c, sep, d);
    SplitNoSeparator(d, sep);
  }

  lemma SplitThree(b: string, c: string, d: string, sep: char)
    requires sep !in b && sep !in c && sep !in d
    ensures SplitAny(b + [sep] + (c + [sep] + d), {sep}) == [b, c, d]
  {
    SplitAfterPiece(b, sep, c + [sep] + d);
    SplitTwo(c, d, sep);
  }

  lemma SplitFour(a: string, b: string, c: string, d: string, sep: char)
    requires sep !in a && sep !in b && sep !in c && sep !in d
    ensures SplitAny(a + [sep] + (b + [sep] + (c + [sep] + d)), {sep}) == [a, b, c, d]
  {
    SplitAfterPiece(a, sep, b + [sep] + (c + [sep] + d));
    SplitThree(b, c, d, sep);
  }

  /** An episode id splits at ':' back into the prefix, the slug, the season and
      the episode number, whenever the slug has no ':'. */
  lemma EpisodeIdParts(slug: string, season: nat, i: nat)
    requires ':' !in slug
    ensures var parts := SplitAny(EpisodeId(slug, season, i), {':'});
            parts == ["animesama", slug, NatToString(season), NatToString(i)]
            && ParseDigits(parts[2]) == season && ParseDigits(parts[3]) == i
  {
    var s, e := NatToString(season), NatToString(i);
    assert ':' !in s && ':' !in e;
    var prefix := "animesama";
    assert ':' !in prefix;
    assert EpisodeId(slug, season, i) == prefix + [':'] + (slug + [':'] + (s + [':'] + e));
    SplitFour(prefix, slug, s, e, ':');
    ParseNatToString(season);
    ParseNatToString(i);
  }

  /** Distinct episode numbers of one season give distinct ids. */
  lemma EpisodeIdsDistinct(slug: string, season: nat, i: nat, j: nat)
    requires i != j
    ensures EpisodeId(slug, season, i) != EpisodeId(slug, season, j)
  {
    var head := "animesama:" + slug + ":" + NatToString(season) + ":";
    if EpisodeId(slug, season, i) == EpisodeId(slug, season, j) {
      assert EpisodeId(slug, season, i)[|head|..] == NatToString(i);
      assert EpisodeId(slug, season, j)[|head|..] == NatToString(j);
      NatToStringInjective(i, j);
    }
  }

  /** The listed episodes are numbered `1..count` in order, with distinct ids of
      the form `animesama:{slug}:{season}:{number}`, the requested season and language. */
  lemma EpisodeListShape(slug: string, season: nat, lang: string, episodes: seq<Episode>)
    requires forall k :: 0 <= k < |episodes| ==> episodes[k] == MakeEpisode(slug, season, lang, k + 1)
    ensures forall k :: 0 <= k < |episodes| ==>
              episodes[k].number == k + 1 && episodes[k].season == season && episodes[k].lang == lang
              && episodes[k].id == EpisodeId(slug, season, k + 1)
    ensures forall k, m :: 0 <= k < m < |episodes| ==> episodes[k].id != episodes[m].id
  {
    forall k, m | 0 <= k < m < |episodes| ensures episodes[k].id != episodes[m].id {
      EpisodeIdsDistinct(slug, season, k + 1, m + 1);
    }
  }
}
