/**
 * The season page of the player as the in-page scripts of scraper.js see it:
 * the `eps` arrays declared in its scripts, the labels of its `select`
 * options and its iframes.
 */
module Player {
  import opened Wrappers
  import opened Text
  import opened Catalog

  /** One `var|let|const epsN = [ ... ]` declaration of a script: the variable
      name and the quoted strings of the array, quotes removed, in order. */
  datatype EpsArray = EpsArray(varName: string, urls: seq<string>)

  /** An iframe: its `src` property (empty when it has none) and its
      `data-src` attribute. */
  datatype Iframe = Iframe(src: string, dataSrc: Option<string>)

  datatype SeasonPage = SeasonPage(
    scripts: seq<seq<EpsArray>>,  // per script, its eps declarations in order
    options: seq<string>,         // the text of each `select option`
    iframes: seq<Iframe>)

  /** `${BASE_URL}/catalogue/${slug}/saison${seasonNum}/${lang}/`. */
  function SeasonUrl(slug: string, season: nat, lang: string): (r: string)
    ensures StartsWith(r, BaseUrl + "/catalogue/" + slug + "/saison")
    ensures EndsWith(r, "/" + lang + "/")
    ensures var head := BaseUrl + "/catalogue/" + slug + "/saison";
            |head| + |"/" + lang + "/"| <= |r| && r[|head|..|r| - |"/" + lang + "/"|] == NatToString(season)
  {
    var head := BaseUrl + "/catalogue/" + slug + "/saison";
    var r := head + NatToString(season) + "/" + lang + "/";
    assert r[..|head|] == head;
    assert r[|r| - |"/" + lang + "/"|..] == "/" + lang + "/";
    assert r[|head|..|r| - |"/" + lang + "/"|] == NatToString(season);
    r
  }

  /** Different seasons of a title have different page addresses. */
  lemma SeasonUrlInjective(slug: string, a: nat, b: nat, lang: string)
    ensures SeasonUrl(slug, a, lang) == SeasonUrl(slug, b, lang) ==> a == b
  {
    if SeasonUrl(slug, a, lang) == SeasonUrl(slug, b, lang) {
      NatToStringInjective(a, b);
    }
  }

  /** The eps declarations of all scripts, in document order. */
  function AllArrays(scripts: seq<seq<EpsArray>>): (r: seq<EpsArray>)
    decreases |scripts|
  {
    if scripts == [] then [] else AllArrays(scripts[..|scripts| - 1]) + scripts[|scripts| - 1]
  }

  lemma AllArraysStep(scripts: seq<seq<EpsArray>>, n: nat)
    requires n < |scripts|
    ensures AllArrays(scripts[..n + 1]) == AllArrays(scripts[..n]) + scripts[n]
  {
    assert scripts[..n + 1][..n] == scripts[..n];
  }
}
