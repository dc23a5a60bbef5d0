/**
 * The few regular expressions of the scraper whose match is a plain scan,
 * written out as leftmost-match searches:
 *   `/\/catalogue\/([^\/]+)/`              the slug in a catalogue link,
 *   `/saison(\d+)/i`, `/saison\s*(\d+)/i`   a season number,
 *   `/[ÉEe]pisode\s*(\d+)/i`               an episode number.
 */
module Patterns {
  import opened Wrappers
  import opened Text

  const CatalogueSegment: string := "/catalogue/"

  /** The regex `/\/catalogue\/([^\/]+)/` can match at index `i` of `href`. */
  predicate SlugAt(href: string, i: nat) {
    i + |CatalogueSegment| < |href|
    && href[i..i + |CatalogueSegment|] == CatalogueSegment
    && href[i + |CatalogueSegment|] != '/'
  }

  /** The end of the run of characters other than '/' that starts at `j`. */
  function SlashFreeEnd(s: string, j: nat): (k: nat)
    requires j <= |s|
    ensures j <= k <= |s|
    ensures forall m :: j <= m < k ==> s[m] != '/'
    ensures k == |s| || s[k] == '/'
    decreases |s| - j
  {
    if j == |s| || s[j] == '/' then j else SlashFreeEnd(s, j + 1)
  }

  /** The capture of the match at index `k`: the run of characters other than
      '/' after the segment. */
  function SlugCapture(href: string, k: nat): string
    requires SlugAt(href, k)
  {
    href[k + |CatalogueSegment|..SlashFreeEnd(href, k + |CatalogueSegment|)]
  }

  /** Index `k` is the leftmost match at index `i` or later. */
  predicate FirstSlugAt(href: string, i: nat, k: nat) {
    i <= k < |href| && SlugAt(href, k) && forall m :: i <= m < k ==> !SlugAt(href, m)
  }

  /** The capture of the leftmost match at index `i` or later. */
  function CatalogueSlugFrom(href: string, i: nat): (r: Option<string>)
    requires i <= |href|
    ensures r.None? <==> forall k :: i <= k < |href| ==> !SlugAt(href, k)
    ensures r.Some? ==> |r.value| > 0 && '/' !in r.value
                        && Contains(href, CatalogueSegment + r.value)
    ensures forall k: nat :: FirstSlugAt(href, i, k) ==> r == Some(SlugCapture(href, k))
    decreases |href| - i
  {
    if i == |href| then None
    else if SlugAt(href, i) then
      var slug := SlugCapture(href, i);
      assert href[i..i + |CatalogueSegment + slug|] == CatalogueSegment + slug;
      assert OccursAt(href, CatalogueSegment + slug, i);
      ContainsIff(href, CatalogueSegment + slug);
      Some(slug)
    else CatalogueSlugFrom(href, i + 1)
  }

  /** `href.match(/\/catalogue\/([^\/]+)/)`, as its group 1 when it matches. */
  function CatalogueSlug(href: string): Option<string> {
    CatalogueSlugFrom(href, 0)
  }

  /** The literal part a number follows, matched without regard to letter case. */
  datatype Head =
    | Saison    // `saison`
    | Episode   // `[ÉEe]pisode`

  function HeadLength(h: Head): nat {
    match h
    case Saison => 6
    case Episode => 7
  }

  predicate HeadAt(s: string, i: nat, h: Head) {
    i + HeadLength(h) <= |s|
    && match h
       case Saison => ToLower(s[i..i + 6]) == "saison"
       case Episode =>
         (LowerChar(s[i]) == 'e' || LowerChar(s[i]) == '\U{00E9}')
         && ToLower(s[i + 1..i + 7]) == "pisode"
  }

  /** The end of the run of characters satisfying `p` that starts at `j`. */
  function RunEnd(s: string, j: nat, spaces: bool): (k: nat)
    requires j <= |s|
    ensures j <= k <= |s|
    ensures forall m :: j <= m < k ==> if spaces then IsSpace(s[m]) else IsDigit(s[m])
    ensures k == |s| || !(if spaces then IsSpace(s[k]) else IsDigit(s[k]))
    decreases |s| - j
  {
    if j == |s| || !(if spaces then IsSpace(s[j]) else IsDigit(s[j])) then j
    else RunEnd(s, j + 1, spaces)
  }

  /** Where the digits start in a match at `i`: right after the head, or after
      the white space that follows it when the regex has `\s*`. */
  function DigitsStart(s: string, i: nat, h: Head, spaced: bool): (d: nat)
    requires HeadAt(s, i, h)
    ensures i + HeadLength(h) <= d <= |s|
  {
    if spaced then RunEnd(s, i + HeadLength(h), true) else i + HeadLength(h)
  }

  /** The regex `h(\d+)` (or `h\s*(\d+)` when `spaced`) matches at `i`. Since
      `\s` and `\d` are disjoint, the greedy `\s*` never has to give back. */
  predicate NumberAt(s: string, i: nat, h: Head, spaced: bool) {
    HeadAt(s, i, h)
    && var d := DigitsStart(s, i, h, spaced);
       d < |s| && IsDigit(s[d])
  }

  /** `parseInt` of the captured digits of a match at `i`. */
  function NumberValue(s: string, i: nat, h: Head, spaced: bool): nat
    requires NumberAt(s, i, h, spaced)
  {
    var d := DigitsStart(s, i, h, spaced);
    ParseDigits(s[d..RunEnd(s, d, false)])
  }

  /** The index of the leftmost match at index `i` or later. */
  function FirstNumberAt(s: string, h: Head, spaced: bool, i: nat): (r: Option<nat>)
    requires i <= |s|
    ensures r.None? <==> forall k :: i <= k < |s| ==> !NumberAt(s, k, h, spaced)
    ensures r.Some? ==> i <= r.value < |s| && NumberAt(s, r.value, h, spaced)
                        && forall m :: i <= m < r.value ==> !NumberAt(s, m, h, spaced)
    decreases |s| - i
  {
    if i == |s| then None
    else if NumberAt(s, i, h, spaced) then Some(i)
    else FirstNumberAt(s, h, spaced, i + 1)
  }

  /** `parseInt(s.match(re)[1])` for the regexes above, `None` when `s` does not match. */
  function FindNumber(s: string, h: Head, spaced: bool): Option<nat> {
    match FirstNumberAt(s, h, spaced, 0)
    case Some(k) => Some(NumberValue(s, k, h, spaced))
    case None => None
  }
}
