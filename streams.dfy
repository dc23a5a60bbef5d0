/**
 * The streams of an episode in scraper.js: the in-page script that takes the
 * episode's entry from each `eps` array and the http iframes of the player
 * page, the host-side mapping to streams of quality "HD", and the single
 * web-link stream offered when nothing is found.
 */
module Streams {
  import opened Wrappers
  import opened Text
  import opened Fetching
  import opened Player

  /** A stream as the in-page script reports it. */
  datatype Candidate = Candidate(name: string, url: string)

  /** `varName.replace('eps', 'Lecteur ') || 'Lecteur'`. */
  function PlayerName(varName: string): (r: string)
    ensures r != ""
  {
    var n := ReplaceFirst(varName, "eps", "Lecteur ");
    if n == "" then "Lecteur" else n
  }

  /** The entry `urls[epNum - 1]` of an eps array, kept when it is there and
      starts with "http". */
  function EpsStream(a: EpsArray, epNum: int): (r: Option<Candidate>)
    ensures r.Some? <==> 0 <= epNum - 1 < |a.urls| && StartsWith(a.urls[epNum - 1], "http")
    ensures r.Some? ==> r.value.url == a.urls[epNum - 1] && r.value.name == PlayerName(a.varName)
  {
    var k := epNum - 1;
    if 0 <= k < |a.urls| && a.urls[k] != "" && StartsWith(a.urls[k], "http")
    then Some(Candidate(PlayerName(a.varName), a.urls[k]))
    else None
  }

  function OptionSeq<T>(o: Option<T>): (r: seq<T>)
    ensures |r| <= 1
    ensures o.Some? ==> r == [o.value]
    ensures o.None? ==> r == []
  {
    match o
    case Some(x) => [x]
    case None => []
  }

  /** The candidates of the eps arrays, in order. */
  function ArrayStreams(arrays: seq<EpsArray>, epNum: int): (r: seq<Candidate>)
    ensures |r| <= |arrays|
    ensures forall i :: 0 <= i < |r| ==> StartsWith(r[i].url, "http")
    decreases |arrays|
  {
    if arrays == [] then []
    else ArrayStreams(arrays[..|arrays| - 1], epNum) + OptionSeq(EpsStream(arrays[|arrays| - 1], epNum))
  }

  /** Every eps array that holds the episode contributes its entry. */
  lemma {:induction false} ArrayStreamsComplete(arrays: seq<EpsArray>, epNum: int, k: nat)
    requires k < |arrays| && EpsStream(arrays[k], epNum).Some?
    ensures EpsStream(arrays[k], epNum).value in ArrayStreams(arrays, epNum)
    decreases |arrays|
  {
    if k < |arrays| - 1 {
      ArrayStreamsComplete(arrays[..|arrays| - 1], epNum, k);
    }
  }

  /** Every candidate of the eps arrays is the entry of one of them. */
  lemma {:induction false} ArrayStreamsSound(arrays: seq<EpsArray>, epNum: int, c: Candidate)
    requires c in ArrayStreams(arrays, epNum)
    ensures exists k :: 0 <= k < |arrays| && EpsStream(arrays[k], epNum) == Some(c)
    decreases |arrays|
  {
    var init := arrays[..|arrays| - 1];
    if c in ArrayStreams(init, epNum) {
      ArrayStreamsSound(init, epNum, c);
      var k :| 0 <= k < |init| && EpsStream(init[k], epNum) == Some(c);
      assert arrays[k] == init[k];
    } else {
      assert EpsStream(arrays[|arrays| - 1], epNum) == Some(c);
    }
  }

  /** The `iframe.src || iframe.getAttribute('data-src')` of an iframe, kept when
      it starts with "http"; `idx` counts every iframe of the page. */
  function IframeStream(f: Iframe, idx: nat): (r: Option<Candidate>)
    ensures r.Some? ==> StartsWith(r.value.url, "http") && r.value.name == "Lecteur Embed " + NatToString(idx + 1)
    ensures f.src != "" ==> (r.Some? <==> StartsWith(f.src, "http"))
    ensures r.Some? ==> r.value.url == f.src || (f.src == "" && f.dataSrc == Some(r.value.url))
  {
    var src := if f.src != "" then Some(f.src) else f.dataSrc;
    if src.Some? && src.value != "" && StartsWith(src.value, "http")
    then Some(Candidate("Lecteur Embed " + NatToString(idx + 1), src.value))
    else None
  }

  /** The candidates of the iframes, in order. */
  function IframeStreams(iframes: seq<Iframe>): (r: seq<Candidate>)
    ensures |r| <= |iframes|
    ensures forall i :: 0 <= i < |r| ==> StartsWith(r[i].url, "http")
    decreases |iframes|
  {
    if iframes == [] then []
    else IframeStreams(iframes[..|iframes| - 1]) + OptionSeq(IframeStream(iframes[|iframes| - 1], |iframes| - 1))
  }

  /** What the in-page script of `getStreamUrls` returns: the eps candidates of
      all scripts, then the iframe candidates. */
  function PageStreams(page: SeasonPage, epNum: int): (r: seq<Candidate>)
    ensures forall i :: 0 <= i < |r| ==> StartsWith(r[i].url, "http")
  {
    ArrayStreams(AllArrays(page.scripts), epNum) + IframeStreams(page.iframes)
  }

  lemma ArrayStreamsSnoc(arrays: seq<EpsArray>, a: EpsArray, epNum: int)
    ensures ArrayStreams(arrays + [a], epNum) == ArrayStreams(arrays, epNum) + OptionSeq(EpsStream(a, epNum))
  {
    assert (arrays + [a])[..|arrays|] == arrays;
  }

  lemma IframeStreamsStep(iframes: seq<Iframe>, n: nat)
    requires n < |iframes|
    ensures IframeStreams(iframes[..n + 1]) == IframeStreams(iframes[..n]) + OptionSeq(IframeStream(iframes[n], n))
  {
    assert iframes[..n + 1][..n] == iframes[..n];
  }

  lemma ArrayStreamsAppendStep(arrays: seq<EpsArray>, matches: seq<EpsArray>, j: nat, epNum: int)
    requires j < |matches|
    ensures ArrayStreams(arrays + matches[..j + 1], epNum)
            == ArrayStreams(arrays + matches[..j], epNum) + OptionSeq(EpsStream(matches[j], epNum))
  {
    assert arrays + matches[..j + 1] == (arrays + matches[..j]) + [matches[j]];
    ArrayStreamsSnoc(arrays + matches[..j], matches[j], epNum);
  }

  lemma AppendWhole(arrays: seq<EpsArray>, matches: seq<EpsArray>)
    ensures arrays + matches[..0] == arrays
    ensures arrays + matches[..|matches|] == arrays + matches
  {
    assert matches[..|matches|] == matches;
  }

  /** The matches of one script: each eps array's entry is pushed in turn;
      `arrays` are the eps arrays of the scripts before. */
  method CollectScript(streams: seq<Candidate>, ghost arrays: seq<EpsArray>, matches: seq<EpsArray>, epNum: int)
    returns (streams': seq<Candidate>)
    requires streams == ArrayStreams(arrays, epNum)
    ensures streams' == ArrayStreams(arrays + matches, epNum)
  {
    AppendWhole(arrays, matches);
    streams' := streams;
    var j := 0;
    while j < |matches|
      invariant 0 <= j <= |matches|
      invariant streams' == ArrayStreams(arrays + matches[..j], epNum)
    {
      ArrayStreamsAppendStep(arrays, matches, j, epNum);
      var candidate := EpsStream(matches[j], epNum);
      if candidate.Some? {
        streams' := streams' + [candidate.value];
      }
      j := j + 1;
    }
  }

  /** The `$('iframe')` loop of the in-page script, appending after `streams`. */
  method CollectIframes(streams: seq<Candidate>, iframes: seq<Iframe>) returns (streams': seq<Candidate>)
    ensures streams' == streams + IframeStreams(iframes)
  {
    streams' := streams;
    var idx := 0;
    while idx < |iframes|
      invariant 0 <= idx <= |iframes|
      invariant streams' == streams + IframeStreams(iframes[..idx])
    {
      IframeStreamsStep(iframes, idx);
      var candidate := IframeStream(iframes[idx], idx);
      if candidate.Some? {
        streams' := streams' + [candidate.value];
      }
      idx := idx + 1;
    }
    assert iframes[..idx] == iframes;
  }

  /** The in-page script of `getStreamUrls`. */
  method CollectStreams(page: SeasonPage, epNum: int) returns (streams: seq<Candidate>)
    ensures streams == PageStreams(page, epNum)
  {
    streams := [];
    var i := 0;
    while i < |page.scripts|
      invariant 0 <= i <= |page.scripts|
      invariant streams == ArrayStreams(AllArrays(page.scripts[..i]), epNum)
    {
      AllArraysStep(page.scripts, i);
      streams := CollectScript(streams, AllArrays(page.scripts[..i]), page.scripts[i], epNum);
      i := i + 1;
    }
    assert page.scripts[..i] == page.scripts;
    streams := CollectIframes(streams, page.iframes);
  }

  /** A stream as the addon serves it. */
  datatype Stream = Stream(name: string, url: string, quality: string, isWebLink: bool)

  /** `{ name: s.name || 'Lecteur', url: s.url, quality: 'HD' }`. */
  function HostStream(c: Candidate): Stream {
    Stream(if c.name == "" then "Lecteur" else c.name, c.url, "HD", false)
  }

  function HostStreams(cs: seq<Candidate>): (r: seq<Stream>)
    ensures |r| == |cs|
    ensures forall i :: 0 <= i < |r| ==> r[i] == HostStream(cs[i])
  {
    seq(|cs|, i requires 0 <= i < |cs| => HostStream(cs[i]))
  }

  /** The stream that opens the season page on Anime-Sama in a browser. */
  function WebLink(slug: string, season: nat, lang: string): Stream {
    Stream("\U{1F310} Ouvrir sur Anime-Sama", SeasonUrl(slug, season, lang), "Web", true)
  }

  /** The streams of an episode: the page's candidates as "HD" streams, or the
      single web link when there are none, when the page does not load and
      when an exception occurs. */
  function EpisodeStreams(slug: string, season: nat, episode: int, lang: string, response: Fetch<SeasonPage>)
    : (r: seq<Stream>)
    ensures |r| >= 1
    ensures r == [WebLink(slug, season, lang)]
            <==> !response.Loaded? || PageStreams(response.content, episode) == []
    ensures response.Loaded? && PageStreams(response.content, episode) != [] ==>
              |r| == |PageStreams(response.content, episode)|
              && forall i :: 0 <= i < |r| ==>
                   r[i].quality == "HD" && !r[i].isWebLink && StartsWith(r[i].url, "http")
                   && r[i].url == PageStreams(response.content, episode)[i].url
  {
    var streams := if response.Loaded? then HostStreams(PageStreams(response.content, episode)) else [];
    if streams == [] then [WebLink(slug, season, lang)]
    else
      assert !streams[0].isWebLink;
      streams
  }
}
