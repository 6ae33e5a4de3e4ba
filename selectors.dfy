/** The engine's format selector, built from (kind, quality, ffmpeg available).
    A selector is a list of alternatives tried left to right ('/' in the text);
    an alternative is one stream or several streams merged ('+'); a stream is a
    base name ('best', 'bestvideo', 'bestaudio') with bracketed filters. */
module Selectors {
  import opened Common

  datatype Filter = ExtIs(ext: string) | HeightAtMost(bound: string) | ProtocolStartsWith(prefix: string)

  datatype Stream = Stream(name: string, filters: seq<Filter>)

  datatype Alternative = Alternative(streams: seq<Stream>)

  type Selector = seq<Alternative>

  /** The FFmpegExtractAudio post-processor entry of the engine options */
  datatype PostProcessor = ExtractAudio(codec: string, quality: string)

  /** The 'format' and 'postprocessors' entries of the engine options */
  datatype EngineFormat = EngineFormat(selector: Selector, postprocessor: Option<PostProcessor>)

  function FilterText(f: Filter): string {
    match f
    case ExtIs(e) => "[ext=" + e + "]"
    case HeightAtMost(q) => "[height<=" + q + "]"
    case ProtocolStartsWith(p) => "[protocol^=" + p + "]"
  }

  function FiltersText(fs: seq<Filter>): string {
    if fs == [] then "" else FilterText(fs[0]) + FiltersText(fs[1..])
  }

  function StreamText(s: Stream): string {
    s.name + FiltersText(s.filters)
  }

  function StreamsText(ss: seq<Stream>): string {
    if ss == [] then ""
    else if |ss| == 1 then StreamText(ss[0])
    else StreamText(ss[0]) + "+" + StreamsText(ss[1..])
  }

  /** The selector as the engine reads it */
  function SelectorText(sel: Selector): string {
    if sel == [] then ""
    else if |sel| == 1 then StreamsText(sel[0].streams)
    else StreamsText(sel[0].streams) + "/" + SelectorText(sel[1..])
  }

  const Http := ProtocolStartsWith("http")
  const Mp3At192 := ExtractAudio("mp3", "192")

  function Single(name: string, filters: seq<Filter>): Alternative {
    Alternative([Stream(name, filters)])
  }

  /** The last resort of every selector: the engine's own 'best', unfiltered */
  const BestFallback := Single("best", [])

  /** Filters that 'quality' adds: none for 'best', a height bound otherwise */
  function HeightBound(quality: string): seq<Filter> {
    if quality == "best" then [] else [HeightAtMost(quality)]
  }

  predicate Merges(a: Alternative) {
    |a.streams| > 1
  }

  predicate HasBound(a: Alternative, quality: string) {
    exists k :: 0 <= k < |a.streams| && HeightAtMost(quality) in a.streams[k].filters
  }

  predicate Unbounded(a: Alternative) {
    forall k, f :: 0 <= k < |a.streams| && f in a.streams[k].filters ==> !f.HeightAtMost?
  }

  /** 'bestaudio/best', the audio selector both variants use when the result is converted to mp3 */
  const BestAudio: Selector := [Single("bestaudio", []), BestFallback]

  /** The audio selector of backend/app.py: convert to mp3 when ffmpeg is there, else prefer m4a */
  function BackendAudioSelector(ffmpeg: bool): Selector {
    if ffmpeg then BestAudio
    else [Single("bestaudio", [ExtIs("m4a")]), Single("bestaudio", []), BestFallback]
  }

  /** The video selector of backend/app.py: progressive http formats first, a merge only with ffmpeg */
  function BackendVideoSelector(quality: string, ffmpeg: bool): Selector {
    var h := HeightBound(quality);
    [Single("best", h + [ExtIs("mp4"), Http]), Single("best", h + [Http])]
    + (if ffmpeg then [Alternative([Stream("bestvideo", h + [ExtIs("mp4"), Http]), Stream("bestaudio", [ExtIs("m4a"), Http])])]
       else [])
    + [BestFallback]
  }

  /** Selector and post-processing of backend/app.py's download_video */
  function BackendFormat(kind: string, quality: string, ffmpeg: bool): (r: EngineFormat)
    ensures |r.selector| >= 2 && r.selector[|r.selector| - 1] == BestFallback
    ensures r.postprocessor == (if kind == "audio" && ffmpeg then Some(Mp3At192) else None)
    ensures (exists i :: 0 <= i < |r.selector| && Merges(r.selector[i])) <==> kind != "audio" && ffmpeg
    ensures kind != "audio" && quality != "best" ==>
      forall i :: 0 <= i < |r.selector| - 1 ==> HasBound(r.selector[i], quality)
    ensures kind == "audio" || quality == "best" ==>
      forall i :: 0 <= i < |r.selector| ==> Unbounded(r.selector[i])
    ensures forall i, j :: 0 <= i < j < |r.selector| - 1 && Merges(r.selector[i]) ==> Merges(r.selector[j])
  {
    if kind == "audio" then
      EngineFormat(BackendAudioSelector(ffmpeg), if ffmpeg then Some(Mp3At192) else None)
    else
      var sel := BackendVideoSelector(quality, ffmpeg);
      assert quality != "best" ==> sel[0].streams[0].filters[0] == HeightAtMost(quality);
      assert quality != "best" ==> sel[1].streams[0].filters[0] == HeightAtMost(quality);
      assert quality != "best" && ffmpeg ==> sel[2].streams[0].filters[0] == HeightAtMost(quality);
      assert ffmpeg ==> Merges(sel[2]);
      EngineFormat(sel, None)
  }

  /** The video selector of Flutter-App/backend/app.py: a height-bounded merge first, then progressive mp4 */
  function FlutterVideoSelector(quality: string): Selector {
    [Alternative([Stream("bestvideo", HeightBound(quality) + [ExtIs("mp4")]), Stream("bestaudio", [ExtIs("m4a")])]),
     Single("best", [ExtIs("mp4")]),
     BestFallback]
  }

  /** Selector and post-processing of Flutter-App/backend/app.py's download_video */
  function FlutterFormat(kind: string, quality: string): (r: EngineFormat)
    ensures |r.selector| >= 2 && r.selector[|r.selector| - 1] == BestFallback
    ensures r.postprocessor == (if kind == "audio" then Some(Mp3At192) else None)
    ensures kind != "audio" ==> Merges(r.selector[0]) && (quality != "best" ==> HasBound(r.selector[0], quality))
    ensures kind == "audio" || quality == "best" ==> Unbounded(r.selector[0])
    ensures forall i :: 1 <= i < |r.selector| ==> Unbounded(r.selector[i]) && !Merges(r.selector[i])
  {
    if kind == "audio" then
      EngineFormat(BestAudio, Some(Mp3At192))
    else
      var sel := FlutterVideoSelector(quality);
      assert quality != "best" ==> sel[0].streams[0].filters[0] == HeightAtMost(quality);
      EngineFormat(sel, None)
  }

  lemma FiltersTextSplit(f: Filter, rest: seq<Filter>)
    ensures FiltersText([f] + rest) == FilterText(f) + FiltersText(rest)
  {
    assert ([f] + rest)[1..] == rest;
  }

  lemma SelectorTextSplit(a: Alternative, rest: Selector)
    requires rest != []
    ensures SelectorText([a] + rest) == StreamsText(a.streams) + "/" + SelectorText(rest)
  {
    assert ([a] + rest)[1..] == rest;
  }

  /** The text of the filters 'quality' adds */
  function BoundText(quality: string): string {
    if quality == "best" then "" else "[height<=" + quality + "]"
  }

  lemma BoundedFiltersText(quality: string, rest: seq<Filter>)
    ensures FiltersText(HeightBound(quality) + rest) == BoundText(quality) + FiltersText(rest)
  {
    if quality == "best" {
      assert HeightBound(quality) + rest == rest;
    } else {
      FiltersTextSplit(HeightAtMost(quality), rest);
    }
  }

  lemma Mp4HttpText()
    ensures FiltersText([ExtIs("mp4"), Http]) == "[ext=mp4][protocol^=http]"
  {
    FiltersTextSplit(Http, []);
    FiltersTextSplit(ExtIs("mp4"), [Http]);
  }

  lemma StreamsTextPair(a: Stream, b: Stream)
    ensures StreamsText([a, b]) == StreamText(a) + "+" + StreamText(b)
  {
    assert [a, b][1..] == [b];
  }

  lemma FallbackText()
    ensures SelectorText([BestFallback]) == "best"
  {
  }

  /** 'bestaudio/best' */
  lemma BestAudioText()
    ensures SelectorText(BestAudio) == "bestaudio/best"
  {
    var plain := Single("bestaudio", []);
    FallbackText();
    assert StreamsText(plain.streams) == "bestaudio";
    SelectorTextSplit(plain, [BestFallback]);
    assert SelectorText([plain, BestFallback]) == "bestaudio" + "/" + "best";
  }

  lemma M4aText()
    ensures StreamsText(Single("bestaudio", [ExtIs("m4a")]).streams) == "bestaudio[ext=m4a]"
  {
    FiltersTextSplit(ExtIs("m4a"), []);
  }

  lemma SlashJoin(x: string, y: string, r: string)
    requires x == "bestaudio[ext=m4a]" && y == "bestaudio/best"
    requires r == x + "/" + y
    ensures r == "bestaudio[ext=m4a]/bestaudio/best"
  {
  }

  /** The selector strings backend/app.py writes for audio */
  lemma BackendAudioText()
    ensures SelectorText(BackendAudioSelector(true)) == "bestaudio/best"
    ensures SelectorText(BackendAudioSelector(false)) == "bestaudio[ext=m4a]/bestaudio/best"
  {
    var m4a := Single("bestaudio", [ExtIs("m4a")]);
    BestAudioText();
    M4aText();
    SelectorTextSplit(m4a, BestAudio);
    assert BackendAudioSelector(false) == [m4a] + BestAudio;
    SlashJoin(StreamsText(m4a.streams), SelectorText(BestAudio), SelectorText(BackendAudioSelector(false)));
  }

  // The three steps below put a selector text together from its alternatives;
  // the height bound q is a plain variable so that the solver only regroups.

  lemma MergedTail(q: string, t2: string, r2: string)
    requires t2 == "bestvideo" + q + "[ext=mp4][protocol^=http]" + "+" + "bestaudio[ext=m4a][protocol^=http]"
    requires r2 == t2 + "/" + "best"
    ensures r2 == "bestvideo" + q + "[ext=mp4][protocol^=http]+bestaudio[ext=m4a][protocol^=http]/best"
  {
  }

  lemma HttpThenMerged(q: string, t1: string, r2: string, r1: string)
    requires t1 == "best" + q + "[protocol^=http]"
    requires r2 == "bestvideo" + q + "[ext=mp4][protocol^=http]+bestaudio[ext=m4a][protocol^=http]/best"
    requires r1 == t1 + "/" + r2
    ensures r1 == "best" + q + "[protocol^=http]/bestvideo" + q + "[ext=mp4][protocol^=http]+bestaudio[ext=m4a][protocol^=http]/best"
  {
  }

  lemma Mp4ThenMerged(q: string, t0: string, r1: string, s: string)
    requires t0 == "best" + q + "[ext=mp4][protocol^=http]"
    requires r1 == "best" + q + "[protocol^=http]/bestvideo" + q + "[ext=mp4][protocol^=http]+bestaudio[ext=m4a][protocol^=http]/best"
    requires s == t0 + "/" + r1
    ensures s == "best" + q + "[ext=mp4][protocol^=http]/best" + q + "[protocol^=http]/bestvideo" + q
      + "[ext=mp4][protocol^=http]+bestaudio[ext=m4a][protocol^=http]/best"
  {
  }

  lemma Mp4ThenHttp(q: string, t0: string, r1: string, s: string)
    requires t0 == "best" + q + "[ext=mp4][protocol^=http]"
    requires r1 == "best" + q + "[protocol^=http]" + "/" + "best"
    requires s == t0 + "/" + r1
    ensures s == "best" + q + "[ext=mp4][protocol^=http]/best" + q + "[protocol^=http]/best"
  {
  }

  lemma ProgressiveMp4Text(quality: string)
    ensures StreamsText(Single("best", HeightBound(quality) + [ExtIs("mp4"), Http]).streams)
      == "best" + BoundText(quality) + "[ext=mp4][protocol^=http]"
  {
    Mp4HttpText();
    BoundedFiltersText(quality, [ExtIs("mp4"), Http]);
  }

  lemma ProgressiveHttpText(quality: string)
    ensures StreamsText(Single("best", HeightBound(quality) + [Http]).streams)
      == "best" + BoundText(quality) + "[protocol^=http]"
  {
    FiltersTextSplit(Http, []);
    BoundedFiltersText(quality, [Http]);
  }

  lemma M4aHttpFilters()
    ensures FiltersText([ExtIs("m4a"), Http]) == FilterText(ExtIs("m4a")) + FilterText(Http)
  {
    FiltersTextSplit(Http, []);
    FiltersTextSplit(ExtIs("m4a"), [Http]);
  }

  lemma M4aHttpLiteral(m: string, h: string, r: string)
    requires m == "[ext=m4a]" && h == "[protocol^=http]"
    requires r == "bestaudio" + (m + h)
    ensures r == "bestaudio[ext=m4a][protocol^=http]"
  {
  }

  lemma HttpAudioText()
    ensures StreamText(Stream("bestaudio", [ExtIs("m4a"), Http])) == "bestaudio[ext=m4a][protocol^=http]"
  {
    M4aHttpFilters();
    M4aHttpLiteral(FilterText(ExtIs("m4a")), FilterText(Http), StreamText(Stream("bestaudio", [ExtIs("m4a"), Http])));
  }

  lemma MergeAssembly(q: string, fv: string, v: string, a: string, t: string)
    requires fv == q + "[ext=mp4][protocol^=http]"
    requires v == "bestvideo" + fv
    requires a == "bestaudio[ext=m4a][protocol^=http]"
    requires t == v + "+" + a
    ensures t == "bestvideo" + q + "[ext=mp4][protocol^=http]" + "+" + "bestaudio[ext=m4a][protocol^=http]"
  {
  }

  lemma BackendMergeText(quality: string)
    ensures StreamsText([Stream("bestvideo", HeightBound(quality) + [ExtIs("mp4"), Http]),
                         Stream("bestaudio", [ExtIs("m4a"), Http])])
      == "bestvideo" + BoundText(quality) + "[ext=mp4][protocol^=http]" + "+" + "bestaudio[ext=m4a][protocol^=http]"
  {
    var video := Stream("bestvideo", HeightBound(quality) + [ExtIs("mp4"), Http]);
    var audio := Stream("bestaudio", [ExtIs("m4a"), Http]);
    Mp4HttpText();
    BoundedFiltersText(quality, [ExtIs("mp4"), Http]);
    HttpAudioText();
    StreamsTextPair(video, audio);
    MergeAssembly(BoundText(quality), FiltersText(video.filters), StreamText(video), StreamText(audio),
      StreamsText([video, audio]));
  }

  /** The four video selector strings written in backend/app.py; the height
      bound BoundText(quality) is empty for quality 'best' */
  lemma BackendVideoText(quality: string, ffmpeg: bool)
    ensures var q := BoundText(quality);
      ffmpeg ==> (SelectorText(BackendVideoSelector(quality, ffmpeg))
        == "best" + q + "[ext=mp4][protocol^=http]/best" + q + "[protocol^=http]/bestvideo" + q
          + "[ext=mp4][protocol^=http]+bestaudio[ext=m4a][protocol^=http]/best")
    ensures var q := BoundText(quality);
      !ffmpeg ==> (SelectorText(BackendVideoSelector(quality, ffmpeg))
        == "best" + q + "[ext=mp4][protocol^=http]/best" + q + "[protocol^=http]/best")
  {
    var h := HeightBound(quality);
    var a0 := Single("best", h + [ExtIs("mp4"), Http]);
    var a1 := Single("best", h + [Http]);
    ProgressiveMp4Text(quality);
    ProgressiveHttpText(quality);
    FallbackText();
    var sel := BackendVideoSelector(quality, ffmpeg);
    if ffmpeg {
      var a2 := Alternative([Stream("bestvideo", h + [ExtIs("mp4"), Http]), Stream("bestaudio", [ExtIs("m4a"), Http])]);
      BackendMergeText(quality);
      SelectorTextSplit(a2, [BestFallback]);
      var r2 := SelectorText([a2, BestFallback]);
      MergedTail(BoundText(quality), StreamsText(a2.streams), r2);
      SelectorTextSplit(a1, [a2, BestFallback]);
      var r1 := SelectorText([a1, a2, BestFallback]);
      HttpThenMerged(BoundText(quality), StreamsText(a1.streams), r2, r1);
      SelectorTextSplit(a0, [a1, a2, BestFallback]);
      assert sel == [a0] + [a1, a2, BestFallback];
      Mp4ThenMerged(BoundText(quality), StreamsText(a0.streams), r1, SelectorText(sel));
    } else {
      SelectorTextSplit(a1, [BestFallback]);
      SelectorTextSplit(a0, [a1, BestFallback]);
      assert sel == [a0] + [a1, BestFallback];
      Mp4ThenHttp(BoundText(quality), StreamsText(a0.streams), SelectorText([a1, BestFallback]), SelectorText(sel));
    }
  }

  lemma FlutterAssembly(p: string, t0: string, r1: string, s: string)
    requires t0 == p + "[ext=mp4]" + "+" + "bestaudio[ext=m4a]"
    requires r1 == "best[ext=mp4]" + "/" + "best"
    requires s == t0 + "/" + r1
    ensures s == p + "[ext=mp4]+bestaudio[ext=m4a]/best[ext=mp4]/best"
  {
  }

  lemma BoundedMp4Text(quality: string)
    ensures StreamText(Stream("bestvideo", HeightBound(quality) + [ExtIs("mp4")])) == "bestvideo" + BoundText(quality) + "[ext=mp4]"
  {
    FiltersTextSplit(ExtIs("mp4"), []);
    BoundedFiltersText(quality, [ExtIs("mp4")]);
  }

  lemma FlutterMergeText(quality: string)
    ensures StreamsText(FlutterVideoSelector(quality)[0].streams)
      == "bestvideo" + BoundText(quality) + "[ext=mp4]" + "+" + "bestaudio[ext=m4a]"
  {
    var video := Stream("bestvideo", HeightBound(quality) + [ExtIs("mp4")]);
    var audio := Stream("bestaudio", [ExtIs("m4a")]);
    BoundedMp4Text(quality);
    M4aText();
    assert FlutterVideoSelector(quality)[0].streams == [video, audio];
    StreamsTextPair(video, audio);
  }

  lemma Mp4ThenBestText()
    ensures SelectorText([Single("best", [ExtIs("mp4")]), BestFallback]) == "best[ext=mp4]" + "/" + "best"
  {
    FiltersTextSplit(ExtIs("mp4"), []);
    assert StreamsText(Single("best", [ExtIs("mp4")]).streams) == "best[ext=mp4]";
    assert SelectorText([BestFallback]) == "best";
    SelectorTextSplit(Single("best", [ExtIs("mp4")]), [BestFallback]);
  }

  /** The selector strings written in Flutter-App/backend/app.py */
  lemma FlutterSelectorText(quality: string)
    ensures SelectorText(BestAudio) == "bestaudio/best"
    ensures SelectorText(FlutterVideoSelector(quality))
      == "bestvideo" + BoundText(quality) + "[ext=mp4]+bestaudio[ext=m4a]/best[ext=mp4]/best"
  {
    BestAudioText();
    var sel := FlutterVideoSelector(quality);
    FlutterMergeText(quality);
    Mp4ThenBestText();
    assert sel == [sel[0]] + [Single("best", [ExtIs("mp4")]), BestFallback];
    SelectorTextSplit(sel[0], [Single("best", [ExtIs("mp4")]), BestFallback]);
    FlutterAssembly("bestvideo" + BoundText(quality), StreamsText(sel[0].streams),
      SelectorText([Single("best", [ExtIs("mp4")]), BestFallback]), SelectorText(sel));
  }
}
