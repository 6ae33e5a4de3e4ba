/** The format list of the /api/formats endpoint, written identically in
    backend/app.py and Flutter-App/backend/app.py: muxed formats once per
    quality key, every audio-only format, in the engine's order, at most ten. */
module FormatListing {
  import opened Common
  import opened Media

  /** The value the seen-set holds: format_note if the key is present, else
      height, else the string 'unknown'. A note and a height never compare
      equal, even when they print alike. */
  datatype QualityKey = NoteKey(note: string) | HeightKey(height: int)

  function MuxedKey(f: RawFormat): (r: QualityKey)
    ensures f.formatNote.Some? ==> r == NoteKey(f.formatNote.value)
    ensures f.formatNote.None? && f.height.Some? ==> r == HeightKey(f.height.value)
    ensures f.formatNote.None? && f.height.None? ==> r == NoteKey("unknown")
  {
    match f.formatNote
    case Some(n) => NoteKey(n)
    case None =>
      match f.height
      case Some(h) => HeightKey(h)
      case None => NoteKey("unknown")
  }

  /** str(quality) */
  function KeyText(q: QualityKey): string {
    match q
    case NoteKey(n) => n
    case HeightKey(h) => IntToString(h)
  }

  datatype Kind = Video | Audio

  /** One dictionary of the answer's 'formats' list; resolution is present for video only */
  datatype Listed = Listed(
    formatId: Option<string>,
    ext: string,
    quality: string,
    resolution: Option<string>,
    filesize: int,
    kind: Kind)

  /** The dictionary built for a format; an audio bitrate prints through show */
  function Describe(f: RawFormat, show: real -> string): (r: Listed)
    requires HasVideoAndAudio(f) || IsAudioOnly(f)
    ensures r.formatId == f.formatId && r.filesize == f.filesize.GetOr(0)
    ensures HasVideoAndAudio(f) ==>
      r.kind == Video && r.ext == f.ext.GetOr("mp4") && r.quality == KeyText(MuxedKey(f))
      && r.resolution == Some(IntToString(f.width.GetOr(0)) + "x" + IntToString(f.height.GetOr(0)))
    ensures IsAudioOnly(f) ==>
      r.kind == Audio && r.ext == f.ext.GetOr("m4a") && r.resolution.None?
      && r.quality == (if f.abr.Some? then show(f.abr.value) + "kbps" else "audio")
  {
    FormatKindsDisjoint(f);
    if HasVideoAndAudio(f) then
      Listed(f.formatId, f.ext.GetOr("mp4"), KeyText(MuxedKey(f)),
             Some(IntToString(f.width.GetOr(0)) + "x" + IntToString(f.height.GetOr(0))), f.filesize.GetOr(0), Video)
    else
      Listed(f.formatId, f.ext.GetOr("m4a"), if f.abr.Some? then show(f.abr.value) + "kbps" else "audio",
             None, f.filesize.GetOr(0), Audio)
  }

  /** The quality keys of the muxed formats in s: the seen-set after s */
  function MuxedKeys(s: seq<RawFormat>): set<QualityKey> {
    set j | 0 <= j < |s| && HasVideoAndAudio(s[j]) :: MuxedKey(s[j])
  }

  /** Whether the format at position i makes it into the list: audio-only
      always, muxed when no earlier muxed format had its key */
  function Emitted(s: seq<RawFormat>, i: nat): (b: bool)
    requires i < |s|
    ensures b ==> HasVideoAndAudio(s[i]) || IsAudioOnly(s[i])
    ensures IsAudioOnly(s[i]) ==> b
    ensures HasVideoAndAudio(s[i]) ==>
      (b <==> forall j :: 0 <= j < i && HasVideoAndAudio(s[j]) ==> MuxedKey(s[j]) != MuxedKey(s[i]))
  {
    assert forall j :: 0 <= j < i ==> s[..i][j] == s[j];
    IsAudioOnly(s[i]) || (HasVideoAndAudio(s[i]) && MuxedKey(s[i]) !in MuxedKeys(s[..i]))
  }

  /** The whole list before the cap */
  function Shape(s: seq<RawFormat>, show: real -> string): (r: seq<Listed>)
    ensures |r| <= |s|
  {
    if s == [] then []
    else
      var last := |s| - 1;
      Shape(s[..last], show) + (if Emitted(s, last) then [Describe(s[last], show)] else [])
  }

  lemma MuxedKeysSnoc(s: seq<RawFormat>, f: RawFormat)
    ensures MuxedKeys(s + [f]) == MuxedKeys(s) + (if HasVideoAndAudio(f) then {MuxedKey(f)} else {})
  {
    var t := s + [f];
    assert forall j :: 0 <= j < |s| ==> t[j] == s[j];
    assert t[|s|] == f;
    if HasVideoAndAudio(f) {
      assert MuxedKey(f) in MuxedKeys(t);
    }
  }

  /** One pass of the loop of get_formats over the format at i */
  lemma ShapeStep(s: seq<RawFormat>, i: nat, seen: set<QualityKey>, show: real -> string)
    requires i < |s| && seen == MuxedKeys(s[..i])
    ensures HasVideoAndAudio(s[i]) && MuxedKey(s[i]) !in seen ==>
      Shape(s[..i + 1], show) == Shape(s[..i], show) + [Describe(s[i], show)]
      && MuxedKeys(s[..i + 1]) == seen + {MuxedKey(s[i])}
    ensures HasVideoAndAudio(s[i]) && MuxedKey(s[i]) in seen ==>
      Shape(s[..i + 1], show) == Shape(s[..i], show) && MuxedKeys(s[..i + 1]) == seen
    ensures !HasVideoAndAudio(s[i]) && IsAudioOnly(s[i]) ==>
      Shape(s[..i + 1], show) == Shape(s[..i], show) + [Describe(s[i], show)] && MuxedKeys(s[..i + 1]) == seen
    ensures !HasVideoAndAudio(s[i]) && !IsAudioOnly(s[i]) ==>
      Shape(s[..i + 1], show) == Shape(s[..i], show) && MuxedKeys(s[..i + 1]) == seen
  {
    var prefix := s[..i + 1];
    assert prefix[..i] == s[..i] && prefix[i] == s[i];
    MuxedKeysSnoc(s[..i], s[i]);
    assert s[..i] + [s[i]] == prefix;
  }

  /** The loop of get_formats: a seen-set of quality keys and an output list */
  method ShapeFormats(formats: seq<RawFormat>, show: real -> string) returns (out: seq<Listed>)
    ensures out == Shape(formats, show)
  {
    out := [];
    var seen: set<QualityKey> := {};
    var i := 0;
    while i < |formats|
      invariant 0 <= i <= |formats|
      invariant out == Shape(formats[..i], show)
      invariant seen == MuxedKeys(formats[..i])
    {
      var f := formats[i];
      ShapeStep(formats, i, seen, show);
      if HasVideoAndAudio(f) {
        var quality := MuxedKey(f);
        if quality !in seen {
          out := out + [Describe(f, show)];
          seen := seen + {quality};
        }
      } else if IsAudioOnly(f) {
        out := out + [Describe(f, show)];
      }
      i := i + 1;
    }
    assert formats[..i] == formats;
  }

  /** formats[:10] */
  function Cap(s: seq<Listed>): (r: seq<Listed>)
    ensures |r| == Min(10, |s|) && r == s[..|r|]
  {
    if |s| <= 10 then s else s[..10]
  }

  datatype FormatsAnswer =
    | BadRequest(error: string)
    | ServerError(error: string)
    | Listing(title: string, formats: seq<Listed>)

  /** The answer of get_formats given the URL key of the body and the metadata probe */
  function Answer(url: Option<string>, probe: Probe, show: real -> string): (r: FormatsAnswer)
    ensures r.BadRequest? <==> url.GetOr("") == []
    ensures r.BadRequest? ==> r.error == "URL is required"
    ensures r.ServerError? <==> url.GetOr("") != [] && probe.ProbeFailed?
    ensures r.ServerError? ==> r.error == probe.message
    ensures r.Listing? ==>
      r.title == probe.info.title.GetOr("Unknown")
      && |r.formats| == Min(10, |Shape(probe.info.formats.GetOr([]), show)|)
      && r.formats == Shape(probe.info.formats.GetOr([]), show)[..|r.formats|]
  {
    if url.GetOr("") == [] then BadRequest("URL is required")
    else
      match probe
      case ProbeFailed(m) => ServerError(m)
      case Probed(info) => Listing(info.title.GetOr("Unknown"), Cap(Shape(info.formats.GetOr([]), show)))
  }

  method GetFormats(url: Option<string>, probe: Probe, show: real -> string) returns (r: FormatsAnswer)
    ensures r == Answer(url, probe, show)
  {
    if url.GetOr("") == [] {
      return BadRequest("URL is required");
    }
    if probe.ProbeFailed? {
      return ServerError(probe.message);
    }
    var all := ShapeFormats(probe.info.formats.GetOr([]), show);
    r := Listing(probe.info.title.GetOr("Unknown"), Cap(all));
  }

  function CountKind(s: seq<Listed>, k: Kind): nat {
    if s == [] then 0 else CountKind(s[..|s| - 1], k) + (if s[|s| - 1].kind == k then 1 else 0)
  }

  function AudioCount(s: seq<RawFormat>): nat {
    if s == [] then 0 else AudioCount(s[..|s| - 1]) + (if IsAudioOnly(s[|s| - 1]) then 1 else 0)
  }

  lemma CountKindSnoc(s: seq<Listed>, t: seq<Listed>, k: Kind)
    requires |t| <= 1
    ensures CountKind(s + t, k) == CountKind(s, k) + CountKind(t, k)
  {
    if t != [] {
      assert (s + t)[..|s + t| - 1] == s;
    } else {
      assert s + t == s;
    }
  }

  lemma {:induction false} KindsPartition(s: seq<Listed>)
    ensures |s| == CountKind(s, Video) + CountKind(s, Audio)
  {
    if s != [] {
      KindsPartition(s[..|s| - 1]);
    }
  }

  /** The entry the last format contributes, if any */
  function LastEntry(s: seq<RawFormat>, show: real -> string): (t: seq<Listed>)
    requires s != []
    ensures Shape(s, show) == Shape(s[..|s| - 1], show) + t
    ensures |t| <= 1
  {
    if Emitted(s, |s| - 1) then [Describe(s[|s| - 1], show)] else []
  }

  /** One video entry per distinct quality key */
  lemma {:induction false} VideoCount(s: seq<RawFormat>, show: real -> string)
    ensures CountKind(Shape(s, show), Video) == |MuxedKeys(s)|
  {
    if s == [] {
      assert MuxedKeys(s) == {};
    } else {
      var last := |s| - 1;
      var f := s[last];
      var t := LastEntry(s, show);
      VideoCount(s[..last], show);
      CountKindSnoc(Shape(s[..last], show), t, Video);
      assert s[..last] + [f] == s;
      MuxedKeysSnoc(s[..last], f);
      FormatKindsDisjoint(f);
      if HasVideoAndAudio(f) && MuxedKey(f) !in MuxedKeys(s[..last]) {
        assert t[0].kind == Video;
        assert |MuxedKeys(s)| == |MuxedKeys(s[..last])| + 1;
      } else if t != [] {
        assert t[0].kind == Audio;
      }
    }
  }

  /** One audio entry per audio-only format */
  lemma {:induction false} AudioCountKept(s: seq<RawFormat>, show: real -> string)
    ensures CountKind(Shape(s, show), Audio) == AudioCount(s)
  {
    if s != [] {
      var last := |s| - 1;
      var f := s[last];
      var t := LastEntry(s, show);
      AudioCountKept(s[..last], show);
      CountKindSnoc(Shape(s[..last], show), t, Audio);
      FormatKindsDisjoint(f);
      if t != [] {
        assert t[0].kind == Audio <==> IsAudioOnly(f);
      }
    }
  }

  /** The length of the uncapped list: distinct quality keys plus audio-only formats */
  lemma ShapeLength(s: seq<RawFormat>, show: real -> string)
    ensures |Shape(s, show)| == |MuxedKeys(s)| + AudioCount(s)
  {
    KindsPartition(Shape(s, show));
    VideoCount(s, show);
    AudioCountKept(s, show);
  }

  /** Listing more formats only appends: entries keep the engine's order */
  lemma {:induction false} ShapePrefix(s: seq<RawFormat>, n: nat, show: real -> string)
    requires n <= |s|
    ensures |Shape(s[..n], show)| <= |Shape(s, show)|
    ensures Shape(s[..n], show) == Shape(s, show)[..|Shape(s[..n], show)|]
    decreases |s| - n
  {
    if n < |s| {
      ShapePrefix(s, n + 1, show);
      assert s[..n + 1][..n] == s[..n];
    } else {
      assert s[..n] == s;
    }
  }

  /** Two listed muxed formats never share a quality key */
  lemma EmittedKeysDistinct(s: seq<RawFormat>, i: nat, j: nat)
    requires i < j < |s| && Emitted(s, i) && Emitted(s, j)
    requires HasVideoAndAudio(s[i]) && HasVideoAndAudio(s[j])
    ensures MuxedKey(s[i]) != MuxedKey(s[j])
  {
    assert s[..j][i] == s[i];
    assert MuxedKey(s[i]) in MuxedKeys(s[..j]);
  }

  /** Every muxed format's key is listed, by the first format that has it */
  lemma {:induction false} EveryKeyListed(s: seq<RawFormat>, i: nat)
    requires i < |s| && HasVideoAndAudio(s[i])
    ensures exists j :: 0 <= j <= i && Emitted(s, j) && HasVideoAndAudio(s[j]) && MuxedKey(s[j]) == MuxedKey(s[i])
    decreases i
  {
    if !Emitted(s, i) {
      var j' :| 0 <= j' < i && HasVideoAndAudio(s[..i][j']) && MuxedKey(s[..i][j']) == MuxedKey(s[i]);
      assert s[..i][j'] == s[j'];
      EveryKeyListed(s, j');
    }
  }
}
