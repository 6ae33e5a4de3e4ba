/** The metadata service of youtube_downloder (services/video_service.py):
    the thumbnail choice of get_video_info and _process_formats, which
    turns the engine's format list into one muxed entry per height and one
    audio entry per bitrate, best first, with a fallback when neither kind
    yields anything. */
module VideoService {
  import opened Common
  import opened Media

  // ---------------------------------------------------------------------
  // sorted(s, key=..., reverse=True): a stable sort, best key first
  // ---------------------------------------------------------------------

  /** The height sort key, fmt.get('height', 0) */
  function HeightOf(f: RawFormat): real {
    f.height.GetOr(0) as real
  }

  /** The bitrate sort key, fmt.get('abr', 0) */
  function AbrOf(f: RawFormat): real {
    f.abr.GetOr(0.0)
  }

  predicate SortedDesc(s: seq<RawFormat>, key: RawFormat -> real) {
    forall i, j :: 0 <= i < j < |s| ==> key(s[i]) >= key(s[j])
  }

  /** x placed before the first element whose key does not exceed its own:
      x came earlier than all of s, so it goes ahead of its equals */
  function InsertDesc(x: RawFormat, s: seq<RawFormat>, key: RawFormat -> real): (r: seq<RawFormat>)
    ensures |r| == |s| + 1
    ensures multiset(r) == multiset(s) + multiset{x}
  {
    if s == [] then [x]
    else if key(s[0]) <= key(x) then [x] + s
    else
      assert s == [s[0]] + s[1..];
      [s[0]] + InsertDesc(x, s[1..], key)
  }

  function SortDesc(s: seq<RawFormat>, key: RawFormat -> real): (r: seq<RawFormat>)
    ensures |r| == |s|
    ensures multiset(r) == multiset(s)
  {
    if s == [] then []
    else
      assert s == [s[0]] + s[1..];
      InsertDesc(s[0], SortDesc(s[1..], key), key)
  }

  /** An element no smaller than everything after it extends a sorted list */
  lemma ConsSorted(y: RawFormat, t: seq<RawFormat>, key: RawFormat -> real)
    requires SortedDesc(t, key)
    requires forall z :: z in t ==> key(y) >= key(z)
    ensures SortedDesc([y] + t, key)
  {
    var r := [y] + t;
    forall i, j | 0 <= i < j < |r|
      ensures key(r[i]) >= key(r[j])
    {
      assert r[j] == t[j - 1];
      if i > 0 {
        assert r[i] == t[i - 1];
      }
    }
  }

  lemma SortedTail(s: seq<RawFormat>, key: RawFormat -> real)
    requires s != [] && SortedDesc(s, key)
    ensures SortedDesc(s[1..], key)
    ensures forall z :: z in s[1..] ==> key(s[0]) >= key(z)
  {
    var t := s[1..];
    forall i, j | 0 <= i < j < |t|
      ensures key(t[i]) >= key(t[j])
    {
      assert t[i] == s[i + 1] && t[j] == s[j + 1];
    }
    forall z | z in t
      ensures key(s[0]) >= key(z)
    {
      var k :| 0 <= k < |t| && t[k] == z;
      assert s[k + 1] == z;
    }
  }

  lemma {:induction false} InsertKeepsSorted(x: RawFormat, s: seq<RawFormat>, key: RawFormat -> real)
    requires SortedDesc(s, key)
    ensures SortedDesc(InsertDesc(x, s, key), key)
  {
    if s == [] {
      assert InsertDesc(x, s, key) == [x];
    } else {
      SortedTail(s, key);
      if key(s[0]) <= key(x) {
        assert s == [s[0]] + s[1..];
        assert forall z :: z in s ==> z == s[0] || z in s[1..];
        ConsSorted(x, s, key);
      } else {
        var rest := InsertDesc(x, s[1..], key);
        InsertKeepsSorted(x, s[1..], key);
        forall y | y in rest
          ensures key(s[0]) >= key(y)
        {
          assert y in multiset(rest);
          if y != x {
            assert y in multiset(s[1..]);
          }
        }
        ConsSorted(s[0], rest, key);
      }
    }
  }

  /** The sort puts the best key first */
  lemma {:induction false} SortDescSorted(s: seq<RawFormat>, key: RawFormat -> real)
    ensures SortedDesc(SortDesc(s, key), key)
  {
    if s != [] {
      SortDescSorted(s[1..], key);
      InsertKeepsSorted(s[0], SortDesc(s[1..], key), key);
    }
  }

  /** The elements of s whose key is v, in order */
  function WithKey(s: seq<RawFormat>, key: RawFormat -> real, v: real): seq<RawFormat> {
    if s == [] then [] else (if key(s[0]) == v then [s[0]] else []) + WithKey(s[1..], key, v)
  }

  lemma WithKeyCons(y: RawFormat, t: seq<RawFormat>, key: RawFormat -> real, v: real)
    ensures WithKey([y] + t, key, v) == (if key(y) == v then [y] else []) + WithKey(t, key, v)
  {
    assert ([y] + t)[0] == y && ([y] + t)[1..] == t;
  }

  /** At most one of two prefixes is non-empty, so they commute */
  lemma SwapEmpty(a: seq<RawFormat>, b: seq<RawFormat>, w: seq<RawFormat>)
    requires a == [] || b == []
    ensures a + (b + w) == b + (a + w)
  {
    if a == [] {
      assert a + (b + w) == b + w == b + (a + w);
    } else {
      assert a + (b + w) == a + w == b + (a + w);
    }
  }

  lemma {:induction false} InsertWithKey(x: RawFormat, s: seq<RawFormat>, key: RawFormat -> real, v: real)
    ensures WithKey(InsertDesc(x, s, key), key, v) == (if key(x) == v then [x] else []) + WithKey(s, key, v)
  {
    if s == [] {
      WithKeyCons(x, [], key, v);
      assert [x] + [] == [x];
    } else if key(s[0]) <= key(x) {
      WithKeyCons(x, s, key, v);
    } else {
      var hx: seq<RawFormat> := if key(x) == v then [x] else [];
      var h0: seq<RawFormat> := if key(s[0]) == v then [s[0]] else [];
      var rest := InsertDesc(x, s[1..], key);
      var w := WithKey(s[1..], key, v);
      assert InsertDesc(x, s, key) == [s[0]] + rest;
      WithKeyCons(s[0], rest, key, v);
      InsertWithKey(x, s[1..], key, v);
      assert WithKey(InsertDesc(x, s, key), key, v) == h0 + (hx + w);
      assert WithKey(s, key, v) == h0 + w;
      SwapEmpty(h0, hx, w);
    }
  }

  /** The sort is stable: formats with equal keys keep their input order */
  lemma {:induction false} SortStable(s: seq<RawFormat>, key: RawFormat -> real, v: real)
    ensures WithKey(SortDesc(s, key), key, v) == WithKey(s, key, v)
  {
    if s != [] {
      SortStable(s[1..], key, v);
      InsertWithKey(s[0], SortDesc(s[1..], key), key, v);
    }
  }

  /** The first element with key v is the one at index i when no earlier element has that key */
  lemma {:induction false} WithKeyFirst(s: seq<RawFormat>, key: RawFormat -> real, i: nat)
    requires i < |s| && forall j :: 0 <= j < i ==> key(s[j]) != key(s[i])
    ensures WithKey(s, key, key(s[i])) != [] && WithKey(s, key, key(s[i]))[0] == s[i]
  {
    if i > 0 {
      assert forall j :: 0 <= j < i - 1 ==> s[1..][j] == s[j + 1];
      WithKeyFirst(s[1..], key, i - 1);
    }
  }

  // ---------------------------------------------------------------------
  // The seen-set loop: the first format of every non-zero key
  // ---------------------------------------------------------------------

  /** The keys the seen-set holds after s */
  function SeenKeys(s: seq<RawFormat>, key: RawFormat -> real): set<real> {
    set i | 0 <= i < |s| && key(s[i]) != 0.0 :: key(s[i])
  }

  /** `if key and key not in seen`: the format at i is taken */
  predicate Picked(s: seq<RawFormat>, i: nat, key: RawFormat -> real)
    requires i < |s|
  {
    key(s[i]) != 0.0 && key(s[i]) !in SeenKeys(s[..i], key)
  }

  /** The formats the seen-set loop takes, in the order it meets them */
  function Dedup(s: seq<RawFormat>, key: RawFormat -> real): (r: seq<RawFormat>)
    ensures |r| <= |s|
  {
    if s == [] then []
    else
      var last := |s| - 1;
      Dedup(s[..last], key) + (if Picked(s, last, key) then [s[last]] else [])
  }

  /** Every taken format is taken at a position where it was new */
  lemma {:induction false} DedupMembers(s: seq<RawFormat>, key: RawFormat -> real)
    ensures forall y :: y in Dedup(s, key) ==> exists i :: 0 <= i < |s| && s[i] == y && Picked(s, i, key)
  {
    if s != [] {
      var last := |s| - 1;
      DedupMembers(s[..last], key);
      forall y | y in Dedup(s[..last], key)
        ensures exists i :: 0 <= i < |s| && s[i] == y && Picked(s, i, key)
      {
        var i :| 0 <= i < last && s[..last][i] == y && Picked(s[..last], i, key);
        assert s[..last][..i] == s[..i];
        assert s[i] == y && Picked(s, i, key);
      }
    }
  }

  lemma SeenKeysSnoc(s: seq<RawFormat>, x: RawFormat, key: RawFormat -> real)
    ensures SeenKeys(s + [x], key) == SeenKeys(s, key) + (if key(x) != 0.0 then {key(x)} else {})
  {
    var t := s + [x];
    assert forall i :: 0 <= i < |s| ==> t[i] == s[i];
    assert t[|s|] == x;
    if key(x) != 0.0 {
      assert key(x) in SeenKeys(t, key);
    }
  }

  /** A taken format is the first of its key */
  lemma PickedIsFirst(s: seq<RawFormat>, i: nat, key: RawFormat -> real)
    requires i < |s| && Picked(s, i, key)
    ensures forall j :: 0 <= j < i ==> key(s[j]) != key(s[i])
  {
    forall j | 0 <= j < i
      ensures key(s[j]) != key(s[i])
    {
      assert s[..i][j] == s[j];
    }
  }

  /** On sorted input the taken keys strictly decrease */
  lemma {:induction false} DedupStrictlyDecreasing(s: seq<RawFormat>, key: RawFormat -> real)
    requires SortedDesc(s, key)
    ensures forall i, j :: 0 <= i < j < |Dedup(s, key)| ==> key(Dedup(s, key)[i]) > key(Dedup(s, key)[j])
  {
    if s != [] {
      var last := |s| - 1;
      var prev := s[..last];
      var r := Dedup(prev, key);
      assert SortedDesc(prev, key);
      DedupStrictlyDecreasing(prev, key);
      if Picked(s, last, key) {
        assert s[..last] == prev;
        DedupMembers(prev, key);
        forall y | y in r
          ensures key(y) > key(s[last])
        {
          var i :| 0 <= i < |prev| && prev[i] == y && Picked(prev, i, key);
          assert s[i] == y;
          assert key(y) in SeenKeys(prev, key);
        }
        var d := r + [s[last]];
        forall i, j | 0 <= i < j < |d|
          ensures key(d[i]) > key(d[j])
        {
          if j == |r| {
            assert d[i] in r;
          }
        }
      }
    }
  }

  /** Every non-zero key of the input is taken once */
  lemma {:induction false} DedupCovers(s: seq<RawFormat>, key: RawFormat -> real, i: nat)
    requires i < |s| && key(s[i]) != 0.0
    ensures exists j :: 0 <= j <= i && Picked(s, j, key) && key(s[j]) == key(s[i])
    decreases i
  {
    if !Picked(s, i, key) {
      var j :| 0 <= j < i && key(s[..i][j]) != 0.0 && key(s[..i][j]) == key(s[i]);
      assert s[..i][j] == s[j];
      DedupCovers(s, key, j);
    }
  }

  /** The taken format of a key is the first format of that key in the
      engine's order, because the sort is stable */
  lemma FirstSeenWins(s: seq<RawFormat>, key: RawFormat -> real, y: RawFormat)
    requires y in Dedup(SortDesc(s, key), key)
    ensures WithKey(s, key, key(y)) != [] && WithKey(s, key, key(y))[0] == y
  {
    var t := SortDesc(s, key);
    DedupMembers(t, key);
    var i :| 0 <= i < |t| && t[i] == y && Picked(t, i, key);
    PickedIsFirst(t, i, key);
    WithKeyFirst(t, key, i);
    SortStable(s, key, key(y));
  }

  // ---------------------------------------------------------------------
  // The entries
  // ---------------------------------------------------------------------

  datatype Kind = Video | Audio

  /** One entry of the processed list. size is the argument handed to
      format_filesize; formatId None is a format without 'format_id', which
      makes fmt['format_id'] raise. */
  datatype Processed = Processed(formatId: Option<string>, quality: string, kind: Kind, size: int, ext: string)

  /** fmt.get('filesize') or fmt.get('filesize_approx', 0) */
  function SizeOf(f: RawFormat): (r: int)
    ensures f.filesize.GetOr(0) != 0 ==> r == f.filesize.value
    ensures f.filesize.GetOr(0) == 0 ==> r == f.filesizeApprox.GetOr(0)
  {
    if f.filesize.Some? && f.filesize.value != 0 then f.filesize.value else f.filesizeApprox.GetOr(0)
  }

  /** '<height>p', with ' <fps>fps' when fps is present and non-zero */
  function VideoLabel(f: RawFormat, show: real -> string): (r: string)
    ensures var h := IntToString(f.height.GetOr(0));
      |r| > |h| && r[..|h| + 1] == h + "p"
    ensures r == IntToString(f.height.GetOr(0)) + "p" <==> f.fps.None? || f.fps.value == 0.0
    ensures var h := IntToString(f.height.GetOr(0));
      f.fps.Some? && f.fps.value != 0.0 ==> r[|h| + 1..] == " " + show(f.fps.value) + "fps"
  {
    IntToString(f.height.GetOr(0)) + "p"
    + (if f.fps.Some? && f.fps.value != 0.0 then " " + show(f.fps.value) + "fps" else "")
  }

  /** '<int(abr)>kbps' */
  function AudioLabel(f: RawFormat): (r: string)
    ensures |r| > 4 && r[|r| - 4..] == "kbps"
    ensures AbrOf(f) >= 0.0 ==> '0' <= r[0] <= '9'
    ensures AbrOf(f) >= 0.0 ==> IsDigits(r[..|r| - 4]) && DecimalValue(r[..|r| - 4]) == Trunc(AbrOf(f))
  {
    var n := Trunc(AbrOf(f));
    if n >= 0 then
      DigitsBeforeSuffix(n, "kbps");
      IntToString(n) + "kbps"
    else IntToString(n) + "kbps"
  }

  /** The entry of a muxed format: its height label, type 'video', ext defaulting to 'mp4' */
  function VideoEntry(f: RawFormat, show: real -> string): (r: Processed)
    ensures r.kind == Video && r.formatId == f.formatId
    ensures r.quality == VideoLabel(f, show) && r.size == SizeOf(f)
    ensures f.ext.None? ==> r.ext == "mp4"
    ensures f.ext.Some? ==> r.ext == f.ext.value
  {
    Processed(f.formatId, VideoLabel(f, show), Video, SizeOf(f), f.ext.GetOr("mp4"))
  }

  /** The entry of an audio-only format: its bitrate label, type 'audio', ext defaulting to 'mp3' */
  function AudioEntry(f: RawFormat): (r: Processed)
    ensures r.kind == Audio && r.formatId == f.formatId
    ensures r.quality == AudioLabel(f) && r.size == SizeOf(f)
    ensures f.ext.None? ==> r.ext == "mp3"
    ensures f.ext.Some? ==> r.ext == f.ext.value
  {
    Processed(f.formatId, AudioLabel(f), Audio, SizeOf(f), f.ext.GetOr("mp3"))
  }

  function VideoEntries(s: seq<RawFormat>, show: real -> string): (r: seq<Processed>)
    ensures |r| == |s|
  {
    if s == [] then [] else VideoEntries(s[..|s| - 1], show) + [VideoEntry(s[|s| - 1], show)]
  }

  function AudioEntries(s: seq<RawFormat>): (r: seq<Processed>)
    ensures |r| == |s|
  {
    if s == [] then [] else AudioEntries(s[..|s| - 1]) + [AudioEntry(s[|s| - 1])]
  }

  lemma VideoEntriesSnoc(s: seq<RawFormat>, f: RawFormat, show: real -> string)
    ensures VideoEntries(s + [f], show) == VideoEntries(s, show) + [VideoEntry(f, show)]
  {
    assert (s + [f])[..|s|] == s;
  }

  lemma AudioEntriesSnoc(s: seq<RawFormat>, f: RawFormat)
    ensures AudioEntries(s + [f]) == AudioEntries(s) + [AudioEntry(f)]
  {
    assert (s + [f])[..|s|] == s;
  }

  /** Entry k describes format k */
  lemma {:induction false} EntriesDescribe(s: seq<RawFormat>, show: real -> string, k: nat)
    requires k < |s|
    ensures VideoEntries(s, show)[k] == VideoEntry(s[k], show)
    ensures AudioEntries(s)[k] == AudioEntry(s[k])
  {
    if k < |s| - 1 {
      EntriesDescribe(s[..|s| - 1], show, k);
    }
  }

  lemma {:induction false} VideoEntriesKind(s: seq<RawFormat>, show: real -> string)
    ensures forall k :: 0 <= k < |s| ==> VideoEntries(s, show)[k].kind == Video
  {
    if s != [] {
      VideoEntriesKind(s[..|s| - 1], show);
    }
  }

  lemma {:induction false} AudioEntriesKind(s: seq<RawFormat>)
    ensures forall k :: 0 <= k < |s| ==> AudioEntries(s)[k].kind == Audio
  {
    if s != [] {
      AudioEntriesKind(s[..|s| - 1]);
    }
  }

  /** The muxed formats that get an entry, tallest first */
  function PickedVideos(formats: seq<RawFormat>): seq<RawFormat> {
    Dedup(SortDesc(Filter(formats, HasVideoAndAudio), HeightOf), HeightOf)
  }

  /** The audio-only formats that get an entry, highest bitrate first */
  function PickedAudios(formats: seq<RawFormat>): seq<RawFormat> {
    Dedup(SortDesc(Filter(formats, IsAudioOnly), AbrOf), AbrOf)
  }

  /** The entry of the last format when nothing else qualified */
  function Fallback(best: RawFormat): (r: Processed)
    ensures r.quality == "best" && r.kind == Video
    ensures r.formatId == best.formatId && r.size == SizeOf(best) && r.ext == best.ext.GetOr("mp4")
  {
    Processed(best.formatId, "best", Video, SizeOf(best), best.ext.GetOr("mp4"))
  }

  /** The muxed entries followed by the audio entries */
  function Entries(formats: seq<RawFormat>, show: real -> string): seq<Processed> {
    VideoEntries(PickedVideos(formats), show) + AudioEntries(PickedAudios(formats))
  }

  /** What _process_formats returns */
  function ProcessFormatsSpec(formats: seq<RawFormat>, show: real -> string): (r: seq<Processed>)
    ensures |r| <= |formats|
    ensures r == [] <==> formats == []
  {
    var entries := Entries(formats, show);
    FilterDisjointBound(formats, HasVideoAndAudio, IsAudioOnly);
    if entries == [] && formats != [] then [Fallback(formats[|formats| - 1])]
    else entries
  }

  /** All video entries precede all audio entries */
  lemma VideoBeforeAudio(formats: seq<RawFormat>, show: real -> string)
    ensures var r := ProcessFormatsSpec(formats, show);
      forall i, j :: 0 <= i < j < |r| && r[j].kind == Video ==> r[i].kind == Video
  {
    var videos := VideoEntries(PickedVideos(formats), show);
    var audios := AudioEntries(PickedAudios(formats));
    var entries := videos + audios;
    assert entries == Entries(formats, show);
    VideoEntriesKind(PickedVideos(formats), show);
    AudioEntriesKind(PickedAudios(formats));
    if entries == [] && formats != [] {
      assert |ProcessFormatsSpec(formats, show)| == 1;
    } else {
      assert ProcessFormatsSpec(formats, show) == entries;
    }
  }

  /** The partition loop: muxed formats and audio-only formats, each in the engine's order */
  method Partition(formats: seq<RawFormat>) returns (videoFormats: seq<RawFormat>, audioFormats: seq<RawFormat>)
    ensures videoFormats == Filter(formats, HasVideoAndAudio)
    ensures audioFormats == Filter(formats, IsAudioOnly)
  {
    videoFormats := [];
    audioFormats := [];
    var i := 0;
    while i < |formats|
      invariant 0 <= i <= |formats|
      invariant videoFormats == Filter(formats[..i], HasVideoAndAudio)
      invariant audioFormats == Filter(formats[..i], IsAudioOnly)
    {
      var fmt := formats[i];
      assert formats[..i + 1] == formats[..i] + [fmt];
      FilterSnoc(formats[..i], fmt, HasVideoAndAudio);
      FilterSnoc(formats[..i], fmt, IsAudioOnly);
      FormatKindsDisjoint(fmt);
      if HasVideoAndAudio(fmt) {
        videoFormats := videoFormats + [fmt];
      } else if IsAudioOnly(fmt) {
        audioFormats := audioFormats + [fmt];
      }
      i := i + 1;
    }
    assert formats[..i] == formats;
  }

  /** The state of a seen-set loop after s: the formats taken and the keys seen */
  datatype Pass = Pass(taken: seq<RawFormat>, seen: set<real>)

  function Sweep(s: seq<RawFormat>, key: RawFormat -> real): Pass {
    if s == [] then Pass([], {})
    else
      var p := Sweep(s[..|s| - 1], key);
      var x := s[|s| - 1];
      if key(x) != 0.0 && key(x) !in p.seen then Pass(p.taken + [x], p.seen + {key(x)}) else p
  }

  /** The loop's state is the declarative one: the taken formats and the seen keys */
  lemma {:induction false} SweepIsDedup(s: seq<RawFormat>, key: RawFormat -> real)
    ensures Sweep(s, key) == Pass(Dedup(s, key), SeenKeys(s, key))
  {
    if s == [] {
      assert SeenKeys(s, key) == {};
    } else {
      var last := |s| - 1;
      SweepIsDedup(s[..last], key);
      assert s[..last] + [s[last]] == s;
      SeenKeysSnoc(s[..last], s[last], key);
    }
  }

  lemma SweepStep(s: seq<RawFormat>, i: nat, key: RawFormat -> real)
    requires i < |s|
    ensures var p := Sweep(s[..i], key);
      Sweep(s[..i + 1], key)
        == if key(s[i]) != 0.0 && key(s[i]) !in p.seen then Pass(p.taken + [s[i]], p.seen + {key(s[i])}) else p
  {
    assert s[..i + 1][..i] == s[..i];
  }

  lemma AppendOne(processed: seq<Processed>, before: seq<Processed>, e: Processed, after: seq<Processed>)
    requires after == before + [e]
    ensures (processed + before) + [e] == processed + after
  {
  }

  /** The muxed loop over the sorted list, appending to processed */
  method AppendVideos(processed: seq<Processed>, sortedVideo: seq<RawFormat>, show: real -> string)
    returns (out: seq<Processed>)
    ensures out == processed + VideoEntries(Dedup(sortedVideo, HeightOf), show)
  {
    out := processed;
    var seenQualities: set<real> := {};
    var i := 0;
    while i < |sortedVideo|
      invariant 0 <= i <= |sortedVideo|
      invariant out == processed + VideoEntries(Sweep(sortedVideo[..i], HeightOf).taken, show)
      invariant seenQualities == Sweep(sortedVideo[..i], HeightOf).seen
    {
      var fmt := sortedVideo[i];
      SweepStep(sortedVideo, i, HeightOf);
      var height := HeightOf(fmt);
      if height != 0.0 && height !in seenQualities {
        ghost var taken := Sweep(sortedVideo[..i], HeightOf).taken;
        VideoEntriesSnoc(taken, fmt, show);
        AppendOne(processed, VideoEntries(taken, show), VideoEntry(fmt, show), VideoEntries(taken + [fmt], show));
        out := out + [VideoEntry(fmt, show)];
        seenQualities := seenQualities + {height};
      }
      i := i + 1;
    }
    assert sortedVideo[..i] == sortedVideo;
    SweepIsDedup(sortedVideo, HeightOf);
  }

  /** The audio loop over the sorted list, appending to processed */
  method AppendAudios(processed: seq<Processed>, sortedAudio: seq<RawFormat>)
    returns (out: seq<Processed>)
    ensures out == processed + AudioEntries(Dedup(sortedAudio, AbrOf))
  {
    out := processed;
    var seenAudio: set<real> := {};
    var i := 0;
    while i < |sortedAudio|
      invariant 0 <= i <= |sortedAudio|
      invariant out == processed + AudioEntries(Sweep(sortedAudio[..i], AbrOf).taken)
      invariant seenAudio == Sweep(sortedAudio[..i], AbrOf).seen
    {
      var fmt := sortedAudio[i];
      SweepStep(sortedAudio, i, AbrOf);
      var abr := AbrOf(fmt);
      if abr != 0.0 && abr !in seenAudio {
        ghost var taken := Sweep(sortedAudio[..i], AbrOf).taken;
        AudioEntriesSnoc(taken, fmt);
        AppendOne(processed, AudioEntries(taken), AudioEntry(fmt), AudioEntries(taken + [fmt]));
        out := out + [AudioEntry(fmt)];
        seenAudio := seenAudio + {abr};
      }
      i := i + 1;
    }
    assert sortedAudio[..i] == sortedAudio;
    SweepIsDedup(sortedAudio, AbrOf);
  }

  /** _process_formats: partition, one pass per kind over its sorted list, then the fallback */
  method ProcessFormats(formats: seq<RawFormat>, show: real -> string) returns (processed: seq<Processed>)
    ensures processed == ProcessFormatsSpec(formats, show)
  {
    var videoFormats, audioFormats := Partition(formats);
    processed := AppendVideos([], SortDesc(videoFormats, HeightOf), show);
    assert processed == VideoEntries(PickedVideos(formats), show);
    processed := AppendAudios(processed, SortDesc(audioFormats, AbrOf));
    assert processed == Entries(formats, show);
    if processed == [] && formats != [] {
      processed := [Fallback(formats[|formats| - 1])];
    }
  }

  /** Muxed entries come out tallest first, one per height, each the first
      format of its height in the engine's order */
  lemma VideoOrder(formats: seq<RawFormat>)
    ensures forall i, j :: 0 <= i < j < |PickedVideos(formats)| ==>
      HeightOf(PickedVideos(formats)[i]) > HeightOf(PickedVideos(formats)[j])
    ensures forall y :: y in PickedVideos(formats) ==>
      HasVideoAndAudio(y) && HeightOf(y) != 0.0
      && WithKey(Filter(formats, HasVideoAndAudio), HeightOf, HeightOf(y)) != []
      && WithKey(Filter(formats, HasVideoAndAudio), HeightOf, HeightOf(y))[0] == y
  {
    var s := Filter(formats, HasVideoAndAudio);
    SortDescSorted(s, HeightOf);
    DedupStrictlyDecreasing(SortDesc(s, HeightOf), HeightOf);
    forall y | y in PickedVideos(formats)
      ensures HasVideoAndAudio(y) && HeightOf(y) != 0.0
      ensures WithKey(s, HeightOf, HeightOf(y)) != [] && WithKey(s, HeightOf, HeightOf(y))[0] == y
    {
      FirstSeenWins(s, HeightOf, y);
      var t := SortDesc(s, HeightOf);
      DedupMembers(t, HeightOf);
      var i :| 0 <= i < |t| && t[i] == y && Picked(t, i, HeightOf);
      assert y in multiset(t);
    }
  }

  /** Every non-zero height among the muxed formats has an entry */
  lemma VideoCoverage(formats: seq<RawFormat>, f: RawFormat)
    requires f in formats && HasVideoAndAudio(f) && HeightOf(f) != 0.0
    ensures exists y :: y in PickedVideos(formats) && HeightOf(y) == HeightOf(f)
  {
    var s := Filter(formats, HasVideoAndAudio);
    var t := SortDesc(s, HeightOf);
    assert f in multiset(t);
    var i :| 0 <= i < |t| && t[i] == f;
    DedupCovers(t, HeightOf, i);
    var j :| 0 <= j <= i && Picked(t, j, HeightOf) && HeightOf(t[j]) == HeightOf(f);
    DedupContainsPicked(t, HeightOf, j);
  }

  lemma {:induction false} DedupContainsPicked(s: seq<RawFormat>, key: RawFormat -> real, j: nat)
    requires j < |s| && Picked(s, j, key)
    ensures s[j] in Dedup(s, key)
  {
    var last := |s| - 1;
    if j < last {
      assert s[..last][j] == s[j] && s[..last][..j] == s[..j];
      DedupContainsPicked(s[..last], key, j);
    }
  }

  /** Audio entries come out highest bitrate first, one per bitrate, each
      the first format of its bitrate in the engine's order */
  lemma AudioOrder(formats: seq<RawFormat>)
    ensures forall i, j :: 0 <= i < j < |PickedAudios(formats)| ==>
      AbrOf(PickedAudios(formats)[i]) > AbrOf(PickedAudios(formats)[j])
    ensures forall y :: y in PickedAudios(formats) ==>
      IsAudioOnly(y) && AbrOf(y) != 0.0
      && WithKey(Filter(formats, IsAudioOnly), AbrOf, AbrOf(y)) != []
      && WithKey(Filter(formats, IsAudioOnly), AbrOf, AbrOf(y))[0] == y
  {
    var s := Filter(formats, IsAudioOnly);
    SortDescSorted(s, AbrOf);
    DedupStrictlyDecreasing(SortDesc(s, AbrOf), AbrOf);
    forall y | y in PickedAudios(formats)
      ensures IsAudioOnly(y) && AbrOf(y) != 0.0
      ensures WithKey(s, AbrOf, AbrOf(y)) != [] && WithKey(s, AbrOf, AbrOf(y))[0] == y
    {
      FirstSeenWins(s, AbrOf, y);
      var t := SortDesc(s, AbrOf);
      DedupMembers(t, AbrOf);
      var i :| 0 <= i < |t| && t[i] == y && Picked(t, i, AbrOf);
      assert y in multiset(t);
    }
  }

  /** A video label names its height: the digits before the first 'p' */
  lemma VideoLabelNamesHeight(f: RawFormat, g: RawFormat, show: real -> string)
    requires VideoLabel(f, show) == VideoLabel(g, show)
    ensures f.height.GetOr(0) == g.height.GetOr(0)
  {
    var a := IntToString(f.height.GetOr(0));
    var b := IntToString(g.height.GetOr(0));
    var l := VideoLabel(f, show);
    assert l[|a|] == 'p';
    assert VideoLabel(g, show)[|b|] == 'p';
    assert a == l[..|a|] && b == VideoLabel(g, show)[..|b|];
    IntToStringInjective(f.height.GetOr(0), g.height.GetOr(0));
  }

  /** Bitrates are told apart before int() truncates them: two audio-only
      formats such as 128.5 and 128.0 kbps make two entries with one label */
  lemma AudioLabelsMayRepeat(a: RawFormat, b: RawFormat)
    requires IsAudioOnly(a) && IsAudioOnly(b)
    requires 0.0 < AbrOf(b) < AbrOf(a) && Trunc(AbrOf(a)) == Trunc(AbrOf(b))
    ensures PickedAudios([a, b]) == [a, b] && AudioLabel(a) == AudioLabel(b)
  {
    assert [a, b][1..] == [b] && [a, b][..1] == [a];
    assert Filter([b], IsAudioOnly) == [b];
    assert Filter([a, b], IsAudioOnly) == [a, b];
    assert SortDesc([b], AbrOf) == [b];
    assert SortDesc([a, b], AbrOf) == [a, b];
    assert SeenKeys([a], AbrOf) == {AbrOf(a)};
    assert Dedup([a], AbrOf) == [a];
    assert Picked([a, b], 1, AbrOf);
  }

  /** The bitrate label names the integer part of the bitrate: equal labels mean equal int(abr) */
  lemma AudioLabelNamesBitrate(a: RawFormat, b: RawFormat)
    requires AudioLabel(a) == AudioLabel(b)
    ensures Trunc(AbrOf(a)) == Trunc(AbrOf(b))
  {
    var la := AudioLabel(a);
    assert IntToString(Trunc(AbrOf(a))) == la[..|la| - 4];
    assert IntToString(Trunc(AbrOf(b))) == la[..|la| - 4];
    IntToStringInjective(Trunc(AbrOf(a)), Trunc(AbrOf(b)));
  }

  /** A format the seen-set pass takes comes from the input, passes the kind
      test and has a non-zero key */
  lemma PickedFrom(formats: seq<RawFormat>, p: RawFormat -> bool, key: RawFormat -> real, y: RawFormat)
    requires y in Dedup(SortDesc(Filter(formats, p), key), key)
    ensures y in formats && p(y) && key(y) != 0.0
  {
    var t := SortDesc(Filter(formats, p), key);
    DedupMembers(t, key);
    var i :| 0 <= i < |t| && t[i] == y && Picked(t, i, key);
    assert y in multiset(t);
  }

  /** Every non-zero bitrate among the audio-only formats has an entry */
  lemma AudioCoverage(formats: seq<RawFormat>, f: RawFormat)
    requires f in formats && IsAudioOnly(f) && AbrOf(f) != 0.0
    ensures exists y :: y in PickedAudios(formats) && AbrOf(y) == AbrOf(f)
  {
    var s := Filter(formats, IsAudioOnly);
    var t := SortDesc(s, AbrOf);
    assert f in multiset(t);
    var i :| 0 <= i < |t| && t[i] == f;
    DedupCovers(t, AbrOf, i);
    var j :| 0 <= j <= i && Picked(t, j, AbrOf) && AbrOf(t[j]) == AbrOf(f);
    DedupContainsPicked(t, AbrOf, j);
  }

  /** When no muxed format has a height and no audio-only format a bitrate,
      a non-empty list yields the single fallback entry of its last format */
  lemma FallbackWhenEmpty(formats: seq<RawFormat>, show: real -> string)
    requires formats != []
    requires forall k :: 0 <= k < |formats| ==>
      !(HasVideoAndAudio(formats[k]) && HeightOf(formats[k]) != 0.0)
      && !(IsAudioOnly(formats[k]) && AbrOf(formats[k]) != 0.0)
    ensures ProcessFormatsSpec(formats, show) == [Fallback(formats[|formats| - 1])]
  {
    if PickedVideos(formats) != [] {
      PickedFrom(formats, HasVideoAndAudio, HeightOf, PickedVideos(formats)[0]);
      assert false;
    }
    if PickedAudios(formats) != [] {
      PickedFrom(formats, IsAudioOnly, AbrOf, PickedAudios(formats)[0]);
      assert false;
    }
    assert Entries(formats, show) == [];
  }

  // ---------------------------------------------------------------------
  // get_video_info
  // ---------------------------------------------------------------------

  /** 'thumbnail' if the key is present, else the url of the last of a
      non-empty 'thumbnails' list, else ''. None is the KeyError raised when
      that last thumbnail has no 'url'. */
  function ChooseThumbnail(info: Info): (r: Option<string>)
    ensures info.thumbnail.Some? ==> r == Some(info.thumbnail.value)
    ensures info.thumbnail.None? && info.thumbnails.Some? && info.thumbnails.value != [] ==>
      r == info.thumbnails.value[|info.thumbnails.value| - 1].url
    ensures info.thumbnail.None? && (info.thumbnails.None? || info.thumbnails.value == []) ==> r == Some("")
  {
    match info.thumbnail
    case Some(t) => Some(t)
    case None =>
      match info.thumbnails
      case Some(ts) => if |ts| > 0 then ts[|ts| - 1].url else Some("")
      case None => Some("")
  }

  /** The thumbnail fails only on a url-less last entry of a list the info
      relies on, and otherwise is '' or a url the info itself carries */
  lemma ThumbnailProvenance(info: Info)
    ensures ChooseThumbnail(info).None? <==>
      info.thumbnail.None? && info.thumbnails.Some? && info.thumbnails.value != []
      && info.thumbnails.value[|info.thumbnails.value| - 1].url.None?
    ensures ChooseThumbnail(info).Some? ==>
      var t := ChooseThumbnail(info).value;
      t == "" || info.thumbnail == Some(t)
      || (info.thumbnails.Some? && exists i :: 0 <= i < |info.thumbnails.value| && info.thumbnails.value[i].url == Some(t))
  {
    if info.thumbnail.None? && info.thumbnails.Some? && info.thumbnails.value != [] {
      var ts := info.thumbnails.value;
      if ts[|ts| - 1].url.Some? {
        assert ts[|ts| - 1].url == Some(ChooseThumbnail(info).value);
      }
    }
  }

  const FailurePrefix := "Failed to fetch video info: "

  /** What get_video_info returns, or the text of the exception it raises */
  datatype VideoInfo = InfoFailed(message: string) | Details(title: string, thumbnail: string, formats: seq<Processed>)

  /** Every processed entry carries a format_id, so no fmt['format_id'] raised */
  predicate AllIdentified(formats: seq<Processed>) {
    forall k :: 0 <= k < |formats| ==> formats[k].formatId.Some?
  }

  /** get_video_info: the thumbnail is chosen first, then the formats are
      processed; a KeyError in either becomes the wrapped exception text */
  function GetVideoInfo(probe: Probe, show: real -> string): (r: VideoInfo)
    ensures probe.ProbeFailed? ==> r == InfoFailed(FailurePrefix + probe.message)
    ensures probe.Probed? && ChooseThumbnail(probe.info).None? ==> r == InfoFailed(FailurePrefix + "'url'")
    ensures (probe.Probed? && ChooseThumbnail(probe.info).Some?
             && !AllIdentified(ProcessFormatsSpec(probe.info.formats.GetOr([]), show))) ==>
      r == InfoFailed(FailurePrefix + "'format_id'")
    ensures (probe.Probed? && ChooseThumbnail(probe.info).Some?
             && AllIdentified(ProcessFormatsSpec(probe.info.formats.GetOr([]), show))) ==>
      r.Details?
    ensures r.Details? ==>
      r.title == probe.info.title.GetOr("Unknown") && Some(r.thumbnail) == ChooseThumbnail(probe.info)
      && r.formats == ProcessFormatsSpec(probe.info.formats.GetOr([]), show) && AllIdentified(r.formats)
  {
    match probe
    case ProbeFailed(m) => InfoFailed(FailurePrefix + m)
    case Probed(info) =>
      match ChooseThumbnail(info)
      case None => InfoFailed(FailurePrefix + "'url'")
      case Some(thumbnail) =>
        var formats := ProcessFormatsSpec(info.formats.GetOr([]), show);
        if AllIdentified(formats) then Details(info.title.GetOr("Unknown"), thumbnail, formats)
        else InfoFailed(FailurePrefix + "'format_id'")
  }
}
