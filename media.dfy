/** What the extraction engine hands back: the per-format dictionaries of an
    info dict, the info dict itself, and the outcome of a metadata probe.
    Each Option field stands for a dictionary key that may be absent. */
module Media {
  import opened Common

  datatype RawFormat = RawFormat(
    formatId: Option<string>,
    ext: Option<string>,
    vcodec: Option<string>,
    acodec: Option<string>,
    formatNote: Option<string>,
    width: Option<int>,
    height: Option<int>,
    fps: Option<real>,
    abr: Option<real>,
    filesize: Option<int>,
    filesizeApprox: Option<int>)

  /** Neither codec is the string 'none': a muxed video-with-audio format (an absent codec key counts as present) */
  predicate HasVideoAndAudio(f: RawFormat) {
    f.vcodec != Some("none") && f.acodec != Some("none")
  }

  /** Audio codec present and video codec explicitly 'none' */
  predicate IsAudioOnly(f: RawFormat) {
    f.acodec != Some("none") && f.vcodec == Some("none")
  }

  /** The three kinds a format falls into: muxed, audio-only, or neither (video-only or no codec at all) */
  lemma FormatKindsDisjoint(f: RawFormat)
    ensures !(HasVideoAndAudio(f) && IsAudioOnly(f))
    ensures !HasVideoAndAudio(f) && !IsAudioOnly(f) <==> f.acodec == Some("none")
  {
  }

  datatype Thumbnail = Thumbnail(url: Option<string>)

  datatype Info = Info(
    id: Option<string>,
    title: Option<string>,
    thumbnail: Option<string>,
    thumbnails: Option<seq<Thumbnail>>,
    formats: Option<seq<RawFormat>>)

  /** A call to extract_info: it raised (with its message) or returned an info dict */
  datatype Probe = ProbeFailed(message: string) | Probed(info: Info)

  /** The elements of s that satisfy p, in their original order */
  function Filter<T(!new)>(s: seq<T>, p: T -> bool): (r: seq<T>)
    ensures |r| <= |s|
    ensures forall x :: x in r <==> x in s && p(x)
  {
    if s == [] then []
    else
      assert s == [s[0]] + s[1..];
      (if p(s[0]) then [s[0]] else []) + Filter(s[1..], p)
  }

  /** Filtering one more element appends it when it qualifies */
  lemma {:induction false} FilterSnoc<T(!new)>(s: seq<T>, x: T, p: T -> bool)
    ensures Filter(s + [x], p) == Filter(s, p) + (if p(x) then [x] else [])
  {
    if s == [] {
      assert [x][1..] == [];
    } else {
      var head: seq<T> := if p(s[0]) then [s[0]] else [];
      var tail: seq<T> := if p(x) then [x] else [];
      assert (s + [x])[0] == s[0];
      assert (s + [x])[1..] == s[1..] + [x];
      assert Filter(s + [x], p) == head + Filter(s[1..] + [x], p);
      FilterSnoc(s[1..], x, p);
      assert Filter(s, p) == head + Filter(s[1..], p);
      assert head + (Filter(s[1..], p) + tail) == (head + Filter(s[1..], p)) + tail;
    }
  }

  /** Two filters with disjoint conditions keep no more than the whole */
  lemma {:induction false} FilterDisjointBound<T(!new)>(s: seq<T>, p: T -> bool, q: T -> bool)
    requires forall x :: !(p(x) && q(x))
    ensures |Filter(s, p)| + |Filter(s, q)| <= |s|
  {
    if s != [] {
      FilterDisjointBound(s[1..], p, q);
    }
  }
}
