/** Finding the file a download produced. The engine predicts a path from
    its output template; post-processing may have changed the extension, and
    the title the template used may differ from the file actually written, so
    the back ends try a few names and then scan the download directory. */
module Artifacts {
  import opened Common

  /** The download directory as the back ends observe it: the paths
      os.path.exists accepts, the directory's own path, and the names
      os.listdir returns, in the order it returns them */
  datatype FileSystem = FileSystem(existing: set<string>, dir: string, listing: seq<string>)

  /** os.path.exists: the empty path never exists */
  predicate Exists(fs: FileSystem, p: string) {
    p != [] && p in fs.existing
  }

  /** Every listed name is a plain name whose joined path exists */
  predicate Consistent(fs: FileSystem) {
    forall k :: 0 <= k < |fs.listing| ==> '/' !in fs.listing[k] && Exists(fs, Join(fs.dir, fs.listing[k]))
  }

  /** The extensions the job tries after the predicted path, in order */
  const SwapExtensions: seq<string> := [".mp3", ".m4a", ".mp4", ".webm"]

  /** The possible files of download_video_task: the predicted path, then the
      same stem with each of the swapped extensions */
  function Candidates(predicted: string): (r: seq<string>)
    ensures |r| == 1 + |SwapExtensions| && r[0] == predicted
    ensures forall k :: 0 <= k < |SwapExtensions| ==> r[k + 1] == Stem(predicted) + SwapExtensions[k]
  {
    var stem := Stem(predicted);
    [predicted, stem + ".mp3", stem + ".m4a", stem + ".mp4", stem + ".webm"]
  }

  /** The first of the paths that exists */
  function FirstExisting(paths: seq<string>, fs: FileSystem): (r: Option<string>)
    ensures r.None? <==> forall k :: 0 <= k < |paths| ==> !Exists(fs, paths[k])
    ensures r.Some? ==> exists i :: 0 <= i < |paths| && paths[i] == r.value && Exists(fs, r.value)
                          && forall k :: 0 <= k < i ==> !Exists(fs, paths[k])
  {
    if paths == [] then None
    else if Exists(fs, paths[0]) then Some(paths[0])
    else
      var r := FirstExisting(paths[1..], fs);
      assert r.Some? ==> exists i :: 0 <= i < |paths[1..]| && paths[1..][i] == r.value
                          && forall k :: 0 <= k < i ==> !Exists(fs, paths[1..][k]);
      assert r.Some? ==> exists i :: 0 <= i < |paths| && paths[i] == r.value
                          && forall k :: 0 <= k < i ==> !Exists(fs, paths[k]) by {
        if r.Some? {
          var i :| 0 <= i < |paths[1..]| && paths[1..][i] == r.value
                   && forall k :: 0 <= k < i ==> !Exists(fs, paths[1..][k]);
          assert forall k :: 0 <= k < i + 1 ==> !Exists(fs, paths[k]) by {
            forall k | 0 <= k < i + 1
              ensures !Exists(fs, paths[k])
            {
              if k > 0 {
                assert paths[k] == paths[1..][k - 1];
              }
            }
          }
        }
      }
      r
  }

  /** The position of the first listed name containing the title */
  function FirstContaining(listing: seq<string>, title: string): (r: Option<nat>)
    ensures r.None? <==> forall k :: 0 <= k < |listing| ==> !Contains(listing[k], title)
    ensures r.Some? ==> r.value < |listing| && Contains(listing[r.value], title)
                        && forall k :: 0 <= k < r.value ==> !Contains(listing[k], title)
  {
    if listing == [] then None
    else if Contains(listing[0], title) then Some(0)
    else
      match FirstContaining(listing[1..], title)
      case None => None
      case Some(i) => Some(i + 1)
  }

  /** The directory scan: the joined path of the first name containing the title */
  function Scan(fs: FileSystem, title: string): (r: Option<string>)
    ensures r.None? <==> forall k :: 0 <= k < |fs.listing| ==> !Contains(fs.listing[k], title)
    ensures r.Some? ==>
      exists k :: 0 <= k < |fs.listing| && Contains(fs.listing[k], title)
        && r.value == Join(fs.dir, fs.listing[k]) && forall j :: 0 <= j < k ==> !Contains(fs.listing[j], title)
  {
    match FirstContaining(fs.listing, title)
    case None => None
    case Some(i) => Some(Join(fs.dir, fs.listing[i]))
  }

  /** The path download_video_task settles on: the first existing candidate,
      else the scan's hit; whether it exists is checked afterwards */
  function Resolve(predicted: string, title: string, fs: FileSystem): (r: Option<string>)
    ensures (exists i :: 0 <= i < |Candidates(predicted)| && Exists(fs, Candidates(predicted)[i])) ==>
      r.Some? && r.value in Candidates(predicted) && Exists(fs, r.value)
    ensures (forall i :: 0 <= i < |Candidates(predicted)| ==> !Exists(fs, Candidates(predicted)[i])) ==>
      r == Scan(fs, title)
  {
    match FirstExisting(Candidates(predicted), fs)
    case Some(p) => Some(p)
    case None => Scan(fs, title)
  }

  /** The candidate loop, stopping at the first path that exists */
  method FindExisting(paths: seq<string>, fs: FileSystem) returns (found: Option<string>)
    ensures found == FirstExisting(paths, fs)
  {
    found := None;
    var i := 0;
    while i < |paths|
      invariant 0 <= i <= |paths|
      invariant FirstExisting(paths, fs) == FirstExisting(paths[i..], fs)
    {
      if Exists(fs, paths[i]) {
        found := Some(paths[i]);
        return;
      }
      assert paths[i..][1..] == paths[i + 1..];
      i := i + 1;
    }
  }

  /** The directory loop, stopping at the first name that contains the title */
  method ScanListing(fs: FileSystem, title: string) returns (found: Option<string>)
    ensures found == Scan(fs, title)
  {
    found := None;
    var i := 0;
    while i < |fs.listing|
      invariant 0 <= i <= |fs.listing|
      invariant forall k :: 0 <= k < i ==> !Contains(fs.listing[k], title)
    {
      if Contains(fs.listing[i], title) {
        found := Some(Join(fs.dir, fs.listing[i]));
        assert FirstContaining(fs.listing, title) == Some(i);
        return;
      }
      i := i + 1;
    }
  }

  /** The two searches of download_video_task, the scan only when no candidate exists */
  method ResolveArtifact(predicted: string, title: string, fs: FileSystem) returns (filename: Option<string>)
    ensures filename == Resolve(predicted, title, fs)
  {
    filename := FindExisting(Candidates(predicted), fs);
    if filename.None? {
      filename := ScanListing(fs, title);
    }
  }

  /** An existing candidate wins over the scan, and earlier candidates over later ones */
  lemma CandidateWins(predicted: string, title: string, fs: FileSystem, i: nat)
    requires i < |Candidates(predicted)| && Exists(fs, Candidates(predicted)[i])
    requires forall k :: 0 <= k < i ==> !Exists(fs, Candidates(predicted)[k])
    ensures Resolve(predicted, title, fs) == Some(Candidates(predicted)[i])
  {
    var r := FirstExisting(Candidates(predicted), fs);
    var j :| 0 <= j < |Candidates(predicted)| && Candidates(predicted)[j] == r.value
             && Exists(fs, r.value) && forall k :: 0 <= k < j ==> !Exists(fs, Candidates(predicted)[k]);
    assert j == i;
  }

  /** With no candidate on disk the outcome is the scan's, in listing order */
  lemma ScanWhenNoCandidate(predicted: string, title: string, fs: FileSystem)
    requires forall k :: 0 <= k < |Candidates(predicted)| ==> !Exists(fs, Candidates(predicted)[k])
    ensures Resolve(predicted, title, fs) == Scan(fs, title)
  {
  }

  /** In a consistent directory a scan hit exists and its basename is the listed name */
  lemma ScanHitExists(fs: FileSystem, title: string)
    requires Consistent(fs)
    ensures Scan(fs, title).Some? <==> exists k :: 0 <= k < |fs.listing| && Contains(fs.listing[k], title)
    ensures Scan(fs, title).Some? ==> Exists(fs, Scan(fs, title).value)
    ensures Scan(fs, title).Some? ==>
      Basename(Scan(fs, title).value) == fs.listing[FirstContaining(fs.listing, title).value]
  {
    match FirstContaining(fs.listing, title)
    case None =>
    case Some(i) =>
      BasenameOfJoin(fs.dir, fs.listing[i]);
  }

  /** In a consistent directory the job finds an existing file as soon as one listed name contains the title */
  lemma ListedTitleResolves(predicted: string, title: string, fs: FileSystem, k: nat)
    requires Consistent(fs) && k < |fs.listing| && Contains(fs.listing[k], title)
    ensures Resolve(predicted, title, fs).Some? && Exists(fs, Resolve(predicted, title, fs).value)
  {
    var cands := Candidates(predicted);
    match FirstExisting(cands, fs)
    case Some(p) =>
    case None =>
      ScanHitExists(fs, title);
      assert Resolve(predicted, title, fs) == Scan(fs, title);
  }

  /** An empty title is contained in every name, so the scan takes the first listed name */
  lemma EmptyTitleTakesFirst(fs: FileSystem)
    requires fs.listing != []
    ensures Scan(fs, "") == Some(Join(fs.dir, fs.listing[0]))
  {
    assert OccursAt("", fs.listing[0], 0);
  }

  /** Swapping the extension of a name keeps its stem: the swapped candidates
      differ from one another in the extension alone */
  lemma {:induction false} StemOfSwapped(stem: string, ext: string)
    requires '.' !in ext
    ensures Stem(stem + "." + ext) == stem
  {
    var s := stem + "." + ext;
    assert s[|stem|] == '.';
    assert s[..|stem|] == stem;
  }

  /** Every swapped candidate has the predicted path's stem */
  lemma SwappedCandidatesShareStem(predicted: string, k: nat)
    requires 1 <= k < |Candidates(predicted)|
    ensures Stem(Candidates(predicted)[k]) == Stem(predicted)
  {
    var ext := SwapExtensions[k - 1];
    assert ext == "." + ext[1..];
    assert Candidates(predicted)[k] == Stem(predicted) + "." + ext[1..];
    StemOfSwapped(Stem(predicted), ext[1..]);
  }
}
