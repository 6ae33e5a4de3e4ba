/** The asynchronous back end (backend/app.py): a download request is
    checked, given an engine selector and a job id, seeded in the progress
    registry and handed to a background job; the job's progress hook keeps
    the registry entry current, and when the engine returns the job finds the
    file and marks the entry completed or failed. The background thread is
    modelled as the job's events applied in order, then its finalisation. */
module BackendApp {
  import opened Common
  import opened Media
  import opened Selectors
  import opened Artifacts
  import opened Jobs

  const ProcessingMessage := "Processing downloaded file..."
  const NotFoundAfterDownload := "File not found after download"
  const UrlRequired := "URL is required"

  /** The entry a 'finished' event writes: the file is downloaded and post-processing runs */
  const ProcessingEntry := Entry(Processing, 95.0, None, None, Some(ProcessingMessage), None, None, None)

  /** The entry create_progress_hook's hook writes for an event, if any.
      A percent text the parser rejects counts as 0. */
  function HookEntry(e: Event, parse: string -> Option<real>): (r: Option<Entry>)
    ensures r.Some? <==> (e.status == "downloading" && e.percent.Some?) || e.status == "finished"
    ensures r.Some? ==> !r.value.status.Terminal()
    ensures r.Some? ==> r.value.filename.None? && r.value.title.None? && r.value.error.None?
    ensures e.status == "downloading" && e.percent.Some? ==>
      r.value.status == Downloading
      && r.value.progress == (match parse(PercentText(e.percent.value)) case Some(x) => x case None => 0.0)
      && r.value.speed == Some(e.speed.GetOr("N/A")) && r.value.eta == Some(e.eta.GetOr("N/A"))
      && r.value.message.None?
    ensures e.status == "finished" ==> r == Some(ProcessingEntry)
  {
    if e.status == "downloading" then
      match e.percent
      case None => None
      case Some(p) =>
        Some(Entry(Downloading, parse(PercentText(p)).GetOr(0.0), Some(e.speed.GetOr("N/A")),
                   Some(e.eta.GetOr("N/A")), None, None, None, None))
    else if e.status == "finished" then Some(ProcessingEntry)
    else None
  }

  /** The registry after the hook of job id has seen one event */
  function Hooked(reg: map<string, Entry>, id: string, e: Event, parse: string -> Option<real>): (r: map<string, Entry>)
    ensures forall k :: k != id ==> (k in r <==> k in reg) && (k in reg ==> r[k] == reg[k])
    ensures id in reg ==> id in r
    ensures HookEntry(e, parse).None? ==> r == reg
  {
    match HookEntry(e, parse)
    case None => reg
    case Some(en) => reg[id := en]
  }

  /** The registry after the hook of job id has seen the events in order */
  function ApplyEvents(reg: map<string, Entry>, id: string, events: seq<Event>, parse: string -> Option<real>): (r: map<string, Entry>)
    ensures reg.Keys <= r.Keys <= reg.Keys + {id}
  {
    if events == [] then reg
    else Hooked(ApplyEvents(reg, id, events[..|events| - 1], parse), id, events[|events| - 1], parse)
  }

  /** The outcome of the engine's extract_info(url, download=True) call:
      it raised with a message, or returned the info dict's title and the
      path prepare_filename predicts */
  datatype Outcome = Raised(message: string) | Extracted(title: Option<string>, predicted: string)

  /** The entry after the job's finalisation: status and either filename and
      title or error are set, and every other field is kept */
  function Finalised(en: Entry, outcome: Outcome, fs: FileSystem): (r: Entry)
    ensures r.status.Terminal()
    ensures r.progress == en.progress && r.speed == en.speed && r.eta == en.eta && r.message == en.message
    ensures r.status == Completed <==>
      outcome.Extracted? && Resolve(outcome.predicted, outcome.title.GetOr("video"), fs).Some?
      && Exists(fs, Resolve(outcome.predicted, outcome.title.GetOr("video"), fs).value)
    ensures r.status == Completed ==>
      r.filename == Some(Basename(Resolve(outcome.predicted, outcome.title.GetOr("video"), fs).value))
      && r.title == Some(outcome.title.GetOr("Unknown")) && r.error == en.error
    ensures r.status == Failed ==>
      r.filename == en.filename && r.title == en.title
      && r.error == Some(if outcome.Raised? then outcome.message else NotFoundAfterDownload)
  {
    match outcome
    case Raised(msg) => en.(status := Failed, error := Some(msg))
    case Extracted(title, predicted) =>
      var found := Resolve(predicted, title.GetOr("video"), fs);
      if found.Some? && Exists(fs, found.value) then
        en.(status := Completed, filename := Some(Basename(found.value)), title := Some(title.GetOr("Unknown")))
      else
        en.(status := Failed, error := Some(NotFoundAfterDownload))
  }

  /** The registry once the job has finished: its events, then its
      finalisation; a job whose entry is gone fails with a KeyError and
      leaves the registry as it is */
  function FinishJob(reg: map<string, Entry>, id: string, events: seq<Event>, outcome: Outcome,
                     fs: FileSystem, parse: string -> Option<real>): (r: map<string, Entry>)
    ensures r.Keys == ApplyEvents(reg, id, events, parse).Keys
    ensures id in r ==> r[id].status.Terminal()
    ensures forall k :: k in r && k != id ==> r[k] == ApplyEvents(reg, id, events, parse)[k]
    ensures id !in r ==> r == ApplyEvents(reg, id, events, parse)
  {
    var hooked := ApplyEvents(reg, id, events, parse);
    if id in hooked then hooked[id := Finalised(hooked[id], outcome, fs)] else hooked
  }

  /** download_video's URL handling: an https:// prefix unless the URL already names http or https */
  function NormaliseUrl(url: string): (r: string)
    ensures StartsWith(r, "http://") || StartsWith(r, "https://")
    ensures StartsWith(url, "http://") || StartsWith(url, "https://") ==> r == url
    ensures !(StartsWith(url, "http://") || StartsWith(url, "https://")) ==> r == "https://" + url
  {
    if StartsWith(url, "http://") || StartsWith(url, "https://") then url
    else
      assert ("https://" + url)[..8] == "https://";
      "https://" + url
  }

  /** A URL of whitespace alone, Unicode spaces included, is answered 400 */
  lemma BlankUrlRejected(req: Request, ffmpeg: bool, probe: Probe, fallbackId: string)
    requires req.url.Some? && forall k :: 0 <= k < |req.url.value| ==> IsSpace(req.url.value[k])
    ensures Admit(req, ffmpeg, probe, fallbackId) == BadRequest(UrlRequired)
  {
    StripAllSpace(req.url.value);
  }

  lemma NormaliseUrlIdempotent(url: string)
    ensures NormaliseUrl(NormaliseUrl(url)) == NormaliseUrl(url)
  {
  }

  /** The answer of download_video: 400, 500, or the id of the job it started
      together with the URL and engine format the job is given */
  datatype Accepted =
    | BadRequest(error: string)
    | ServerError(error: string)
    | Started(downloadId: string, url: string, engine: EngineFormat)

  /** What download_video decides, given whether ffmpeg was found, the
      outcome of probing the URL's metadata and the clock-based fallback id */
  function Admit(req: Request, ffmpeg: bool, probe: Probe, fallbackId: string): (r: Accepted)
    ensures r.BadRequest? <==> Strip(req.url.GetOr("")) == []
    ensures r.BadRequest? ==> r.error == UrlRequired
    ensures r.ServerError? <==> Strip(req.url.GetOr("")) != [] && probe.ProbeFailed?
    ensures r.ServerError? ==> r.error == probe.message
    ensures r.Started? ==>
      r.url == NormaliseUrl(Strip(req.url.GetOr("")))
      && r.downloadId == probe.info.id.GetOr(fallbackId)
      && r.engine == BackendFormat(req.format.GetOr("video"), req.quality.GetOr("best"), ffmpeg)
  {
    var url := Strip(req.url.GetOr(""));
    if url == [] then BadRequest(UrlRequired)
    else
      match probe
      case ProbeFailed(m) => ServerError(m)
      case Probed(info) =>
        Started(info.id.GetOr(fallbackId), NormaliseUrl(url),
                BackendFormat(req.format.GetOr("video"), req.quality.GetOr("best"), ffmpeg))
  }

  /** The answer of get_progress for a registry */
  function Snapshot(reg: map<string, Entry>, id: string): (r: Reply)
    ensures r.NotFound? <==> id !in reg
    ensures r.Found? ==> r.entry == reg[id]
    ensures r.Found? ==> (r.downloadUrl.Some? <==> reg[id].status == Completed && reg[id].filename.Some?)
    ensures r.Found? && r.downloadUrl.Some? ==> r.downloadUrl.value == FileUrl(reg[id].filename.value)
  {
    if id !in reg then NotFound
    else
      var en := reg[id];
      Found(en, if en.status == Completed && en.filename.Some? then Some(FileUrl(en.filename.value)) else None)
  }

  /** The process's progress registry and the endpoints and job that use it */
  class Backend {
    var progress: map<string, Entry>

    constructor()
      ensures progress == map[]
    {
      progress := map[];
    }

    /** The hook create_progress_hook(id) builds, called with one event */
    method ProgressHook(id: string, e: Event, parse: string -> Option<real>)
      modifies this
      ensures progress == Hooked(old(progress), id, e, parse)
    {
      if e.status == "downloading" {
        if e.percent.Some? {
          var value := parse(PercentText(e.percent.value));
          var pv := if value.Some? then value.value else 0.0;
          progress := progress[id := Entry(Downloading, pv, Some(e.speed.GetOr("N/A")),
                                           Some(e.eta.GetOr("N/A")), None, None, None, None)];
        }
      } else if e.status == "finished" {
        progress := progress[id := ProcessingEntry];
      }
    }

    /** download_video: validate, choose the selector, seed the job's entry */
    method Download(req: Request, ffmpeg: bool, probe: Probe, fallbackId: string) returns (r: Accepted)
      modifies this
      ensures r == Admit(req, ffmpeg, probe, fallbackId)
      ensures r.Started? ==> progress == old(progress)[r.downloadId := StartingEntry]
      ensures !r.Started? ==> progress == old(progress)
    {
      var url := Strip(req.url.GetOr(""));
      if url == [] {
        return BadRequest(UrlRequired);
      }
      url := NormaliseUrl(url);
      var engine := BackendFormat(req.format.GetOr("video"), req.quality.GetOr("best"), ffmpeg);
      if probe.ProbeFailed? {
        return ServerError(probe.message);
      }
      var downloadId := probe.info.id.GetOr(fallbackId);
      progress := progress[downloadId := StartingEntry];
      r := Started(downloadId, url, engine);
    }

    /** The end of download_video_task: record where the file went, or why it failed */
    method Finalise(id: string, outcome: Outcome, fs: FileSystem)
      modifies this
      ensures id in old(progress) ==> progress == old(progress)[id := Finalised(old(progress)[id], outcome, fs)]
      ensures id !in old(progress) ==> progress == old(progress)
    {
      if id !in progress {
        return;
      }
      match outcome {
        case Raised(msg) =>
          progress := progress[id := progress[id].(status := Failed)];
          progress := progress[id := progress[id].(error := Some(msg))];
        case Extracted(title, predicted) =>
          var filename := ResolveArtifact(predicted, title.GetOr("video"), fs);
          if filename.Some? && Exists(fs, filename.value) {
            progress := progress[id := progress[id].(status := Completed)];
            progress := progress[id := progress[id].(filename := Some(Basename(filename.value)))];
            progress := progress[id := progress[id].(title := Some(title.GetOr("Unknown")))];
          } else {
            progress := progress[id := progress[id].(status := Failed)];
            progress := progress[id := progress[id].(error := Some(NotFoundAfterDownload))];
          }
      }
    }

    /** download_video_task: the engine's events reach the hook in order, then the job finalises */
    method RunJob(id: string, events: seq<Event>, outcome: Outcome, fs: FileSystem, parse: string -> Option<real>)
      modifies this
      ensures progress == FinishJob(old(progress), id, events, outcome, fs, parse)
    {
      var i := 0;
      while i < |events|
        invariant 0 <= i <= |events|
        invariant progress == ApplyEvents(old(progress), id, events[..i], parse)
      {
        assert events[..i + 1][..i] == events[..i];
        ProgressHook(id, events[i], parse);
        i := i + 1;
      }
      assert events[..|events|] == events;
      Finalise(id, outcome, fs);
    }

    /** get_progress: a read that leaves the registry as it is */
    method GetProgress(id: string) returns (r: Reply)
      ensures r == Snapshot(progress, id)
    {
      if id in progress {
        var en := progress[id];
        if en.status == Completed && en.filename.Some? {
          r := Found(en, Some(FileUrl(en.filename.value)));
        } else {
          r := Found(en, None);
        }
      } else {
        r := NotFound;
      }
    }
  }

  /** The hook of one job never touches another job's entry */
  lemma {:induction false} EventsIsolated(reg: map<string, Entry>, id: string, events: seq<Event>,
                                          parse: string -> Option<real>, other: string)
    requires other != id
    ensures other in ApplyEvents(reg, id, events, parse) <==> other in reg
    ensures other in reg ==> ApplyEvents(reg, id, events, parse)[other] == reg[other]
    decreases |events|
  {
    if events != [] {
      EventsIsolated(reg, id, events[..|events| - 1], parse, other);
    }
  }

  /** Hooks never finish a job: a terminal entry after the events is the
      entry that was already there, untouched */
  lemma {:induction false} EventsNeverTerminal(reg: map<string, Entry>, id: string, events: seq<Event>,
                                               parse: string -> Option<real>)
    requires id in ApplyEvents(reg, id, events, parse)
    requires ApplyEvents(reg, id, events, parse)[id].status.Terminal()
    ensures id in reg && ApplyEvents(reg, id, events, parse)[id] == reg[id]
    decreases |events|
  {
    if events != [] {
      var before := ApplyEvents(reg, id, events[..|events| - 1], parse);
      assert HookEntry(events[|events| - 1], parse).None?;
      EventsNeverTerminal(reg, id, events[..|events| - 1], parse);
    }
  }

  /** Once seeded, an entry stays in the registry whatever events arrive */
  lemma {:induction false} EventsKeepEntry(reg: map<string, Entry>, id: string, events: seq<Event>,
                                           parse: string -> Option<real>)
    requires id in reg
    ensures id in ApplyEvents(reg, id, events, parse)
    decreases |events|
  {
    if events != [] {
      EventsKeepEntry(reg, id, events[..|events| - 1], parse);
    }
  }

  /** The entry reflects the last event that wrote one; events the hook ignores change nothing */
  lemma LastWriteWins(reg: map<string, Entry>, id: string, events: seq<Event>, e: Event,
                      parse: string -> Option<real>)
    ensures HookEntry(e, parse).Some? ==>
      ApplyEvents(reg, id, events + [e], parse)[id] == HookEntry(e, parse).value
    ensures HookEntry(e, parse).None? ==>
      ApplyEvents(reg, id, events + [e], parse) == ApplyEvents(reg, id, events, parse)
  {
    assert (events + [e])[..|events + [e]| - 1] == events;
  }

  /** A seeded job always ends completed or failed, and no other job's entry moves */
  lemma JobEndsTerminal(reg: map<string, Entry>, id: string, events: seq<Event>, outcome: Outcome,
                        fs: FileSystem, parse: string -> Option<real>)
    requires id in reg
    ensures id in FinishJob(reg, id, events, outcome, fs, parse)
    ensures FinishJob(reg, id, events, outcome, fs, parse)[id].status.Terminal()
    ensures forall other :: other != id && other in reg ==>
      other in FinishJob(reg, id, events, outcome, fs, parse)
      && FinishJob(reg, id, events, outcome, fs, parse)[other] == reg[other]
  {
    EventsKeepEntry(reg, id, events, parse);
    forall other | other != id && other in reg
      ensures other in FinishJob(reg, id, events, outcome, fs, parse)
      ensures FinishJob(reg, id, events, outcome, fs, parse)[other] == reg[other]
    {
      EventsIsolated(reg, id, events, parse, other);
    }
  }

  /** A job whose last event was 'finished' keeps progress 95 when it completes */
  lemma CompletedKeepsLastProgress(reg: map<string, Entry>, id: string, events: seq<Event>, e: Event,
                                   outcome: Outcome, fs: FileSystem, parse: string -> Option<real>)
    requires e.status == "finished"
    ensures FinishJob(reg, id, events + [e], outcome, fs, parse)[id].progress == 95.0
  {
    LastWriteWins(reg, id, events, e, parse);
  }

  /** When the directory is consistent and a listed name contains the title,
      the job completes even if every predicted name is wrong, and the poll
      offers that name for download */
  lemma ScanCompletesJob(reg: map<string, Entry>, id: string, events: seq<Event>, title: Option<string>,
                         predicted: string, fs: FileSystem, parse: string -> Option<real>, k: nat)
    requires id in reg && Consistent(fs)
    requires k < |fs.listing| && Contains(fs.listing[k], title.GetOr("video"))
    ensures id in FinishJob(reg, id, events, Extracted(title, predicted), fs, parse)
    ensures FinishJob(reg, id, events, Extracted(title, predicted), fs, parse)[id].status == Completed
    ensures Snapshot(FinishJob(reg, id, events, Extracted(title, predicted), fs, parse), id).downloadUrl.Some?
  {
    EventsKeepEntry(reg, id, events, parse);
    ListedTitleResolves(predicted, title.GetOr("video"), fs, k);
    var hooked := ApplyEvents(reg, id, events, parse);
    assert Finalised(hooked[id], Extracted(title, predicted), fs).status == Completed;
  }
}
