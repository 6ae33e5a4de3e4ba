/** The synchronous back end (Flutter-App/backend/app.py): one module-level
    progress hook keyed by the id in the event's info dict, and a download
    endpoint that runs the engine to completion, finds the file and answers
    with its name and download path. */
module FlutterApp {
  import opened Common
  import opened Selectors
  import opened Artifacts
  import opened Jobs

  const NotFoundAfterDownload := "File not found after download"
  const UrlRequired := "URL is required"

  /** What progress_hook does with one event: nothing, write one entry, or
      raise because float() rejected the percent text */
  datatype HookResult = Unchanged | Writes(key: string, entry: Entry) | Raises(text: string)

  /** progress_hook: entries are keyed by info_dict.id (default 'unknown');
      the percent text 'Unknown' counts as 0, any other text the parser
      rejects raises; 'finished' records progress 100 and the file name */
  function HookStep(e: Event, parse: string -> Option<real>): (r: HookResult)
    ensures r.Writes? ==> r.key == e.infoId.GetOr("unknown")
    ensures r.Unchanged? <==>
      (e.status != "downloading" && e.status != "finished") || (e.status == "downloading" && e.percent.None?)
    ensures r.Raises? <==>
      e.status == "downloading" && e.percent.Some? && PercentText(e.percent.value) != "Unknown"
      && parse(PercentText(e.percent.value)).None?
    ensures r.Raises? ==> r.text == PercentText(e.percent.value)
    ensures r.Writes? && e.status == "downloading" ==>
      r.entry.status == Downloading
      && r.entry.speed == Some(e.speed.GetOr("N/A")) && r.entry.eta == Some(e.eta.GetOr("N/A"))
      && (PercentText(e.percent.value) == "Unknown" ==> r.entry.progress == 0.0)
      && (PercentText(e.percent.value) != "Unknown" ==> r.entry.progress == parse(PercentText(e.percent.value)).value)
      && r.entry.message.None? && r.entry.filename.None? && r.entry.title.None? && r.entry.error.None?
    ensures r.Writes? && e.status == "finished" ==>
      r.entry.status == Finished && r.entry.progress == 100.0 && r.entry.filename == Some(e.filename.GetOr(""))
      && r.entry.speed.None? && r.entry.eta.None? && r.entry.message.None?
      && r.entry.title.None? && r.entry.error.None?
  {
    var key := e.infoId.GetOr("unknown");
    if e.status == "downloading" then
      match e.percent
      case None => Unchanged
      case Some(p) =>
        var t := PercentText(p);
        var speed := Some(e.speed.GetOr("N/A"));
        var eta := Some(e.eta.GetOr("N/A"));
        if t == "Unknown" then Writes(key, Entry(Downloading, 0.0, speed, eta, None, None, None, None))
        else
          match parse(t)
          case Some(x) => Writes(key, Entry(Downloading, x, speed, eta, None, None, None, None))
          case None => Raises(t)
    else if e.status == "finished" then
      Writes(key, Entry(Finished, 100.0, None, None, None, Some(e.filename.GetOr("")), None, None))
    else Unchanged
  }

  /** A percent text that strips to 'Unknown', however it is padded,
      records progress 0 instead of raising */
  lemma PaddedUnknownCountsZero(e: Event, parse: string -> Option<real>)
    requires e.status == "downloading" && e.percent.Some? && Strip(e.percent.value) == "Unknown"
    ensures HookStep(e, parse).Writes? && HookStep(e, parse).entry.progress == 0.0
  {
    var u := Strip(e.percent.value);
    assert '%' !in u by {
      forall k | 0 <= k < |u|
        ensures u[k] != '%'
      {
      }
    }
    assert PercentText(e.percent.value) == "Unknown";
  }

  /** 'Unknown' with any whitespace around it, ASCII or Unicode, records
      progress 0 */
  lemma SpacedUnknownCountsZero(e: Event, parse: string -> Option<real>, pre: string, post: string)
    requires forall k :: 0 <= k < |pre| ==> IsSpace(pre[k])
    requires forall k :: 0 <= k < |post| ==> IsSpace(post[k])
    requires e.status == "downloading" && e.percent == Some(pre + "Unknown" + post)
    ensures HookStep(e, parse).Writes? && HookStep(e, parse).entry.progress == 0.0
  {
    StripPadded(pre, "Unknown", post);
    PaddedUnknownCountsZero(e, parse);
  }

  /** The registry after the hook has seen events in order, and the text
      of the percent that made it raise, after which the engine stops */
  datatype Run = Run(reg: map<string, Entry>, raised: Option<string>)

  function RunHooks(reg: map<string, Entry>, events: seq<Event>, parse: string -> Option<real>): (r: Run)
    ensures reg.Keys <= r.reg.Keys
  {
    if events == [] then Run(reg, None)
    else Step(RunHooks(reg, events[..|events| - 1], parse), events[|events| - 1], parse)
  }

  /** One more event: none reaches the hook once it has raised */
  function Step(prev: Run, e: Event, parse: string -> Option<real>): (r: Run)
    ensures prev.raised.Some? ==> r == prev
    ensures prev.reg.Keys <= r.reg.Keys
  {
    if prev.raised.Some? then prev
    else
      match HookStep(e, parse)
      case Unchanged => prev
      case Writes(k, en) => Run(prev.reg[k := en], None)
      case Raises(t) => Run(prev.reg, Some(t))
  }

  /** The runs of the first i and i + 1 events differ by one Step */
  lemma RunHooksStep(reg: map<string, Entry>, events: seq<Event>, parse: string -> Option<real>, i: nat)
    requires i < |events|
    ensures RunHooks(reg, events[..i + 1], parse) == Step(RunHooks(reg, events[..i], parse), events[i], parse)
  {
    var next := events[..i + 1];
    assert next[..|next| - 1] == events[..i];
    assert next[|next| - 1] == events[i];
  }

  /** The path download_video predicts: the stem with .mp3 for audio, the engine's own for video */
  function Predicted(kind: string, predicted: string): (r: string)
    ensures kind == "audio" ==> r == Stem(predicted) + ".mp3"
    ensures kind != "audio" ==> r == predicted
  {
    if kind == "audio" then Stem(predicted) + ".mp3" else predicted
  }

  /** The path download_video settles on: the predicted one if it exists,
      else the scan's hit, else still the predicted one */
  function Located(kind: string, predicted: string, title: string, fs: FileSystem): (r: string)
    ensures Exists(fs, Predicted(kind, predicted)) ==> r == Predicted(kind, predicted)
    ensures !Exists(fs, Predicted(kind, predicted)) && Scan(fs, title).Some? ==> r == Scan(fs, title).value
    ensures !Exists(fs, Predicted(kind, predicted)) && Scan(fs, title).None? ==> r == Predicted(kind, predicted)
  {
    var p := Predicted(kind, predicted);
    if Exists(fs, p) then p
    else
      match Scan(fs, title)
      case Some(q) => q
      case None => p
  }

  /** The outcome of the engine's extract_info(url, download=True) call */
  datatype Outcome = Raised(message: string) | Extracted(title: Option<string>, predicted: string)

  /** The 500 answers: an exception's text, or the ValueError float() raises for a percent text */
  datatype Failure = Message(text: string) | FloatRejected(text: string)

  datatype Response =
    | BadRequest(error: string)
    | ServerError(failure: Failure)
    | Success(filename: string, title: string, downloadUrl: string)

  /** The answer of download_video, given what the hooks did and what the engine returned */
  function Answer(req: Request, raised: Option<string>, outcome: Outcome, fs: FileSystem): (r: Response)
    ensures r.BadRequest? <==> req.url.GetOr("") == []
    ensures r.BadRequest? ==> r.error == UrlRequired
    ensures req.url.GetOr("") != [] && raised.Some? ==> r == ServerError(FloatRejected(raised.value))
    ensures r.Success? ==>
      outcome.Extracted? && raised.None?
      && r.title == outcome.title.GetOr("Unknown") && r.downloadUrl == FileUrl(r.filename)
      && r.filename == Basename(Located(req.format.GetOr("video"), outcome.predicted, outcome.title.GetOr("video"), fs))
    ensures req.url.GetOr("") != [] && raised.None? && outcome.Raised? ==>
      r == ServerError(Message(outcome.message))
    ensures req.url.GetOr("") != [] && raised.None? && outcome.Extracted? ==>
      (r.Success? <==>
        Exists(fs, Located(req.format.GetOr("video"), outcome.predicted, outcome.title.GetOr("video"), fs)))
    ensures (req.url.GetOr("") != [] && raised.None? && outcome.Extracted?
             && !Exists(fs, Located(req.format.GetOr("video"), outcome.predicted, outcome.title.GetOr("video"), fs))) ==>
      r == ServerError(Message(NotFoundAfterDownload))
  {
    if req.url.GetOr("") == [] then BadRequest(UrlRequired)
    else if raised.Some? then ServerError(FloatRejected(raised.value))
    else
      match outcome
      case Raised(msg) => ServerError(Message(msg))
      case Extracted(title, predicted) =>
        var path := Located(req.format.GetOr("video"), predicted, title.GetOr("video"), fs);
        if Exists(fs, path) then
          Success(Basename(path), title.GetOr("Unknown"), FileUrl(Basename(path)))
        else ServerError(Message(NotFoundAfterDownload))
  }

  /** The file download_video settles on: the predicted path, else the scan's hit */
  method LocateFile(kind: string, predicted: string, title: string, fs: FileSystem) returns (filename: string)
    ensures filename == Located(kind, predicted, title, fs)
  {
    filename := if kind == "audio" then Stem(predicted) + ".mp3" else predicted;
    if !Exists(fs, filename) {
      var hit := ScanListing(fs, title);
      if hit.Some? {
        filename := hit.value;
      }
    }
  }

  class FlutterBackend {
    var progress: map<string, Entry>

    constructor()
      ensures progress == map[]
    {
      progress := map[];
    }

    /** progress_hook, called with one event; reports the text when float() raises */
    method ProgressHook(e: Event, parse: string -> Option<real>) returns (raised: Option<string>)
      modifies this
      ensures HookStep(e, parse).Writes? ==>
        raised.None? && progress == old(progress)[HookStep(e, parse).key := HookStep(e, parse).entry]
      ensures HookStep(e, parse).Unchanged? ==> raised.None? && progress == old(progress)
      ensures HookStep(e, parse).Raises? ==> raised == Some(HookStep(e, parse).text) && progress == old(progress)
    {
      raised := None;
      match HookStep(e, parse) {
        case Unchanged =>
        case Writes(k, en) =>
          progress := progress[k := en];
        case Raises(t) =>
          raised := Some(t);
      }
    }

    /** The engine's events reaching the hook until one raises */
    method RunEvents(events: seq<Event>, parse: string -> Option<real>) returns (raised: Option<string>)
      modifies this
      ensures Run(progress, raised) == RunHooks(old(progress), events, parse)
    {
      raised := None;
      var i := 0;
      while i < |events| && raised.None?
        invariant 0 <= i <= |events|
        invariant Run(progress, raised) == RunHooks(old(progress), events[..i], parse)
        invariant raised.Some? ==> RunHooks(old(progress), events, parse) == RunHooks(old(progress), events[..i], parse)
      {
        RunHooksStep(old(progress), events, parse, i);
        raised := ProgressHook(events[i], parse);
        i := i + 1;
        if raised.Some? {
          RaisedSticks(old(progress), events, parse, i);
        }
      }
      assert raised.None? ==> events[..i] == events;
    }

    /** download_video: validate, run the engine (its events reach the hook
        until one raises), then locate the file */
    method Download(req: Request, events: seq<Event>, outcome: Outcome, fs: FileSystem,
                    parse: string -> Option<real>) returns (r: Response, engine: EngineFormat)
      modifies this
      ensures req.url.GetOr("") == [] ==> progress == old(progress)
      ensures req.url.GetOr("") != [] ==> progress == RunHooks(old(progress), events, parse).reg
      ensures r == Answer(req, RunHooks(old(progress), events, parse).raised, outcome, fs)
      ensures engine == FlutterFormat(req.format.GetOr("video"), req.quality.GetOr("best"))
    {
      engine := FlutterFormat(req.format.GetOr("video"), req.quality.GetOr("best"));
      var url := req.url.GetOr("");
      if url == [] {
        return BadRequest(UrlRequired), engine;
      }
      var raised := RunEvents(events, parse);
      if raised.Some? {
        return ServerError(FloatRejected(raised.value)), engine;
      }
      match outcome {
        case Raised(msg) =>
          r := ServerError(Message(msg));
        case Extracted(title, predicted) =>
          var filename := LocateFile(req.format.GetOr("video"), predicted, title.GetOr("video"), fs);
          if Exists(fs, filename) {
            r := Success(Basename(filename), title.GetOr("Unknown"), FileUrl(Basename(filename)));
          } else {
            r := ServerError(Message(NotFoundAfterDownload));
          }
      }
    }

    /** get_progress: the stored entry as it is, or not_found */
    method GetProgress(id: string) returns (r: Reply)
      ensures r.NotFound? <==> id !in progress
      ensures r.Found? ==> r.entry == progress[id] && r.downloadUrl.None?
    {
      if id in progress {
        r := Found(progress[id], None);
      } else {
        r := NotFound;
      }
    }
  }

  /** Once a hook has raised, later events change nothing: the engine stopped */
  lemma {:induction false} RaisedSticks(reg: map<string, Entry>, events: seq<Event>,
                                        parse: string -> Option<real>, i: nat)
    requires i <= |events| && RunHooks(reg, events[..i], parse).raised.Some?
    ensures RunHooks(reg, events, parse) == RunHooks(reg, events[..i], parse)
    decreases |events| - i
  {
    if i < |events| {
      RunHooksStep(reg, events, parse, i);
      RaisedSticks(reg, events, parse, i + 1);
    } else {
      assert events[..i] == events;
    }
  }

  /** A raise always carries the percent text of an event whose hook raised */
  lemma {:induction false} RaiseHasCause(reg: map<string, Entry>, events: seq<Event>, parse: string -> Option<real>)
    requires RunHooks(reg, events, parse).raised.Some?
    ensures exists i :: 0 <= i < |events| && HookStep(events[i], parse) == Raises(RunHooks(reg, events, parse).raised.value)
  {
    var last := |events| - 1;
    var prev := events[..last];
    assert RunHooks(reg, events, parse) == Step(RunHooks(reg, prev, parse), events[last], parse);
    if RunHooks(reg, prev, parse).raised.Some? {
      RaiseHasCause(reg, prev, parse);
      var i :| 0 <= i < |prev| && HookStep(prev[i], parse) == Raises(RunHooks(reg, prev, parse).raised.value);
      assert prev[i] == events[i];
    } else {
      assert HookStep(events[last], parse) == Raises(RunHooks(reg, events, parse).raised.value);
    }
  }

  /** The event whose hook raises ends the run with its text */
  lemma RaiseAt(reg: map<string, Entry>, events: seq<Event>, parse: string -> Option<real>, i: nat, t: string)
    requires i < |events| && RunHooks(reg, events[..i], parse).raised.None? && HookStep(events[i], parse) == Raises(t)
    ensures RunHooks(reg, events[..i + 1], parse).raised == Some(t)
  {
    RunHooksStep(reg, events, parse, i);
  }

  /** A percent text float() cannot read fails the whole download with 500,
      whatever the engine would have returned */
  lemma NonNumericPercentFails(reg: map<string, Entry>, req: Request, events: seq<Event>, i: nat,
                               outcome: Outcome, fs: FileSystem, parse: string -> Option<real>)
    requires req.url.GetOr("") != []
    requires i < |events| && RunHooks(reg, events[..i], parse).raised.None?
    requires events[i].status == "downloading" && events[i].percent.Some?
    requires PercentText(events[i].percent.value) != "Unknown" && parse(PercentText(events[i].percent.value)).None?
    ensures Answer(req, RunHooks(reg, events, parse).raised, outcome, fs)
      == ServerError(FloatRejected(PercentText(events[i].percent.value)))
  {
    RaiseAt(reg, events, parse, i, PercentText(events[i].percent.value));
    RaisedSticks(reg, events, parse, i + 1);
  }

  /** An audio download answers with the mp3 next to the predicted file when it exists */
  lemma AudioAnswersMp3(req: Request, title: Option<string>, predicted: string, fs: FileSystem)
    requires req.url.GetOr("") != [] && req.format == Some("audio")
    requires Exists(fs, Stem(predicted) + ".mp3")
    ensures Answer(req, None, Extracted(title, predicted), fs)
      == Success(Basename(Stem(predicted) + ".mp3"), title.GetOr("Unknown"), FileUrl(Basename(Stem(predicted) + ".mp3")))
  {
  }

  /** The scan rescues a download whose predicted file is missing, in a consistent directory */
  lemma ScanRescuesDownload(req: Request, title: Option<string>, predicted: string, fs: FileSystem, k: nat)
    requires req.url.GetOr("") != [] && Consistent(fs)
    requires k < |fs.listing| && Contains(fs.listing[k], title.GetOr("video"))
    ensures Answer(req, None, Extracted(title, predicted), fs).Success?
  {
    ScanHitExists(fs, title.GetOr("video"));
  }
}
