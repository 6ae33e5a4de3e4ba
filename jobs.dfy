/** The progress registry both back ends keep: a dictionary from a job id to
    a small record, written by the engine's progress events and read by the
    polling endpoint. */
module Jobs {
  import opened Common

  /** The 'status' strings an entry can carry */
  datatype Status = Starting | Downloading | Processing | Completed | Failed | Finished {
    function Name(): string {
      match this
      case Starting => "starting"
      case Downloading => "downloading"
      case Processing => "processing"
      case Completed => "completed"
      case Failed => "error"
      case Finished => "finished"
    }

    /** The states a background job ends in */
    predicate Terminal() {
      this == Completed || this == Failed
    }
  }

  /** A client that compares status strings sees six different states */
  lemma NamesDistinct(a: Status, b: Status)
    requires a.Name() == b.Name()
    ensures a == b
  {
    match a
    case Starting =>
    case Downloading =>
      assert a.Name()[0] == 'd';
    case Processing =>
      assert a.Name()[0] == 'p';
    case Completed =>
      assert a.Name()[0] == 'c';
    case Failed =>
      assert a.Name()[0] == 'e';
    case Finished =>
      assert a.Name()[0] == 'f';
  }

  /** A registry entry; each Option is a key the dictionary may lack.
      'progress' holds the int or float the source stores. */
  datatype Entry = Entry(
    status: Status,
    progress: real,
    speed: Option<string>,
    eta: Option<string>,
    message: Option<string>,
    filename: Option<string>,
    title: Option<string>,
    error: Option<string>)

  /** The entry a job is seeded with when it is accepted */
  const StartingEntry := Entry(Starting, 0.0, None, None, None, None, None, None)

  /** A progress dictionary the engine passes to a hook. 'status' is always
      present; the others are the optional keys the hooks read. */
  datatype Event = Event(
    status: string,
    percent: Option<string>,
    speed: Option<string>,
    eta: Option<string>,
    infoId: Option<string>,
    filename: Option<string>)

  /** The engine's percent text with surrounding whitespace and every '%' removed */
  function PercentText(p: string): (r: string)
    ensures '%' !in r && |r| <= |p|
  {
    RemoveAll(Strip(p), '%')
  }

  /** The JSON body of a download request; each Option is a key the body may lack */
  datatype Request = Request(url: Option<string>, format: Option<string>, quality: Option<string>)

  /** The answer of the polling endpoint: {'status': 'not_found'} with 404, or
      the entry, with a 'download_url' key when one is added */
  datatype Reply = NotFound | Found(entry: Entry, downloadUrl: Option<string>)

  /** The path the file-serving endpoint answers for a downloaded file */
  function FileUrl(name: string): (r: string)
    ensures |r| == 10 + |name| && r[..10] == "/api/file/" && r[10..] == name
  {
    "/api/file/" + name
  }

  lemma FileUrlInjective(a: string, b: string)
    requires FileUrl(a) == FileUrl(b)
    ensures a == b
  {
    assert a == FileUrl(a)[10..];
  }
}
