# Video downloader back ends in Dafny

This project models the server side of a video downloader. The repository has
three back ends, and each one sits in front of the yt-dlp extraction engine:

- `backend/app.py` is a Flask service. `download_video` checks the request,
  picks a yt-dlp format selector, asks the engine for the video id, seeds a
  progress entry with `starting`, and starts a background job.
  `download_video_task` runs the engine with a progress hook. It then looks
  for the produced file, first among the candidate extensions and then by
  scanning the downloads directory for the title, and ends the entry as
  `completed` or `error`. `get_progress` answers polls and adds a
  `download_url` once a job has completed. `get_formats` lists the formats
  of a video.
- `Flutter-App/backend/app.py` is the synchronous variant. Its single
  global hook writes progress under the engine's video id. Its
  `download_video` blocks until the engine's download returns. It then
  looks for the file, and answers with the file's name and download URL, or
  with a 500 "File not found after download" when no file is there.
- `youtube_downloder/backend/services/video_service.py` is the metadata
  service. `get_video_info` returns the title, the thumbnail and a processed
  format list. `_process_formats` builds that list: muxed formats sorted by
  height, then audio-only formats sorted by bitrate, one entry per distinct
  non-zero key, and a fallback entry when nothing qualifies.

Modules:

- `Common` models the Python string and path builtins the code relies on:
  `strip`, `replace`, substring `in`, `rsplit('.', 1)[0]`,
  `os.path.basename`, `os.path.join`, `str(int)` and `int(float)`.
- `Media` holds the engine's format and info dictionaries, and the
  muxed/audio-only split.
- `Selectors` holds the yt-dlp selector strings as structured values, with
  their rendering.
- `Artifacts` holds the search for the downloaded file.
- `Jobs` holds the progress registry entries shared by both Flask apps.
- `BackendApp`, `FlutterApp` and `VideoService` hold the endpoints
  themselves.
- `FormatListing` holds `get_formats`. The Flask back end and the Flutter
  back end contain the same code for it (`backend/app.py:135-188` and
  `Flutter-App/backend/app.py:83-136`).

The registries are classes. The dictionary becomes a `map` field that the
hook and endpoint methods update. The loops of the source are methods with
invariants, and each method is proved equal to a specification function.
The lemmas state the properties of those functions.

A completed job keeps the progress of its last event. `download_video_task`
sets only `status`, `filename` and `title` when it completes a job, so the
entry keeps the 95 that the `finished` event wrote.
`BackendApp.CompletedKeepsLastProgress` states this.

## Model

| member | source | states |
|---|---|---|
| Common.Strip | backend/app.py:195 | the result is the input with leading and trailing whitespace cut off (every character str.isspace() accepts, ASCII and Unicode); neither end of a non-empty result is whitespace |
| Common.StripAllSpace | backend/app.py:195-201 | a string of whitespace alone strips to the empty string |
| Common.StripLeadingSpace | Flutter-App/backend/app.py:25 | a leading whitespace character makes no difference to the stripped text |
| Common.StripPadded | Flutter-App/backend/app.py:25 | text with no whitespace at either end comes back unchanged from strip() however much whitespace, ASCII or Unicode, surrounds it |
| Common.StripIdempotent | backend/app.py:27 | stripping twice gives what stripping once gives |
| Common.RemoveAll | backend/app.py:27 | no '%' is left; every other character keeps its count; an input without '%' is returned as is |
| Common.RemoveAllAppend | backend/app.py:27 | removal distributes over concatenation, so the kept characters stay in their order |
| Common.Contains | backend/app.py:77 | the title test is true exactly when the title occurs at some position of the file name |
| Common.Stem | backend/app.py:61-64 | the result is the text before the last '.'; without a '.' it is the whole path |
| Common.Basename | backend/app.py:83 | the result is the suffix after the last '/', with no '/' in it |
| Common.BasenameOfJoin | backend/app.py:76-83 | the basename of a listed file joined to the downloads directory is the listed name again |
| Common.NatToStringValue | youtube_downloder/backend/services/video_service.py:65 | the decimal digits printed for n denote n |
| Common.IntToString | youtube_downloder/backend/services/video_service.py:65 | str(int) is a '-' followed by at least one digit for negatives, and digits only otherwise |
| Common.IntToStringInjective | youtube_downloder/backend/services/video_service.py:65 | two different integers never print alike |
| Common.Trunc | youtube_downloder/backend/services/video_service.py:83 | int(abr) truncates toward zero: it is the integer at most 1 below a non-negative input, or at most 1 above a negative one |
| Media.FormatKindsDisjoint | backend/app.py:158-172 | no format is both muxed and audio-only; a format is neither exactly when its acodec is 'none' |
| Media.Filter | youtube_downloder/backend/services/video_service.py:53-59 | the kept formats are exactly the inputs satisfying the test, and there are no more of them than inputs |
| Media.FilterSnoc | youtube_downloder/backend/services/video_service.py:53-59 | one more format extends the kept list by that format exactly when it passes the test |
| Media.FilterDisjointBound | youtube_downloder/backend/services/video_service.py:53-59 | the two partition lists together are no longer than the input |
| Selectors.BackendFormat | backend/app.py:245-272 | the selector always ends in the bare 'best' fallback; the mp3/192 post-processor is attached exactly for audio with ffmpeg; a merging alternative appears exactly for video with ffmpeg, and only after all progressive ones; a quality other than 'best' bounds the height of every alternative before the 'best' fallback |
| Selectors.BackendAudioText | backend/app.py:245-258 | the audio selectors print as 'bestaudio/best' with ffmpeg and 'bestaudio[ext=m4a]/bestaudio/best' without |
| Selectors.BackendVideoText | backend/app.py:259-272 | the four video selectors print exactly as the source's strings, with '[height<=q]' after each head when a quality is given |
| Selectors.FlutterFormat | Flutter-App/backend/app.py:157-170 | audio always gets the mp3/192 post-processor; video first tries a merge, bounded by the quality when one is given; the later alternatives are unbounded, do not merge, and end in 'best' |
| Selectors.FlutterSelectorText | Flutter-App/backend/app.py:157-170 | the Flutter selectors print exactly as the source's strings |
| Artifacts.Candidates | backend/app.py:59-65 | the predicted path comes first, then its stem with .mp3, .m4a, .mp4 and .webm |
| Artifacts.FirstExisting | backend/app.py:67-71 | none is found exactly when no candidate exists; otherwise the result is a candidate that exists |
| Artifacts.FirstContaining | backend/app.py:74-79 | none is found exactly when no listed name contains the title; otherwise the index names an entry that contains it |
| Artifacts.Scan | backend/app.py:73-79 | none exactly when no listed name contains the title; otherwise the downloads directory joined to the first listed name that does |
| Artifacts.Resolve | backend/app.py:58-79 | when some candidate exists the result is an existing candidate; when none does it is the scan's result |
| Artifacts.FindExisting | backend/app.py:67-71 | the loop returns the first candidate that exists |
| Artifacts.ScanListing | backend/app.py:73-79 | the loop returns the downloads directory joined to the first listed name that contains the title |
| Artifacts.ResolveArtifact | backend/app.py:58-79 | the file found is the first existing candidate, or else the result of the directory scan |
| Artifacts.CandidateWins | backend/app.py:67-71 | the earliest existing candidate is the answer, whatever the directory holds |
| Artifacts.ScanWhenNoCandidate | backend/app.py:73-79 | when no candidate exists, the answer is the scan's |
| Artifacts.ScanHitExists | backend/app.py:76-78 | in a consistent file system the scan finds a file exactly when some listed name contains the title, and the file it finds exists |
| Artifacts.ListedTitleResolves | backend/app.py:58-81 | when a listed name contains the title, the search ends on an existing file |
| Artifacts.EmptyTitleTakesFirst | backend/app.py:75-79 | an empty title matches the first listed file |
| Artifacts.StemOfSwapped | backend/app.py:61-64 | stem + '.' + ext has that stem again |
| Artifacts.SwappedCandidatesShareStem | backend/app.py:61-64 | every extension-swapped candidate has the predicted path's stem |
| Jobs.NamesDistinct | backend/app.py:32-43 | the status strings of different states differ |
| Jobs.PercentText | backend/app.py:27 | the cleaned percent text holds no '%' and is no longer than the engine's text |
| Jobs.FileUrl | backend/app.py:328 | the download URL is '/api/file/' followed by the file name |
| Jobs.FileUrlInjective | backend/app.py:328 | different files get different download URLs |
| BackendApp.HookEntry | backend/app.py:23-43 | a 'downloading' event with a percent writes status downloading, the parsed percent or 0, and speed and eta defaulting to 'N/A'; 'finished' writes processing, 95 and the processing message; the downloading entry is a fresh dict with no message, filename, title or error, so a later 'downloading' event drops the processing message; every other event writes nothing; no written entry is terminal |
| BackendApp.Hooked | backend/app.py:21-44 | a hook changes only its own job's entry and never removes one |
| BackendApp.ApplyEvents | backend/app.py:21-44 | the hooks of a job never remove an entry and add none but the job's own |
| BackendApp.Finalised | backend/app.py:81-90 | the job ends completed or error; completed exactly when the engine returned and the file found exists, and then with that file's basename and the title or 'Unknown'; error carries the exception text or 'File not found after download'; progress, speed, eta and message are kept |
| BackendApp.FinishJob | backend/app.py:80-90 | the finished registry has the same ids as after the hooks; the job's entry, when present, is terminal; every other entry is as the hooks left it; with the entry gone, the KeyError leaves the registry as the hooks left it |
| BackendApp.NormaliseUrl | backend/app.py:203-205 | the result starts with http:// or https://; a URL that already does is returned unchanged, and any other gets 'https://' put in front |
| BackendApp.NormaliseUrlIdempotent | backend/app.py:203-205 | normalising twice is normalising once |
| BackendApp.Admit | backend/app.py:193-283 | 400 exactly when the stripped URL is empty; 500 exactly when the URL is given and the metadata probe fails, with the probe's exception text as its error; otherwise the job starts with the normalised URL, the engine's id or the clock fallback, and the selector BackendFormat chooses |
| BackendApp.BlankUrlRejected | backend/app.py:195-201 | a URL made only of whitespace, Unicode spaces included, is answered 400 'URL is required' |
| BackendApp.Snapshot | backend/app.py:321-331 | not_found exactly when the id is unknown; otherwise a copy of the entry, with a download_url exactly when it is completed and has a filename |
| BackendApp.Backend.constructor | backend/app.py:18 | the registry starts empty |
| BackendApp.Backend.ProgressHook | backend/app.py:23-43 | the registry after a hook call is Hooked applied to the one before |
| BackendApp.Backend.Download | backend/app.py:190-296 | the answer is Admit's, and an accepted job is seeded with status starting and progress 0 while every other entry is unchanged |
| BackendApp.Backend.Finalise | backend/app.py:81-90 | the job's entry becomes Finalised of its old entry, and nothing else changes |
| BackendApp.Backend.RunJob | backend/app.py:46-90 | after the hooks and the finalisation, the registry is the events applied in order and then finalised |
| BackendApp.Backend.GetProgress | backend/app.py:321-331 | the poll answers the Snapshot of the registry |
| BackendApp.EventsIsolated | backend/app.py:21-44 | a job's events leave the other jobs' entries as they were |
| BackendApp.EventsNeverTerminal | backend/app.py:25-43 | the hooks alone never make an entry completed or error |
| BackendApp.EventsKeepEntry | backend/app.py:32-43 | an entry, once seeded, stays in the registry while events arrive |
| BackendApp.LastWriteWins | backend/app.py:32-43 | the last writing event decides the entry, and a non-writing event changes nothing |
| BackendApp.JobEndsTerminal | backend/app.py:81-90 | every job of a seeded id ends completed or error, and other jobs are untouched |
| BackendApp.CompletedKeepsLastProgress | backend/app.py:38-84 | after a final 'finished' event the finished job reports progress 95, not 100 |
| BackendApp.ScanCompletesJob | backend/app.py:73-84 | when a listed file contains the title, the job completes and the poll offers a download_url |
| FlutterApp.HookStep | Flutter-App/backend/app.py:20-38 | the hook writes under the info id or 'unknown'; it writes nothing for other statuses or a missing percent; it raises exactly when the percent text is not 'Unknown' and does not parse; 'Unknown' gives progress 0 and any other text its parsed value, with speed and eta defaulting to 'N/A' and no message, filename, title or error; 'finished' writes status finished, 100 and the filename or '', with no speed, eta, message, title or error |
| FlutterApp.RunHooks | Flutter-App/backend/app.py:20-38 | the hooks never remove an entry |
| FlutterApp.RaiseHasCause | Flutter-App/backend/app.py:24-28 | a raise is always the percent text of one event whose hook raised |
| FlutterApp.PaddedUnknownCountsZero | Flutter-App/backend/app.py:25-28 | a percent text that strips to 'Unknown' writes progress 0 instead of raising |
| FlutterApp.SpacedUnknownCountsZero | Flutter-App/backend/app.py:25-28 | 'Unknown' with any whitespace before and after it, a no-break space included, writes progress 0 |
| FlutterApp.Predicted | Flutter-App/backend/app.py:176-180 | for audio the expected file is the stem with .mp3; otherwise it is the engine's path |
| FlutterApp.Located | Flutter-App/backend/app.py:176-188 | the expected file if it exists; else the first listed file containing the title; else the expected file again |
| FlutterApp.LocateFile | Flutter-App/backend/app.py:176-188 | the assignment of the predicted name and the listing loop that breaks at the first name containing the title leave exactly Located's path |
| FlutterApp.Answer | Flutter-App/backend/app.py:138-201 | 400 exactly when the URL is missing or empty; a hook's float error gives 500; an engine exception gives 500 with its text; success only when the engine returned, and then exactly when the located file exists, with its basename, the title or 'Unknown', and its download URL; otherwise 500 'File not found after download' |
| FlutterApp.FlutterBackend.constructor | Flutter-App/backend/app.py:18 | the registry starts empty |
| FlutterApp.FlutterBackend.ProgressHook | Flutter-App/backend/app.py:20-38 | a write updates one key; a raise or a non-writing event leaves the registry unchanged |
| FlutterApp.FlutterBackend.RunEvents | Flutter-App/backend/app.py:20-38 | the engine calls the hook with each event until one raises; the registry and the raised text are then exactly RunHooks's |
| FlutterApp.FlutterBackend.Download | Flutter-App/backend/app.py:138-201 | the answer is Answer of the hooks' outcome; the registry is the hooks applied until the first raise; the engine gets FlutterFormat's selector |
| FlutterApp.FlutterBackend.GetProgress | Flutter-App/backend/app.py:219-225 | not_found exactly when the id is unknown; otherwise the entry as stored, with no download_url |
| FlutterApp.RaisedSticks | Flutter-App/backend/app.py:173-174 | once a hook raises, the rest of the download changes nothing |
| FlutterApp.NonNumericPercentFails | Flutter-App/backend/app.py:24-31 | a percent text that is neither a number nor 'Unknown' makes the request fail with the float error |
| FlutterApp.AudioAnswersMp3 | Flutter-App/backend/app.py:177-196 | an audio download whose .mp3 exists answers with that file |
| FlutterApp.ScanRescuesDownload | Flutter-App/backend/app.py:182-196 | when a listed file contains the title, the download succeeds |
| FormatListing.MuxedKey | backend/app.py:159 | the quality key is format_note when present, else height, else 'unknown' |
| FormatListing.Emitted | backend/app.py:158-180 | a format is listed only when muxed or audio-only; every audio-only format is; a muxed one exactly when no earlier muxed format has its key |
| FormatListing.Describe | backend/app.py:158-180 | a muxed format lists its id, its ext or 'mp4', its key as text, 'WxH' with 0 for missing sides, and type video; an audio format lists its ext or 'm4a', '<abr>kbps' or 'audio', and type audio; the filesize is 0 when missing |
| FormatListing.Shape | backend/app.py:153-180 | the list is never longer than the engine's format list |
| FormatListing.ShapeFormats | backend/app.py:153-180 | the loop with its seen-set builds the listing Shape defines |
| FormatListing.Cap | backend/app.py:184 | the answer is the first min(10, n) entries |
| FormatListing.Answer | backend/app.py:135-188 | 400 exactly when the URL is missing or empty; 500 exactly when the probe fails; otherwise the title or 'Unknown' and the first ten listed formats; the 400 error is 'URL is required' and the 500 error is the probe's exception text |
| FormatListing.GetFormats | backend/app.py:135-188 | the endpoint answers Answer |
| FormatListing.VideoCount | backend/app.py:158-169 | there is one video entry per distinct quality key |
| FormatListing.AudioCountKept | backend/app.py:172-180 | every audio-only format is listed, duplicates included |
| FormatListing.ShapeLength | backend/app.py:153-180 | the listing's length is the number of distinct muxed keys plus the number of audio-only formats |
| FormatListing.ShapePrefix | backend/app.py:153-184 | the listing of a prefix of the formats is a prefix of the full listing, so the ten kept are the earliest ones |
| FormatListing.EmittedKeysDistinct | backend/app.py:159-169 | two listed muxed formats never share a quality key |
| FormatListing.EveryKeyListed | backend/app.py:159-169 | every muxed format's key is listed, by the first format that carries it |
| VideoService.InsertDesc | youtube_downloder/backend/services/video_service.py:62 | inserting keeps every format: the result is the input plus the one inserted |
| VideoService.SortDesc | youtube_downloder/backend/services/video_service.py:62 | the sort is a permutation of its input |
| VideoService.InsertKeepsSorted | youtube_downloder/backend/services/video_service.py:62 | inserting into a descending list keeps it descending |
| VideoService.SortDescSorted | youtube_downloder/backend/services/video_service.py:62 | the sort's output is in descending key order |
| VideoService.SortStable | youtube_downloder/backend/services/video_service.py:62 | the sort is stable: formats with equal keys keep their engine order |
| VideoService.Dedup | youtube_downloder/backend/services/video_service.py:63-76 | the seen-set pass never takes more formats than it is given |
| VideoService.DedupMembers | youtube_downloder/backend/services/video_service.py:63-76 | every taken format is one whose key is non-zero and not seen before it |
| VideoService.DedupStrictlyDecreasing | youtube_downloder/backend/services/video_service.py:62-76 | on sorted input the taken keys strictly decrease |
| VideoService.DedupCovers | youtube_downloder/backend/services/video_service.py:63-76 | every non-zero key of the input is taken, at or before its first occurrence |
| VideoService.FirstSeenWins | youtube_downloder/backend/services/video_service.py:62-76 | the format taken for a key is the first format with that key in the engine's order |
| VideoService.SweepIsDedup | youtube_downloder/backend/services/video_service.py:62-92 | the loop's state (entries taken, keys seen) equals the declarative pass and its seen keys |
| VideoService.EntriesDescribe | youtube_downloder/backend/services/video_service.py:69-91 | each entry is built from the format at the same position |
| VideoService.ProcessFormatsSpec | youtube_downloder/backend/services/video_service.py:45-105 | the result is no longer than the input, and it is empty exactly when the input is empty |
| VideoService.VideoBeforeAudio | youtube_downloder/backend/services/video_service.py:61-92 | every video entry comes before every audio entry |
| VideoService.Partition | youtube_downloder/backend/services/video_service.py:53-59 | the partition loop yields the muxed formats and the audio-only formats, each in the engine's order |
| VideoService.AppendVideos | youtube_downloder/backend/services/video_service.py:62-76 | the video loop appends one entry per format the seen-set pass takes by height |
| VideoService.AppendAudios | youtube_downloder/backend/services/video_service.py:79-92 | the audio loop appends one entry per format the seen-set pass takes by bitrate |
| VideoService.ProcessFormats | youtube_downloder/backend/services/video_service.py:45-105 | the method builds the list ProcessFormatsSpec defines |
| VideoService.VideoOrder | youtube_downloder/backend/services/video_service.py:62-76 | the video entries have strictly decreasing heights; each is a muxed format of non-zero height, the first of its height |
| VideoService.VideoCoverage | youtube_downloder/backend/services/video_service.py:62-76 | every non-zero height among the muxed formats gets an entry |
| VideoService.DedupContainsPicked | youtube_downloder/backend/services/video_service.py:64 | a format with a new non-zero key is taken |
| VideoService.AudioOrder | youtube_downloder/backend/services/video_service.py:79-92 | the audio entries have strictly decreasing bitrates; each is an audio-only format of non-zero bitrate, the first of its bitrate |
| VideoService.SizeOf | youtube_downloder/backend/services/video_service.py:73 | the size is 'filesize' when present and non-zero, else 'filesize_approx' or 0 |
| VideoService.VideoLabel | youtube_downloder/backend/services/video_service.py:65-67 | the label starts with '<height>p', is exactly that when fps is missing or zero, and otherwise continues with ' <fps>fps' |
| VideoService.AudioLabel | youtube_downloder/backend/services/video_service.py:83 | the label ends in 'kbps'; for a non-negative bitrate what precedes it is decimal digits whose value is int(abr) |
| VideoService.VideoEntry | youtube_downloder/backend/services/video_service.py:69-75 | type 'video', the format's id, its VideoLabel, its SizeOf, and ext defaulting to 'mp4' |
| VideoService.AudioEntry | youtube_downloder/backend/services/video_service.py:85-91 | type 'audio', the format's id, its AudioLabel, its SizeOf, and ext defaulting to 'mp3' |
| VideoService.AudioLabelNamesBitrate | youtube_downloder/backend/services/video_service.py:83 | equal audio labels mean equal integer parts of the bitrate |
| VideoService.Fallback | youtube_downloder/backend/services/video_service.py:96-103 | the fallback entry has quality 'best' and type video, with the last format's id, size and ext or 'mp4' |
| VideoService.FallbackWhenEmpty | youtube_downloder/backend/services/video_service.py:94-103 | a non-empty list with no muxed format of non-zero height and no audio-only format of non-zero bitrate gives the single fallback entry of its last format |
| VideoService.PickedFrom | youtube_downloder/backend/services/video_service.py:53-92 | every format that gets an entry comes from the input, has the right kind and a non-zero key |
| VideoService.AudioCoverage | youtube_downloder/backend/services/video_service.py:79-92 | every non-zero bitrate among the audio-only formats gets an entry |
| VideoService.VideoLabelNamesHeight | youtube_downloder/backend/services/video_service.py:65-67 | equal video labels mean equal heights |
| VideoService.AudioLabelsMayRepeat | youtube_downloder/backend/services/video_service.py:82-83 | two distinct bitrates with the same integer part both get entries, with the same label |
| VideoService.ChooseThumbnail | youtube_downloder/backend/services/video_service.py:23-28 | 'thumbnail' when present, else the url of the last thumbnail of a non-empty list (none when that url is missing, the KeyError), else '' |
| VideoService.ThumbnailProvenance | youtube_downloder/backend/services/video_service.py:23-28 | the choice raises only when 'thumbnail' is absent and the last of a non-empty 'thumbnails' list has no 'url'; otherwise it is '', the info's 'thumbnail', or the 'url' of one of its thumbnails |
| VideoService.GetVideoInfo | youtube_downloder/backend/services/video_service.py:18-43 | a failed probe gives its message after 'Failed to fetch video info: '; a last thumbnail without 'url' fails with "'url'"; otherwise an entry without format_id fails with "'format_id'"; when every entry has one the answer is the title or 'Unknown', the chosen thumbnail and the processed formats |

## Left out

- The yt-dlp engine is not modelled. Its calls (`extract_info`, `prepare_filename`) are inputs: a probe result, a predicted path, a title, and a sequence of progress events.
- Threads and the `download_tasks` dictionary are left out. A job's events and finalisation are applied as one sequence, so interleavings with concurrent polls are not modelled.
- The ffmpeg probe is left out. Its `subprocess.run` calls on the candidate paths, and the `ffmpeg_location` option they set, become one boolean input.
- Clock, float parsing and number printing are inputs. `time.time()` becomes a fallback id, `float(percent)` a partial parser, and printing a float bitrate or fps a rendering function.
- The `duration` option and its `download_ranges` lambda are left out. They only configure the engine.
- `format_filesize` and `format_duration` come from utility code that is not part of this model. The processed entries keep the raw size argument, and the duration field is not produced.
- The fixed yt-dlp options are left out. These are the output template, retries, user agent and quiet flags.
- Flask routing and JSON encoding are left out. So are `index`, `health_check`, `get_file`, `/api/info`, the `db_manager` and `download_service` modules, and the tests.
- Dictionary keys present with a `None` value are not distinguished from missing keys. The model's `Option` fields cover presence or absence only.
- Exception texts are modelled only where the source writes them itself. The error of a rejected `float(percent)` in the Flutter hook is kept as the rejected text (`FloatRejected`), not as Python's ValueError message. A request body that is not JSON is not a separate case.
- `get_video_info` and `_process_formats` are modelled as functions of their inputs. The service object's `ydl_opts` are not modelled.
- VideoService.Dedup: its own contract gives only the length bound. Membership and first-occurrence facts are stated in the lemmas `DedupMembers`, `FirstSeenWins` and `DedupCovers`.
