# Media relay: share-page manifest and transfer bookkeeping, in Dafny

This project models two pieces of a media relay.

- **`parser/redbook.py`** turns the client state embedded in a Xiaohongshu
  share page into a `VideoInfo` manifest. It:
  - tells an expired link (note id `"undefined"`) apart from a page without
    state;
  - takes the video from the first h264 stream;
  - rewrites every image onto the `ci.xiaohongshu.com` CDN, probing it with
    `check_resource_link` and falling back from `format/png` to `format/jpg`
    when the probe fails;
  - attaches live-photo clips.
- **`utils/imghub.py`** moves the media of such a manifest to an image host. It:
  - splits the manifest into image and video URLs, unwrapping an optional
    error envelope first;
  - downloads each list with a retrying `download_media`, folding the results
    into a filename-keyed dict;
  - uploads each dict with a retrying `upload_single_file` into
    `img/<author>` or `video/<author>`.

Both files await one network call at a time, so the model is sequential.

Modules:

- `Wrappers`: `Option`, `Result` (for `:-`), and `MapUpTo`, a loop over a
  sequence that stops at the first failing step.
- `Strings`: `str.split` with a one-character separator, `join`, `t in s` and
  `str.replace`, with their characterising lemmas.
- `Values`: the loosely typed payload (`Json`) and the Python accesses the code
  performs: `d[k]`, `d.get(k, default)`, `xs[0]` and truthiness. An exception
  becomes a `Fault`.
- `Retry`: the shape of the three retry loops. `FirstHit` is the first attempt
  that decides the loop, `Tries` is how many attempts run, and the `Spaced` /
  `Immediate` traces record attempts and pauses.
- `Dicts`: a string-keyed Python dict with its insertion order.
- `ImgHub`: `utils/imghub.py`.
- `RedBook`: `parser/redbook.py`.

How the outside world is modelled:

- **The network** is an oracle. `answer(i)` is what attempt `i` meets.
  - A batch gets `answers(k)(i)`: attempt `i` for its `k`-th item.
  - The image pipeline gets one such oracle for each of its four batches.
- **Sleeping** is recorded in the trace, not performed.
- **The share page.** The page download, the regular expression and
  `yaml.safe_load` are replaced by two inputs:
  - the regex capture (`None` when the marker is missing);
  - a loader function from that text to a `Json` value.
- **Library functions.** `urlparse(url).path`, `unquote` and
  `mimetypes.guess_extension` are uninterpreted function parameters
  (`ImgHub.Library`).

The probe oracles of the image loop stand for the server's answers as an
asynchronous transport delivers them; the transport the code actually builds
is discussed under "Findings".

Each loop in the source is a method over a `while`/`for` loop. Each method is
proved equal to a specification function (`DownloadOutcome`, `Collect`,
`UploadCalls`, `PartitionOf`, `ProbeVerdict`, `ImagesUpTo`, `Manifest`), and
the lemmas state what the source promises about those functions.

Four facts about the code that the model follows:

- `check_resource_link` retries only on exceptions. The first response decides
  the result, and a non-200/206 status is not retried.
- The destination folders are `img/` and `video/` followed by the author's name
  as is, with no sanitising.
- Nothing runs concurrently: every download and every upload is awaited before
  the next one starts.
- An upload attempt succeeds on any 2xx status (`raise_for_status`), not only
  on 200/206.

## Model

| member | source | states |
|---|---|---|
| ImgHub.CleanFilename | utils/imghub.py:13-14 | the length is kept; position `i` holds the input character when it is in `[a-zA-Z0-9_.]` and `_` otherwise |
| ImgHub.CleanFilenameProperties | utils/imghub.py:13-14 | the result has only allowed characters; allowed characters stay in place; an already clean name is returned unchanged; cleaning twice equals cleaning once |
| ImgHub.Components | utils/imghub.py:26 | `Path(...)` keeps only path pieces that are neither empty nor `.`, taken from the input; it keeps none exactly when every piece is empty or `.` |
| ImgHub.ComponentsLast | utils/imghub.py:26 | the last component is a piece that is neither empty nor `.` and is followed only by empty or `.` pieces |
| ImgHub.PathName | utils/imghub.py:26 | `Path(urlparse(url).path).name`, the last component or `""`; `PathNameShape` states what it is |
| ImgHub.PathNameShape | utils/imghub.py:26 | `Path(path).name` is `""` exactly when every `/`-separated piece is empty or `.`; otherwise it is the last piece that is neither, so it holds no `/` and is never `.` |
| ImgHub.MimeType | utils/imghub.py:29 | `content_type.split(';')[0]`; `MimeTypeShape` states what it is |
| ImgHub.MimeTypeShape | utils/imghub.py:29 | the media type is the prefix of the Content-Type header before its first `;`, holding no `;` |
| ImgHub.Filename | utils/imghub.py:25-34 | the file name `download_media` gives a successful download; `FilenameShape` states its three cases |
| ImgHub.FilenameShape | utils/imghub.py:26-34 | a cleaned name that contains `.` is kept; otherwise the guessed extension is appended, or `.bin` when none is guessed; the result starts with the cleaned name and is never empty |
| ImgHub.DownloadOutcome | utils/imghub.py:16-46 | what `download_media` returns: the first delivered attempt's content and file name, or nothing; `DownloadFirstSuccess` states when |
| ImgHub.DownloadFirstSuccess | utils/imghub.py:16-46 | nothing is returned exactly when none of the first `retries` attempts gets past `raise_for_status` (always when `retries <= 0`); otherwise the first such attempt gives the content and the file name |
| ImgHub.DownloadMedia | utils/imghub.py:16-46 | the loop returns `DownloadOutcome`; it makes `Tries` attempts back to back, with no pause |
| ImgHub.BatchDownload | utils/imghub.py:48-55 | the dict built in URL order equals the fold `Collect` of the per-URL results |
| Dicts.Dict.Set | utils/imghub.py:54 | `d[k] = v` overwrites the value; a new key goes to the end of the order and an existing key keeps its place |
| ImgHub.CollectSkips | utils/imghub.py:53-54 | a failed or empty download adds nothing |
| ImgHub.CollectKeys | utils/imghub.py:48-55 | a name is a key exactly when some stored download has that file name |
| ImgHub.CollectLastWins | utils/imghub.py:51-54 | a key holds the content of the last download stored under that name |
| ImgHub.Collect | utils/imghub.py:48-55 | the result is a valid dict with no more keys than there are URLs |
| ImgHub.DownloadKept | utils/imghub.py:26-53 | a download is stored exactly when it succeeded with non-empty content, because a derived file name is never empty |
| ImgHub.UploadSingleFile | utils/imghub.py:57-76 | succeeds exactly when some attempt below `retries` is accepted, stopping at the first; it pauses between attempts and never after the last |
| ImgHub.UploadSucceedsIff | utils/imghub.py:57-76 | success iff some attempt `k < retries` gets a 2xx response; `n` attempts pause exactly `n - 1` times; at most `retries` attempts |
| ImgHub.BatchUploadMedia | utils/imghub.py:78-98 | one upload call per dict entry, in `items()` order, none skipped after a failure |
| ImgHub.UploadCallsCover | utils/imghub.py:83-96 | exactly one call per entry, posting that entry's name and content with `uploadFolder`=folder, `serverCompress=false`, `uploadChannel=telegram`, `autoRetry=true` |
| ImgHub.Unwrap | utils/imghub.py:102-103 | a payload with a `code` or `msg` key is replaced by its `data` entry; any other dict is kept |
| ImgHub.Partition | utils/imghub.py:109-119 | the loop's two lists equal `PartitionOf`: image URLs, then live-photo URLs followed by the video URL |
| ImgHub.DecodeItemsPointwise | utils/imghub.py:111-116 | every `images` entry is read, one item per entry, in order |
| ImgHub.ImageUrlsSpec | utils/imghub.py:111-113 | a URL is listed exactly when it is a non-empty `url` field; at most one per entry |
| ImgHub.LiveUrlsSpec | utils/imghub.py:115-116 | a URL is listed exactly when it is a non-empty `live_photo_url` field; at most one per entry |
| ImgHub.VideoUrlsSpec | utils/imghub.py:115-119 | video URLs are the live-photo URLs plus the non-empty `video_url`, at most one more than the entries |
| ImgHub.UrlsAppend | utils/imghub.py:111-116 | input order is kept: the URLs of two runs of entries are concatenated in order |
| ImgHub.UrlField | utils/imghub.py:109-116 | `d.get(key, '')` for a URL field, a fault when the value is not a string |
| ImgHub.MediaPlan | utils/imghub.py:100-119 | the author name, the `video_url` and the two URL lists, read in the code's order, before any network call; `TwoImagePlan` and `ProcessMediaItem` use it |
| ImgHub.RunOf | utils/imghub.py:121-130 | the two download batches, the two folders and the two upload batches of a plan; `RunRouting` states what reaches each upload |
| ImgHub.ProcessMediaItem | utils/imghub.py:100-132 | an unreadable payload stops the run before any network call; otherwise the run is `RunOf` its plan: two download batches, two folders, two upload batches |
| ImgHub.UploadedFrom | utils/imghub.py:91-96 | every upload call of a batch posts, with the fixed flags, the file name of some stored download of that batch |
| ImgHub.CollectOne | utils/imghub.py:51-54 | one stored download gives a dict of one entry |
| ImgHub.CollectTwo | utils/imghub.py:51-54 | two stored downloads under different file names give a dict of two entries |
| ImgHub.BatchRouting | utils/imghub.py:48-98 | a download batch followed by its upload batch makes one call per stored file name, no more than downloads, each with the fixed flags and a name some stored download has |
| ImgHub.RunRouting | utils/imghub.py:107-130 | the folders are `img/`+name and `video/`+name; each of the two batches uploads one call per stored download (no more than its URLs), with the fixed flags and a file name that one of its own stored downloads has; the image uploads depend only on the image network and the video uploads only on the video network |
| ImgHub.TwoImagePlan | utils/imghub.py:102-119 | a payload with no video and two images, the second with a live photo, gives the two image URLs and one video URL |
| ImgHub.TwoImageRun | utils/imghub.py:121-130 | when the three downloads of that plan are stored and the two image files get different names, its run makes exactly 2 upload calls to `img/`+author and 1 to `video/`+author |
| Retry.FirstHit | utils/imghub.py:18-44 | the deciding attempt is below the limit, satisfies the test, and no earlier attempt does; without one, no attempt below the limit does |
| Retry.TriesBounded | utils/imghub.py:59-75 | a loop of `limit` attempts makes at most `limit`, at least one when `limit > 0`, and all of them exactly when no attempt before the last decides |
| Retry.SpacedCounts | parser/redbook.py:144-148 | a spaced run of `n` attempts has `n - 1` pauses |
| Retry.ImmediateNeverPauses | utils/imghub.py:37-44 | the download loop never pauses |
| RedBook.CheckResourceLink | parser/redbook.py:120-150 | the verdict is `ProbeVerdict`, from the first response among three attempts; it pauses only between attempts and never raises |
| RedBook.ProbeVerdictSpec | parser/redbook.py:128-150 | true iff some attempt below 3 answers 200 or 206 and every earlier one raised; a first response with another status is final after one attempt; three raises give false after 3 attempts and 2 pauses |
| RedBook.ProbeVerdict | parser/redbook.py:128-150 | the probe's result from the attempts' answers; `ProbeVerdictSpec` states it |
| RedBook.SyncTransport | parser/redbook.py:131-136 | what the attempts meet over the synchronous `httpx.HTTPTransport` the code passes to `httpx.AsyncClient`: an exception every time |
| RedBook.AsyncTransport | parser/redbook.py:131-136 | over an asynchronous transport the attempts meet the server's answers |
| RedBook.SyncTransportNeverConfirms | parser/redbook.py:128-150 | as written, the probe is false for every server, after 3 attempts and 2 pauses, and every image is stored with `format/jpg` |
| RedBook.AsyncTransportProbe | parser/redbook.py:128-150 | over an asynchronous transport, a first answer of 200 or 206 keeps `format/png` after one attempt, and any other first status gives `format/jpg` |
| RedBook.ImageId | parser/redbook.py:53 | `urlDefault.split("/")[-1].split("!")[0]`; `ImageIdShape` states what it is |
| RedBook.ImageIdShape | parser/redbook.py:53 | the image id is the text after the last `/` of `urlDefault`, cut at its first `!`; it holds neither character |
| RedBook.CdnBase | parser/redbook.py:55-66 | the CDN host, then `notes_pre_post/` when `urlDefault` contains it, then `spectrum/` when it also contains `spectrum` |
| RedBook.FinalUrl | parser/redbook.py:53-68 | the URL stored for an image, given the probe's result; `FinalUrlShape` states what it is |
| RedBook.FinalUrlShape | parser/redbook.py:53-68 | the stored URL is the CDN prefix (with `notes_pre_post/` and `spectrum/` as the original has them), the image id, then `?imageView2/format/png`, or `.../format/jpg` exactly when the probe failed |
| RedBook.Fallback | parser/redbook.py:67-68 | replacing `format/png` by `format/jpg` changes only the format of such a URL |
| RedBook.NoteData | parser/redbook.py:29-38 | the capture check, the expired-note check and the lookup of the note's own record |
| RedBook.VideoUrlOf | parser/redbook.py:41-46 | the video URL from the first h264 stream; `VideoUrlSpec` states it |
| RedBook.VideoUrlSpec | parser/redbook.py:41-46 | `""` without h264 streams; otherwise the first stream's `masterUrl`, or `""` when that key is missing; a non-empty video URL always comes from the first stream |
| RedBook.LivePhotoOf | parser/redbook.py:79-82 | the clip of one image item; `LivePhotoSpec` states it |
| RedBook.ImageOf | parser/redbook.py:53-83 | one pass of the image loop for one item, given its probe's result |
| RedBook.LivePhotoSpec | parser/redbook.py:78-82 | no clip unless `livePhoto` is truthy; a clip is attached only when the item's h264 list is non-empty, and it is that list's first `masterUrl` |
| RedBook.ImagesPointwise | parser/redbook.py:51-83 | the image loop succeeds iff every item is readable, and then gives one image per item, in order, each from its own item and its own probe |
| RedBook.CollectImages | parser/redbook.py:51-83 | the loop with its probe calls, the fallback and the live-photo update equals `ImagesUpTo` |
| RedBook.Manifest | parser/redbook.py:27-97 | the `VideoInfo` built from the capture, or the exception raised; `ManifestErrors` and `ManifestParts` state it |
| RedBook.ParseShareUrl | parser/redbook.py:27-97 | `parse_share_url` from the regex capture on returns or raises exactly `Manifest` |
| RedBook.ManifestErrors | parser/redbook.py:27-38 | no capture, or an empty one, gives `NoInitialState`; the note id `"undefined"` gives `ExpiredNote`; no manifest without the note record |
| RedBook.ManifestParts | parser/redbook.py:41-97 | a manifest's video URL is the record's; with a video there are no images; without one the images are the loop's result; the other fields come from the header |
| RedBook.ImageListSpec | parser/redbook.py:49-83 | without video, there is one image per `imageList` item, in order, each `FinalUrl` of its `urlDefault` under its own probe, with its clip |
| RedBook.HeaderOf | parser/redbook.py:85-95 | the cover, title, description and author fields of the manifest |
| RedBook.HeaderSpec | parser/redbook.py:85-95 | the cover is the first `imageList` item's `urlDefault`; title and desc are copied; uid, name and avatar come from `user.userId`, `user.nickname` and `user.avatar` |
| Wrappers.MapPointwise | parser/redbook.py:51-83 | a loop whose steps may raise succeeds iff every step does, with one result per element in order |
| Wrappers.MapStopsAt | parser/redbook.py:51-83 | the first failing step's exception ends the loop |
| Strings.Split | parser/redbook.py:53 | `str.split` with a one-character separator: at least one piece; `SplitJoin`, `SplitFirst` and `SplitLast` state what the pieces are |
| Strings.SplitLast | parser/redbook.py:53 | `split(sep)[-1]` is the separator-free suffix after the last separator |
| Strings.SplitFirst | parser/redbook.py:53 | `split(sep)[0]` is the separator-free prefix before the first separator |
| Strings.SplitJoin | utils/imghub.py:26 | joining the pieces of a split gives the string back, and no piece holds the separator |
| Strings.Contains | parser/redbook.py:56-59 | Python's `t in s` on strings; `ContainsSpec` states it |
| Strings.ContainsSpec | parser/redbook.py:56-59 | `t in s` holds exactly when `t` starts at some position of `s` |
| Strings.Replace | parser/redbook.py:68 | `s.replace(t, n)`, left to right, without overlaps; `Fallback` and `ReplaceAbsent` state what it does here |
| Strings.ReplaceAbsent | parser/redbook.py:68 | a string in which `t` does not occur is returned unchanged |
| Values.Sub | parser/redbook.py:34-38 | `d[k]`: the value when `d` is a dict holding `k`, a KeyError fault for a missing key, and a fault for anything but a dict |
| Values.Get | parser/redbook.py:43 | `d.get(k, default)`: the value, or `default` for a missing key, and a fault for anything but a dict |
| Values.First | parser/redbook.py:46 | `xs[0]`: the first element of a non-empty list, and a fault otherwise |

## Left out

- HTTP via `httpx`: the GETs, the multipart POST, timeouts, redirects and the retry count of `HTTPTransport(retries=5)`; what that synchronous transport does to the probe is under "## Findings". Each attempt is an abstract answer from an oracle, and a timeout is handled like any other exception, as in the code. The `stream=True` argument that `download_media` passes is not modelled; in an httpx version that rejects it, every attempt is an exception.
- `asyncio.sleep` and `print`. Sleeps become `Pause` steps in a trace; log lines are dropped.
- `fake_useragent`, the regular expression over the page HTML and `yaml.safe_load`. The inputs are the capture and an abstract loader.
- The internals of `urlparse`, `unquote` and the `mimetypes` table. All three are function parameters.
- Environment configuration (`IMG_DOMAIN`, `UPLOAD_TOKEN`), the bearer header, the upload URL, and the `json.dumps`/`json.loads` round trip of `process_media_item` (utils/imghub.py:134-136). The model starts from the payload value.
- The `Content-Disposition` header read at utils/imghub.py:24. It is never used.
- Concurrency. The code has none, so none is modelled.
- `parse_video_id`, which only raises `NotImplementedError`, and the commented-out probe at parser/redbook.py:102-118.
- parser/base.py (`BaseParser`, `ImgInfo`, `VideoAuthor`, `VideoInfo`) is not part of this model; those records are plain datatypes here, with `live_photo_url` optional.
- Values: the payload is JSON-like. Where the code later needs a string or a list and gets another type, the model reports a `WrongType` fault, although Python might carry on with that value. This covers `urlDefault`, `masterUrl`, `currentNoteId`, `title`, `desc`, the `user` fields, the author name, and the `h264` and `imageList` containers in parser/redbook.py. It also covers the `url`, `live_photo_url` and `video_url` fields and the `images` container in utils/imghub.py: there a truthy URL that is not a string is appended by the code, fails inside `download_media`'s `try`, and is dropped while the run goes on, whereas the model ends the whole run with a fault before any network call.
- ImgHub.UploadSingleFile: with `retries <= 0` Python returns `None`. The model returns `false`, which is how its only caller treats it.
- ImgHub.PathName: models `Path(...).name` as a POSIX path (pieces between `/`, empty and `.` pieces dropped). The Windows path flavour is not modelled.
- RedBook.ImageOf: requires `live_photo_url` to be a string, where Python would store any value.
- RedBook.NoteData: the note id used as a `noteDetailMap` key must be a string.

## Findings

| source | as written | input that shows it | evidently intended | confidence | as-written member | corrected member |
|---|---|---|---|---|---|---|
| parser/redbook.py:131-136 | each probe attempt opens an `httpx.AsyncClient` over a synchronous `httpx.HTTPTransport(retries=5)`; entering the async client awaits an asynchronous interface that transport does not have, so the attempt raises and is caught | a server that answers the png URL with 200 at the first attempt: the probe still returns false after 3 attempts and 2 pauses, and the image is stored with `format/jpg` | the probe asks the server (an `httpx.AsyncHTTPTransport`), so that a 200 or 206 keeps `format/png` | medium, from the httpx API only; not executed | RedBook.SyncTransportNeverConfirms | RedBook.AsyncTransportProbe |
