/** The media-transfer bookkeeping of utils/imghub.py: file names derived from a
    URL and a declared content type, the download and upload retry loops, the
    filename-keyed fold of a download batch, and the run that splits a manifest
    payload into image and video URLs, downloads both lists and uploads each
    batch to its own folder. The code awaits every network call in turn, so the
    model is sequential; the network is an oracle (see module Retry). */
module ImgHub {
  import opened Wrappers
  import opened Strings
  import opened Values
  import opened Retry
  import opened Dicts

  type Bytes = seq<bv8>

  /** Library calls the model does not look inside. */
  datatype Library = Library(
    urlPath: string -> string,                  // urlparse(url).path
    unquote: string -> string,                  // urllib.parse.unquote
    guessExtension: string -> Option<string>)   // mimetypes.guess_extension

  // ---------------------------------------------------------------------------
  // File names

  /** The characters `clean_filename` keeps: `[a-zA-Z0-9_.]`. */
  predicate Allowed(c: char) {
    ('a' <= c <= 'z') || ('A' <= c <= 'Z') || ('0' <= c <= '9') || c == '_' || c == '.'
  }

  /** `clean_filename`: every character outside `[a-zA-Z0-9_.]` becomes `_`. */
  function CleanFilename(name: string): (r: string)
    ensures |r| == |name|
    ensures forall i :: 0 <= i < |name| ==> r[i] == if Allowed(name[i]) then name[i] else '_'
  {
    if name == "" then "" else [if Allowed(name[0]) then name[0] else '_'] + CleanFilename(name[1..])
  }

  /** The cleaned name keeps the length, holds only allowed characters, leaves
      allowed characters where they were, and cleaning it again changes nothing. */
  lemma CleanFilenameProperties(name: string)
    ensures |CleanFilename(name)| == |name|
    ensures forall i :: 0 <= i < |name| ==> Allowed(CleanFilename(name)[i])
    ensures forall i :: 0 <= i < |name| && Allowed(name[i]) ==> CleanFilename(name)[i] == name[i]
    ensures (forall i :: 0 <= i < |name| ==> Allowed(name[i])) ==> CleanFilename(name) == name
    ensures CleanFilename(CleanFilename(name)) == CleanFilename(name)
  {
  }

  /** A piece `PurePosixPath` drops: an empty one (from a doubled, leading or
      trailing `/`) or ".". */
  predicate Dropped(piece: string) {
    piece == "" || piece == "."
  }

  /** `pieces[k]` is kept and every piece after it is dropped. */
  predicate LastKept(pieces: seq<string>, k: int) {
    0 <= k < |pieces| && !Dropped(pieces[k]) && forall j :: k < j < |pieces| ==> Dropped(pieces[j])
  }

  /** The path components `PurePosixPath` keeps, in order. */
  function Components(pieces: seq<string>): (cs: seq<string>)
    ensures forall k :: 0 <= k < |cs| ==> !Dropped(cs[k]) && cs[k] in pieces
    ensures cs == [] <==> forall k :: 0 <= k < |pieces| ==> Dropped(pieces[k])
  {
    if pieces == [] then []
    else
      var rest := Components(pieces[1..]);
      assert forall k :: 1 <= k < |pieces| ==> pieces[k] == pieces[1..][k - 1];
      (if Dropped(pieces[0]) then [] else [pieces[0]]) + rest
  }

  /** The last component is a kept piece followed only by dropped pieces. */
  lemma {:induction false} ComponentsLast(pieces: seq<string>)
    requires Components(pieces) != []
    ensures exists k :: LastKept(pieces, k) && Last(Components(pieces)) == pieces[k]
  {
    var rest := pieces[1..];
    assert forall j :: 1 <= j < |pieces| ==> pieces[j] == rest[j - 1];
    if Components(rest) == [] {
      assert !Dropped(pieces[0]) && Components(pieces) == [pieces[0]];
      assert LastKept(pieces, 0);
    } else {
      ComponentsLast(rest);
      var k :| LastKept(rest, k) && Last(Components(rest)) == rest[k];
      assert Last(Components(pieces)) == Last(Components(rest));
      assert LastKept(pieces, k + 1);
    }
  }

  /** `Path(path).name`: the last component of the path, or "" when there is none. */
  function PathName(path: string): string {
    var cs := Components(Split(path, '/'));
    if cs == [] then "" else Last(cs)
  }

  /** A path's name is "" exactly when every `/`-separated piece is dropped;
      otherwise it is the last piece that is kept, never "." and free of `/`. */
  lemma PathNameShape(path: string)
    ensures '/' !in PathName(path)
    ensures PathName(path) != "."
    ensures var pieces := Split(path, '/');
      PathName(path) == "" <==> forall k :: 0 <= k < |pieces| ==> Dropped(pieces[k])
    ensures var pieces := Split(path, '/');
      PathName(path) != "" ==> exists k :: LastKept(pieces, k) && PathName(path) == pieces[k]
  {
    SplitJoin(path, '/');
    var cs := Components(Split(path, '/'));
    if cs != [] {
      ComponentsLast(Split(path, '/'));
    }
  }

  /** `content_type.split(';')[0]`: the media type without its parameters. */
  function MimeType(contentType: string): string {
    Split(contentType, ';')[0]
  }

  /** The media type is the text of the header before its first `;`. */
  lemma MimeTypeShape(contentType: string)
    ensures MimeType(contentType) <= contentType
    ensures ';' !in MimeType(contentType)
    ensures |MimeType(contentType)| < |contentType| ==> contentType[|MimeType(contentType)|] == ';'
  {
    SplitFirst(contentType, ';');
  }

  /** The cleaned, URL-decoded last path segment of `url`. */
  function BaseName(url: string, lib: Library): string {
    CleanFilename(lib.unquote(PathName(lib.urlPath(url))))
  }

  /** The file name `download_media` gives a successful download of `url` whose
      response declared `contentType` ("" when the header is absent). */
  function Filename(url: string, contentType: string, lib: Library): string {
    var name := BaseName(url, lib);
    if '.' in name then name
    else
      var ext := lib.guessExtension(MimeType(contentType));
      if ext.Some? && ext.value != "" then name + ext.value else name + ".bin"
  }

  /** A name that already has a dot is kept; otherwise the guessed extension, or
      ".bin" without one, is appended. Either way the result starts with the
      cleaned name and is never empty. */
  lemma FilenameShape(url: string, contentType: string, lib: Library)
    ensures var name := BaseName(url, lib);
      var ext := lib.guessExtension(MimeType(contentType));
      var f := Filename(url, contentType, lib);
      && |name| <= |f| && f[..|name|] == name
      && f != ""
      && ('.' in name ==> f == name)
      && ('.' !in name && ext.Some? && ext.value != "" ==> f == name + ext.value)
      && ('.' !in name && (ext.None? || ext.value == "") ==> f == name + ".bin")
  {
    var name := BaseName(url, lib);
    var f := Filename(url, contentType, lib);
    if '.' !in name {
      assert f[..|name|] == name;
      assert |f| > |name|;
    } else {
      assert name != "";
    }
  }

  // ---------------------------------------------------------------------------
  // download_media

  /** What one GET attempt meets: an httpx timeout, another exception, or a
      response with its status, Content-Type header ("" if absent) and body. */
  datatype FetchAnswer =
    | TimedOut
    | Failed
    | Fetched(status: int, contentType: string, content: Bytes)

  /** The attempt got past `raise_for_status()`. */
  predicate Delivered(a: FetchAnswer) {
    a.Fetched? && 200 <= a.status < 300
  }

  datatype NamedBlob = NamedBlob(filename: string, content: Bytes)

  /** `download_media`'s default number of attempts, used by `batch_download`. */
  const DownloadRetries := 3

  /** Content and file name of the first delivered attempt, if there is one among
      the first `retries`; `None` stands for `(None, None, None)`. */
  function DownloadOutcome(url: string, lib: Library, answer: nat -> FetchAnswer, retries: int): Option<NamedBlob> {
    match FirstHit(answer, retries, Delivered)
    case Some(k) => Some(NamedBlob(Filename(url, answer(k).contentType, lib), answer(k).content))
    case None => None
  }

  /** Nothing comes back exactly when none of the first `retries` attempts
      delivers (so always when `retries <= 0`); otherwise the first delivered
      attempt decides the content and the file name. */
  lemma DownloadFirstSuccess(url: string, lib: Library, answer: nat -> FetchAnswer, retries: int, k: nat)
    ensures DownloadOutcome(url, lib, answer, retries).None? <==>
      forall j :: 0 <= j < retries ==> !Delivered(answer(j))
    ensures k < retries && Delivered(answer(k)) && (forall j :: 0 <= j < k ==> !Delivered(answer(j))) ==>
      DownloadOutcome(url, lib, answer, retries) ==
        Some(NamedBlob(Filename(url, answer(k).contentType, lib), answer(k).content))
  {
    var d := FirstHit(answer, retries, Delivered);
    if k < retries && Delivered(answer(k)) && (forall j :: 0 <= j < k ==> !Delivered(answer(j))) {
      assert d.Some?;
      assert d.value <= k;
      assert Delivered(answer(d.value));
      assert d.value == k;
    }
  }

  /** `download_media(url, retries)`: up to `retries` GET attempts, one right after
      the other, returning at the first one that is delivered. */
  method DownloadMedia(url: string, lib: Library, answer: nat -> FetchAnswer, retries: int)
    returns (blob: Option<NamedBlob>, trace: seq<Step>)
    ensures blob == DownloadOutcome(url, lib, answer, retries)
    ensures trace == Immediate(Tries(FirstHit(answer, retries, Delivered), retries))
  {
    blob, trace := None, [];
    var limit := if retries > 0 then retries else 0;
    for i := 0 to limit
      invariant forall j :: 0 <= j < i ==> !Delivered(answer(j))
      invariant trace == Immediate(i)
    {
      trace := trace + [Attempt];
      var a := answer(i);
      if Delivered(a) {
        blob := Some(NamedBlob(Filename(url, a.contentType, lib), a.content));
        return;
      }
      // a timeout and any other exception are handled alike
      if i == retries - 1 {
        return;
      }
    }
  }

  // ---------------------------------------------------------------------------
  // batch_download

  /** `if content and filename`: the download is stored. */
  predicate Kept(r: Option<NamedBlob>) {
    r.Some? && |r.value.content| > 0 && |r.value.filename| > 0
  }

  /** The dict `batch_download` builds from the per-URL results, in order. */
  function Collect(rs: seq<Option<NamedBlob>>): (d: Dict<Bytes>)
    ensures d.Valid()
    ensures |d.order| <= |rs|
  {
    if rs == [] then Empty()
    else
      var d := Collect(rs[..|rs| - 1]);
      var r := rs[|rs| - 1];
      if Kept(r) then d.Set(r.value.filename, r.value.content) else d
  }

  /** The result of `download_media` for each URL of a batch; `answers(i)` is the
      network as the `i`-th URL meets it. */
  function Downloads(urls: seq<string>, lib: Library, answers: nat -> nat -> FetchAnswer): seq<Option<NamedBlob>> {
    seq(|urls|, i requires 0 <= i < |urls| => DownloadOutcome(urls[i], lib, answers(i), DownloadRetries))
  }

  /** `batch_download`: the URLs in input order, each stored under its file name. */
  method BatchDownload(urls: seq<string>, lib: Library, answers: nat -> nat -> FetchAnswer)
    returns (downloaded: Dict<Bytes>)
    ensures downloaded == Collect(Downloads(urls, lib, answers))
  {
    ghost var rs := Downloads(urls, lib, answers);
    downloaded := Empty();
    for k := 0 to |urls|
      invariant downloaded == Collect(rs[..k])
    {
      var blob, _ := DownloadMedia(urls[k], lib, answers(k), DownloadRetries);
      assert rs[..k + 1][..k] == rs[..k];
      if blob.Some? && |blob.value.content| > 0 && |blob.value.filename| > 0 {
        downloaded := downloaded.Set(blob.value.filename, blob.value.content);
      }
    }
    assert rs[..|urls|] == rs;
  }

  /** A failed or empty download adds nothing to the dict. */
  lemma CollectSkips(rs: seq<Option<NamedBlob>>, r: Option<NamedBlob>)
    requires !Kept(r)
    ensures Collect(rs + [r]) == Collect(rs)
  {
    assert (rs + [r])[..|rs|] == rs;
  }

  /** A file name is a key exactly when some download stored content under it. */
  lemma {:induction false} CollectKeys(rs: seq<Option<NamedBlob>>, name: string)
    ensures name in Collect(rs).entries <==>
      exists i :: 0 <= i < |rs| && Kept(rs[i]) && rs[i].value.filename == name
  {
    if rs != [] {
      var init := rs[..|rs| - 1];
      CollectKeys(init, name);
      if name in Collect(init).entries {
        var i :| 0 <= i < |init| && Kept(init[i]) && init[i].value.filename == name;
        assert rs[i] == init[i];
      }
      if exists i :: 0 <= i < |rs| && Kept(rs[i]) && rs[i].value.filename == name {
        var i :| 0 <= i < |rs| && Kept(rs[i]) && rs[i].value.filename == name;
        if i < |rs| - 1 {
          assert init[i] == rs[i];
        }
      }
    }
  }

  /** The last write wins: a key holds the content of the last download stored
      under that file name. */
  lemma {:induction false} CollectLastWins(rs: seq<Option<NamedBlob>>, i: nat)
    requires i < |rs| && Kept(rs[i])
    requires forall j :: i < j < |rs| ==> !(Kept(rs[j]) && rs[j].value.filename == rs[i].value.filename)
    ensures rs[i].value.filename in Collect(rs).entries
    ensures Collect(rs).entries[rs[i].value.filename] == rs[i].value.content
  {
    var init := rs[..|rs| - 1];
    if i < |rs| - 1 {
      forall j | i < j < |init| ensures !(Kept(init[j]) && init[j].value.filename == init[i].value.filename) {
        assert init[j] == rs[j];
      }
      CollectLastWins(init, i);
    }
  }

  /** A derived file name is never empty, so a download is stored exactly when it
      succeeded with non-empty content. */
  lemma DownloadKept(url: string, lib: Library, answer: nat -> FetchAnswer, retries: int)
    ensures var r := DownloadOutcome(url, lib, answer, retries);
      Kept(r) <==> r.Some? && |r.value.content| > 0
  {
    var d := FirstHit(answer, retries, Delivered);
    if d.Some? {
      FilenameShape(url, answer(d.value).contentType, lib);
    }
  }

  // ---------------------------------------------------------------------------
  // upload_single_file and batch_upload_media

  /** What one POST attempt meets: an exception, or a response with its status. */
  datatype UploadAnswer = PostRaised | PostStatus(code: int)

  /** The attempt got past `raise_for_status()`. */
  predicate Accepted(a: UploadAnswer) {
    a.PostStatus? && 200 <= a.code < 300
  }

  /** `batch_upload_media`'s default number of attempts per file. */
  const UploadRetries := 3

  /** `upload_single_file`: up to `retries` POST attempts, a pause after each
      failed one except the last. Python returns `None` when `retries <= 0`;
      its caller only tests it for falsity, so here it is `false`. */
  method UploadSingleFile(answer: nat -> UploadAnswer, retries: int) returns (ok: bool, trace: seq<Step>)
    ensures ok <==> FirstHit(answer, retries, Accepted).Some?
    ensures trace == Spaced(Tries(FirstHit(answer, retries, Accepted), retries))
  {
    ok, trace := false, [];
    var limit := if retries > 0 then retries else 0;
    for i := 0 to limit
      invariant limit == 0 || i < limit
      invariant forall j :: 0 <= j < i ==> !Accepted(answer(j))
      invariant trace == if i == 0 then [] else Spaced(i) + [Pause]
    {
      trace := trace + [Attempt];
      assert i > 0 ==> trace == Spaced(i + 1);
      if Accepted(answer(i)) {
        ok := true;
        return;
      }
      if i == retries - 1 {
        ok := false;
        return;
      }
      trace := trace + [Pause];
    }
  }

  /** An upload succeeds exactly when one of the first `retries` attempts is
      accepted; it then stops there, and otherwise makes all `retries` attempts.
      It waits exactly once less than it attempts. */
  lemma UploadSucceedsIff(answer: nat -> UploadAnswer, retries: int)
    ensures FirstHit(answer, retries, Accepted).Some? <==>
      exists k :: 0 <= k < retries && Accepted(answer(k))
    ensures var n := Tries(FirstHit(answer, retries, Accepted), retries);
      && Count(Spaced(n), Pause) == (if n == 0 then 0 else n - 1)
      && Count(Spaced(n), Attempt) == n
      && n <= (if retries > 0 then retries else 0)
  {
    SpacedCounts(Tries(FirstHit(answer, retries, Accepted), retries));
    TriesBounded(answer, retries, Accepted);
  }

  /** The query string of every upload: the folder plus three fixed flags. */
  function UploadParams(folder: string): seq<(string, string)> {
    [("uploadFolder", folder), ("serverCompress", "false"), ("uploadChannel", "telegram"), ("autoRetry", "true")]
  }

  /** The multipart request posted for one file; URL and bearer header come from
      configuration and are left out. */
  datatype Request = Request(filename: string, content: Bytes, params: seq<(string, string)>)

  /** One `upload_single_file` call: what it posts, whether it succeeded, and its
      attempts and pauses. */
  datatype UploadCall = UploadCall(request: Request, ok: bool, trace: seq<Step>)

  function UploadCallFor(filename: string, content: Bytes, folder: string, answer: nat -> UploadAnswer, retries: int): UploadCall {
    var d := FirstHit(answer, retries, Accepted);
    UploadCall(Request(filename, content, UploadParams(folder)), d.Some?, Spaced(Tries(d, retries)))
  }

  /** One call per dict entry, in the dict's order; `answers(i)` is the network as
      the `i`-th file meets it. */
  function UploadCalls(files: Dict<Bytes>, folder: string, answers: nat -> nat -> UploadAnswer, retries: int): seq<UploadCall>
    requires files.Valid()
  {
    seq(|files.order|, i requires 0 <= i < |files.order| =>
      UploadCallFor(files.order[i], files.entries[files.order[i]], folder, answers(i), retries))
  }

  /** `batch_upload_media`: every entry is uploaded, in `items()` order, and a
      failed upload is only reported, never a reason to stop. */
  method BatchUploadMedia(files: Dict<Bytes>, folder: string, answers: nat -> nat -> UploadAnswer, retries: int)
    returns (calls: seq<UploadCall>)
    requires files.Valid()
    ensures calls == UploadCalls(files, folder, answers, retries)
  {
    var params := UploadParams(folder);
    calls := [];
    for i := 0 to |files.order|
      invariant |calls| == i
      invariant forall j :: 0 <= j < i ==> calls[j] == UploadCalls(files, folder, answers, retries)[j]
    {
      var filename := files.order[i];
      var content := files.entries[filename];
      var ok, trace := UploadSingleFile(answers(i), retries);
      calls := calls + [UploadCall(Request(filename, content, params), ok, trace)];
    }
  }

  /** Each dict entry is posted by a call of its own, in the dict's order, under
      its own file name and content, to `folder` with the fixed flags. */
  lemma UploadCallsCover(files: Dict<Bytes>, folder: string, answers: nat -> nat -> UploadAnswer, retries: int)
    requires files.Valid()
    ensures |UploadCalls(files, folder, answers, retries)| == |files.entries|
    ensures forall i :: 0 <= i < |files.order| ==>
      UploadCalls(files, folder, answers, retries)[i].request ==
        Request(files.order[i], files.entries[files.order[i]], UploadParams(folder))
    ensures forall name :: name in files.entries ==>
      exists i :: 0 <= i < |files.order| && UploadCalls(files, folder, answers, retries)[i].request.filename == name
  {
    SizeIsOrderLength(files);
    var calls := UploadCalls(files, folder, answers, retries);
    forall i | 0 <= i < |files.order|
      ensures calls[i].request == Request(files.order[i], files.entries[files.order[i]], UploadParams(folder))
    {
      assert calls[i] == UploadCallFor(files.order[i], files.entries[files.order[i]], folder, answers(i), retries);
    }
    forall name | name in files.entries
      ensures exists i :: 0 <= i < |files.order| && calls[i].request.filename == name
    {
      var i :| 0 <= i < |files.order| && files.order[i] == name;
      assert calls[i].request.filename == name;
    }
  }

  // ---------------------------------------------------------------------------
  // _async_process_media_item

  /** An image entry of the payload as the loop reads it: "" for a falsy field. */
  datatype MediaItem = MediaItem(url: string, livePhotoUrl: string)

  /** `d.get(key, '')` where a truthy value is taken as a URL. A truthy value that
      is not a string is refused rather than passed on. */
  function UrlField(d: Json, key: string): Result<string, Fault> {
    var v :- Get(d, key, JStr(""));
    if !Truthy(v) then Ok("") else AsStr(v)
  }

  function DecodeItem(item: Json): Result<MediaItem, Fault> {
    var url :- UrlField(item, "url");
    var live :- UrlField(item, "live_photo_url");
    Ok(MediaItem(url, live))
  }

  /** The payload's `images` read in order; the first entry that cannot be read
      decides the fault. */
  function DecodeItems(items: seq<Json>): Result<seq<MediaItem>, Fault> {
    if items == [] then Ok([])
    else
      var init :- DecodeItems(items[..|items| - 1]);
      var m :- DecodeItem(items[|items| - 1]);
      Ok(init + [m])
  }

  /** The non-empty `url` fields, in order. */
  function ImageUrls(ms: seq<MediaItem>): seq<string> {
    if ms == [] then []
    else ImageUrls(ms[..|ms| - 1]) + (if Last(ms).url != "" then [Last(ms).url] else [])
  }

  /** The non-empty `live_photo_url` fields, in order. */
  function LiveUrls(ms: seq<MediaItem>): seq<string> {
    if ms == [] then []
    else LiveUrls(ms[..|ms| - 1]) + (if Last(ms).livePhotoUrl != "" then [Last(ms).livePhotoUrl] else [])
  }

  /** The live-photo URLs followed by the note's own video, when it has one. */
  function VideoUrls(ms: seq<MediaItem>, videoUrl: string): seq<string> {
    LiveUrls(ms) + if videoUrl != "" then [videoUrl] else []
  }

  /** The URL lists of a payload's entries, or the fault of the first entry
      that cannot be read. */
  function PartitionOf(items: seq<Json>, videoUrl: string): Result<(seq<string>, seq<string>), Fault> {
    var ms :- DecodeItems(items);
    Ok((ImageUrls(ms), VideoUrls(ms, videoUrl)))
  }

  lemma {:induction false} DecodeStopsAt(items: seq<Json>, i: nat, n: nat)
    requires i < n <= |items|
    requires DecodeItems(items[..i]).Ok? && DecodeItem(items[i]).Err?
    ensures DecodeItems(items[..n]) == Err(DecodeItem(items[i]).error)
    decreases n
  {
    assert items[..n][..n - 1] == items[..n - 1];
    if n > i + 1 {
      DecodeStopsAt(items, i, n - 1);
    }
  }

  lemma PartitionStopsAt(items: seq<Json>, videoUrl: string, i: nat)
    requires i < |items|
    requires DecodeItems(items[..i]).Ok? && DecodeItem(items[i]).Err?
    ensures PartitionOf(items, videoUrl) == Err(DecodeItem(items[i]).error)
  {
    DecodeStopsAt(items, i, |items|);
    assert items[..|items|] == items;
  }

  lemma DecodeStep(items: seq<Json>, i: nat, ms: seq<MediaItem>, m: MediaItem)
    requires i < |items|
    requires DecodeItems(items[..i]) == Ok(ms) && DecodeItem(items[i]) == Ok(m)
    ensures DecodeItems(items[..i + 1]) == Ok(ms + [m])
    ensures ImageUrls(ms + [m]) == ImageUrls(ms) + (if m.url != "" then [m.url] else [])
    ensures LiveUrls(ms + [m]) == LiveUrls(ms) + (if m.livePhotoUrl != "" then [m.livePhotoUrl] else [])
  {
    assert items[..i + 1][..i] == items[..i];
    assert (ms + [m])[..|ms|] == ms;
  }

  /** The `for item in data['images']` loop of `_async_process_media_item`:
      image URLs and live-photo URLs collected item by item, the note's video
      URL appended last. */
  method Partition(items: seq<Json>, videoUrl: string) returns (r: Result<(seq<string>, seq<string>), Fault>)
    ensures r == PartitionOf(items, videoUrl)
  {
    var imageUrls: seq<string>, videoUrls: seq<string> := [], [];
    ghost var ms: seq<MediaItem> := [];
    for i := 0 to |items|
      invariant DecodeItems(items[..i]) == Ok(ms)
      invariant imageUrls == ImageUrls(ms) && videoUrls == LiveUrls(ms)
    {
      var url := UrlField(items[i], "url");
      if url.Err? {
        PartitionStopsAt(items, videoUrl, i);
        return Err(url.error);
      }
      if url.value != "" {
        imageUrls := imageUrls + [url.value];
      }
      var live := UrlField(items[i], "live_photo_url");
      if live.Err? {
        PartitionStopsAt(items, videoUrl, i);
        return Err(live.error);
      }
      if live.value != "" {
        videoUrls := videoUrls + [live.value];
      }
      var m := MediaItem(url.value, live.value);
      DecodeStep(items, i, ms, m);
      ms := ms + [m];
    }
    if videoUrl != "" {
      videoUrls := videoUrls + [videoUrl];
    } else {
      assert videoUrls + [] == videoUrls;
    }
    assert items[..|items|] == items;
    r := Ok((imageUrls, videoUrls));
  }

  /** Every entry is read: one decoded item per entry, in order. */
  lemma {:induction false} DecodeItemsPointwise(items: seq<Json>)
    requires DecodeItems(items).Ok?
    ensures |DecodeItems(items).value| == |items|
    ensures forall i :: 0 <= i < |items| ==> DecodeItem(items[i]) == Ok(DecodeItems(items).value[i])
  {
    if items != [] {
      var init := items[..|items| - 1];
      DecodeItemsPointwise(init);
      forall i | 0 <= i < |items| - 1 ensures DecodeItem(items[i]) == Ok(DecodeItems(items).value[i]) {
        assert items[i] == init[i];
      }
    }
  }

  /** A URL is listed exactly when it is a non-empty `url` field; there are never
      more image URLs than entries. */
  lemma {:induction false} ImageUrlsSpec(ms: seq<MediaItem>, u: string)
    ensures |ImageUrls(ms)| <= |ms|
    ensures u in ImageUrls(ms) <==> u != "" && exists i :: 0 <= i < |ms| && ms[i].url == u
  {
    if ms != [] {
      var init := ms[..|ms| - 1];
      ImageUrlsSpec(init, u);
      if exists i :: 0 <= i < |init| && init[i].url == u {
        var i :| 0 <= i < |init| && init[i].url == u;
        assert ms[i].url == u;
      }
      if exists i :: 0 <= i < |ms| && ms[i].url == u {
        var i :| 0 <= i < |ms| && ms[i].url == u;
        if i < |ms| - 1 {
          assert init[i].url == u;
        }
      }
    }
  }

  /** Likewise for live photos. */
  lemma {:induction false} LiveUrlsSpec(ms: seq<MediaItem>, u: string)
    ensures |LiveUrls(ms)| <= |ms|
    ensures u in LiveUrls(ms) <==> u != "" && exists i :: 0 <= i < |ms| && ms[i].livePhotoUrl == u
  {
    if ms != [] {
      var init := ms[..|ms| - 1];
      LiveUrlsSpec(init, u);
      if exists i :: 0 <= i < |init| && init[i].livePhotoUrl == u {
        var i :| 0 <= i < |init| && init[i].livePhotoUrl == u;
        assert ms[i].livePhotoUrl == u;
      }
      if exists i :: 0 <= i < |ms| && ms[i].livePhotoUrl == u {
        var i :| 0 <= i < |ms| && ms[i].livePhotoUrl == u;
        if i < |ms| - 1 {
          assert init[i].livePhotoUrl == u;
        }
      }
    }
  }

  /** The video list is the live photos plus at most the note's own video, so it
      never has more than one URL more than there are entries. */
  lemma VideoUrlsSpec(ms: seq<MediaItem>, videoUrl: string, u: string)
    ensures |VideoUrls(ms, videoUrl)| <= |ms| + 1
    ensures u in VideoUrls(ms, videoUrl) <==>
      u != "" && (u == videoUrl || exists i :: 0 <= i < |ms| && ms[i].livePhotoUrl == u)
  {
    LiveUrlsSpec(ms, u);
  }

  /** Order is kept: reading two runs of entries one after the other lists their
      URLs one after the other. */
  lemma {:induction false} UrlsAppend(a: seq<MediaItem>, b: seq<MediaItem>)
    ensures ImageUrls(a + b) == ImageUrls(a) + ImageUrls(b)
    ensures LiveUrls(a + b) == LiveUrls(a) + LiveUrls(b)
    decreases |b|
  {
    if b == [] {
      assert a + b == a;
    } else {
      assert (a + b)[..|a + b| - 1] == a + b[..|b| - 1];
      UrlsAppend(a, b[..|b| - 1]);
    }
  }

  /** `if 'code' in data.keys() or 'msg' in data.keys(): data = data['data']`. */
  function Unwrap(payload: Json): (r: Result<Json, Fault>)
    ensures payload.JDict? && "code" !in payload.fields && "msg" !in payload.fields ==> r == Ok(payload)
    ensures payload.JDict? && ("code" in payload.fields || "msg" in payload.fields) ==> r == Sub(payload, "data")
    ensures !payload.JDict? ==> r.Err?
  {
    if !payload.JDict? then Err(WrongType)
    else if "code" in payload.fields || "msg" in payload.fields then Sub(payload, "data")
    else Ok(payload)
  }

  /** What the run decides before any network call: the author's name and the two
      URL lists. */
  datatype Plan = Plan(authorName: string, imageUrls: seq<string>, videoUrls: seq<string>)

  function MediaPlan(payload: Json): Result<Plan, Fault> {
    var data :- Unwrap(payload);
    var author :- Sub(data, "author");
    var nameValue :- Sub(author, "name");
    var name :- AsStr(nameValue);
    var videoUrl :- UrlField(data, "video_url");
    var imagesValue :- Sub(data, "images");
    var items :- AsList(imagesValue);
    var urls :- PartitionOf(items, videoUrl);
    Ok(Plan(name, urls.0, urls.1))
  }

  /** The network as the four batches meet it. */
  datatype Network = Network(
    imageFetch: nat -> nat -> FetchAnswer,
    videoFetch: nat -> nat -> FetchAnswer,
    imageUpload: nat -> nat -> UploadAnswer,
    videoUpload: nat -> nat -> UploadAnswer)

  /** What a run does: its plan, the two download dicts, the two folders and the
      upload calls of each batch. */
  datatype Run = Run(
    plan: Plan,
    imageFiles: Dict<Bytes>,
    videoFiles: Dict<Bytes>,
    imageFolder: string,
    videoFolder: string,
    imageUploads: seq<UploadCall>,
    videoUploads: seq<UploadCall>)

  function RunOf(plan: Plan, lib: Library, net: Network): Run {
    var imageFiles := Collect(Downloads(plan.imageUrls, lib, net.imageFetch));
    var videoFiles := Collect(Downloads(plan.videoUrls, lib, net.videoFetch));
    var imageFolder := "img/" + plan.authorName;
    var videoFolder := "video/" + plan.authorName;
    Run(plan, imageFiles, videoFiles, imageFolder, videoFolder,
      UploadCalls(imageFiles, imageFolder, net.imageUpload, UploadRetries),
      UploadCalls(videoFiles, videoFolder, net.videoUpload, UploadRetries))
  }

  /** `_async_process_media_item`: a payload that cannot be read stops the run
      before any network call; otherwise images and videos are downloaded, then
      uploaded to `img/<author>` and `video/<author>`, whatever fails on the way. */
  method ProcessMediaItem(payload: Json, lib: Library, net: Network) returns (r: Result<Run, Fault>)
    ensures r == (var plan :- MediaPlan(payload); Ok(RunOf(plan, lib, net)))
  {
    var data :- Unwrap(payload);
    var author :- Sub(data, "author");
    var nameValue :- Sub(author, "name");
    var authorName :- AsStr(nameValue);
    var videoUrl :- UrlField(data, "video_url");
    var imagesValue :- Sub(data, "images");
    var items :- AsList(imagesValue);
    var urls :- Partition(items, videoUrl);
    var imageUrls, videoUrls := urls.0, urls.1;

    var imageFiles := BatchDownload(imageUrls, lib, net.imageFetch);
    var videoFiles := BatchDownload(videoUrls, lib, net.videoFetch);

    var imageFolder := "img/" + authorName;
    var videoFolder := "video/" + authorName;
    var imageUploads := BatchUploadMedia(imageFiles, imageFolder, net.imageUpload, UploadRetries);
    var videoUploads := BatchUploadMedia(videoFiles, videoFolder, net.videoUpload, UploadRetries);
    r := Ok(Run(Plan(authorName, imageUrls, videoUrls), imageFiles, videoFiles,
      imageFolder, videoFolder, imageUploads, videoUploads));
  }

  /** The `k`-th upload call of a batch posts, with the fixed flags, a file name
      that some stored download of the batch carries. */
  lemma UploadedFrom(rs: seq<Option<NamedBlob>>, upload: nat -> nat -> UploadAnswer, folder: string, k: nat)
    requires k < |UploadCalls(Collect(rs), folder, upload, UploadRetries)|
    ensures var c := UploadCalls(Collect(rs), folder, upload, UploadRetries)[k];
      && c.request.params == UploadParams(folder)
      && exists i :: 0 <= i < |rs| && Kept(rs[i]) && rs[i].value.filename == c.request.filename
  {
    var files := Collect(rs);
    var name := files.order[k];
    assert UploadCalls(files, folder, upload, UploadRetries)[k] ==
      UploadCallFor(name, files.entries[name], folder, upload(k), UploadRetries);
    CollectKeys(rs, name);
  }

  /** One batch of a run: each upload call posts, with the fixed flags, a file
      name that some stored download of the batch carries, and there is one call
      per stored name, no more than downloads. */
  lemma BatchRouting(rs: seq<Option<NamedBlob>>, upload: nat -> nat -> UploadAnswer, folder: string)
    ensures |UploadCalls(Collect(rs), folder, upload, UploadRetries)| == |Collect(rs).entries| <= |rs|
    ensures forall c :: c in UploadCalls(Collect(rs), folder, upload, UploadRetries) ==>
      c.request.params == UploadParams(folder) &&
      exists i :: 0 <= i < |rs| && Kept(rs[i]) && rs[i].value.filename == c.request.filename
  {
    var calls := UploadCalls(Collect(rs), folder, upload, UploadRetries);
    SizeIsOrderLength(Collect(rs));
    forall c | c in calls
      ensures c.request.params == UploadParams(folder)
      ensures exists i :: 0 <= i < |rs| && Kept(rs[i]) && rs[i].value.filename == c.request.filename
    {
      var k :| 0 <= k < |calls| && calls[k] == c;
      UploadedFrom(rs, upload, folder, k);
    }
  }

  /** Only stored downloads reach the upload stage, each once, into the folder of
      its batch, which is the author's name unchanged after `img/` or `video/`;
      the image batch does not depend on the video network and vice versa. */
  lemma RunRouting(plan: Plan, lib: Library, net: Network, net': Network)
    ensures var run := RunOf(plan, lib, net);
      && run.imageFolder == "img/" + plan.authorName
      && run.videoFolder == "video/" + plan.authorName
      && |run.imageUploads| == |run.imageFiles.entries| <= |plan.imageUrls|
      && |run.videoUploads| == |run.videoFiles.entries| <= |plan.videoUrls|
      && (forall c :: c in run.imageUploads ==>
            c.request.params == UploadParams(run.imageFolder) &&
            exists i :: 0 <= i < |plan.imageUrls| &&
              Kept(Downloads(plan.imageUrls, lib, net.imageFetch)[i]) &&
              Downloads(plan.imageUrls, lib, net.imageFetch)[i].value.filename == c.request.filename)
      && (forall c :: c in run.videoUploads ==>
            c.request.params == UploadParams(run.videoFolder) &&
            exists i :: 0 <= i < |plan.videoUrls| &&
              Kept(Downloads(plan.videoUrls, lib, net.videoFetch)[i]) &&
              Downloads(plan.videoUrls, lib, net.videoFetch)[i].value.filename == c.request.filename)
    ensures net'.imageFetch == net.imageFetch && net'.imageUpload == net.imageUpload ==>
      RunOf(plan, lib, net').imageUploads == RunOf(plan, lib, net).imageUploads
    ensures net'.videoFetch == net.videoFetch && net'.videoUpload == net.videoUpload ==>
      RunOf(plan, lib, net').videoUploads == RunOf(plan, lib, net).videoUploads
  {
    BatchRouting(Downloads(plan.imageUrls, lib, net.imageFetch), net.imageUpload, "img/" + plan.authorName);
    BatchRouting(Downloads(plan.videoUrls, lib, net.videoFetch), net.videoUpload, "video/" + plan.authorName);
  }

  /** The payload of a note with no video of its own and two image entries, the
      second carrying a live photo. */
  function TwoImagePayload(author: string, a: string, b: string, live: string): Json {
    var first := JDict(map["url" := JStr(a)]);
    var second := JDict(map["url" := JStr(b), "live_photo_url" := JStr(live)]);
    JDict(map["video_url" := JStr(""), "images" := JList([first, second]),
              "author" := JDict(map["name" := JStr(author)])])
  }

  lemma UrlsOne(m: MediaItem)
    ensures ImageUrls([m]) == if m.url != "" then [m.url] else []
    ensures LiveUrls([m]) == if m.livePhotoUrl != "" then [m.livePhotoUrl] else []
  {
    assert [m][..0] == [];
  }

  lemma DecodeTwo(x: Json, y: Json, m: MediaItem, n: MediaItem)
    requires DecodeItem(x) == Ok(m) && DecodeItem(y) == Ok(n)
    ensures DecodeItems([x, y]) == Ok([m, n])
  {
    assert [x, y][..1] == [x] && [x][..0] == [];
    assert [] + [m] == [m] && [m] + [n] == [m, n];
    assert DecodeItems([x]) == Ok([m]);
  }

  lemma PartitionTwo(x: Json, y: Json, a: string, b: string, live: string)
    requires a != "" && b != "" && live != ""
    requires DecodeItem(x) == Ok(MediaItem(a, "")) && DecodeItem(y) == Ok(MediaItem(b, live))
    ensures PartitionOf([x, y], "") == Ok(([a, b], [live]))
  {
    var m, n := MediaItem(a, ""), MediaItem(b, live);
    DecodeTwo(x, y, m, n);
    UrlsOne(m);
    UrlsOne(n);
    UrlsAppend([m], [n]);
    assert [m] + [n] == [m, n];
    assert ImageUrls([m, n]) == [a] + [b] == [a, b];
    assert LiveUrls([m, n]) == [] + [live] == [live];
    assert VideoUrls([m, n], "") == [live] + [] == [live];
  }

  /** Such a payload yields its two image URLs and the live photo as the only
      video URL, in order. */
  lemma TwoImagePlan(author: string, a: string, b: string, live: string)
    requires a != "" && b != "" && live != ""
    ensures MediaPlan(TwoImagePayload(author, a, b, live)) == Ok(Plan(author, [a, b], [live]))
  {
    var data := TwoImagePayload(author, a, b, live);
    var x := JDict(map["url" := JStr(a)]);
    var y := JDict(map["url" := JStr(b), "live_photo_url" := JStr(live)]);
    assert DecodeItem(x) == Ok(MediaItem(a, ""));
    assert DecodeItem(y) == Ok(MediaItem(b, live));
    PartitionTwo(x, y, a, b, live);
    assert "code" !in data.fields && "msg" !in data.fields;
    assert UrlField(data, "video_url") == Ok("");
    assert Sub(data, "images") == Ok(JList([x, y]));
  }

  /** One stored download gives a dict of one entry. */
  lemma CollectOne(rs: seq<Option<NamedBlob>>)
    requires |rs| == 1 && Kept(rs[0])
    ensures |Collect(rs).order| == 1
  {
    assert rs[..0] == [];
  }

  /** Two stored downloads under different names give a dict of two entries. */
  lemma CollectTwo(rs: seq<Option<NamedBlob>>)
    requires |rs| == 2 && Kept(rs[0]) && Kept(rs[1]) && rs[0].value.filename != rs[1].value.filename
    ensures |Collect(rs).order| == 2
  {
    CollectOne(rs[..1]);
    assert rs[..1][..0] == [];
  }

  /** When the three downloads succeed and the two image files get different
      names, its run uploads exactly those two images to `img/<author>` and the
      live photo to `video/<author>`. */
  lemma TwoImageRun(author: string, a: string, b: string, live: string, lib: Library, net: Network)
    requires Kept(DownloadOutcome(a, lib, net.imageFetch(0), DownloadRetries))
    requires Kept(DownloadOutcome(b, lib, net.imageFetch(1), DownloadRetries))
    requires Kept(DownloadOutcome(live, lib, net.videoFetch(0), DownloadRetries))
    requires DownloadOutcome(a, lib, net.imageFetch(0), DownloadRetries).value.filename !=
             DownloadOutcome(b, lib, net.imageFetch(1), DownloadRetries).value.filename
    ensures var run := RunOf(Plan(author, [a, b], [live]), lib, net);
      && run.imageFolder == "img/" + author
      && run.videoFolder == "video/" + author
      && |run.imageUploads| == 2
      && |run.videoUploads| == 1
  {
    CollectTwo(Downloads([a, b], lib, net.imageFetch));
    CollectOne(Downloads([live], lib, net.videoFetch));
  }
}
