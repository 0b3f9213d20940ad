/** The share-page manifest construction of parser/redbook.py: the client state
    embedded in the page is read into a `VideoInfo`. An expired link is told apart
    from a page without state, the video comes from the first h264 stream, every
    image URL is rewritten onto the image CDN and probed, falling back from png to
    jpg, and live-photo clips are attached.

    The page download, the regular expression over the HTML and `yaml.safe_load`
    are outside the model: the input is the regex capture (`None` when the
    marker is missing) and a loader from that text to a value. */
module RedBook {
  import opened Wrappers
  import opened Strings
  import opened Values
  import opened Retry

  // ---------------------------------------------------------------------------
  // check_resource_link

  /** What one ranged GET attempt meets: an exception, or a response's status. */
  datatype ProbeAnswer = ProbeRaised | ProbeStatus(code: int)

  /** A response, whatever its status, ends the probe. */
  predicate Responded(a: ProbeAnswer) {
    a.ProbeStatus?
  }

  /** `max_retries`. */
  const MaxRetries := 3

  /** The probe's answer: the status of the first response among the first three
      attempts is 200 or 206; with no response at all, false. */
  function ProbeVerdict(answer: nat -> ProbeAnswer): bool {
    match FirstHit(answer, MaxRetries, Responded)
    case Some(k) => answer(k).code == 200 || answer(k).code == 206
    case None => false
  }

  /** `check_resource_link`: up to three attempts, a pause after each one that
      raised except the last; the first response decides. It never raises. */
  method CheckResourceLink(answer: nat -> ProbeAnswer) returns (ok: bool, trace: seq<Step>)
    ensures ok == ProbeVerdict(answer)
    ensures trace == Spaced(Tries(FirstHit(answer, MaxRetries, Responded), MaxRetries))
  {
    trace := [];
    for attempt := 0 to MaxRetries
      invariant forall j :: 0 <= j < attempt ==> !Responded(answer(j))
      invariant trace == if attempt == 0 then []
                         else if attempt < MaxRetries then Spaced(attempt) + [Pause]
                         else Spaced(attempt)
    {
      trace := trace + [Attempt];
      assert attempt > 0 ==> trace == Spaced(attempt + 1);
      var a := answer(attempt);
      if a.ProbeStatus? {
        ok := a.code == 200 || a.code == 206;
        return;
      }
      if attempt < MaxRetries - 1 {
        trace := trace + [Pause];
      }
    }
    ok := false;
  }

  /** Only exceptions are retried: the probe is true exactly when some attempt
      among the first three answers 200 or 206 and every earlier attempt raised;
      a first response with another status is final. */
  lemma ProbeVerdictSpec(answer: nat -> ProbeAnswer)
    ensures ProbeVerdict(answer) <==>
      exists k :: 0 <= k < MaxRetries && (answer(k) == ProbeStatus(200) || answer(k) == ProbeStatus(206)) &&
        forall j :: 0 <= j < k ==> answer(j) == ProbeRaised
    ensures answer(0).ProbeStatus? ==>
      ProbeVerdict(answer) == (answer(0).code == 200 || answer(0).code == 206) &&
      Spaced(Tries(FirstHit(answer, MaxRetries, Responded), MaxRetries)) == [Attempt]
    ensures (forall j :: 0 <= j < MaxRetries ==> answer(j) == ProbeRaised) ==>
      !ProbeVerdict(answer) &&
      Spaced(Tries(FirstHit(answer, MaxRetries, Responded), MaxRetries)) == [Attempt, Pause, Attempt, Pause, Attempt]
  {
    var d := FirstHit(answer, MaxRetries, Responded);
    if ProbeVerdict(answer) {
      assert d.Some?;
      forall j | 0 <= j < d.value ensures answer(j) == ProbeRaised {
        assert !Responded(answer(j));
      }
    }
    if exists k :: 0 <= k < MaxRetries && (answer(k) == ProbeStatus(200) || answer(k) == ProbeStatus(206)) &&
        forall j :: 0 <= j < k ==> answer(j) == ProbeRaised {
      var k :| 0 <= k < MaxRetries && (answer(k) == ProbeStatus(200) || answer(k) == ProbeStatus(206)) &&
        forall j :: 0 <= j < k ==> answer(j) == ProbeRaised;
      assert Responded(answer(k));
      assert d.Some? && d.value <= k;
      assert Responded(answer(d.value));
      assert d.value == k;
    }
    if answer(0).ProbeStatus? {
      assert d == Some(0);
      assert Spaced(1) == [Attempt];
    }
    if forall j :: 0 <= j < MaxRetries ==> answer(j) == ProbeRaised {
      assert d.None?;
      assert Spaced(3) == [Attempt, Pause, Attempt, Pause, Attempt];
    }
  }

  // ---------------------------------------------------------------------------
  // The image URL rewrite

  /** `urlDefault.split("/")[-1].split("!")[0]`. */
  function ImageId(urlDefault: string): string {
    Split(Last(Split(urlDefault, '/')), '!')[0]
  }

  /** The image id is the text after the last `/` of the URL, cut at its first `!`;
      it holds neither character. */
  lemma ImageIdShape(urlDefault: string)
    ensures AfterLast(urlDefault, '/', Last(Split(urlDefault, '/')))
    ensures var seg := Last(Split(urlDefault, '/'));
      var id := ImageId(urlDefault);
      && id <= seg && '!' !in id
      && (|id| < |seg| ==> seg[|id|] == '!')
      && '/' !in id
  {
    var seg := Last(Split(urlDefault, '/'));
    SplitLast(urlDefault, '/');
    SplitFirst(seg, '!');
    var id := ImageId(urlDefault);
    forall k | 0 <= k < |id| ensures id[k] != '/' {
      assert id[k] == seg[k];
    }
  }

  const Host := "https://ci.xiaohongshu.com/"

  /** The CDN prefix: `notes_pre_post/` when the original URL has it, then
      `spectrum/` when the original also mentions `spectrum`. */
  function CdnBase(urlDefault: string): string {
    if !Contains(urlDefault, "notes_pre_post") then Host
    else Host + "notes_pre_post/" + (if Contains(urlDefault, "spectrum") then "spectrum/" else "")
  }

  /** `new_url` before the probe: the image id on the CDN, asking for png. */
  function CdnUrl(urlDefault: string): string {
    CdnBase(urlDefault) + ImageId(urlDefault) + "?imageView2/format/png"
  }

  /** The URL stored for an image: the png URL, or the same with `format/png`
      replaced by `format/jpg` when the probe failed. */
  function FinalUrl(urlDefault: string, probeOk: bool): string {
    var url := CdnUrl(urlDefault);
    if probeOk then url else Replace(url, "format/png", "format/jpg")
  }

  lemma NoFInBase(urlDefault: string)
    ensures 'f' !in CdnBase(urlDefault)
  {
    assert 'f' !in Host;
    assert 'f' !in "notes_pre_post/";
    assert 'f' !in "spectrum/";
  }

  /** No occurrence of `format/png` starts before the format part of a CDN URL. */
  lemma NoEarlyFormat(base: string, id: string)
    requires 'f' !in base && '/' !in id
    ensures var a := base + id + "?imageView2/";
      forall i :: 0 <= i < |a| ==> !("format/png" <= (a + "format/png")[i..])
  {
    var q, t := "?imageView2/", "format/png";
    var a := base + id + q;
    var s := a + t;
    assert 'f' !in q;
    assert '/' !in q[..11];
    forall i | 0 <= i < |a| ensures !(t <= s[i..])
    {
      if i < |base| {
        assert s[i] == base[i];
      } else if i >= |base| + |id| {
        assert s[i] == q[i - |base| - |id|];
      } else if i + 6 < |base| + |id| {
        assert s[i + 6] == id[i + 6 - |base|];
      } else {
        assert s[i + 6] == q[..11][i + 6 - |base| - |id|];
      }
    }
  }

  /** The png-to-jpg replacement touches only the format of a URL whose prefix
      holds no `f` and whose id holds no `/`. */
  lemma Fallback(base: string, id: string)
    requires 'f' !in base && '/' !in id
    ensures Replace(base + id + "?imageView2/format/png", "format/png", "format/jpg") ==
      base + id + "?imageView2/format/jpg"
  {
    var a := base + id + "?imageView2/";
    assert base + id + "?imageView2/format/png" == a + "format/png";
    NoEarlyFormat(base, id);
    ReplaceSkip(a, "format/png", "format/png", "format/jpg");
    ReplaceWhole("format/png", "format/jpg");
    assert a + "format/jpg" == base + id + "?imageView2/format/jpg";
  }

  /** The fallback changes only the format: the stored URL is the CDN prefix, the
      image id and `?imageView2/format/png`, or `.../format/jpg` exactly when the
      probe failed. */
  lemma FinalUrlShape(urlDefault: string, probeOk: bool)
    ensures FinalUrl(urlDefault, probeOk) ==
      CdnBase(urlDefault) + ImageId(urlDefault) + "?imageView2/format/" + (if probeOk then "png" else "jpg")
  {
    var base, id := CdnBase(urlDefault), ImageId(urlDefault);
    if probeOk {
      assert "?imageView2/format/" + "png" == "?imageView2/format/png";
    } else {
      ImageIdShape(urlDefault);
      NoFInBase(urlDefault);
      Fallback(base, id);
      assert "?imageView2/format/" + "jpg" == "?imageView2/format/jpg";
    }
  }

  // ---------------------------------------------------------------------------
  // The probe's transport

  /** What the probe's attempts meet when its client runs over a synchronous
      `httpx.HTTPTransport`, as `check_resource_link` builds it: entering an
      `httpx.AsyncClient` awaits the transport's asynchronous interface, which a
      synchronous transport lacks, so every attempt raises before `server` is
      asked. */
  function SyncTransport(server: nat -> ProbeAnswer): nat -> ProbeAnswer {
    (i: nat) => ProbeRaised
  }

  /** Over an asynchronous transport (`httpx.AsyncHTTPTransport`) each attempt
      meets the server's own answer. */
  function AsyncTransport(server: nat -> ProbeAnswer): nat -> ProbeAnswer {
    server
  }

  /** As written, the probe fails for every server, after three attempts and two
      pauses, so every image is stored with `format/jpg`, even when the server
      answers the png URL with 200 at once. */
  lemma SyncTransportNeverConfirms(server: nat -> ProbeAnswer, urlDefault: string)
    ensures !ProbeVerdict(SyncTransport(server))
    ensures Spaced(Tries(FirstHit(SyncTransport(server), MaxRetries, Responded), MaxRetries)) ==
      [Attempt, Pause, Attempt, Pause, Attempt]
    ensures FinalUrl(urlDefault, ProbeVerdict(SyncTransport(server))) ==
      CdnBase(urlDefault) + ImageId(urlDefault) + "?imageView2/format/jpg"
  {
    ProbeVerdictSpec(SyncTransport(server));
    FinalUrlShape(urlDefault, false);
    assert "?imageView2/format/" + "jpg" == "?imageView2/format/jpg";
  }

  /** Over an asynchronous transport the server decides: a first answer of 200 or
      206 keeps the png URL after one attempt, and any other first status falls
      back to jpg. */
  lemma AsyncTransportProbe(server: nat -> ProbeAnswer, urlDefault: string)
    requires server(0).ProbeStatus?
    ensures ProbeVerdict(AsyncTransport(server)) <==> server(0).code == 200 || server(0).code == 206
    ensures Spaced(Tries(FirstHit(AsyncTransport(server), MaxRetries, Responded), MaxRetries)) == [Attempt]
    ensures FinalUrl(urlDefault, ProbeVerdict(AsyncTransport(server))) ==
      CdnBase(urlDefault) + ImageId(urlDefault) +
        (if server(0).code == 200 || server(0).code == 206 then "?imageView2/format/png" else "?imageView2/format/jpg")
  {
    ProbeVerdictSpec(AsyncTransport(server));
    var ok := ProbeVerdict(AsyncTransport(server));
    FinalUrlShape(urlDefault, ok);
    assert "?imageView2/format/" + "jpg" == "?imageView2/format/jpg";
    assert "?imageView2/format/" + "png" == "?imageView2/format/png";
  }

  // ---------------------------------------------------------------------------
  // The manifest

  datatype VideoAuthor = VideoAuthor(uid: string, name: string, avatar: string)

  /** `ImgInfo`; `livePhotoUrl` is `None` until the loop sets it. */
  datatype ImgInfo = ImgInfo(url: string, livePhotoUrl: Option<string>)

  datatype VideoInfo = VideoInfo(
    videoUrl: string,
    coverUrl: string,
    title: string,
    desc: string,
    images: seq<ImgInfo>,
    author: VideoAuthor)

  /** The ValueError for a page without client state, the exception for an
      expired note, and whatever a malformed state raises. */
  datatype ParseError = NoInitialState | ExpiredNote | Malformed(fault: Fault)

  function Lift<T>(r: Result<T, Fault>): Result<T, ParseError> {
    match r
    case Ok(v) => Ok(v)
    case Err(f) => Err(Malformed(f))
  }

  /** `parse_share_url` from the capture check to the note lookup: the note's
      own record in the loaded state. */
  function NoteData(capture: Option<string>, load: string -> Json): Result<Json, ParseError> {
    if capture.None? || capture.value == "" then Err(NoInitialState)
    else
      var state := load(capture.value);
      var note :- Lift(Sub(state, "note"));
      var noteId :- Lift(Sub(note, "currentNoteId"));
      if noteId == JStr("undefined") then Err(ExpiredNote)
      else
        var id :- Lift(AsStr(noteId));
        var details :- Lift(Sub(note, "noteDetailMap"));
        var entry :- Lift(Sub(details, id));
        Lift(Sub(entry, "note"))
  }

  /** `data.get("video", {}).get("media", {}).get("stream", {}).get("h264", [])`. */
  function H264(data: Json): Result<Json, Fault> {
    var video :- Get(data, "video", EmptyDict);
    var media :- Get(video, "media", EmptyDict);
    var stream :- Get(media, "stream", EmptyDict);
    Get(stream, "h264", EmptyList)
  }

  /** `parse_share_url`'s video URL: the first h264 stream's `masterUrl`, "" without one. */
  function VideoUrlOf(data: Json): Result<string, Fault> {
    var h264 :- H264(data);
    var streams :- AsList(h264);
    if |streams| == 0 then Ok("")
    else
      var master :- Get(streams[0], "masterUrl", JStr(""));
      AsStr(master)
  }

  /** The video URL is "" when there is no h264 stream, and otherwise the first
      stream's `masterUrl`, "" when that key is missing. */
  lemma VideoUrlSpec(data: Json, streams: seq<Json>)
    requires H264(data) == Ok(JList(streams))
    ensures streams == [] ==> VideoUrlOf(data) == Ok("")
    ensures streams != [] && streams[0].JDict? && "masterUrl" !in streams[0].fields ==> VideoUrlOf(data) == Ok("")
    ensures (streams != [] && streams[0].JDict? && "masterUrl" in streams[0].fields &&
             streams[0].fields["masterUrl"].JStr?) ==> VideoUrlOf(data) == Ok(streams[0].fields["masterUrl"].s)
    ensures VideoUrlOf(data).Ok? && VideoUrlOf(data).value != "" ==>
      streams != [] && streams[0].JDict? && streams[0].fields["masterUrl"] == JStr(VideoUrlOf(data).value)
  {
  }

  /** The live-photo step of `parse_share_url`'s image loop: the item's
      `livePhoto` flag is checked first; only when it is truthy is its own h264
      list read, and a non-empty one gives the clip. */
  function LivePhotoOf(item: Json): Result<Option<string>, Fault> {
    var flag :- Get(item, "livePhoto", JBool(false));
    if !Truthy(flag) then Ok(None)
    else
      var stream :- Get(item, "stream", EmptyDict);
      var h264 :- Get(stream, "h264", EmptyList);
      if !Truthy(h264) then Ok(None)
      else
        var first :- First(h264);
        var master :- Sub(first, "masterUrl");
        var url :- AsStr(master);
        Ok(Some(url))
  }

  /** A clip is attached exactly when `livePhoto` is truthy and the item's h264
      list is non-empty, and it is that list's first `masterUrl`. */
  lemma LivePhotoSpec(item: Json)
    requires item.JDict?
    ensures var flag := if "livePhoto" in item.fields then item.fields["livePhoto"] else JBool(false);
      !Truthy(flag) ==> LivePhotoOf(item) == Ok(None)
    ensures LivePhotoOf(item).Ok? && LivePhotoOf(item).value.Some? ==>
      && "livePhoto" in item.fields && Truthy(item.fields["livePhoto"])
      && "stream" in item.fields && item.fields["stream"].JDict?
      && "h264" in item.fields["stream"].fields
      && item.fields["stream"].fields["h264"].JList?
      && |item.fields["stream"].fields["h264"].items| > 0
      && Sub(item.fields["stream"].fields["h264"].items[0], "masterUrl") == Ok(JStr(LivePhotoOf(item).value.value))
    ensures LivePhotoOf(item).Ok? && LivePhotoOf(item).value.None? ==>
      var flag := if "livePhoto" in item.fields then item.fields["livePhoto"] else JBool(false);
      !Truthy(flag) || (Get(item, "stream", EmptyDict).Ok? && !Truthy(Get(Get(item, "stream", EmptyDict).value, "h264", EmptyList).value))
  {
  }

  /** `img_item["urlDefault"]`, a string. */
  function UrlDefault(item: Json): Result<string, Fault> {
    var u :- Sub(item, "urlDefault");
    AsStr(u)
  }

  /** One iteration of the image loop, `probeOk` being the probe's answer. */
  function ImageOf(item: Json, probeOk: bool): Result<ImgInfo, Fault> {
    var u :- UrlDefault(item);
    var live :- LivePhotoOf(item);
    Ok(ImgInfo(FinalUrl(u, probeOk), live))
  }

  /** The image loop's step for the `i`-th item; `probes(i)` is the network as
      the probe of that image meets it. */
  function ImageStep(probes: nat -> nat -> ProbeAnswer): (nat, Json) -> Result<ImgInfo, Fault> {
    (i: nat, item: Json) => ImageOf(item, ProbeVerdict(probes(i)))
  }

  /** The first `n` iterations of the image loop. */
  function ImagesUpTo(items: seq<Json>, probes: nat -> nat -> ProbeAnswer, n: nat): Result<seq<ImgInfo>, Fault>
    requires n <= |items|
  {
    MapUpTo(ImageStep(probes), items, n)
  }

  /** One image per item, in the same order, each built from its own item and its
      own probe; the loop fails exactly when some item is malformed. */
  lemma ImagesPointwise(items: seq<Json>, probes: nat -> nat -> ProbeAnswer)
    ensures ImagesUpTo(items, probes, |items|).Ok? <==>
      forall i :: 0 <= i < |items| ==> ImageOf(items[i], ProbeVerdict(probes(i))).Ok?
    ensures ImagesUpTo(items, probes, |items|).Ok? ==>
      |ImagesUpTo(items, probes, |items|).value| == |items| &&
      forall i :: 0 <= i < |items| ==>
        ImageOf(items[i], ProbeVerdict(probes(i))) == Ok(ImagesUpTo(items, probes, |items|).value[i])
  {
    MapPointwise(ImageStep(probes), items, |items|);
  }

  lemma ImagesStep(items: seq<Json>, probes: nat -> nat -> ProbeAnswer, i: nat, img: ImgInfo)
    requires i < |items| && ImagesUpTo(items, probes, i).Ok?
    requires ImageOf(items[i], ProbeVerdict(probes(i))) == Ok(img)
    ensures ImagesUpTo(items, probes, i + 1) == Ok(ImagesUpTo(items, probes, i).value + [img])
  {
    assert ImageStep(probes)(i, items[i]) == Ok(img);
  }

  /** The `for img_item in data["imageList"]` loop of `parse_share_url`. */
  method CollectImages(items: seq<Json>, probes: nat -> nat -> ProbeAnswer) returns (r: Result<seq<ImgInfo>, ParseError>)
    ensures r == Lift(ImagesUpTo(items, probes, |items|))
  {
    var images: seq<ImgInfo> := [];
    for i := 0 to |items|
      invariant ImagesUpTo(items, probes, i) == Ok(images)
    {
      var urlDefault := UrlDefault(items[i]);
      if urlDefault.Err? {
        assert ImageOf(items[i], ProbeVerdict(probes(i))).Err?;
        assert ImageStep(probes)(i, items[i]) == ImageOf(items[i], ProbeVerdict(probes(i)));
        MapStopsAt(ImageStep(probes), items, i, |items|);
        return Err(Malformed(urlDefault.error));
      }
      var newUrl := CdnUrl(urlDefault.value);
      var ok, _ := CheckResourceLink(probes(i));
      if !ok {
        newUrl := Replace(newUrl, "format/png", "format/jpg");
      }
      var img := ImgInfo(newUrl, None);
      var live := LivePhotoOf(items[i]);
      if live.Err? {
        MapStopsAt(ImageStep(probes), items, i, |items|);
        return Err(Malformed(live.error));
      }
      if live.value.Some? {
        img := img.(livePhotoUrl := live.value);
      }
      assert img == ImgInfo(FinalUrl(urlDefault.value, ok), live.value);
      ImagesStep(items, probes, i, img);
      images := images + [img];
    }
    r := Ok(images);
  }

  /** The fields read after the loop: cover, title, description and author. */
  datatype Header = Header(coverUrl: string, title: string, desc: string, author: VideoAuthor)

  function HeaderOf(data: Json): Result<Header, Fault> {
    var imageList :- Sub(data, "imageList");
    var first :- First(imageList);
    var cover :- UrlDefault(first);
    var title :- Sub(data, "title");
    var titleText :- AsStr(title);
    var desc :- Sub(data, "desc");
    var descText :- AsStr(desc);
    var user :- Sub(data, "user");
    var uid :- Sub(user, "userId");
    var uidText :- AsStr(uid);
    var name :- Sub(user, "nickname");
    var nameText :- AsStr(name);
    var avatar :- Sub(user, "avatar");
    var avatarText :- AsStr(avatar);
    Ok(Header(cover, titleText, descText, VideoAuthor(uidText, nameText, avatarText)))
  }

  /** The image loop runs only for a note without video. */
  function ImageListOf(data: Json, probes: nat -> nat -> ProbeAnswer): Result<seq<ImgInfo>, Fault> {
    var imageList :- Sub(data, "imageList");
    var items :- AsList(imageList);
    ImagesUpTo(items, probes, |items|)
  }

  /** What `parse_share_url` returns or raises. */
  function Manifest(capture: Option<string>, load: string -> Json, probes: nat -> nat -> ProbeAnswer): Result<VideoInfo, ParseError> {
    var data :- NoteData(capture, load);
    var videoUrl :- Lift(VideoUrlOf(data));
    var images :- Lift(if videoUrl == "" then ImageListOf(data, probes) else Ok([]));
    var header :- Lift(HeaderOf(data));
    Ok(VideoInfo(videoUrl, header.coverUrl, header.title, header.desc, images, header.author))
  }

  /** `parse_share_url` from the regex capture on. */
  method ParseShareUrl(capture: Option<string>, load: string -> Json, probes: nat -> nat -> ProbeAnswer)
    returns (r: Result<VideoInfo, ParseError>)
    ensures r == Manifest(capture, load, probes)
  {
    var data :- NoteData(capture, load);
    var videoUrl :- Lift(VideoUrlOf(data));
    var images: seq<ImgInfo> := [];
    if videoUrl == "" {
      var imageList :- Lift(Sub(data, "imageList"));
      var items :- Lift(AsList(imageList));
      images :- CollectImages(items, probes);
    }
    var header :- Lift(HeaderOf(data));
    r := Ok(VideoInfo(videoUrl, header.coverUrl, header.title, header.desc, images, header.author));
  }

  /** No manifest without client state, and an expired note is reported as such,
      not as a parse failure. */
  lemma ManifestErrors(capture: Option<string>, load: string -> Json, probes: nat -> nat -> ProbeAnswer)
    ensures capture.None? || capture == Some("") ==> Manifest(capture, load, probes) == Err(NoInitialState)
    ensures (capture.Some? && capture.value != "" &&
             Sub(load(capture.value), "note").Ok? &&
             Sub(Sub(load(capture.value), "note").value, "currentNoteId") == Ok(JStr("undefined"))) ==>
      Manifest(capture, load, probes) == Err(ExpiredNote)
    ensures Manifest(capture, load, probes).Ok? ==> NoteData(capture, load).Ok?
  {
  }

  /** The cover is the first `imageList` item's `urlDefault` and the author is
      copied field by field from `user`. */
  lemma HeaderSpec(data: Json)
    requires HeaderOf(data).Ok?
    ensures Sub(data, "imageList").Ok? && First(Sub(data, "imageList").value).Ok?
    ensures UrlDefault(First(Sub(data, "imageList").value).value) == Ok(HeaderOf(data).value.coverUrl)
    ensures Sub(data, "title") == Ok(JStr(HeaderOf(data).value.title))
    ensures Sub(data, "desc") == Ok(JStr(HeaderOf(data).value.desc))
    ensures var user := Sub(data, "user");
      var a := HeaderOf(data).value.author;
      && user.Ok?
      && Sub(user.value, "userId") == Ok(JStr(a.uid))
      && Sub(user.value, "nickname") == Ok(JStr(a.name))
      && Sub(user.value, "avatar") == Ok(JStr(a.avatar))
  {
  }

  /** A successful manifest is assembled from the note record: its video URL,
      the image loop's result (run only without video) and the header fields. */
  lemma ManifestParts(capture: Option<string>, load: string -> Json, probes: nat -> nat -> ProbeAnswer)
    ensures Manifest(capture, load, probes).Ok? ==> NoteData(capture, load).Ok?
    ensures Manifest(capture, load, probes).Ok? ==>
      var m := Manifest(capture, load, probes).value;
      var data := NoteData(capture, load).value;
      && VideoUrlOf(data) == Ok(m.videoUrl)
      && (m.videoUrl != "" ==> m.images == [])
      && (m.videoUrl == "" ==> ImageListOf(data, probes) == Ok(m.images))
      && HeaderOf(data) == Ok(Header(m.coverUrl, m.title, m.desc, m.author))
  {
  }

  /** Without video there is exactly one image per `imageList` item, in order,
      each the rewritten URL of that item's `urlDefault` under its own probe,
      with that item's clip. */
  lemma ImageListSpec(data: Json, probes: nat -> nat -> ProbeAnswer)
    requires ImageListOf(data, probes).Ok?
    ensures Sub(data, "imageList").Ok? && Sub(data, "imageList").value.JList?
    ensures var items := Sub(data, "imageList").value.items;
      var images := ImageListOf(data, probes).value;
      && |images| == |items|
      && forall i :: 0 <= i < |items| ==>
           UrlDefault(items[i]).Ok? && LivePhotoOf(items[i]).Ok? &&
           images[i] == ImgInfo(FinalUrl(UrlDefault(items[i]).value, ProbeVerdict(probes(i))),
                                LivePhotoOf(items[i]).value)
  {
    var items := Sub(data, "imageList").value.items;
    ImagesPointwise(items, probes);
  }
}
