/** The older synchronous client of Video/main.py. It runs the same
    submit, poll and download workflow through `requests`, but failures give
    None or False instead of exceptions. The other differences are:
    - the uploaded URI falls back to the top-level `uri`;
    - the prompt dict is built by hand;
    - the poll loop does not grow its interval after a request exception, and
      a timeout gives None;
    - a download cut short keeps its partial file;
    - the automatic file name keeps spaces as underscores without collapsing
      them. */
module Legacy {
  import opened PyValues
  import opened PyText
  import opened Exceptions
  import opened PyAccess
  import opened Environment
  import Config
  import Utils
  import Models
  import Submission
  import Poller
  import Downloader

  /** `str.startswith` on the MIME type `mimetypes.guess_type` reports. */
  const ImageMimePrefix: string := "image/"

  // ---------------------------------------------------------------------
  // Image upload and prompt dicts
  // ---------------------------------------------------------------------

  /** `upload_image`. It returns the file URI, or None when:
      - the path is missing;
      - the guessed MIME type does not start with `image/`;
      - a request exception is raised (transport, 4xx/5xx, undecodable body);
      - any other error occurs;
      - no truthy URI is found in `file.uri` or in the top-level `uri`. */
  function LegacyUpload(env: Env, baseUrl: string, path: string, fs: FileSystem): (r: Option<Json>)
    ensures r.Some? ==> Truthy(r.value) && path in fs
    ensures r.Some? ==> env.mimeType(path).Some? && StartsWith(env.mimeType(path).value, ImageMimePrefix)
    ensures r.Some? ==>
      && path in fs
      && var c := env.call(PostFile(Submission.UploadUrl(baseUrl), Models.PathName(path), fs[path]), 0);
      && c.Answered? && !IsHttpError(c.reply.status) && c.reply.body.JsonBody? && c.reply.body.json.JObj?
      && var file := GetOr(c.reply.body.json.fields, "file", JObj([]));
      && file.JObj?
      && var inner := GetOr(file.fields, "uri", JNull);
      && (if Truthy(inner) then r.value == inner else r.value == GetOr(c.reply.body.json.fields, "uri", JNull))
  {
    if path !in fs then None
    else
      var mime := env.mimeType(path);
      if mime.None? || !StartsWith(mime.value, ImageMimePrefix) then None
      else match env.call(PostFile(Submission.UploadUrl(baseUrl), Models.PathName(path), fs[path]), 0)
        case Broken(_) => None
        case Answered(reply) =>
          if IsHttpError(reply.status) || reply.body.RawBody? then None
          else
            var data := reply.body.json;
            var file := DictGet(data, "file", JObj([]));
            if file.Err? then None
            else
              var inner := DictGet(file.value, "uri", JNull);
              if inner.Err? then None
              else
                var uri := if Truthy(inner.value) then inner.value else GetOr(data.fields, "uri", JNull);
                if Truthy(uri) then Some(uri) else None
  }

  /** An accepted dict answer with a truthy `file.uri` gives that URI,
      whatever the top-level `uri` holds. */
  lemma UploadPrefersFileUri(env: Env, baseUrl: string, path: string, fs: FileSystem, fields: Fields, fileFields: Fields, uri: Json)
    requires path in fs && env.mimeType(path).Some? && StartsWith(env.mimeType(path).value, ImageMimePrefix)
    requires var c := env.call(PostFile(Submission.UploadUrl(baseUrl), Models.PathName(path), fs[path]), 0);
      c.Answered? && !IsHttpError(c.reply.status) && c.reply.body == JsonBody(JObj(fields))
    requires Get(fields, "file") == Some(JObj(fileFields)) && Get(fileFields, "uri") == Some(uri) && Truthy(uri)
    ensures LegacyUpload(env, baseUrl, path, fs) == Some(uri)
  {
  }

  /** Without a `file` dict holding a truthy `uri`, an accepted dict answer
      gives the top-level `uri` when it is truthy, and None otherwise. */
  lemma UploadFallsBackToTopLevelUri(env: Env, baseUrl: string, path: string, fs: FileSystem, fields: Fields)
    requires path in fs && env.mimeType(path).Some? && StartsWith(env.mimeType(path).value, ImageMimePrefix)
    requires var c := env.call(PostFile(Submission.UploadUrl(baseUrl), Models.PathName(path), fs[path]), 0);
      c.Answered? && !IsHttpError(c.reply.status) && c.reply.body == JsonBody(JObj(fields))
    requires var file := Get(fields, "file");
      file.None? || (file.value.JObj? && !Truthy(GetOr(file.value.fields, "uri", JNull)))
    ensures var top := GetOr(fields, "uri", JNull);
      LegacyUpload(env, baseUrl, path, fs) == if Truthy(top) then Some(top) else None
  {
  }

  /** A missing file or a type that is not an image stops the upload before
      any request. */
  lemma UploadChecksPathAndType(env1: Env, env2: Env, baseUrl: string, path: string, fs: FileSystem)
    requires env1.mimeType == env2.mimeType
    requires path !in fs || env1.mimeType(path).None? || !StartsWith(env1.mimeType(path).value, ImageMimePrefix)
    ensures LegacyUpload(env1, baseUrl, path, fs) == None == LegacyUpload(env2, baseUrl, path, fs)
  {
  }

  /** `{"prompt": text, "aspectRatio": aspect_ratio, "duration": duration}`. */
  function TextPrompt(text: string, aspectRatio: string, duration: string): Json {
    JObj([("prompt", JStr(text)), ("aspectRatio", JStr(aspectRatio)), ("duration", JStr(duration))])
  }

  /** The image-to-video prompt dict, with the image under `image.fileUri`. */
  function ImagePrompt(text: string, imageUri: Json, aspectRatio: string, duration: string): (j: Json)
    ensures j.JObj? && Keys(j.fields) == ["prompt", "image", "aspectRatio", "duration"]
    ensures Get(j.fields, "prompt") == Some(JStr(text))
    ensures Get(j.fields, "image") == Some(JObj([("fileUri", imageUri)]))
    ensures Get(j.fields, "aspectRatio") == Some(JStr(aspectRatio))
    ensures Get(j.fields, "duration") == Some(JStr(duration))
  {
    var fields := [("prompt", JStr(text)), ("image", JObj([("fileUri", imageUri)])),
                   ("aspectRatio", JStr(aspectRatio)), ("duration", JStr(duration))];
    assert Keys(fields) == ["prompt", "image", "aspectRatio", "duration"];
    assert "prompt"[0] != "image"[0] && "prompt"[0] != "aspectRatio"[0] && "prompt"[0] != "duration"[0];
    assert "image"[0] != "aspectRatio"[0] && "image"[0] != "duration"[0] && "aspectRatio"[0] != "duration"[0];
    GetAt(fields, "prompt", 0);
    GetAt(fields, "image", 1);
    GetAt(fields, "aspectRatio", 2);
    GetAt(fields, "duration", 3);
    JObj(fields)
  }

  /** `prepare_image_to_video_prompt`: a non-empty `image_path` is uploaded
      and wins over `image_uri`; a failed upload, or neither input, gives
      None. */
  function PrepareImagePrompt(env: Env, baseUrl: string, text: string, imagePath: Option<string>, imageUri: Option<string>,
                              aspectRatio: string, duration: string, fs: FileSystem): (r: Option<Json>)
    ensures StrTruthy(imagePath) ==> r == (var u := LegacyUpload(env, baseUrl, imagePath.value, fs);
      if u.Some? then Some(ImagePrompt(text, u.value, aspectRatio, duration)) else None)
    ensures !StrTruthy(imagePath) && StrTruthy(imageUri) ==> r == Some(ImagePrompt(text, JStr(imageUri.value), aspectRatio, duration))
    ensures !StrTruthy(imagePath) && !StrTruthy(imageUri) ==> r.None?
  {
    var uri :=
      if StrTruthy(imagePath) then LegacyUpload(env, baseUrl, imagePath.value, fs)
      else if StrTruthy(imageUri) then Some(JStr(imageUri.value))
      else None;
    if uri.None? then None else Some(ImagePrompt(text, uri.value, aspectRatio, duration))
  }

  /** With a non-empty image path, the given URI plays no part. */
  lemma ImagePathTakesPrecedence(env: Env, baseUrl: string, text: string, path: string, u1: Option<string>,
                                 u2: Option<string>, aspectRatio: string, duration: string, fs: FileSystem)
    requires path != []
    ensures PrepareImagePrompt(env, baseUrl, text, Some(path), u1, aspectRatio, duration, fs)
      == PrepareImagePrompt(env, baseUrl, text, Some(path), u2, aspectRatio, duration, fs)
  {
  }

  // ---------------------------------------------------------------------
  // Starting the generation
  // ---------------------------------------------------------------------

  /** `generate_video(prompt)`: the prompt dict is posted unchanged as the
      only instance. A request exception gives None; a body that is not a
      dict raises AttributeError from `.get`. */
  function LegacySubmit(env: Env, baseUrl: string, prompt: Json): (r: Result<Option<Json>, Raised>)
    ensures r.Ok? && r.value.Some? ==> Truthy(r.value.value)
    ensures r.Ok? && r.value.Some? ==>
      var c := env.call(PostJson(Submission.GenerateUrl(baseUrl), JObj([("instances", JList([prompt]))])), 0);
      && c.Answered? && !IsHttpError(c.reply.status) && c.reply.body.JsonBody? && c.reply.body.json.JObj?
      && Get(c.reply.body.json.fields, "name") == Some(r.value.value)
  {
    match env.call(PostJson(Submission.GenerateUrl(baseUrl), JObj([("instances", JList([prompt]))])), 0)
    case Broken(_) => Ok(None)
    case Answered(reply) =>
      if IsHttpError(reply.status) || reply.body.RawBody? then Ok(None)
      else
        var name := DictGet(reply.body.json, "name", JNull);
        if name.Err? then Err(name.error)
        else if Truthy(name.value) then Ok(Some(name.value))
        else Ok(None)
  }

  /** A request exception gives None without raising. A 3xx status is not
      one: its body is read. */
  lemma SubmitSwallowsRequestErrors(env: Env, baseUrl: string, prompt: Json)
    requires var c := env.call(PostJson(Submission.GenerateUrl(baseUrl), JObj([("instances", JList([prompt]))])), 0);
      c.Broken? || IsHttpError(c.reply.status) || c.reply.body.RawBody?
    ensures LegacySubmit(env, baseUrl, prompt) == Ok(None)
  {
  }

  /** An accepted dict answer gives its `name` when that is truthy, and None
      otherwise. */
  lemma SubmitReadsName(env: Env, baseUrl: string, prompt: Json, fields: Fields)
    requires var c := env.call(PostJson(Submission.GenerateUrl(baseUrl), JObj([("instances", JList([prompt]))])), 0);
      c.Answered? && !IsHttpError(c.reply.status) && c.reply.body == JsonBody(JObj(fields))
    ensures var name := GetOr(fields, "name", JNull);
      LegacySubmit(env, baseUrl, prompt) == if Truthy(name) then Ok(Some(name)) else Ok(None)
  {
  }

  // ---------------------------------------------------------------------
  // Waiting for completion
  // ---------------------------------------------------------------------

  /** What one status request decides. The operation may have finished with
      a URI or failed. It may still be running, so the interval grows. A
      request exception means a retry at the same interval. Anything else
      raises. */
  datatype Tick = Found(uri: Json) | Fails | Pending | Retry | Raise(error: Raised)

  function LegacyClassify(call: Call): (t: Tick)
    ensures call.Broken? ==> t == Retry
    ensures call.Answered? && (IsHttpError(call.reply.status) || call.reply.body.RawBody?) ==> t == Retry
  {
    match call
    case Broken(_) => Retry
    case Answered(reply) =>
      if IsHttpError(reply.status) || reply.body.RawBody? then Retry
      else ClassifyData(reply.body.json)
  }

  /** The decoded status. An `error` entry ends the wait with None once it
      has been read (`data["error"]`). A truthy `done` extracts the URI; only
      a KeyError becomes None. */
  function ClassifyData(data: Json): Tick {
    var hasError := Contains(data, "error");
    if hasError.Err? then Raise(hasError.error)
    else if hasError.value then
      var err := KeyLookup(data, "error");
      if err.Err? then Raise(err.error) else Fails
    else
      var done := DictGet(data, "done", JBool(false));
      if done.Err? then Raise(done.error)
      else if !Truthy(done.value) then Pending
      else
        var uri := VideoUriOf(data);
        if uri.Ok? then Found(uri.value)
        else if IsKeyError(uri.error) then Fails
        else Raise(uri.error)
  }

  /** A dict with an `error` entry ends the wait with None, even when `done`. */
  lemma ErrorEntryFails(fields: Fields)
    requires HasKey(fields, "error")
    ensures ClassifyData(JObj(fields)) == Fails
  {
  }

  /** The completed body yields its URI, as in the package's poller. */
  lemma CompletedBodyFound(uri: Json)
    ensures ClassifyData(CompletedBody(uri)) == Found(uri)
    ensures Poller.ClassifyData(CompletedBody(uri)) == Poller.Finished(uri)
  {
    var body := CompletedBody(uri);
    assert "done"[0] != "error"[0] && "response"[0] != "error"[0];
    GetSmall(body.fields, "error");
    GetSmall(body.fields, "done");
    VideoUriOfCompletedBody(uri);
    Poller.CompletedBodyFinishes(uri);
  }

  /** What the k-th status request of the wait decides, for every k. */
  function Ticks(call: (Request, nat) -> Call, url: string): nat -> Tick {
    (k: nat) => LegacyClassify(call(GetUrl(url), k))
  }

  /** The outcome of waiting from the k-th tick, given what each tick decides,
      the time each tick spends besides its sleep, the current interval and
      the time elapsed when the deadline is checked. A timeout gives None. */
  function WaitFrom(ticks: nat -> Tick, latency: nat -> Seconds, maxWaitTime: int, k: nat, interval: real, elapsed: real)
    : Result<Option<Json>, Raised>
    requires Config.InitialPollInterval <= interval <= Config.MaxPollInterval
    requires elapsed >= 10.0 * k as real
    decreases maxWaitTime - 10 * k
  {
    if elapsed >= maxWaitTime as real then Ok(None)
    else
      var next := elapsed + interval + latency(k + 1);
      match ticks(k)
      case Found(uri) => Ok(Some(uri))
      case Fails => Ok(None)
      case Raise(e) => Err(e)
      case Pending => WaitFrom(ticks, latency, maxWaitTime, k + 1, Poller.NextInterval(interval), next)
      case Retry => WaitFrom(ticks, latency, maxWaitTime, k + 1, interval, next)
  }

  /** `wait_for_completion(operation_name, max_wait_time)`. */
  function Wait(env: Env, baseUrl: string, operationName: Json, maxWaitTime: int): Result<Option<Json>, Raised> {
    WaitFrom(Ticks(env.call, Poller.OperationUrl(baseUrl, operationName)), env.latency, maxWaitTime, 0,
             Config.InitialPollInterval, env.latency(0))
  }

  /** `wait_for_completion` on the script's service and clock. */
  method WaitForCompletion(env: Env, baseUrl: string, operationName: Json, maxWaitTime: int)
    returns (r: Result<Option<Json>, Raised>)
    ensures r == Wait(env, baseUrl, operationName, maxWaitTime)
  {
    r := WaitLoop(Ticks(env.call, Poller.OperationUrl(baseUrl, operationName)), env.latency, maxWaitTime);
  }

  /** The loop as the script runs it, tick by tick. The interval grows only
      after a tick that found the operation still running. */
  method WaitLoop(ticks: nat -> Tick, latency: nat -> Seconds, maxWaitTime: int) returns (r: Result<Option<Json>, Raised>)
    ensures r == WaitFrom(ticks, latency, maxWaitTime, 0, Config.InitialPollInterval, latency(0))
  {
    var k: nat := 0;
    var pollInterval := Config.InitialPollInterval;
    var elapsed: real := latency(0);
    while elapsed < maxWaitTime as real
      invariant Config.InitialPollInterval <= pollInterval <= Config.MaxPollInterval
      invariant elapsed >= 10.0 * k as real
      invariant WaitFrom(ticks, latency, maxWaitTime, k, pollInterval, elapsed)
        == WaitFrom(ticks, latency, maxWaitTime, 0, Config.InitialPollInterval, latency(0))
      decreases maxWaitTime - 10 * k
    {
      match ticks(k)
      case Found(uri) => return Ok(Some(uri));
      case Fails => return Ok(None);
      case Raise(e) => return Err(e);
      case Pending =>
        elapsed := elapsed + pollInterval + latency(k + 1);
        pollInterval := Poller.NextInterval(pollInterval);
        k := k + 1;
      case Retry =>
        elapsed := elapsed + pollInterval + latency(k + 1);
        k := k + 1;
    }
    DeadlineGivesNone(ticks, latency, maxWaitTime, k, pollInterval, elapsed);
    r := Ok(None);
  }

  /** After a request exception the next tick uses the same interval. */
  lemma RetryKeepsInterval(ticks: nat -> Tick, latency: nat -> Seconds, maxWaitTime: int, k: nat, interval: real, elapsed: real)
    requires Config.InitialPollInterval <= interval <= Config.MaxPollInterval
    requires 10.0 * k as real <= elapsed < maxWaitTime as real
    requires ticks(k) == Retry
    ensures WaitFrom(ticks, latency, maxWaitTime, k, interval, elapsed)
      == WaitFrom(ticks, latency, maxWaitTime, k + 1, interval, elapsed + interval + latency(k + 1))
  {
  }

  /** After a tick that found the operation running, the interval grows by
      the factor 1.2 up to 30 s. */
  lemma PendingGrowsInterval(ticks: nat -> Tick, latency: nat -> Seconds, maxWaitTime: int, k: nat, interval: real, elapsed: real)
    requires Config.InitialPollInterval <= interval <= Config.MaxPollInterval
    requires 10.0 * k as real <= elapsed < maxWaitTime as real
    requires ticks(k) == Pending
    ensures WaitFrom(ticks, latency, maxWaitTime, k, interval, elapsed)
      == WaitFrom(ticks, latency, maxWaitTime, k + 1, Poller.NextInterval(interval), elapsed + interval + latency(k + 1))
  {
  }

  /** Unlike the package's poller, a transport failure does not end the
      wait: the script retries it. */
  lemma TransportFailureIsRetried(env: Env, url: string, maxWaitTime: int, k: nat)
    requires Poller.Elapsed(env, k) < maxWaitTime as real
    requires env.call(GetUrl(url), k).Broken?
    ensures LegacyClassify(env.call(GetUrl(url), k)) == Retry
    ensures Poller.PollFrom(env, url, maxWaitTime, k) == Err(Transport(env.call(GetUrl(url), k).message))
  {
    Poller.TransportFailureEndsPolling(env, url, maxWaitTime, k);
  }

  /** The wait never raises a timeout. Once the deadline has passed it gives
      None, whatever the service would answer. */
  lemma DeadlineGivesNone(ticks: nat -> Tick, latency: nat -> Seconds, maxWaitTime: int, k: nat, interval: real, elapsed: real)
    requires Config.InitialPollInterval <= interval <= Config.MaxPollInterval
    requires elapsed >= 10.0 * k as real && elapsed >= maxWaitTime as real
    ensures WaitFrom(ticks, latency, maxWaitTime, k, interval, elapsed) == Ok(None)
  {
  }

  /** Raised errors come only from reading the body, never from a request:
      a wait that raises has received a decodable 2xx-or-3xx answer. */
  lemma {:induction false} WaitRaisesOnlyOnBodies(env: Env, url: string, maxWaitTime: int, k: nat, interval: real, elapsed: real)
    requires Config.InitialPollInterval <= interval <= Config.MaxPollInterval
    requires elapsed >= 10.0 * k as real
    ensures WaitFrom(Ticks(env.call, url), env.latency, maxWaitTime, k, interval, elapsed).Err? ==>
      exists j: nat :: j >= k && ReadableAnswer(env.call(GetUrl(url), j))
    decreases maxWaitTime - 10 * k
  {
    if elapsed < maxWaitTime as real {
      var call := env.call(GetUrl(url), k);
      var next := elapsed + interval + env.latency(k + 1);
      assert Ticks(env.call, url)(k) == LegacyClassify(call);
      match LegacyClassify(call)
      case Found(_) =>
      case Fails =>
      case Raise(_) =>
        assert ReadableAnswer(call);
      case Pending =>
        WaitRaisesOnlyOnBodies(env, url, maxWaitTime, k + 1, Poller.NextInterval(interval), next);
      case Retry =>
        WaitRaisesOnlyOnBodies(env, url, maxWaitTime, k + 1, interval, next);
    }
  }

  /** An answer whose body `requests` lets the script read. */
  predicate ReadableAnswer(call: Call) {
    call.Answered? && !IsHttpError(call.reply.status) && call.reply.body.JsonBody?
  }

  // ---------------------------------------------------------------------
  // Download
  // ---------------------------------------------------------------------

  /** What the script returns and the file system it leaves. */
  datatype Outcome = Outcome(result: Result<bool, Raised>, fs: FileSystem)

  /** `download_video(video_uri, output_filename)`. The URL is rewritten by
      the rule of `parse_video_uri`, which the script repeats inline.
      - A request exception before the body gives False and leaves the files
        alone.
      - A stream cut after the file was opened leaves the partial file.
      - An empty file is removed. */
  function LegacyDownload(env: Env, baseUrl: string, uri: Json, out: string, fs: FileSystem): (o: Outcome)
    ensures o.result == Ok(true) ==> out in o.fs && |o.fs[out]| > 0
    ensures o.result == Ok(true) ==> uri.JStr? && env.stream(Utils.ParseVideoUri(uri.s, baseUrl)).Opened?
    ensures o.result == Ok(true) ==> o.fs == fs[out := Concat(env.stream(Utils.ParseVideoUri(uri.s, baseUrl)).chunks)]
    ensures o.result == Ok(true) ==> !IsHttpError(env.stream(Utils.ParseVideoUri(uri.s, baseUrl)).status)
    ensures uri.JStr? && (var s := env.stream(Utils.ParseVideoUri(uri.s, baseUrl)); s.Refused? || IsHttpError(s.status))
      ==> o == Outcome(Ok(false), fs)
    ensures o.result.Err? ==> o.fs == fs && !uri.JStr?
    ensures o.fs.Keys <= fs.Keys + {out}
  {
    if !uri.JStr? then Outcome(Err(Downloader.NoStartswith(uri)), fs)
    else
      match env.stream(Utils.ParseVideoUri(uri.s, baseUrl))
      case Refused(_) => Outcome(Ok(false), fs)
      case Opened(status, _, chunks, cut) =>
        if IsHttpError(status) then Outcome(Ok(false), fs)
        else
          var written := fs[out := Concat(NonEmpty(chunks))];
          ConcatSkipsEmpty(chunks);
          if cut.Some? then Outcome(Ok(false), written)
          else if |written[out]| == 0 then Outcome(Ok(false), written - {out})
          else Outcome(Ok(true), written)
  }

  /** The download as the script runs it, with the chunk loop. */
  method DownloadVideo(env: Env, baseUrl: string, uri: Json, out: string, fs: FileSystem)
    returns (r: Result<bool, Raised>, fs': FileSystem)
    ensures Outcome(r, fs') == LegacyDownload(env, baseUrl, uri, out, fs)
  {
    fs' := fs;
    if !uri.JStr? {
      return Err(Downloader.NoStartswith(uri)), fs;
    }
    var stream := env.stream(Utils.ParseVideoUri(uri.s, baseUrl));
    if stream.Refused? || IsHttpError(stream.status) {
      return Ok(false), fs;
    }
    var downloadedSize;
    fs', downloadedSize := Downloader.WriteChunks(fs, out, stream.chunks);
    ConcatSkipsEmpty(stream.chunks);
    if stream.cut.Some? {
      return Ok(false), fs';
    }
    if |fs'[out]| > 0 {
      r := Ok(true);
    } else {
      r := Ok(false);
      fs' := fs' - {out};
    }
  }

  /** The script and the package fetch from the same URL. They disagree on
      a cut stream: the script keeps the partial file, the package removes
      it. */
  lemma CutStreamKeepsPartialFile(env: Env, baseUrl: string, uri: string, out: string, fs: FileSystem)
    requires var s := env.stream(Utils.ParseVideoUri(uri, baseUrl));
      s.Opened? && Is2xx(s.status) && s.cut.Some? && Concat(s.chunks) != []
    ensures var s := env.stream(Utils.ParseVideoUri(uri, baseUrl));
      LegacyDownload(env, baseUrl, JStr(uri), out, fs) == Outcome(Ok(false), fs[out := Concat(s.chunks)])
    ensures out !in Downloader.Download(env, baseUrl, JStr(uri), out, fs).fs
  {
    var s := env.stream(Utils.ParseVideoUri(uri, baseUrl));
    ConcatSkipsEmpty(s.chunks);
    Downloader.TransportFailureRemovesFile(env, baseUrl, uri, out, fs);
  }

  /** A body with no bytes leaves no file and gives False. */
  lemma EmptyBodyGivesFalse(env: Env, baseUrl: string, uri: string, out: string, fs: FileSystem)
    requires var s := env.stream(Utils.ParseVideoUri(uri, baseUrl));
      s.Opened? && !IsHttpError(s.status) && s.cut.None? && Concat(s.chunks) == []
    ensures LegacyDownload(env, baseUrl, JStr(uri), out, fs) == Outcome(Ok(false), fs - {out})
  {
    var s := env.stream(Utils.ParseVideoUri(uri, baseUrl));
    ConcatSkipsEmpty(s.chunks);
    assert fs[out := []] - {out} == fs - {out};
  }

  /** True exactly when a complete, non-empty body was written. */
  lemma DownloadTrueIffNonEmptyFile(env: Env, baseUrl: string, uri: string, out: string, fs: FileSystem)
    requires var s := env.stream(Utils.ParseVideoUri(uri, baseUrl));
      s.Opened? && !IsHttpError(s.status) && s.cut.None?
    ensures var o := LegacyDownload(env, baseUrl, JStr(uri), out, fs);
      (o.result == Ok(true)) <==> (out in o.fs && |o.fs[out]| > 0)
  {
    var s := env.stream(Utils.ParseVideoUri(uri, baseUrl));
    ConcatSkipsEmpty(s.chunks);
  }

  // ---------------------------------------------------------------------
  // The automatic file name
  // ---------------------------------------------------------------------

  /** The characters the script keeps in a file name. */
  predicate FilenameChar(c: char) {
    IsAlnum(c) || c == ' ' || c == '-' || c == '_'
  }

  /** The kept characters of a text, in order. */
  function KeepChars(s: string): (r: string)
    ensures |r| <= |s|
    ensures forall i :: 0 <= i < |r| ==> FilenameChar(r[i])
  {
    if s == [] then [] else (if FilenameChar(s[0]) then [s[0]] else []) + KeepChars(s[1..])
  }

  /** `str.isalnum()`: non-empty and every character alphanumeric. */
  predicate StrIsAlnum(s: string) {
    s != [] && forall i :: 0 <= i < |s| ==> IsAlnum(s[i])
  }

  /** The same generator over a list: each element must be a string, whose
      `isalnum` is asked first; a kept element is joined whole. */
  function KeepItems(items: seq<Json>): (r: Result<string, Raised>)
    ensures r.Ok? ==> forall i :: 0 <= i < |items| ==> items[i].JStr?
    ensures r.Err? ==> r.error.Builtin? && r.error.typeName == "AttributeError"
  {
    if items == [] then Ok([])
    else if !items[0].JStr? then
      Err(Builtin("AttributeError", "'" + TypeName(items[0]) + "' object has no attribute 'isalnum'"))
    else
      var rest := KeepItems(items[1..]);
      if rest.Err? then rest
      else
        var s := items[0].s;
        Ok((if StrIsAlnum(s) || s == " " || s == "-" || s == "_" then s else []) + rest.value)
  }

  /** `"".join(c for c in prompt.get("prompt", "video")[:30] if …)`. */
  function KeptPromptText(prompt: Json): (r: Result<string, Raised>)
    ensures r.Ok? ==> prompt.JObj?
    ensures prompt.JObj? && !HasKey(prompt.fields, "prompt") ==> r == Ok(KeepChars("video"))
    ensures prompt.JObj? && Get(prompt.fields, "prompt").Some? && Get(prompt.fields, "prompt").value.JStr? ==>
      r == Ok(KeepChars(Utils.PyPrefix(Get(prompt.fields, "prompt").value.s, 30)))
  {
    var text := DictGet(prompt, "prompt", JStr("video"));
    if text.Err? then Err(text.error)
    else match text.value
      case JStr(s) => Ok(KeepChars(Utils.PyPrefix(s, 30)))
      case JList(xs) => KeepItems(if |xs| <= 30 then xs else xs[..30])
      case JObj(_) => Err(Builtin("TypeError", "unhashable type: 'slice'"))
      case _ => Err(Builtin("TypeError", "'" + TypeName(text.value) + "' object is not subscriptable"))
  }

  /** `.rstrip()` then `.replace(' ', '_')`. */
  function SafeText(kept: string): string {
    ReplaceAll(StripRight(kept, IsSpace), " ", "_")
  }

  /** `"image_to_video" if "image" in prompt else "text_to_video"`. */
  function Mode(fields: Fields): string {
    if HasKey(fields, "image") then "image_to_video" else "text_to_video"
  }

  /** `f"veo_{mode}_{safe_prompt}_{timestamp}.mp4"`. */
  function AutoFilename(prompt: Json, stamp: int): (r: Result<string, Raised>)
    ensures r.Ok? <==> prompt.JObj? && KeptPromptText(prompt).Ok?
    ensures r.Ok? ==> StartsWith(r.value, "veo_") && EndsWith(r.value, ".mp4")
  {
    var kept := KeptPromptText(prompt);
    if kept.Err? then Err(kept.error)
    else
      var name := "veo_" + Mode(prompt.fields) + "_" + SafeText(kept.value) + "_" + IntToDecimal(stamp) + ".mp4";
      assert name[..4] == "veo_";
      Ok(name)
  }

  /** Replacing every space changes no length: runs are not collapsed, unlike
      the package's sanitizer. */
  lemma {:induction false} ReplaceSpaces(s: string)
    ensures |ReplaceAll(s, " ", "_")| == |s|
    ensures forall i :: 0 <= i < |s| ==> ReplaceAll(s, " ", "_")[i] == (if s[i] == ' ' then '_' else s[i])
    decreases |s|
  {
    if |s| >= 1 {
      ReplaceSpaces(s[1..]);
      var rest := ReplaceAll(s[1..], " ", "_");
      if s[..1] == " " {
        assert ReplaceAll(s, " ", "_") == "_" + rest;
      } else {
        assert ReplaceAll(s, " ", "_") == [s[0]] + rest;
      }
    }
  }

  /** The safe part holds only alphanumerics, `-` and `_`, and it is as long
      as the kept text without its trailing spaces. */
  lemma SafeTextChars(kept: string)
    requires forall i :: 0 <= i < |kept| ==> FilenameChar(kept[i])
    ensures |SafeText(kept)| == |StripRight(kept, IsSpace)| <= |kept|
    ensures forall i :: 0 <= i < |SafeText(kept)| ==>
      IsAlnum(SafeText(kept)[i]) || SafeText(kept)[i] == '-' || SafeText(kept)[i] == '_'
  {
    var stripped := StripRight(kept, IsSpace);
    ReplaceSpaces(stripped);
    forall i | 0 <= i < |stripped| ensures FilenameChar(stripped[i]) {
      assert stripped[i] == kept[i];
    }
  }

  /** The name of a dict whose `prompt` is a string: its mode, then the safe
      part of that string. */
  lemma AutoFilenameOfText(prompt: Json, text: string, stamp: int)
    requires prompt.JObj? && Get(prompt.fields, "prompt") == Some(JStr(text))
    ensures AutoFilename(prompt, stamp)
      == Ok("veo_" + Mode(prompt.fields) + "_" + SafeText(KeepChars(Utils.PyPrefix(text, 30))) + "_" + IntToDecimal(stamp) + ".mp4")
  {
    assert KeptPromptText(prompt) == Ok(KeepChars(Utils.PyPrefix(text, 30)));
  }

  /** A built text prompt names a text-to-video file after its text. */
  lemma TextPromptFilename(text: string, aspectRatio: string, duration: string, stamp: int)
    ensures var prompt := TextPrompt(text, aspectRatio, duration);
      && Mode(prompt.fields) == "text_to_video"
      && AutoFilename(prompt, stamp)
        == Ok("veo_" + Mode(prompt.fields) + "_" + SafeText(KeepChars(Utils.PyPrefix(text, 30))) + "_" + IntToDecimal(stamp) + ".mp4")
  {
    var prompt := TextPrompt(text, aspectRatio, duration);
    assert "image"[0] != "prompt"[0] && "image"[0] != "aspectRatio"[0] && "image"[0] != "duration"[0];
    GetAt(prompt.fields, "prompt", 0);
    assert !HasKey(prompt.fields, "image");
    AutoFilenameOfText(prompt, text, stamp);
  }

  /** A built image prompt names an image-to-video file after its text. */
  lemma ImagePromptFilename(text: string, imageUri: Json, aspectRatio: string, duration: string, stamp: int)
    ensures var prompt := ImagePrompt(text, imageUri, aspectRatio, duration);
      && Mode(prompt.fields) == "image_to_video"
      && AutoFilename(prompt, stamp)
        == Ok("veo_" + Mode(prompt.fields) + "_" + SafeText(KeepChars(Utils.PyPrefix(text, 30))) + "_" + IntToDecimal(stamp) + ".mp4")
  {
    AutoFilenameOfText(ImagePrompt(text, imageUri, aspectRatio, duration), text, stamp);
  }

  // ---------------------------------------------------------------------
  // The workflow
  // ---------------------------------------------------------------------

  /** The prompt dict the workflow sends: the given one unchanged, else one
      built from the text. Image inputs make it an image-to-video prompt. */
  function BuildPrompt(env: Env, baseUrl: string, prompt: Option<Json>, textPrompt: Option<string>, imagePath: Option<string>,
                       imageUri: Option<string>, aspectRatio: string, duration: string, fs: FileSystem): (r: Option<Json>)
    ensures prompt.Some? ==> r == prompt
    ensures prompt.None? && textPrompt.None? ==> r.None?
    ensures prompt.None? && textPrompt.Some? && !StrTruthy(imagePath) && !StrTruthy(imageUri) ==>
      r == Some(TextPrompt(textPrompt.value, aspectRatio, duration))
  {
    if prompt.Some? then prompt
    else if textPrompt.None? then None
    else if StrTruthy(imagePath) || StrTruthy(imageUri) then
      PrepareImagePrompt(env, baseUrl, textPrompt.value, imagePath, imageUri, aspectRatio, duration, fs)
    else Some(TextPrompt(textPrompt.value, aspectRatio, duration))
  }

  /** `generate_and_download`: build the prompt, name the file, then generate,
      wait and download, stopping at the first step that yields nothing.
      `stamp` is the clock reading the automatic name uses. */
  function GenerateAndDownload(env: Env, baseUrl: string, prompt: Option<Json>, textPrompt: Option<string>,
                               imagePath: Option<string>, imageUri: Option<string>, aspectRatio: string,
                               duration: string, outputFilename: Option<string>, stamp: int, fs: FileSystem)
    : (o: Outcome)
    ensures o.result == Ok(true) ==>
      && var p := BuildPrompt(env, baseUrl, prompt, textPrompt, imagePath, imageUri, aspectRatio, duration, fs);
      && p.Some?
      && (outputFilename.None? ==> AutoFilename(p.value, stamp).Ok?)
      && var out := if outputFilename.Some? then outputFilename.value else AutoFilename(p.value, stamp).value;
      && out in o.fs && |o.fs[out]| > 0
    ensures o.result != Ok(true) && o.fs != fs ==> o.result == Ok(false)
  {
    var p := BuildPrompt(env, baseUrl, prompt, textPrompt, imagePath, imageUri, aspectRatio, duration, fs);
    if p.None? then Outcome(Ok(false), fs)
    else
      var out := if outputFilename.Some? then Ok(outputFilename.value) else AutoFilename(p.value, stamp);
      if out.Err? then Outcome(Err(out.error), fs)
      else
        var image := Contains(p.value, "image");
        if image.Err? then Outcome(Err(image.error), fs)
        else Pipeline(env, baseUrl, p.value, out.value, fs)
  }

  /** Generate, wait with the default limit, download. */
  function Pipeline(env: Env, baseUrl: string, prompt: Json, out: string, fs: FileSystem): (o: Outcome)
    ensures o.result == Ok(true) ==> out in o.fs && |o.fs[out]| > 0
    ensures o.result != Ok(true) && o.fs != fs ==> o.result == Ok(false)
  {
    var name := LegacySubmit(env, baseUrl, prompt);
    if name.Err? then Outcome(Err(name.error), fs)
    else if name.value.None? then Outcome(Ok(false), fs)
    else
      var uri := Wait(env, baseUrl, name.value.value, Config.DefaultMaxWaitTime);
      if uri.Err? then Outcome(Err(uri.error), fs)
      else if uri.value.None? || !Truthy(uri.value.value) then Outcome(Ok(false), fs)
      else LegacyDownload(env, baseUrl, uri.value.value, out, fs)
  }

  /** A given prompt dict is sent unchanged: the text, image and format
      arguments play no part. */
  lemma GivenPromptUsedUnchanged(env: Env, baseUrl: string, prompt: Json, t1: Option<string>, t2: Option<string>,
                                 p1: Option<string>, p2: Option<string>, u1: Option<string>, u2: Option<string>,
                                 a1: string, a2: string, d1: string, d2: string, outputFilename: Option<string>,
                                 stamp: int, fs: FileSystem)
    ensures GenerateAndDownload(env, baseUrl, Some(prompt), t1, p1, u1, a1, d1, outputFilename, stamp, fs)
      == GenerateAndDownload(env, baseUrl, Some(prompt), t2, p2, u2, a2, d2, outputFilename, stamp, fs)
  {
  }

  /** Without a prompt dict or a text the workflow gives False at once. */
  lemma NoPromptGivesFalse(env: Env, baseUrl: string, imagePath: Option<string>, imageUri: Option<string>,
                           aspectRatio: string, duration: string, outputFilename: Option<string>, stamp: int, fs: FileSystem)
    ensures GenerateAndDownload(env, baseUrl, None, None, imagePath, imageUri, aspectRatio, duration, outputFilename, stamp, fs)
      == Outcome(Ok(false), fs)
  {
  }

  /** Without an operation name there is no polling and no download. */
  lemma NoNameStopsBeforePolling(env1: Env, env2: Env, baseUrl: string, prompt: Json, out: string, fs: FileSystem)
    requires env1.call == env2.call
    requires LegacySubmit(env1, baseUrl, prompt) == Ok(None)
    ensures Pipeline(env1, baseUrl, prompt, out, fs) == Outcome(Ok(false), fs) == Pipeline(env2, baseUrl, prompt, out, fs)
  {
  }

  /** Without a video URI there is no download. */
  lemma NoUriStopsBeforeDownload(env1: Env, env2: Env, baseUrl: string, prompt: Json, out: string, fs: FileSystem)
    requires env1.call == env2.call && env1.latency == env2.latency
    requires var name := LegacySubmit(env1, baseUrl, prompt);
      name.Ok? && name.value.Some? && Wait(env1, baseUrl, name.value.value, Config.DefaultMaxWaitTime) == Ok(None)
    ensures Pipeline(env1, baseUrl, prompt, out, fs) == Outcome(Ok(false), fs) == Pipeline(env2, baseUrl, prompt, out, fs)
  {
    var name := LegacySubmit(env1, baseUrl, prompt);
    assert LegacySubmit(env2, baseUrl, prompt) == name;
  }

  /** The wait from the k-th tick reads only what the ticks from k on
      decide and the time they take. */
  lemma {:induction false} WaitReadsLaterTicks(t1: nat -> Tick, t2: nat -> Tick, latency1: nat -> Seconds,
                                               latency2: nat -> Seconds, maxWaitTime: int, k: nat,
                                               interval: real, elapsed: real)
    requires forall j: nat :: j >= k ==> t1(j) == t2(j) && latency1(j + 1) == latency2(j + 1)
    requires Config.InitialPollInterval <= interval <= Config.MaxPollInterval
    requires elapsed >= 10.0 * k as real
    ensures WaitFrom(t1, latency1, maxWaitTime, k, interval, elapsed)
      == WaitFrom(t2, latency2, maxWaitTime, k, interval, elapsed)
    decreases maxWaitTime - 10 * k
  {
    if elapsed < maxWaitTime as real {
      var next := elapsed + interval + latency1(k + 1);
      assert t1(k) == t2(k) && latency1(k + 1) == latency2(k + 1);
      match t1(k)
      case Found(_) =>
      case Fails =>
      case Raise(_) =>
      case Pending =>
        WaitReadsLaterTicks(t1, t2, latency1, latency2, maxWaitTime, k + 1, Poller.NextInterval(interval), next);
      case Retry =>
        WaitReadsLaterTicks(t1, t2, latency1, latency2, maxWaitTime, k + 1, interval, next);
    }
  }
}
