/** Fetching the finished video (VeoVideoGenerator._download_video): the URI
    is rewritten for the proxy, the streamed chunks are written in order, an
    empty file is deleted, and every failure becomes a DownloadError. */
module Downloader {
  import opened PyValues
  import opened PyText
  import opened Exceptions
  import opened Environment
  import Utils

  /** `video_uri.startswith(…)` on a value that is not a string. */
  function NoStartswith(uri: Json): Raised {
    Builtin("AttributeError", "'" + TypeName(uri) + "' object has no attribute 'startswith'")
  }

  /** The DownloadError of the generic handler, which wraps any other error. */
  function Wrapped(message: string, uri: string): Raised {
    Package(DownloadErr("Download failed: " + message, Some(uri), None))
  }

  /** What the download returns and the file system it leaves. */
  datatype Outcome = Outcome(result: Result<string, Raised>, fs: FileSystem)

  /** `_download_video` on the outcome of the stream of the rewritten URL. */
  function Download(env: Env, baseUrl: string, uri: Json, out: string, fs: FileSystem): (o: Outcome)
    ensures o.result.Ok? ==> o.result.value == out && out in o.fs && |o.fs[out]| > 0
    ensures o.result.Ok? ==> uri.JStr? && env.stream(Utils.ParseVideoUri(uri.s, baseUrl)).Opened?
    ensures o.result.Ok? ==> o.fs == fs[out := Concat(env.stream(Utils.ParseVideoUri(uri.s, baseUrl)).chunks)]
    ensures o.result.Err? && o.result.error.Package? ==> o.result.error.error.kind.DownloadError?
    ensures uri.JStr? && o.result.Err? ==> o.result.error.Package? && o.result.error.error.kind.DownloadError?
    ensures o.fs.Keys <= fs.Keys + {out}
    ensures forall p :: p in fs && p != out ==> p in o.fs && o.fs[p] == fs[p]
  {
    if !uri.JStr? then Outcome(Err(NoStartswith(uri)), fs)
    else
      var url := Utils.ParseVideoUri(uri.s, baseUrl);
      match env.stream(url)
      case Refused(m) => Outcome(Err(Wrapped(m, uri.s)), fs - {out})
      case Opened(status, _, chunks, cut) =>
        if !Is2xx(status) then
          Outcome(Err(Package(DownloadErr("Download failed with status " + IntToDecimal(status), Some(uri.s), None))), fs)
        else
          var written := fs[out := Concat(NonEmpty(chunks))];
          ConcatSkipsEmpty(chunks);
          if cut.Some? then Outcome(Err(Wrapped(cut.value, uri.s)), written - {out})
          else if |written[out]| == 0 then
            Outcome(Err(Wrapped(Str(DownloadErr("Downloaded file is empty", Some(uri.s), None)), uri.s)), written - {out})
          else Outcome(Ok(out), written)
  }

  /** The method as the source runs it: the file is opened (emptied), each
      non-empty chunk is appended and counted, then the result is checked. */
  method DownloadVideo(env: Env, baseUrl: string, uri: Json, out: string, fs: FileSystem)
    returns (r: Result<string, Raised>, fs': FileSystem, downloadedBytes: nat)
    ensures Outcome(r, fs') == Download(env, baseUrl, uri, out, fs)
    ensures r.Ok? ==> downloadedBytes == |fs'[out]|
  {
    fs' := fs;
    downloadedBytes := 0;
    if !uri.JStr? {
      r := Err(NoStartswith(uri));
      return;
    }
    var url := Utils.ParseVideoUri(uri.s, baseUrl);
    var stream := env.stream(url);
    if stream.Refused? {
      fs' := fs - {out};
      r := Err(Wrapped(stream.message, uri.s));
      return;
    }
    if !Is2xx(stream.status) {
      r := Err(Package(DownloadErr("Download failed with status " + IntToDecimal(stream.status), Some(uri.s), None)));
      return;
    }
    fs', downloadedBytes := WriteChunks(fs, out, stream.chunks);
    ConcatSkipsEmpty(stream.chunks);
    if stream.cut.Some? {
      fs' := fs' - {out};
      r := Err(Wrapped(stream.cut.value, uri.s));
      return;
    }
    if |fs'[out]| == 0 {
      fs' := fs' - {out};
      r := Err(Wrapped(Str(DownloadErr("Downloaded file is empty", Some(uri.s), None)), uri.s));
      return;
    }
    r := Ok(out);
  }

  /** `open(out, "wb")` and the chunk loop: the file holds the non-empty
      chunks in order and the count is its length. */
  method WriteChunks(fs: FileSystem, out: string, chunks: seq<seq<byte>>)
    returns (fs': FileSystem, downloadedBytes: nat)
    ensures fs' == fs[out := Concat(NonEmpty(chunks))]
    ensures downloadedBytes == |Concat(chunks)|
  {
    fs' := fs[out := []];
    downloadedBytes := 0;
    for i := 0 to |chunks|
      invariant fs' == fs[out := Concat(NonEmpty(chunks[..i]))]
      invariant downloadedBytes == |fs'[out]|
    {
      WriteStep(chunks, i);
      if chunks[i] != [] {
        fs' := fs'[out := fs'[out] + chunks[i]];
        downloadedBytes := downloadedBytes + |chunks[i]|;
      }
    }
    assert chunks[..|chunks|] == chunks;
    ConcatSkipsEmpty(chunks);
  }

  /** Writing chunk i, or skipping it when it is empty, extends the file by
      that chunk. */
  lemma WriteStep(chunks: seq<seq<byte>>, i: nat)
    requires i < |chunks|
    ensures Concat(NonEmpty(chunks[..i + 1])) == Concat(NonEmpty(chunks[..i])) + chunks[i]
    ensures chunks[i] == [] ==> Concat(NonEmpty(chunks[..i + 1])) == Concat(NonEmpty(chunks[..i]))
  {
    var before := NonEmpty(chunks[..i]);
    assert chunks[..i + 1] == chunks[..i] + [chunks[i]];
    NonEmptyAppend(chunks[..i], chunks[i]);
    if chunks[i] != [] {
      ConcatAppend(before, chunks[i]);
    } else {
      assert before + [] == before;
      assert Concat(before) + chunks[i] == Concat(before);
    }
  }

  lemma ConcatAppend(chunks: seq<seq<byte>>, c: seq<byte>)
    ensures Concat(chunks + [c]) == Concat(chunks) + c
  {
    assert (chunks + [c])[..|chunks|] == chunks;
  }

  /** An empty body leaves no file behind, and the error message says the file
      was empty, with the URI in its details. */
  lemma EmptyBodyRemovesFile(env: Env, baseUrl: string, uri: string, out: string, fs: FileSystem)
    requires var s := env.stream(Utils.ParseVideoUri(uri, baseUrl));
      s.Opened? && Is2xx(s.status) && s.cut.None? && Concat(s.chunks) == []
    ensures var o := Download(env, baseUrl, JStr(uri), out, fs);
      o.fs == fs - {out}
      && o.result == Err(Wrapped(Str(DownloadErr("Downloaded file is empty", Some(uri), None)), uri))
  {
    var s := env.stream(Utils.ParseVideoUri(uri, baseUrl));
    ConcatSkipsEmpty(s.chunks);
    var written := fs[out := Concat(NonEmpty(s.chunks))];
    assert written - {out} == fs - {out};
  }

  /** A rejected status leaves the file system as it was, even a file already
      at the output path. */
  lemma RejectedStatusKeepsFiles(env: Env, baseUrl: string, uri: string, out: string, fs: FileSystem)
    requires env.stream(Utils.ParseVideoUri(uri, baseUrl)).Opened?
    requires !Is2xx(env.stream(Utils.ParseVideoUri(uri, baseUrl)).status)
    ensures Download(env, baseUrl, JStr(uri), out, fs).fs == fs
    ensures Download(env, baseUrl, JStr(uri), out, fs).result.Err?
  {
  }

  /** A transport failure, before or during the stream, removes whatever is at
      the output path. */
  lemma TransportFailureRemovesFile(env: Env, baseUrl: string, uri: string, out: string, fs: FileSystem)
    requires var s := env.stream(Utils.ParseVideoUri(uri, baseUrl));
      s.Refused? || (Is2xx(s.status) && s.cut.Some?)
    ensures var o := Download(env, baseUrl, JStr(uri), out, fs);
      out !in o.fs && o.result.Err? && o.fs == fs - {out}
  {
    var s := env.stream(Utils.ParseVideoUri(uri, baseUrl));
    if s.Opened? {
      var written := fs[out := Concat(NonEmpty(s.chunks))];
      assert written - {out} == fs - {out};
    }
  }

  /** A file the download leaves at the output path is never empty. */
  lemma NoEmptyFileLeft(env: Env, baseUrl: string, uri: Json, out: string, fs: FileSystem)
    requires out !in fs
    ensures var o := Download(env, baseUrl, uri, out, fs);
      out in o.fs ==> o.result.Ok? && |o.fs[out]| > 0
  {
  }
}
