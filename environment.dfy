/** The world the workflow talks to, as values: a scripted HTTP service, the
    time that passes besides the deliberate sleeps, and a file system mapping
    paths to their bytes. */
module Environment {
  import opened PyValues

  newtype byte = x: int | 0 <= x < 256

  /** Files by path. Directories are not modelled. */
  type FileSystem = map<string, seq<byte>>

  /** A non-negative duration in seconds. */
  type Seconds = r: real | r >= 0.0

  /** A response body: decoded JSON, or text that `json()` cannot decode (with
      the decoder's error message). */
  datatype Body = JsonBody(json: Json) | RawBody(text: string, decodeError: string)

  /** A response: its status, its body and the text `raise_for_status` puts in
      the exception it raises for this status. */
  datatype Reply = Reply(status: int, body: Body, statusError: string)

  /** A request either gets a response or fails in transport (connection,
      timeout), with the transport error's text. */
  datatype Call = Answered(reply: Reply) | Broken(message: string)

  /** A streamed download: refused in transport, or opened with a status, the
      chunks the body arrives in, and possibly a transport error after them. */
  datatype Stream =
    | Refused(message: string)
    | Opened(status: int, statusError: string, chunks: seq<seq<byte>>, cut: Option<string>)

  datatype Request =
    | PostJson(url: string, payload: Json)
    | PostFile(url: string, fileName: string, data: seq<byte>)
    | GetUrl(url: string)

  /** `call(q, n)` answers the n-th issue (from 0) of request q; `latency(k)` is
      the time the k-th poll tick spends besides its sleep; `mimeType` is what
      `mimetypes.guess_type` gives for a path. */
  datatype Env = Env(
    call: (Request, nat) -> Call,
    stream: string -> Stream,
    latency: nat -> Seconds,
    mimeType: string -> Option<string>)

  /** httpx's `raise_for_status` raises for every status outside 2xx. */
  predicate Is2xx(status: int) {
    200 <= status < 300
  }

  /** requests' `raise_for_status` raises for 4xx and 5xx only. */
  predicate IsHttpError(status: int) {
    400 <= status < 600
  }

  /** The concatenation of the chunks. */
  function Concat(chunks: seq<seq<byte>>): (r: seq<byte>)
    ensures |chunks| == 0 ==> r == []
  {
    if chunks == [] then [] else Concat(chunks[..|chunks| - 1]) + chunks[|chunks| - 1]
  }

  /** Empty chunks add nothing to the concatenation. */
  lemma {:induction false} ConcatSkipsEmpty(chunks: seq<seq<byte>>)
    ensures Concat(chunks) == Concat(NonEmpty(chunks))
    decreases |chunks|
  {
    if chunks != [] {
      var init := chunks[..|chunks| - 1];
      ConcatSkipsEmpty(init);
      var last := chunks[|chunks| - 1];
      assert chunks == init + [last];
      NonEmptyAppend(init, last);
      if last == [] {
        assert NonEmpty(chunks) == NonEmpty(init);
        assert Concat(chunks) == Concat(init) + [] == Concat(init);
      } else {
        var ne := NonEmpty(init) + [last];
        assert ne[..|ne| - 1] == NonEmpty(init);
      }
    }
  }

  /** The chunks that are not empty, in order. */
  function NonEmpty(chunks: seq<seq<byte>>): (r: seq<seq<byte>>)
    ensures |r| <= |chunks|
    ensures forall i :: 0 <= i < |r| ==> r[i] != []
  {
    if chunks == [] then []
    else if chunks[0] == [] then NonEmpty(chunks[1..])
    else [chunks[0]] + NonEmpty(chunks[1..])
  }

  lemma {:induction false} NonEmptyAppend(chunks: seq<seq<byte>>, last: seq<byte>)
    ensures NonEmpty(chunks + [last]) == NonEmpty(chunks) + (if last == [] then [] else [last])
    decreases |chunks|
  {
    if chunks == [] {
      assert chunks + [last] == [last];
      assert [last][1..] == [];
    } else {
      assert (chunks + [last])[1..] == chunks[1..] + [last];
      NonEmptyAppend(chunks[1..], last);
    }
  }
}
