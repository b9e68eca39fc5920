/** The records of video_generation/models.py: the validated request, the
    status of one operation, the outcome of one job, the aggregate of a batch
    and the progress of a download. */
module Models {
  import opened PyValues
  import opened PyText
  import opened Environment
  import Utils
  import Config

  // ---------------------------------------------------------------------
  // VideoStatus
  // ---------------------------------------------------------------------

  datatype VideoStatus = Pending | Processing | Completed | Failed | TimedOut

  /** The enum's string value. */
  function StatusValue(s: VideoStatus): string {
    match s
    case Pending => "pending"
    case Processing => "processing"
    case Completed => "completed"
    case Failed => "failed"
    case TimedOut => "timeout"
  }

  /** The five values are distinct, so the stored value determines the status. */
  lemma StatusValueInjective(a: VideoStatus, b: VideoStatus)
    ensures StatusValue(a) == StatusValue(b) ==> a == b
  {
    assert "pending"[0] != "processing"[1];
    assert "completed"[0] != "failed"[0] && "failed"[0] != "timeout"[0];
    assert "pending"[0] != "completed"[0] && "pending"[0] != "failed"[0] && "pending"[0] != "timeout"[0];
    assert "completed"[0] != "timeout"[0];
  }

  // ---------------------------------------------------------------------
  // Paths
  // ---------------------------------------------------------------------

  /** `s.rfind(c)`: the last index holding c, or -1. */
  function RFind(s: string, c: char): (i: int)
    ensures -1 <= i < |s|
    ensures i >= 0 ==> s[i] == c
    ensures forall k :: i < k < |s| ==> s[k] != c
  {
    if s == [] then -1
    else if s[|s| - 1] == c then |s| - 1
    else RFind(s[..|s| - 1], c)
  }

  /** `Path(p).name`: the text after the last `/`. */
  function PathName(p: string): (r: string)
    ensures EndsWith(p, r)
    ensures forall k :: 0 <= k < |r| ==> r[k] != '/'
  {
    p[RFind(p, '/') + 1..]
  }

  /** `Path(p).suffix`: from the last `.` of the name, provided that dot is
      neither the name's first nor its last character. */
  function Suffix(p: string): (r: string)
    ensures r != [] ==> r[0] == '.' && 2 <= |r| < |PathName(p)| && EndsWith(PathName(p), r)
    ensures forall k :: 1 <= k < |r| ==> r[k] != '.' && r[k] != '/'
  {
    var name := PathName(p);
    var i := RFind(name, '.');
    if 0 < i < |name| - 1 then name[i..] else ""
  }

  /** An extension of plain characters appended to a non-empty name is that
      name's suffix. */
  lemma SuffixOfAppendedExtension(dir: string, stem: string, ext: string)
    requires stem != [] && stem[0] != '.'
    requires forall k :: 0 <= k < |stem| ==> stem[k] != '/'
    requires |ext| >= 2 && ext[0] == '.'
    requires forall k :: 1 <= k < |ext| ==> ext[k] != '.' && ext[k] != '/'
    ensures Suffix(dir + "/" + stem + ext) == ext
  {
    var head, tail := dir + "/", stem + ext;
    assert dir + "/" + stem + ext == head + tail;
    forall k | 0 <= k < |tail| ensures tail[k] != '/' {
      if k < |stem| { assert tail[k] == stem[k]; } else { assert tail[k] == ext[k - |stem|]; }
    }
    LastSlash(head, tail);
    LastDot(stem, ext);
    assert tail[|stem|..] == ext;
  }

  /** A position holding c with no c after it is what `rfind` finds. */
  lemma {:induction false} RFindAt(s: string, c: char, i: nat)
    requires i < |s| && s[i] == c
    requires forall k :: i < k < |s| ==> s[k] != c
    ensures RFind(s, c) == i
    decreases |s|
  {
    if i < |s| - 1 {
      var t := s[..|s| - 1];
      assert t[i] == c;
      RFindAt(t, c, i);
    }
  }

  /** Nothing after the `/` that ends the head is a `/`, so the tail is the
      last path component. */
  lemma LastSlash(head: string, tail: string)
    requires head != [] && head[|head| - 1] == '/'
    requires forall k :: 0 <= k < |tail| ==> tail[k] != '/'
    ensures PathName(head + tail) == tail
  {
    var p := head + tail;
    forall k | |head| - 1 < k < |p| ensures p[k] != '/' {
      assert p[k] == tail[k - |head|];
    }
    RFindAt(p, '/', |head| - 1);
    assert p[|head|..] == tail;
  }

  /** The `.` that starts the extension is the name's last `.`. */
  lemma LastDot(stem: string, ext: string)
    requires stem != [] && stem[0] != '.'
    requires |ext| >= 2 && ext[0] == '.'
    requires forall k :: 1 <= k < |ext| ==> ext[k] != '.'
    ensures RFind(stem + ext, '.') == |stem|
  {
    var name := stem + ext;
    var dot := |stem|;
    assert name[dot] == '.';
    forall k | dot < k < |name| ensures name[k] != '.' {
      assert name[k] == ext[k - dot];
    }
    RFindAt(name, '.', dot);
  }

  // ---------------------------------------------------------------------
  // VideoRequest
  // ---------------------------------------------------------------------

  const RequestPromptMaxLength: nat := 2000

  const PromptTooShort: string := "String should have at least 1 character"
  const PromptTooLong: string := "String should have at most 2000 characters"
  const PromptBlank: string := "Value error, Prompt cannot be empty or whitespace"
  const OutputNotMp4: string := "Value error, Output file must have .mp4 extension"
  const ImageMissingPrefix: string := "Value error, Image file does not exist: "
  const ImageBadExtension: string :=
    "Value error, Image file must have one of these extensions: {'.jpg', '.jpeg', '.png', '.gif', '.bmp', '.webp'}"

  const ImageSuffixes: seq<string> := [".jpg", ".jpeg", ".png", ".gif", ".bmp", ".webp"]

  /** One entry of a pydantic validation error: the field and the message. */
  datatype FieldError = FieldError(field: string, message: string)

  datatype VideoRequest = VideoRequest(prompt: string, model: string, outputPath: Option<string>, imagePath: Option<string>)

  /** The prompt field: the length constraints on the raw text run first, then
      the validator, which stores the stripped text. */
  function CheckPrompt(v: string): (r: Result<string, string>)
    ensures r.Ok? <==> 1 <= |v| <= RequestPromptMaxLength && StripSpace(v) != []
    ensures r.Ok? ==> r.value == StripSpace(v) && 1 <= |r.value| <= |v|
    ensures |v| < 1 ==> r == Err(PromptTooShort)
    ensures |v| > RequestPromptMaxLength ==> r == Err(PromptTooLong)
    ensures 1 <= |v| <= RequestPromptMaxLength && StripSpace(v) == [] ==> r == Err(PromptBlank)
  {
    if |v| < 1 then Err(PromptTooShort)
    else if |v| > RequestPromptMaxLength then Err(PromptTooLong)
    else if StripSpace(v) == [] then Err(PromptBlank)
    else Ok(StripSpace(v))
  }

  /** The output path: absent, or with a suffix that lower-cases to `.mp4`. */
  function CheckOutputPath(v: Option<string>): (r: Result<Option<string>, string>)
    ensures r.Ok? <==> v.None? || Lower(Suffix(v.value)) == ".mp4"
    ensures r.Ok? ==> r.value == v
    ensures r.Err? ==> r.error == OutputNotMp4
  {
    if v.Some? && Lower(Suffix(v.value)) != ".mp4" then Err(OutputNotMp4) else Ok(v)
  }

  /** The image path: absent, or an existing file with an image suffix;
      existence is checked first. */
  function CheckImagePath(v: Option<string>, fs: FileSystem): (r: Result<Option<string>, string>)
    ensures r.Ok? <==> v.None? || (v.value in fs && Lower(Suffix(v.value)) in ImageSuffixes)
    ensures r.Ok? ==> r.value == v
    ensures v.Some? && v.value !in fs ==> r == Err(ImageMissingPrefix + v.value)
    ensures v.Some? && v.value in fs && r.Err? ==> r.error == ImageBadExtension
  {
    if v.None? then Ok(v)
    else if v.value !in fs then Err(ImageMissingPrefix + v.value)
    else if Lower(Suffix(v.value)) !in ImageSuffixes then Err(ImageBadExtension)
    else Ok(v)
  }

  /** The field's error, if its check failed. */
  function ErrorsOf<T>(field: string, r: Result<T, string>): (es: seq<FieldError>)
    ensures es == [] <==> r.Ok?
  {
    if r.Ok? then [] else [FieldError(field, r.error)]
  }

  /** `VideoRequest(prompt=…, output_path=…, image_path=…)`: every field is
      checked, and the errors are reported in field order. */
  function NewVideoRequest(prompt: string, outputPath: Option<string>, imagePath: Option<string>, fs: FileSystem)
    : (r: Result<VideoRequest, seq<FieldError>>)
    ensures r.Ok? <==> CheckPrompt(prompt).Ok? && CheckOutputPath(outputPath).Ok? && CheckImagePath(imagePath, fs).Ok?
    ensures r.Ok? ==> r.value == VideoRequest(StripSpace(prompt), Config.DefaultModel, outputPath, imagePath)
    ensures r.Err? ==> r.error != []
    ensures r.Err? ==> r.error == ErrorsOf("prompt", CheckPrompt(prompt)) + ErrorsOf("output_path", CheckOutputPath(outputPath)) + ErrorsOf("image_path", CheckImagePath(imagePath, fs))
  {
    var p, o, i := CheckPrompt(prompt), CheckOutputPath(outputPath), CheckImagePath(imagePath, fs);
    if p.Ok? && o.Ok? && i.Ok? then Ok(VideoRequest(p.value, Config.DefaultModel, o.value, i.value))
    else Err(ErrorsOf("prompt", p) + ErrorsOf("output_path", o) + ErrorsOf("image_path", i))
  }

  /** The `str` of a pydantic ValidationError: a count line naming the model,
      then each field with its message. */
  function ValidationText(model: string, errors: seq<FieldError>): string {
    IntToDecimal(|errors|) + " validation error" + (if |errors| == 1 then "" else "s") + " for " + model
    + ErrorLines(errors)
  }

  function ErrorLines(errors: seq<FieldError>): string {
    if errors == [] then ""
    else "\n" + errors[0].field + "\n  " + errors[0].message + ErrorLines(errors[1..])
  }

  /** Text with nothing to strip at either end. */
  predicate Stripped(s: string) {
    s == [] || (!IsSpace(s[0]) && !IsSpace(s[|s| - 1]))
  }

  lemma StripSpaceIsStripped(s: string)
    ensures Stripped(StripSpace(s))
  {
    var l := StripLeft(s, IsSpace);
    var r := StripRight(l, IsSpace);
    if r != [] {
      assert r[0] == l[0];
    }
  }

  /** Stripping twice strips nothing more. */
  lemma StripSpaceIdempotent(s: string)
    ensures StripSpace(StripSpace(s)) == StripSpace(s)
  {
    var r := StripSpace(s);
    StripSpaceIsStripped(s);
    assert StripLeft(r, IsSpace) == r;
    assert StripRight(r, IsSpace) == r;
  }

  /** The stored prompt passes the prompt check again, unchanged. */
  lemma StoredPromptRevalidates(v: string)
    requires CheckPrompt(v).Ok?
    ensures CheckPrompt(CheckPrompt(v).value) == CheckPrompt(v)
  {
    StripSpaceIdempotent(v);
  }

  /** A prompt that `validate_prompt` accepts also passes the request's prompt
      check. */
  lemma ValidatedPromptIsAccepted(v: string)
    requires Utils.ValidatePrompt(v).0
    ensures CheckPrompt(v).Ok?
  {
  }

  /** The converse fails: the request accepts a two-character prompt that
      `validate_prompt` rejects as too short. */
  lemma ShortPromptAcceptedByRequestOnly()
    ensures CheckPrompt("ab") == Ok("ab")
    ensures Utils.ValidatePrompt("ab") == (false, Some(Utils.ShortPromptMessage))
  {
    ShortPromptCase("ab");
  }

  lemma ShortPromptCase(v: string)
    requires v == "ab"
    ensures CheckPrompt(v) == Ok(v)
    ensures Utils.ValidatePrompt(v) == (false, Some(Utils.ShortPromptMessage))
  {
    assert !IsSpace(v[0]) && !IsSpace(v[1]);
    assert StripLeft(v, IsSpace) == v;
    assert StripRight(v, IsSpace) == v;
    assert StripSpace(v) == v;
  }

  // ---------------------------------------------------------------------
  // VideoResponse and BatchResult
  // ---------------------------------------------------------------------

  /** The outcome of one job. The size is in megabytes (bytes / 2^20). */
  datatype VideoResponse = VideoResponse(
    success: bool,
    videoPath: Option<string>,
    operationName: Option<string>,
    videoUri: Option<string>,
    fileSizeMb: Option<real>,
    error: Option<string>,
    errorDetails: Option<Fields>)

  /** `is_success`: the flag is set and a path was recorded. */
  predicate IsSuccess(r: VideoResponse) {
    r.success && r.videoPath.Some?
  }

  datatype BatchResult = BatchResult(total: int, successful: int, failed: int, results: seq<VideoResponse>)

  /** The responses whose `is_success` equals `wanted`, in their original order. */
  function Select(rs: seq<VideoResponse>, wanted: bool): (r: seq<VideoResponse>)
    ensures |r| <= |rs|
    ensures forall i :: 0 <= i < |r| ==> IsSuccess(r[i]) == wanted
    ensures multiset(r) <= multiset(rs)
  {
    if rs == [] then []
    else
      var rest := Select(rs[1..], wanted);
      assert rs == [rs[0]] + rs[1..];
      if IsSuccess(rs[0]) == wanted then [rs[0]] + rest else rest
  }

  /** `get_successful_videos()`: some of the batch's responses, each a success. */
  function SuccessfulVideos(b: BatchResult): (r: seq<VideoResponse>)
    ensures forall i :: 0 <= i < |r| ==> IsSuccess(r[i])
    ensures multiset(r) <= multiset(b.results)
  {
    Select(b.results, true)
  }

  /** `get_failed_videos()`: some of the batch's responses, none a success. */
  function FailedVideos(b: BatchResult): (r: seq<VideoResponse>)
    ensures forall i :: 0 <= i < |r| ==> !IsSuccess(r[i])
    ensures multiset(r) <= multiset(b.results)
  {
    Select(b.results, false)
  }

  /** `has_failures`. */
  predicate HasFailures(b: BatchResult) {
    b.failed > 0
  }

  /** `success_rate`, a percentage; 0 for an empty batch. */
  function SuccessRate(b: BatchResult): (r: real)
    ensures b.total <= 0 ==> r == 0.0
    ensures b.total > 0 && 0 <= b.successful <= b.total ==> 0.0 <= r <= 100.0
    ensures b.total > 0 && b.successful == b.total ==> r == 100.0
  {
    if b.total > 0 then
      RatioBounds(b.successful as real, b.total as real);
      b.successful as real / b.total as real * 100.0
    else 0.0
  }

  lemma RatioBounds(part: real, whole: real)
    requires whole > 0.0
    ensures 0.0 <= part <= whole ==> 0.0 <= part / whole <= 1.0
    ensures part == whole ==> part / whole == 1.0
  {
    var q := part / whole;
    assert q * whole == part;
    if 0.0 <= part <= whole {
      assert q <= 1.0 by {
        assert (1.0 - q) * whole == whole - part >= 0.0;
      }
    }
  }

  /** Selecting from a concatenation selects from each part, in order. */
  lemma {:induction false} SelectConcat(a: seq<VideoResponse>, b: seq<VideoResponse>, wanted: bool)
    ensures Select(a + b, wanted) == Select(a, wanted) + Select(b, wanted)
    decreases |a|
  {
    if a == [] {
      assert a + b == b;
    } else {
      assert (a + b)[0] == a[0];
      assert (a + b)[1..] == a[1..] + b;
      SelectConcat(a[1..], b, wanted);
    }
  }

  /** The successful and the failed responses split the results: every
      response lands in exactly one of the two lists. */
  lemma {:induction false} SelectPartition(rs: seq<VideoResponse>)
    ensures |Select(rs, true)| + |Select(rs, false)| == |rs|
    ensures multiset(Select(rs, true)) + multiset(Select(rs, false)) == multiset(rs)
    decreases |rs|
  {
    if rs != [] {
      SelectPartition(rs[1..]);
      assert rs == [rs[0]] + rs[1..];
    }
  }

  /** Nothing is dropped: every response whose `is_success` equals `wanted` is
      selected. */
  lemma {:induction false} SelectKeepsEveryMatch(rs: seq<VideoResponse>, wanted: bool)
    ensures forall i :: 0 <= i < |rs| && IsSuccess(rs[i]) == wanted ==> rs[i] in Select(rs, wanted)
    decreases |rs|
  {
    if rs != [] {
      SelectKeepsEveryMatch(rs[1..], wanted);
      assert forall i :: 1 <= i < |rs| ==> rs[i] == rs[1..][i - 1];
    }
  }

  /** In a batch whose counts are taken from its results, `has_failures` holds
      exactly when some response is not a success. */
  lemma HasFailuresIffFailedVideo(b: BatchResult)
    requires b.successful == |Select(b.results, true)| && b.failed == |b.results| - b.successful
    ensures HasFailures(b) <==> FailedVideos(b) != []
    ensures b.failed == |FailedVideos(b)|
  {
    SelectPartition(b.results);
  }

  // ---------------------------------------------------------------------
  // OperationStatus
  // ---------------------------------------------------------------------

  /** The record of one operation. Times are seconds on the caller's clock. */
  class OperationStatus {
    var operationName: string
    var status: VideoStatus
    var startedAt: real
    var completedAt: Option<real>
    var elapsedTime: Option<real>
    var videoUri: Option<string>
    var error: Option<string>
    var errorDetails: Option<Fields>

    /** A new record starts pending, stamped with the current time. */
    constructor(name: string, now: real)
      ensures operationName == name && status == Pending && startedAt == now
      ensures completedAt.None? && elapsedTime.None? && videoUri.None? && error.None? && errorDetails.None?
    {
      operationName := name;
      status := Pending;
      startedAt := now;
      completedAt := None;
      elapsedTime := None;
      videoUri := None;
      error := None;
      errorDetails := None;
    }

    /** `mark_completed`: any earlier mark is overwritten. */
    method MarkCompleted(uri: string, now: real)
      modifies this
      ensures status == Completed && videoUri == Some(uri)
      ensures completedAt == Some(now) && elapsedTime == Some(now - startedAt)
      ensures operationName == old(operationName) && startedAt == old(startedAt)
      ensures error == old(error) && errorDetails == old(errorDetails)
    {
      status := Completed;
      videoUri := Some(uri);
      completedAt := Some(now);
      elapsedTime := Some(now - startedAt);
    }

    /** `mark_failed`. */
    method MarkFailed(err: string, details: Option<Fields>, now: real)
      modifies this
      ensures status == Failed && error == Some(err) && errorDetails == details
      ensures completedAt == Some(now) && elapsedTime == Some(now - startedAt)
      ensures operationName == old(operationName) && startedAt == old(startedAt) && videoUri == old(videoUri)
    {
      status := Failed;
      error := Some(err);
      errorDetails := details;
      completedAt := Some(now);
      elapsedTime := Some(now - startedAt);
    }

    /** `mark_timeout`. */
    method MarkTimeout(maxWaitTime: real, now: real)
      modifies this
      ensures status == TimedOut && error == Some(TimeoutMessage(maxWaitTime))
      ensures completedAt == Some(now) && elapsedTime == Some(now - startedAt)
      ensures operationName == old(operationName) && startedAt == old(startedAt)
      ensures videoUri == old(videoUri) && errorDetails == old(errorDetails)
    {
      EndTimedOut(TimeoutMessage(maxWaitTime), now);
    }

    /** Records a timeout with the given message. */
    method EndTimedOut(message: string, now: real)
      modifies this
      ensures status == TimedOut && error == Some(message)
      ensures completedAt == Some(now) && elapsedTime == Some(now - startedAt)
      ensures operationName == old(operationName) && startedAt == old(startedAt)
      ensures videoUri == old(videoUri) && errorDetails == old(errorDetails)
    {
      status := TimedOut;
      error := Some(message);
      completedAt := Some(now);
      elapsedTime := Some(now - startedAt);
    }
  }

  /** The message of `mark_timeout`, which names the limit as Python prints a
      float. */
  function TimeoutMessage(maxWaitTime: real): string {
    "Operation timed out after " + FloatRepr(maxWaitTime) + " seconds"
  }

  /** A failure marked after a completion keeps the URI but reports failure:
      nothing guards against marking twice. */
  method RemarkAfterCompletion(name: string, uri: string, t0: real, t1: real, t2: real)
    returns (s: OperationStatus)
    ensures s.status == Failed && s.videoUri == Some(uri) && s.error == Some("late")
    ensures s.elapsedTime == Some(t2 - t0)
  {
    s := new OperationStatus(name, t0);
    s.MarkCompleted(uri, t1);
    s.MarkFailed("late", None, t2);
  }

  // ---------------------------------------------------------------------
  // DownloadProgress
  // ---------------------------------------------------------------------

  class DownloadProgress {
    var totalBytes: Option<int>
    var downloadedBytes: int
    var percentage: real
    var speedMbps: Option<real>

    constructor(total: Option<int>)
      ensures totalBytes == total && downloadedBytes == 0 && percentage == 0.0 && speedMbps.None?
    {
      totalBytes := total;
      downloadedBytes := 0;
      percentage := 0.0;
      speedMbps := None;
    }

    /** `update`: the count grows by the chunk; the percentage is recomputed
        only for a positive total, the speed only for a positive elapsed time. */
    method Update(chunkSize: int, elapsedTime: Option<real>)
      modifies this
      ensures downloadedBytes == old(downloadedBytes) + chunkSize
      ensures totalBytes == old(totalBytes)
      ensures totalBytes.Some? && totalBytes.value > 0 ==>
        percentage == downloadedBytes as real / totalBytes.value as real * 100.0
      ensures !(totalBytes.Some? && totalBytes.value > 0) ==> percentage == old(percentage)
      ensures elapsedTime.Some? && elapsedTime.value > 0.0 ==>
        speedMbps == Some(downloadedBytes as real / 1048576.0 / elapsedTime.value)
      ensures !(elapsedTime.Some? && elapsedTime.value > 0.0) ==> speedMbps == old(speedMbps)
    {
      downloadedBytes := downloadedBytes + chunkSize;
      if totalBytes.Some? && totalBytes.value > 0 {
        percentage := downloadedBytes as real / totalBytes.value as real * 100.0;
      }
      if elapsedTime.Some? && elapsedTime.value > 0.0 {
        speedMbps := Some(downloadedBytes as real / 1048576.0 / elapsedTime.value);
      }
    }
  }
}
