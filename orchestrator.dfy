/** One job from prompt to file (VeoVideoGenerator.generate_video_async), which
    turns every exception into a failed response, and a batch of jobs
    (generate_batch), whose results keep the order of the prompts. */
module Orchestrator {
  import opened PyValues
  import opened PyText
  import opened Exceptions
  import opened Environment
  import opened Models
  import Config
  import Utils
  import Submission
  import Poller
  import Downloader

  /** `1024 * 1024`. */
  const BytesPerMegabyte: real := 1048576.0

  /** The response the handler builds from an exception: the exception's text
      and its `details`, or `{}` when it has none. */
  function Failure(e: Raised): (r: VideoResponse)
    ensures !r.success && !IsSuccess(r) && r.videoPath.None?
    ensures r.error == Some(Text(e)) && r.errorDetails == Some(DetailsOf(e))
  {
    VideoResponse(false, None, None, None, None, Some(Text(e)), Some(DetailsOf(e)))
  }

  /** A pydantic ValidationError raised while building a model. */
  function Invalid(model: string, errors: seq<FieldError>): Raised {
    Builtin("ValidationError", ValidationText(model, errors))
  }

  /** The response of a finished job. The operation name must be a string for
      the response model to accept it. */
  function Success(name: Json, uri: string, out: string, fs: FileSystem): (r: VideoResponse)
    requires out in fs
    ensures r.success <==> name.JStr?
    ensures r.success ==> r.videoPath == Some(out) && r.videoUri == Some(uri) && r.operationName == Some(name.s)
    ensures r.success ==> r.fileSizeMb == Some(|fs[out]| as real / BytesPerMegabyte)
  {
    if name.JStr? then VideoResponse(true, Some(out), Some(name.s), Some(uri), Some(|fs[out]| as real / BytesPerMegabyte), None, None)
    else Failure(Invalid("VideoResponse", [FieldError("operation_name", "Input should be a valid string")]))
  }

  /** A response and the file system after it. */
  datatype Job = Job(response: VideoResponse, fs: FileSystem)

  /** Where the video goes: the given path, or a name made from the prompt. */
  function OutputFor(prompt: string, outputPath: Option<string>, stamp: int): string {
    if outputPath.Some? then outputPath.value else Utils.GenerateFilename(prompt, None, Some(stamp))
  }

  /** The steps after validation and upload: start the generation, poll,
      download, and build the response. */
  function Generate(env: Env, baseUrl: string, storedPrompt: string, imageUri: Option<Json>, out: string, fs: FileSystem)
    : (j: Job)
    ensures j.response.success ==> IsSuccess(j.response) && j.response.videoPath == Some(out)
    ensures j.response.success ==> out in j.fs && |j.fs[out]| > 0
    ensures !j.response.success ==> j.response.videoPath.None? && j.response.error.Some?
    ensures j.fs.Keys <= fs.Keys + {out}
    ensures forall p :: p in fs && p != out ==> p in j.fs && j.fs[p] == fs[p]
  {
    var name := Submission.Initiate(env, baseUrl, storedPrompt, imageUri);
    if name.Err? then Job(Failure(name.error), fs)
    else
      var uri := Poller.Poll(env, baseUrl, name.value, Config.DefaultMaxWaitTime);
      if uri.Err? then Job(Failure(uri.error), fs)
      else
        var download := Downloader.Download(env, baseUrl, uri.value, out, fs);
        if download.result.Err? then Job(Failure(download.result.error), download.fs)
        else Job(Success(name.value, uri.value.s, out, download.fs), download.fs)
  }

  /** `generate_video_async`: validate, upload the image if one is given,
      then generate. `stamp` is the clock reading the default file name
      uses. */
  function RunJob(env: Env, baseUrl: string, prompt: string, outputPath: Option<string>, imagePath: Option<string>,
                  stamp: int, fs: FileSystem): (j: Job)
    ensures j.response.success ==> IsSuccess(j.response)
    ensures j.response.success ==> j.response.videoPath == Some(OutputFor(prompt, outputPath, stamp))
    ensures j.response.success ==> j.response.videoPath.value in j.fs && |j.fs[j.response.videoPath.value]| > 0
    ensures !j.response.success ==> j.response.videoPath.None? && j.response.error.Some?
    ensures j.fs.Keys <= fs.Keys + {OutputFor(prompt, outputPath, stamp)}
    ensures forall p :: p in fs && p != OutputFor(prompt, outputPath, stamp) ==> p in j.fs && j.fs[p] == fs[p]
  {
    var request := NewVideoRequest(prompt, outputPath, imagePath, fs);
    if request.Err? then Job(Failure(Invalid("VideoRequest", request.error)), fs)
    else
      var upload := if imagePath.Some? then Submission.UploadImage(env, baseUrl, imagePath.value, fs) else Ok(None);
      if upload.Err? then Job(Failure(upload.error), fs)
      else Generate(env, baseUrl, request.value.prompt, upload.value, OutputFor(prompt, outputPath, stamp), fs)
  }

  /** The job as the source runs it, through the polling and downloading
      loops. */
  method GenerateVideoAsync(env: Env, baseUrl: string, prompt: string, outputPath: Option<string>,
                            imagePath: Option<string>, stamp: int, fs: FileSystem)
    returns (response: VideoResponse, fs': FileSystem)
    ensures Job(response, fs') == RunJob(env, baseUrl, prompt, outputPath, imagePath, stamp, fs)
  {
    fs' := fs;
    var request := NewVideoRequest(prompt, outputPath, imagePath, fs);
    if request.Err? {
      response := Failure(Invalid("VideoRequest", request.error));
      return;
    }
    var out := OutputFor(prompt, outputPath, stamp);
    var imageUri: Option<Json> := None;
    if imagePath.Some? {
      var upload := Submission.UploadImage(env, baseUrl, imagePath.value, fs);
      if upload.Err? {
        response := Failure(upload.error);
        return;
      }
      imageUri := upload.value;
    }
    response, fs' := GenerateSteps(env, baseUrl, request.value.prompt, imageUri, out, fs);
  }

  /** Generation, polling and download as the source runs them. */
  method GenerateSteps(env: Env, baseUrl: string, storedPrompt: string, imageUri: Option<Json>, out: string, fs: FileSystem)
    returns (response: VideoResponse, fs': FileSystem)
    ensures Job(response, fs') == Generate(env, baseUrl, storedPrompt, imageUri, out, fs)
  {
    fs' := fs;
    var name := Submission.Initiate(env, baseUrl, storedPrompt, imageUri);
    if name.Err? {
      response := Failure(name.error);
      return;
    }
    var uri := Poller.PollOperation(env, baseUrl, name.value, Config.DefaultMaxWaitTime);
    if uri.Err? {
      response := Failure(uri.error);
      return;
    }
    var result, written, _ := Downloader.DownloadVideo(env, baseUrl, uri.value, out, fs);
    fs' := written;
    if result.Err? {
      response := Failure(result.error);
      return;
    }
    response := Success(name.value, uri.value.s, out, written);
  }

  /** A request that fails validation makes no call and touches no file. */
  lemma InvalidRequestMakesNoCall(env1: Env, env2: Env, baseUrl: string, prompt: string, outputPath: Option<string>,
                                  imagePath: Option<string>, stamp: int, fs: FileSystem)
    requires NewVideoRequest(prompt, outputPath, imagePath, fs).Err?
    ensures RunJob(env1, baseUrl, prompt, outputPath, imagePath, stamp, fs)
      == RunJob(env2, baseUrl, prompt, outputPath, imagePath, stamp, fs)
    ensures RunJob(env1, baseUrl, prompt, outputPath, imagePath, stamp, fs).fs == fs
  {
  }

  /** A prompt the request model rejects is the job's only error when no
      path is given, and a pydantic error carries no details. */
  lemma InvalidPromptResponse(env: Env, baseUrl: string, prompt: string, stamp: int, fs: FileSystem)
    requires CheckPrompt(prompt).Err?
    ensures RunJob(env, baseUrl, prompt, None, None, stamp, fs).response
      == Failure(Invalid("VideoRequest", [FieldError("prompt", CheckPrompt(prompt).error)]))
    ensures RunJob(env, baseUrl, prompt, None, None, stamp, fs).response.errorDetails == Some([])
  {
    var request := NewVideoRequest(prompt, None, None, fs);
    assert ErrorsOf("output_path", CheckOutputPath(None)) == [];
    assert ErrorsOf("image_path", CheckImagePath(None, fs)) == [];
    assert request.error == [FieldError("prompt", CheckPrompt(prompt).error)];
  }

  /** An upload that yields no URI lets the job go on exactly as a text-only
      job would. */
  lemma UploadWithoutUriIsTextOnly(env: Env, baseUrl: string, prompt: string, outputPath: Option<string>,
                                   image: string, stamp: int, fs: FileSystem)
    requires NewVideoRequest(prompt, outputPath, Some(image), fs).Ok?
    requires Submission.UploadImage(env, baseUrl, image, fs) == Ok(None)
    ensures RunJob(env, baseUrl, prompt, outputPath, Some(image), stamp, fs)
      == RunJob(env, baseUrl, prompt, outputPath, None, stamp, fs)
  {
    assert NewVideoRequest(prompt, outputPath, None, fs).Ok?;
  }

  /** A failed job reports the text and the details of the error that ended
      it; a TimeoutError's details carry the elapsed time. */
  lemma PollTimeoutReported(env: Env, baseUrl: string, prompt: string, outputPath: Option<string>,
                            stamp: int, fs: FileSystem, t: real)
    requires NewVideoRequest(prompt, outputPath, None, fs).Ok?
    requires var name := Submission.Initiate(env, baseUrl, StripSpace(prompt), None);
      name.Ok? && Poller.Poll(env, baseUrl, name.value, Config.DefaultMaxWaitTime)
        == Err(Poller.TimeoutFor(Config.DefaultMaxWaitTime, t))
    ensures var r := RunJob(env, baseUrl, prompt, outputPath, None, stamp, fs).response;
      !r.success && r.errorDetails == Some([("elapsed_time", JFloat(t))])
  {
    var name := Submission.Initiate(env, baseUrl, StripSpace(prompt), None);
    var e := Poller.TimeoutFor(Config.DefaultMaxWaitTime, t);
    Poller.TimeoutReportsElapsed(env, Poller.OperationUrl(baseUrl, name.value), Config.DefaultMaxWaitTime, 0, t);
    TimeoutDetails(Config.DefaultMaxWaitTime, t);
    var out := OutputFor(prompt, outputPath, stamp);
    assert Generate(env, baseUrl, StripSpace(prompt), None, out, fs) == Job(Failure(e), fs);
  }

  /** A timeout past a positive limit carries its elapsed time as details. */
  lemma TimeoutDetails(maxWaitTime: int, t: real)
    requires maxWaitTime > 0 && t >= maxWaitTime as real
    ensures DetailsOf(Poller.TimeoutFor(maxWaitTime, t)) == [("elapsed_time", JFloat(t))]
  {
    var e := TimeoutErr("Operation timed out after " + IntToDecimal(maxWaitTime) + " seconds", Some(t));
    assert RealTruthy(Some(t));
    assert e.details == [("elapsed_time", JFloat(t))];
  }

  // ---------------------------------------------------------------------
  // Batches
  // ---------------------------------------------------------------------

  /** What a batch is given: per job, the service it talks to and the clock
      reading for its file name. */
  datatype BatchInput = BatchInput(
    envs: nat -> Env,
    baseUrl: string,
    prompts: seq<string>,
    imagePaths: Option<seq<Option<string>>>,
    stamps: nat -> int)

  /** `output_dir_path / generate_filename(prompt, index=index)`. */
  function JobPath(dir: string, prompt: string, i: nat, stamp: int): string {
    dir + "/" + Utils.GenerateFilename(prompt, Some(i), Some(stamp))
  }

  /** `image_paths[index] if image_paths and index < len(image_paths) else None`. */
  function ImageFor(imagePaths: Option<seq<Option<string>>>, i: nat): (r: Option<string>)
    ensures imagePaths.Some? && i < |imagePaths.value| ==> r == imagePaths.value[i]
    ensures imagePaths.None? || i >= |imagePaths.value| ==> r.None?
  {
    if imagePaths.Some? && i < |imagePaths.value| then imagePaths.value[i] else None
  }

  /** The file system the i-th job starts from: the jobs run one after the
      other, each seeing the files of those before it. */
  function FsBefore(input: BatchInput, dir: string, fs: FileSystem, i: nat): FileSystem
    requires i <= |input.prompts|
    decreases i, 0
  {
    if i == 0 then fs else JobAt(input, dir, fs, i - 1).fs
  }

  /** The i-th job of the batch. */
  function JobAt(input: BatchInput, dir: string, fs: FileSystem, i: nat): Job
    requires i < |input.prompts|
    decreases i, 1
  {
    var p := input.prompts[i];
    RunJob(input.envs(i), input.baseUrl, p, Some(JobPath(dir, p, i, input.stamps(i))), ImageFor(input.imagePaths, i),
           input.stamps(i), FsBefore(input, dir, fs, i))
  }

  /** How `generate_batch` ends: with a result, with the exception the
      semaphore raises for a negative limit, or never (a zero limit lets no
      job start). */
  datatype BatchRun = Done(result: BatchResult, fs: FileSystem) | Raises(error: Raised) | NeverReturns

  /** `generate_batch`, with the jobs run in prompt order. */
  function GenerateBatch(input: BatchInput, outputDir: Option<string>, cwd: string, concurrentLimit: int, fs: FileSystem)
    : (b: BatchRun)
    ensures concurrentLimit < 0 <==> b.Raises?
    ensures b.Raises? ==> b.error == Builtin("ValueError", "Semaphore initial value must be >= 0")
    ensures b.NeverReturns? <==> concurrentLimit == 0 && input.prompts != []
    ensures b.Done? ==> b.result.total == |input.prompts| == |b.result.results|
    ensures b.Done? ==> b.result.successful == |Select(b.result.results, true)|
    ensures b.Done? ==> b.result.failed == |b.result.results| - b.result.successful
  {
    if concurrentLimit < 0 then Raises(Builtin("ValueError", "Semaphore initial value must be >= 0"))
    else if concurrentLimit == 0 && input.prompts != [] then NeverReturns
    else
      var dir := if outputDir.Some? && outputDir.value != [] then outputDir.value else cwd;
      var n := |input.prompts|;
      var results := seq(n, i requires 0 <= i < n => JobAt(input, dir, fs, i).response);
      var successful := |Select(results, true)|;
      Done(BatchResult(n, successful, n - successful, results), FsBefore(input, dir, fs, n))
  }

  /** The i-th result is the outcome of the i-th prompt, written to its own
      indexed file, with the i-th image path if there is one. */
  lemma BatchResultsInOrder(input: BatchInput, outputDir: Option<string>, cwd: string, concurrentLimit: int,
                            fs: FileSystem, i: nat)
    requires GenerateBatch(input, outputDir, cwd, concurrentLimit, fs).Done?
    requires i < |input.prompts|
    ensures var dir := if outputDir.Some? && outputDir.value != [] then outputDir.value else cwd;
      var r := GenerateBatch(input, outputDir, cwd, concurrentLimit, fs).result.results[i];
      && r == JobAt(input, dir, fs, i).response
      && (r.success ==> r.videoPath == Some(JobPath(dir, input.prompts[i], i, input.stamps(i))))
  {
  }

  /** `has_failures` of a batch result holds exactly when some job failed, and
      `failed` counts the failed responses. */
  lemma BatchFailuresCounted(input: BatchInput, outputDir: Option<string>, cwd: string, concurrentLimit: int, fs: FileSystem)
    requires GenerateBatch(input, outputDir, cwd, concurrentLimit, fs).Done?
    ensures var b := GenerateBatch(input, outputDir, cwd, concurrentLimit, fs).result;
      (HasFailures(b) <==> FailedVideos(b) != []) && b.failed == |FailedVideos(b)| && b.failed >= 0
  {
    var b := GenerateBatch(input, outputDir, cwd, concurrentLimit, fs).result;
    HasFailuresIffFailedVideo(b);
  }

  /** Two jobs of a batch never write to the same file. */
  lemma JobPathsDistinct(dir: string, p: string, q: string, i: nat, j: nat, t: int, u: int)
    requires i != j
    ensures JobPath(dir, p, i, t) != JobPath(dir, q, j, u)
  {
    var a, b := Utils.GenerateFilename(p, Some(i), Some(t)), Utils.GenerateFilename(q, Some(j), Some(u));
    if JobPath(dir, p, i, t) == JobPath(dir, q, j, u) {
      assert (dir + "/") + a == (dir + "/") + b;
      assert a == (dir + "/" + a)[|dir| + 1..] == (dir + "/" + b)[|dir| + 1..] == b;
      Utils.BatchFilenamesDistinct(p, q, i, j, t, u);
    }
  }

  /** A batch job's output path always passes the request's `.mp4` check. */
  lemma JobPathIsMp4(dir: string, p: string, i: nat, t: int)
    ensures CheckOutputPath(Some(JobPath(dir, p, i, t))).Ok?
  {
    Mp4NamePasses(dir, Utils.GenerateFilename(p, Some(i), Some(t)));
  }

  lemma Mp4NamePasses(dir: string, name: string)
    requires StartsWith(name, "veo_") && EndsWith(name, ".mp4") && Utils.NoSlash(name)
    ensures CheckOutputPath(Some(dir + "/" + name)).Ok?
  {
    var ext := name[|name| - 4..];
    assert ext == ".mp4";
    assert name[0] == name[..4][0] == 'v';
    assert ext[0] == '.';
    assert |name| > 4;
    var stem := name[..|name| - 4];
    assert name == stem + ext;
    assert stem[0] == name[0];
    forall k | 0 <= k < |stem| ensures stem[k] != '/' {
      assert stem[k] == name[k];
    }
    SuffixOfAppendedExtension(dir, stem, ext);
    assert dir + "/" + stem + ext == dir + "/" + name;
    LowerMp4(ext);
  }

  lemma LowerMp4(ext: string)
    requires ext == ".mp4"
    ensures Lower(ext) == ".mp4"
  {
  }
}
