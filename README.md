# Veo video generation workflow, modelled in Dafny

This project models the video-generation client of AI-thuc-chien. The client sends a prompt
to a LiteLLM proxy in front of Google's Veo model and waits for the long-running operation. It
then downloads the finished MP4. The model has two parts:

- **The `video_generation` package:**
  - `utils.py`: file names, the prompt check and the download-URL rewrite.
  - `exceptions.py`: the error hierarchy and its `details` dictionaries.
  - `models.py`: the pydantic request, status, response and batch models.
  - `generator.py`: upload, submit with retry, polling with backoff, streamed download, the
    single job and the batch.
- **The older synchronous script `Video/main.py`:** upload, prompt dictionaries, submit, the
  wait loop, download, and the whole workflow with its automatic file name.

Everything the code reads from the outside world is a parameter of type `Environment.Env`:
- the HTTP service, which answers the n-th issue of each request, or fails in transport;
- the download stream, as chunks with an optional transport error after them;
- the time each poll tick spends besides its sleep;
- the MIME type guess.

The file system is a map from path to bytes. Python values are modelled as follows:
- A decoded JSON body is a `Json` value whose objects keep their insertion order. A
  `details` dictionary is such an object.
- Every Python exception the code can raise or catch is a `Raised` value. Its text is the
  `str(e)` Python would print.
- The `async` methods become functions of that environment. Methods with loops keep their
  loops as Dafny methods, each proved equal to the function it implements:
  - `_poll_operation` and `wait_for_completion`;
  - the chunk-writing loops of both downloads;
  - the step sequence of `generate_video_async`.
- The two pydantic classes whose methods assign fields in place are Dafny classes:
  `OperationStatus` and `DownloadProgress`.

Modules:
- `PyValues` and `PyText`: the parts of Python's built-ins the code relies on (`repr`,
  `str(int)`, `dict.get`, `str.strip`, `str.replace`, `\w`/`\s`).
- `Utils`, `Exceptions` and `Models`: one module per package file.
- `PyAccess`: the four ways the code reads a decoded body (`in`, `.get`, `[key]`, `[0]`).
- `Environment` and `Config`.
- `Submission`, `Poller`, `Downloader` and `Orchestrator`: the parts of `generator.py`.
- `Legacy`: `Video/main.py`.

Where the code's docstrings, comments or decorators suggest one behaviour and its statements do another, the model follows the statements.
- **Polling.** The package's `_poll_operation` swallows only `httpx.HTTPStatusError`. A transport
  error ends the poll (`Poller.TransportFailureEndsPolling`). It is the legacy script that retries
  through transport errors (`Legacy.TransportFailureIsRetried`).
- **Retries.** `_upload_image` and `_download_video` carry tenacity's retry decorator, but both
  turn every exception into a package error, which is not an `httpx.HTTPError`. So neither is ever
  retried. Only `_initiate_generation` retries, on transport errors, for at most 3 attempts.
- **Upload without a URI.** An upload answer without `file.uri` gives `None`, not an error. The
  job then goes on as text-to-video (`Orchestrator.UploadWithoutUriIsTextOnly`).
- **Partial bytes.** No `DownloadError` the code raises carries `partial_bytes`.
- **Legacy download.** A transport error in the middle of the stream leaves the partial file in
  place (`Legacy.CutStreamKeepsPartialFile`).

Some definitions have no row of their own. Each is the reference that the rows of other members
are stated against:
- `PyValues.Repr`: through `Exceptions.Str`, `ReprOfOneEntry` and `ReprOfTwoEntries`.
- `Utils.ParseVideoUri`: through the four `Utils.ParseVideoUri…` lemmas.
- `Poller.ClassifyData`: through `Poller.ClassifyPoll` and the lemmas about single bodies.
- `Poller.PollFrom` and `Poller.Poll`: through `Poller.PollOperation` and the `Poller` lemmas after it.
- `Submission.Attempts`: through `Submission.Initiate` and the retry lemmas.
- `Legacy.ClassifyData`: through `Legacy.LegacyClassify`, `ErrorEntryFails` and `CompletedBodyFound`.
- `Legacy.WaitFrom` and `Legacy.Wait`: through `Legacy.WaitForCompletion`, `WaitLoop` and the wait lemmas.
- `Models.IsSuccess` and `Models.HasFailures`: through `Models.Select`, `SuccessfulVideos`, `FailedVideos` and
  `HasFailuresIffFailedVideo`.
- `Orchestrator.JobAt`: through `Orchestrator.GenerateBatch` and the batch lemmas.
- `Downloader.Wrapped`: through `Downloader.Download`.

## Model

| member | source | states |
|---|---|---|
| PyValues.Get | video_generation/generator.py:237 | `dict.get` finds an entry with that key, and None means no entry has the key |
| PyValues.GetAt | Video/main.py:142-149 | the first entry holding a key is the one `get` returns |
| PyValues.NatToDecimal | video_generation/utils.py:66 | `str(n)` is non-empty and made of digits |
| PyValues.DecimalRoundTrip | video_generation/utils.py:66 | reading back `str(n)` gives n |
| PyValues.IntToDecimalInjective | video_generation/utils.py:69 | different integers print differently, so the index and time stamp fields of a file name determine the numbers |
| PyValues.StrRepr | video_generation/exceptions.py:18 | the repr of a string holds at least its two quotes; the quoting and the escapes are stated by the next three rows |
| PyValues.StrReprQuoting | video_generation/exceptions.py:18 | the repr opens and closes with the same quote, a double quote exactly when the text holds a single quote and no double quote |
| PyValues.StrReprRoundTrip | video_generation/exceptions.py:18 | what the repr writes between its quotes reads back as the text, every escape included |
| PyValues.StrReprInjective | video_generation/exceptions.py:18 | different texts have different reprs |
| PyValues.StrReprPlain | video_generation/exceptions.py:18 | a Latin-1 string without quotes, backslashes or characters Python counts as not printable is shown between single quotes, unescaped |
| PyValues.ReprOfOneEntry | video_generation/exceptions.py:18 | a one-entry dict shows as `{'key': value}` |
| PyValues.ReprOfTwoEntries | video_generation/exceptions.py:18 | a two-entry dict shows as `{'key1': value1, 'key2': value2}`, in insertion order |
| PyText.StripLeft | video_generation/utils.py:34 | `lstrip` removes exactly the longest stripped prefix: the result is a suffix of the input, everything removed is stripped, and the result does not start with a stripped character |
| PyText.StripRight | video_generation/utils.py:38 | `rstrip` removes exactly the longest stripped suffix |
| PyText.StripSpace | video_generation/utils.py:128 | `strip()` gives the empty string exactly when the text is all whitespace |
| PyText.Lower | video_generation/models.py:47 | `lower()` keeps the length and maps each character |
| PyText.ReplaceAllWithoutOccurrence | video_generation/utils.py:94-96 | `replace` leaves a text without the pattern unchanged |
| PyText.ReplaceAllLeading | video_generation/utils.py:94-96 | an occurrence at the start is replaced and the scan goes on after it |
| PyText.ReplaceAllSkips | video_generation/utils.py:102 | a stretch where no occurrence starts is copied unchanged |
| Utils.RemoveSpecial | video_generation/utils.py:28 | only word characters, whitespace and `-` remain, and nothing is added |
| Utils.PyPrefix | video_generation/utils.py:38 | `s[:n]` is the prefix of length n, clamped to the text |
| Utils.SanitizeFilename | video_generation/utils.py:12-40 | the result is a safe name made of word characters, `-` and single `_`, with no `_` at either end. It fits the maximum length or is the fallback `video`. It is `video` exactly when the cleaned text is empty or `video` |
| Utils.SanitizedHasNoWhitespace | video_generation/utils.py:31 | a sanitized name holds no whitespace |
| Utils.CollapseRunsProperties | video_generation/utils.py:31 | collapsing whitespace and `_` runs leaves name characters with no `__`, empty only for empty input, starting with `_` exactly when the input started with a run character |
| Utils.StripUnderscoresProperties | video_generation/utils.py:34 | stripping `_` keeps a safe text and leaves no `_` at either end |
| Utils.TruncateProperties | video_generation/utils.py:37-38 | cutting to the maximum length and stripping trailing `_` keeps a safe name within the limit |
| Utils.CleanedProperties | video_generation/utils.py:28-38 | the cleaning steps together give a safe name within the limit |
| Utils.CollapseIsolatedRuns | video_generation/utils.py:31 | single whitespace characters become single underscores |
| Utils.RemoveSpecialConcat | video_generation/utils.py:28 | removing special characters works piecewise on a concatenation |
| Utils.RemoveSpecialKeepsKept | video_generation/utils.py:28 | a text of kept characters is unchanged |
| Utils.CleanedFixesSafeName | video_generation/utils.py:12-40 | cleaning a safe name that fits the limit gives it back |
| Utils.SanitizeDocExample | video_generation/utils.py:12-40 | the docstring's example: `A cat playing! @home` becomes `A_cat_playing_home` |
| Utils.SanitizeIdempotent | video_generation/utils.py:12-40 | sanitizing twice is sanitizing once, for any maximum length of at least 5 (the length of the `video` fallback) |
| Utils.GenerateFilename | video_generation/utils.py:43-72 | the name starts with `veo_`, ends with `.mp4` and holds no `/` |
| Utils.BatchFilenameFields | video_generation/utils.py:61-71 | the batch name is `veo_`, the sanitized prompt (30 characters), `_index`, `_stamp` and `.mp4` |
| Utils.AfterLastUnderscoreOf | video_generation/utils.py:71 | the text after the last `_` of `a_b` is b when b has no `_` |
| Utils.SplitAtLastUnderscore | video_generation/utils.py:71 | joining with `_` is undone at the last `_` |
| Utils.IndexFieldDetermined | video_generation/utils.py:63-71 | two equal file names carry the same index field |
| Utils.BatchFilenamesDistinct | video_generation/utils.py:61-71 | file names of different indexes differ, whatever the prompts and time stamps |
| Utils.ParseVideoUriSingleOccurrences | video_generation/utils.py:75-109 | the documented rewrite: the Google host prefix goes, `/v1beta` at the end of the base becomes `/download` |
| Utils.ParseVideoUriKeepsRelativeUri | video_generation/utils.py:97-98 | a URI without the Google prefix is appended unchanged |
| Utils.ParseVideoUriExample | video_generation/utils.py:86-90 | the documented example URI gives the documented download URL |
| Utils.ParseVideoUriRewritesEverySegment | video_generation/utils.py:101-102 | when the base ends with `/v1beta`, every `/v1beta` in it is rewritten, not only the last |
| Utils.ValidatePrompt | video_generation/utils.py:112-138 | the prompt is valid exactly when it is not blank, at most 2000 characters, and at least 3 without surrounding whitespace. Each failure gives its own message, in the code's order of checks |
| Exceptions.BaseErr | video_generation/exceptions.py:8-14 | the message is kept and falsy details become `{}` |
| Exceptions.ApiErr | video_generation/exceptions.py:22-38 | `status_code` and `response` enter the details exactly when truthy, and no other key does |
| Exceptions.TimeoutErr | video_generation/exceptions.py:41-47 | `elapsed_time` enters the details exactly when truthy |
| Exceptions.DownloadErr | video_generation/exceptions.py:50-66 | `video_uri` and `partial_bytes_downloaded` enter the details exactly when truthy, and no other key does |
| Exceptions.ValidationErr | video_generation/exceptions.py:69-75 | `field` enters the details exactly when truthy |
| Exceptions.OperationNotFoundErr | video_generation/exceptions.py:78-84 | `operation_name` enters the details exactly when truthy |
| Exceptions.Str | video_generation/exceptions.py:16-19 | `str(e)` is the message alone exactly when there are no details, otherwise the message, ` \| Details: ` and the dict's repr (floats inside it print as `PyValues.Repr` under Left out says) |
| Exceptions.ApiErrorExample | test_imports.py:117-119 | the test's `APIError("Test error", status_code=404, response_data={"error": "Not found"})` keeps status code 404 and has the details `{'status_code': 404, 'response': {'error': 'Not found'}}` |
| Exceptions.ApiErrorStatusOnlyExample | video_generation/exceptions.py:16-36 | an APIError with status 404 and no response data has the details `{'status_code': 404}` and prints as `Test error \| Details: {'status_code': 404}` |
| Exceptions.ApiErrorFalsyArguments | video_generation/exceptions.py:32-35 | status 0 and an empty response add no details, so `str` is the message |
| Exceptions.DetailsOf | video_generation/generator.py:505-507 | only package errors have `details`; any other exception gives `{}` |
| PyAccess.Contains | video_generation/generator.py:316 | `key in data` for a dict, list or string, and the TypeError for other values |
| PyAccess.DictGet | video_generation/generator.py:323 | `.get` gives the entry or the default, and AttributeError on a non-dict |
| PyAccess.KeyLookup | video_generation/generator.py:325-327 | `[key]` gives the entry, KeyError with the key's repr when it is missing, TypeError on a non-dict |
| PyAccess.FirstItem | video_generation/generator.py:326 | `[0]` on a list or string, IndexError when empty, KeyError 0 on a dict |
| PyAccess.VideoUriOf | video_generation/generator.py:325-327 | every failure of the nested lookup is a built-in exception |
| PyAccess.VideoUriOfCompletedBody | video_generation/generator.py:325-327 | the nested path reads back the URI of a completed answer |
| PyAccess.EmptySamplesRaiseIndexError | video_generation/generator.py:326 | an empty sample list raises IndexError, which the KeyError handler does not catch |
| PyAccess.MissingResponseRaisesKeyError | video_generation/generator.py:325 | a body without `response` raises KeyError `'response'` |
| Environment.ConcatSkipsEmpty | video_generation/generator.py:405-406 | skipping empty chunks writes the same bytes |
| Environment.NonEmptyAppend | video_generation/generator.py:405 | the non-empty chunks of a longer stream extend those of the shorter |
| Models.StatusValueInjective | video_generation/models.py:15-22 | the five status values are distinct |
| Models.RFind | video_generation/models.py:47 | the last position of a character, or -1 |
| Models.RFindAt | video_generation/models.py:47 | a position holding the character with none after it is the one `rfind` finds |
| Models.PathName | video_generation/models.py:47 | the last path component is a suffix without `/` |
| Models.Suffix | video_generation/models.py:47 | `Path.suffix` is empty or a `.` followed by at least one character, inside the name, after its last `.` |
| Models.SuffixOfAppendedExtension | video_generation/models.py:47 | a name ending with an extension has that extension as its suffix |
| Models.CheckPrompt | video_generation/models.py:28-40 | the prompt field accepts 1 to 2000 characters that are not all whitespace, and stores the stripped text. Each failure has its own message |
| Models.CheckOutputPath | video_generation/models.py:42-52 | the output path is accepted exactly when absent or its lower-cased suffix is `.mp4` |
| Models.CheckImagePath | video_generation/models.py:54-65 | the image path is accepted exactly when absent, or existing with one of the six image suffixes. A missing file and a wrong suffix give their own messages |
| Models.ErrorsOf | video_generation/models.py:25-65 | a field contributes an error exactly when its check fails |
| Models.NewVideoRequest | video_generation/models.py:25-65 | the request is built exactly when all three fields pass, with the stripped prompt and the default model. Otherwise every failing field is reported, in field order |
| Models.StripSpaceIsStripped | video_generation/models.py:37 | a stripped prompt has no whitespace at either end |
| Models.StripSpaceIdempotent | video_generation/models.py:37 | stripping twice is stripping once |
| Models.StoredPromptRevalidates | video_generation/models.py:35-40 | the stored prompt passes the check again unchanged |
| Models.ValidatedPromptIsAccepted | video_generation/models.py:28-40 | a prompt `validate_prompt` accepts is accepted by the request model |
| Models.ShortPromptAcceptedByRequestOnly | video_generation/models.py:28 | a two-character prompt passes the request model but not `validate_prompt` |
| Models.SuccessfulVideos | video_generation/models.py:149-151 | every response returned is a success, and each comes from the batch's results |
| Models.FailedVideos | video_generation/models.py:153-155 | no response returned is a success, and each comes from the batch's results |
| Models.SelectKeepsEveryMatch | video_generation/models.py:149-155 | no response of the wanted outcome is dropped |
| Models.Select | video_generation/models.py:149-155 | the filter keeps the responses of the wanted outcome, as a sub-multiset |
| Models.SuccessRate | video_generation/models.py:139-142 | 0 for an empty batch, between 0 and 100 when the counts are consistent, 100 when all succeed |
| Models.SelectConcat | video_generation/models.py:151 | filtering distributes over concatenation |
| Models.SelectPartition | video_generation/models.py:149-155 | successful and failed videos together are the results, as a multiset |
| Models.HasFailuresIffFailedVideo | video_generation/models.py:144-155 | with counts as the batch computes them, `has_failures` holds exactly when some video failed, and `failed` is their number |
| Models.OperationStatus.constructor | video_generation/models.py:68-78 | a new status is pending with only name and start time set |
| Models.OperationStatus.MarkCompleted | video_generation/models.py:80-85 | the status is completed with the URI and the elapsed time; error fields are untouched |
| Models.OperationStatus.MarkFailed | video_generation/models.py:87-93 | the status is failed with the error and its details; the URI is untouched |
| Models.OperationStatus.MarkTimeout | video_generation/models.py:95-100 | the status is timeout with the timeout message; the URI and details are untouched |
| Models.RemarkAfterCompletion | video_generation/models.py:80-93 | nothing forbids marking a completed operation as failed: it keeps the URI and reports failure |
| Models.DownloadProgress.constructor | video_generation/models.py:165-171 | progress starts at zero bytes, zero percent, no speed |
| Models.DownloadProgress.Update | video_generation/models.py:173-182 | bytes grow by the chunk. The percentage is recomputed only with a positive total, and the speed only with a positive elapsed time |
| Submission.UploadAttempt | video_generation/generator.py:161-190 | a returned URI is truthy and is the `file.uri` entry of a 2xx dict answer |
| Submission.UploadReturnsFileUri | video_generation/generator.py:161-190 | a 2xx dict answer with a truthy `file.uri` gives that URI |
| Submission.UploadImage | video_generation/generator.py:161-194 | any failure becomes an APIError `Image upload failed: …` with no details |
| Submission.UploadErrorHasNoDetails | video_generation/generator.py:192-194 | the upload error carries neither status nor response |
| Submission.UploadWithoutUriGivesNone | video_generation/generator.py:183-190 | any 2xx dict answer without a `file` entry, or whose `file` dict has no truthy `uri`, gives None rather than an error |
| Submission.Payload | video_generation/generator.py:222-230 | the payload is `{"instances": [instance]}` with the stripped prompt, and `image.uri` exactly when the URI is truthy |
| Submission.InitiateAttempt | video_generation/generator.py:232-260 | an operation name returned is truthy and is the `name` entry of a 2xx dict answer to that attempt |
| Submission.InitiateReturnsName | video_generation/generator.py:232-260 | a 2xx dict answer with a truthy `name` gives that name, for the attempt and for the whole initiation |
| Submission.Initiate | video_generation/generator.py:196-260 | a blank prompt raises ValidationError on `prompt` before any request. Otherwise the attempts run, and any name returned is truthy |
| Submission.AttemptsSucceedTruthy | video_generation/generator.py:239-247 | every successful attempt returns a truthy name |
| Submission.BlankPromptMakesNoRequest | video_generation/generator.py:217-218 | a blank prompt fails whatever the service would answer, with details `{'field': 'prompt'}` |
| Submission.FirstAnswerIsFinal | video_generation/generator.py:196-201 | a request that gets any answer is not retried |
| Submission.ThreeTransportFailures | video_generation/generator.py:196-201 | three transport failures re-raise the third |
| Submission.TransportFailureIsRetried | video_generation/generator.py:196-201 | a transport failure leads to the next attempt |
| Submission.RejectedStatusIsApiError | video_generation/generator.py:249-260 | a rejected status is an APIError with that status and the decoded (or text) body |
| Submission.MissingNameIsApiError | video_generation/generator.py:237-244 | a 2xx dict answer without a truthy name is an APIError with the status and the body |
| Poller.NextInterval | video_generation/generator.py:344 | the next interval is 1.2 times the last or the 30 s cap, never more than the cap |
| Poller.IntervalBounds | video_generation/generator.py:283-344 | the sleep stays between 10 and 30 s |
| Poller.IntervalMonotone | video_generation/generator.py:344 | the sleep never shrinks |
| Poller.IntervalReachesCap | video_generation/generator.py:344 | six growths stay below the cap, and from the seventh the sleep is 30 s |
| Poller.ElapsedLowerBound | video_generation/generator.py:298-343 | the k-th tick is at least 10 k seconds after the start |
| Poller.ClassifyPoll | video_generation/generator.py:309-340 | a transport failure is raised, and a rejected status is swallowed |
| Poller.ErrorWinsOverDone | video_generation/generator.py:316-320 | an `error` entry raises APIError with it as the response, whatever `done` says |
| Poller.CompletedBodyFinishes | video_generation/generator.py:323-332 | a completed answer yields its URI |
| Poller.DoneWithoutResponse | video_generation/generator.py:333-337 | a done answer without `response` raises APIError `Could not extract video URI: 'response'` carrying the body |
| Poller.DoneWithoutSamples | video_generation/generator.py:324-337 | a done answer with no samples raises the IndexError itself |
| Poller.PollOperation | video_generation/generator.py:262-344 | the loop computes the polling outcome: the clock, the interval and the tick are kept in step by its invariants |
| Poller.DeadlineBeforeRequest | video_generation/generator.py:298-304 | once the deadline is reached the poll times out whatever the service would answer |
| Poller.TickNeverTimesOut | video_generation/generator.py:309-340 | only the deadline check raises TimeoutError |
| Poller.TimeoutReportsElapsed | video_generation/generator.py:300-304 | a timeout carries an elapsed time at or past the limit |
| Poller.RejectedStatusKeepsPolling | video_generation/generator.py:339-344 | a rejected status goes on to the next tick |
| Poller.TransportFailureEndsPolling | video_generation/generator.py:309-340 | a transport failure ends the poll with that error |
| Poller.TicksBounded | video_generation/generator.py:297-304 | no tick k with 10 k at or past the limit makes a request |
| Downloader.Download | video_generation/generator.py:352-444 | success returns the path. The file then holds exactly the streamed bytes and is not empty. Failures for a string URI are all download errors. Every file but the output one keeps its bytes |
| Downloader.DownloadVideo | video_generation/generator.py:352-444 | the steps compute the download, and the counted bytes are the file's size |
| Downloader.WriteChunks | video_generation/generator.py:400-408 | the file holds the non-empty chunks in order, and the count is the total of all chunks |
| Downloader.WriteStep | video_generation/generator.py:405-407 | writing a chunk, or skipping an empty one, extends the file by that chunk |
| Downloader.EmptyBodyRemovesFile | video_generation/generator.py:417-423 | any complete 2xx stream whose chunks hold no bytes leaves no file, and the error is the wrapped `Downloaded file is empty` |
| Downloader.RejectedStatusKeepsFiles | video_generation/generator.py:433-437 | a rejected status raises and leaves the files as they were |
| Downloader.TransportFailureRemovesFile | video_generation/generator.py:438-444 | a transport failure, before or during the stream, removes the output path |
| Downloader.NoEmptyFileLeft | video_generation/generator.py:410-444 | a file the download leaves at a new output path is never empty and means success |
| Orchestrator.Failure | video_generation/generator.py:503-514 | a failed response has no path, the error's text and its details |
| Orchestrator.Success | video_generation/generator.py:490-501 | the response carries path, URI, name and size. A name that is not a string fails the response model's own validation |
| Orchestrator.Generate | video_generation/generator.py:482-514 | on success the output file exists and is not empty. A failure has no path but an error. Only the output path may be added or changed: every other file keeps its bytes |
| Orchestrator.RunJob | video_generation/generator.py:446-514 | on success the path is the given one or the generated name, and holds a non-empty file. A failure has an error and no path. Only that path may be added or changed: every other file keeps its bytes |
| Orchestrator.GenerateVideoAsync | video_generation/generator.py:446-514 | the steps compute the single-job outcome |
| Orchestrator.GenerateSteps | video_generation/generator.py:482-501 | upload, submit, poll and download in order compute the generation |
| Orchestrator.InvalidRequestMakesNoCall | video_generation/generator.py:470 | an invalid request fails before any request and changes no file |
| Orchestrator.InvalidPromptResponse | video_generation/generator.py:470-514 | an invalid prompt gives the pydantic validation text and empty details |
| Orchestrator.UploadWithoutUriIsTextOnly | video_generation/generator.py:477-482 | an upload without a URI gives the same job as no image |
| Orchestrator.PollTimeoutReported | video_generation/generator.py:485-514 | a poll timeout reaches the response with `elapsed_time` as its details |
| Orchestrator.ImageFor | video_generation/generator.py:562 | job i gets image i when the list is long enough, none otherwise |
| Orchestrator.GenerateBatch | video_generation/generator.py:516-596 | a negative limit raises the semaphore's ValueError, and a zero limit never returns. Otherwise one result per prompt, and the counts match the successful ones |
| Orchestrator.BatchResultsInOrder | video_generation/generator.py:559-572 | result i is job i's response, and on success its path is the indexed name in the output directory |
| Orchestrator.BatchFailuresCounted | video_generation/generator.py:575-585 | `has_failures` holds exactly when a video failed, and `failed` counts them |
| Orchestrator.JobPathsDistinct | video_generation/generator.py:561 | two jobs of a batch never share an output path |
| Orchestrator.JobPathIsMp4 | video_generation/generator.py:561-566 | every batch output path passes the request model's `.mp4` check |
| Orchestrator.Mp4NamePasses | video_generation/models.py:47 | a `veo_….mp4` name in any directory passes the `.mp4` check |
| Legacy.LegacyUpload | Video/main.py:46-114 | a returned URI is truthy, for an existing file whose MIME type is an image type, and is the answer's truthy `file.uri` or else its top-level `uri` |
| Legacy.UploadFallsBackToTopLevelUri | Video/main.py:89-98 | for any accepted dict answer without a truthy `file.uri`, a truthy top-level `uri` is returned, and otherwise None |
| Legacy.UploadPrefersFileUri | Video/main.py:89-98 | for any accepted dict answer, a truthy `file.uri` is returned whatever the top-level `uri` holds |
| Legacy.UploadChecksPathAndType | Video/main.py:56-66 | a missing file or a non-image type gives None before any request |
| Legacy.ImagePrompt | Video/main.py:142-151 | the dict has the keys prompt, image, aspectRatio and duration in that order, with the given values and `image.fileUri` |
| Legacy.PrepareImagePrompt | Video/main.py:116-151 | an image path is uploaded, else the given URI is used. Neither gives None, and so does a failed upload |
| Legacy.ImagePathTakesPrecedence | Video/main.py:133-139 | with an image path the given URI is ignored |
| Legacy.LegacySubmit | Video/main.py:153-213 | a returned operation name is truthy and is the `name` entry of an accepted dict answer |
| Legacy.SubmitReadsName | Video/main.py:176-190 | an accepted dict answer gives its truthy `name`, and None when the name is missing or falsy |
| Legacy.SubmitSwallowsRequestErrors | Video/main.py:191-213 | transport failures, 4xx/5xx and undecodable bodies give None |
| Legacy.LegacyClassify | Video/main.py:233-270 | transport failures, 4xx/5xx and undecodable bodies are retried |
| Legacy.ErrorEntryFails | Video/main.py:242-245 | an `error` entry ends the wait with None |
| Legacy.CompletedBodyFound | Video/main.py:248-257 | a completed answer yields its URI, as in the package |
| Legacy.WaitForCompletion | Video/main.py:215-273 | waiting on an operation gives the outcome of the tick-by-tick wait over that operation's status answers and the clock |
| Legacy.WaitLoop | Video/main.py:232-273 | the polling loop, run over any sequence of tick decisions and latencies, returns exactly the wait's outcome |
| Legacy.RetryKeepsInterval | Video/main.py:268-270 | after a swallowed request error the sleep does not grow |
| Legacy.PendingGrowsInterval | Video/main.py:264-266 | after a pending answer the sleep grows by 1.2, capped at 30 s |
| Legacy.TransportFailureIsRetried | Video/main.py:268-270 | a transport failure is retried here but ends the package's poll |
| Legacy.DeadlineGivesNone | Video/main.py:232-273 | past the deadline the wait gives None |
| Legacy.WaitRaisesOnlyOnBodies | Video/main.py:232-273 | the wait raises only when some tick got a readable answer |
| Legacy.WaitReadsLaterTicks | Video/main.py:232-273 | the wait from tick k depends only on what the ticks from k on decide and on their latencies |
| Legacy.LegacyDownload | Video/main.py:275-351 | a refused request or a 4xx/5xx status gives false before any file is opened, with the files unchanged, so true needs an accepted status. True means the file holds exactly the streamed bytes and is not empty. A raised error leaves the files alone, and only the output path may be added |
| Legacy.DownloadVideo | Video/main.py:308-351 | the steps compute the download |
| Legacy.CutStreamKeepsPartialFile | Video/main.py:319-351 | a stream cut after some bytes gives false and keeps the partial file, which the package removes |
| Legacy.EmptyBodyGivesFalse | Video/main.py:338-341 | an empty body gives false and removes the file |
| Legacy.DownloadTrueIffNonEmptyFile | Video/main.py:330-344 | a completed stream gives true exactly when it leaves a non-empty file |
| Legacy.KeepChars | Video/main.py:418 | only alphanumerics, space, `-` and `_` remain |
| Legacy.KeepItems | Video/main.py:418 | a list prompt of strings is kept, and other elements raise AttributeError |
| Legacy.KeptPromptText | Video/main.py:417-418 | only a dict prompt works: no `prompt` gives `video`, and a text prompt keeps its first 30 characters, filtered |
| Legacy.AutoFilename | Video/main.py:414-420 | the automatic name starts with `veo_` and ends with `.mp4` |
| Legacy.ReplaceSpaces | Video/main.py:420 | replacing spaces keeps the length and changes only spaces |
| Legacy.SafeTextChars | Video/main.py:418-420 | the name part holds only alphanumerics, `-` and `_` |
| Legacy.AutoFilenameOfText | Video/main.py:414-420 | the automatic name of a text prompt, field by field |
| Legacy.TextPromptFilename | Video/main.py:407-420 | a text prompt's name carries the mode `text_to_video` |
| Legacy.ImagePromptFilename | Video/main.py:414-420 | an image prompt's name carries the mode `image_to_video` |
| Legacy.BuildPrompt | Video/main.py:387-411 | a given prompt is used as is. Without one, the text prompt builds the dict, and without text there is no prompt |
| Legacy.GenerateAndDownload | Video/main.py:353-453 | true means a non-empty file is at the given `output_filename`, or at the automatic name when none is given; any file change without true comes with false |
| Legacy.Pipeline | Video/main.py:430-453 | true means the output file exists and is not empty |
| Legacy.GivenPromptUsedUnchanged | Video/main.py:388 | with a prompt given, the text, image and format arguments are ignored |
| Legacy.NoPromptGivesFalse | Video/main.py:389-391 | with neither prompt nor text the workflow gives false and touches nothing |
| Legacy.NoNameStopsBeforePolling | Video/main.py:431-433 | without an operation name nothing is polled or downloaded |
| Legacy.NoUriStopsBeforeDownload | Video/main.py:436-438 | without a video URI nothing is downloaded |

## Left out

- HTTP transport, JSON decoding and `mimetypes` are parameters of `Env`: the service's answers, the streamed chunks, the MIME guess. The request headers and the API key are not modelled, nor are `get_api_key` and `get_base_url`.
- The session lifetime of the `httpx` client (`__aenter__`, `__aexit__`, `close`, the `client` property) is not modelled.
- tenacity's backoff waits between attempts are not modelled; only the number of attempts is.
- Wall-clock time is a parameter: `started_at` and `completed_at` are arguments, not readings of a clock. `generation_time` of a response and the batch's `total_time` are not modelled; `VideoResponse` has no field for them.
- asyncio concurrency is not modelled. The batch runs its jobs one after another, in index order, each seeing the files the earlier ones left. The semaphore appears only through its two edge cases: a negative limit raises and a zero limit never returns. That at most `concurrent_limit` jobs run at once is not modelled.
- Console output is left out: `rich` progress bars, prints, `summary()`, the legacy 401 hints and the MB/speed figures printed with a format.
- Directories are not modelled: `mkdir`, path normalisation and `Path` joining are left out. A path is a string, and the directory join is `dir + "/" + name`.
- The "file does not exist" branches after writing cannot happen in a map model, so they are left out.
- `content-length` and the progress total of the download are not modelled.
- Models.CheckImagePath: the message for a wrong suffix is fixed text. Python prints the set of suffixes in an order that depends on hashing.
- Orchestrator.InvalidPromptResponse: the pydantic validation text gives the error count, the model name and each field with its message. The input value, the error type and the documentation link pydantic appends are not modelled.
- PyText.Lower: `str.lower` is modelled for ASCII letters only. `\w` and `str.isalnum` treat non-ASCII letters by a coarse rule, not by the Unicode tables.
- JSON objects with duplicate keys differ: Python's `json` keeps the last value for a repeated key, while the model's lookup finds the first entry. Bodies with repeated keys are therefore not modelled faithfully.
- The mime type the package sends with an upload (`image/jpeg`) is not part of the modelled request.
- Legacy.KeptPromptText: slicing a dict prompt raises `TypeError: unhashable type: 'slice'`, as Python before 3.12 does. Python 3.12 and later raise KeyError there.
- The compatibility wrappers `generate_video` and `generate_videos_batch` at the end of generator.py are not modelled. They only open a generator and call `generate_video_async` or `generate_batch`. `to_dict`, `format_file_size` and `format_duration` are left out too, as they only format output.
- PyValues.StrRepr: characters above U+00FF are written as they stand. Python escapes those the Unicode database counts as not printable (as `\u` or `\U` escapes), and that database is not modelled. Below U+0100 the escapes are Python's.
- Legacy.LegacySubmit, Legacy.LegacyClassify and Legacy.SubmitSwallowsRequestErrors assume requests 2.27 or later. There, the error `response.json()` raises for an undecodable body is a `RequestException`, so it is swallowed like a transport error. Older versions raise a plain `ValueError`.
- Models.SuccessRate: `success_rate` and `DownloadProgress.percentage` are computed as exact reals, not as IEEE doubles. The stated bounds hold either way, but the values can differ in the last digits: 7 successes out of 100 give 7.0 here and 7.000000000000001 in Python.
- PyValues.Repr: a float in a decoded response body is printed in fixed-point notation with exact decimal digits. Python's `repr` prints the shortest round-trip digits, and switches to scientific notation below 1e-4 and from 1e16 (`1e-05`, `1e+16`). So `str(e)` of an APIError whose `response` holds such a float differs from Python's.
- Exceptions.TimeoutErr: `elapsed_time` in the text of `str(e)` is printed like `max_wait_time` below, with exact decimal digits, not Python's shortest float repr.
- Models.OperationStatus.MarkTimeout: `max_wait_time` is a real printed with its exact decimal digits, at most 17 after the point. Python prints a float's shortest round-trip digits, so the two texts agree only for values with a short decimal expansion.
