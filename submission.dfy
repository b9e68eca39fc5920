/** Starting a generation (VeoVideoGenerator._upload_image and
    _initiate_generation): the image upload, the request payload and the
    classification of the service's answer, with tenacity's retry of
    transport errors counted in attempts. */
module Submission {
  import opened PyValues
  import opened PyText
  import opened Exceptions
  import opened PyAccess
  import opened Environment
  import Config
  import Models

  function UploadUrl(baseUrl: string): string {
    baseUrl + "/files"
  }

  function GenerateUrl(baseUrl: string): string {
    baseUrl + "/models/" + Config.DefaultModel + ":predictLongRunning"
  }

  // ---------------------------------------------------------------------
  // Image upload
  // ---------------------------------------------------------------------

  /** The body of `_upload_image`'s try block: read the file, post it, reject
      a non-2xx status, decode the body and take `file.uri`. A URI that is not
      truthy gives None. */
  function UploadAttempt(env: Env, baseUrl: string, imagePath: string, fs: FileSystem): (r: Result<Option<Json>, Raised>)
    ensures r.Ok? && r.value.Some? ==> Truthy(r.value.value)
    ensures r.Ok? && r.value.Some? ==>
      && imagePath in fs
      && var c := env.call(PostFile(UploadUrl(baseUrl), Models.PathName(imagePath), fs[imagePath]), 0);
      && c.Answered? && Is2xx(c.reply.status) && c.reply.body.JsonBody? && c.reply.body.json.JObj?
      && var file := Get(c.reply.body.json.fields, "file");
      && file.Some? && file.value.JObj? && Get(file.value.fields, "uri") == Some(r.value.value)
  {
    if imagePath !in fs then
      Err(Builtin("FileNotFoundError", "[Errno 2] No such file or directory: " + StrRepr(imagePath)))
    else
      match env.call(PostFile(UploadUrl(baseUrl), Models.PathName(imagePath), fs[imagePath]), 0)
      case Broken(m) => Err(Transport(m))
      case Answered(reply) =>
        if !Is2xx(reply.status) then Err(HttpStatus(reply.status, reply.statusError))
        else match reply.body
          case RawBody(_, decodeError) => Err(Builtin("JSONDecodeError", decodeError))
          case JsonBody(data) =>
            var file := DictGet(data, "file", JObj([]));
            if file.Err? then Err(file.error)
            else
              var uri := DictGet(file.value, "uri", JNull);
              if uri.Err? then Err(uri.error)
              else if Truthy(uri.value) then Ok(Some(uri.value))
              else Ok(None)
  }

  /** `_upload_image`: every exception of the attempt becomes an APIError
      whose message carries the original text. Since that error is not an
      httpx error, the retry decorator never fires: there is one attempt. */
  function UploadImage(env: Env, baseUrl: string, imagePath: string, fs: FileSystem): (r: Result<Option<Json>, Raised>)
    ensures r.Ok? <==> UploadAttempt(env, baseUrl, imagePath, fs).Ok?
    ensures r.Ok? ==> r == UploadAttempt(env, baseUrl, imagePath, fs)
    ensures r.Err? ==> r.error == Package(ApiErr("Image upload failed: " + Text(UploadAttempt(env, baseUrl, imagePath, fs).error), None, None))
  {
    var a := UploadAttempt(env, baseUrl, imagePath, fs);
    if a.Ok? then a else Err(Package(ApiErr("Image upload failed: " + Text(a.error), None, None)))
  }

  /** An upload error is an APIError with no details, whatever went wrong. */
  lemma UploadErrorHasNoDetails(env: Env, baseUrl: string, imagePath: string, fs: FileSystem)
    ensures var r := UploadImage(env, baseUrl, imagePath, fs);
      r.Err? ==> r.error.Package? && r.error.error.kind == ApiError(None, None) && r.error.error.details == []
  {
  }

  /** An accepted upload whose answer is a dict with a truthy `file.uri`
      returns that URI. */
  lemma UploadReturnsFileUri(env: Env, baseUrl: string, imagePath: string, fs: FileSystem, fields: Fields, fileFields: Fields, uri: Json)
    requires imagePath in fs
    requires var c := env.call(PostFile(UploadUrl(baseUrl), Models.PathName(imagePath), fs[imagePath]), 0);
      c.Answered? && Is2xx(c.reply.status) && c.reply.body == JsonBody(JObj(fields))
    requires Get(fields, "file") == Some(JObj(fileFields)) && Get(fileFields, "uri") == Some(uri) && Truthy(uri)
    ensures UploadImage(env, baseUrl, imagePath, fs) == Ok(Some(uri))
  {
  }

  /** An accepted upload whose answer is a dict without a `file` entry, or
      whose `file` dict has no truthy `uri`, yields None rather than an
      error. */
  lemma UploadWithoutUriGivesNone(env: Env, baseUrl: string, imagePath: string, fs: FileSystem, fields: Fields)
    requires imagePath in fs
    requires var c := env.call(PostFile(UploadUrl(baseUrl), Models.PathName(imagePath), fs[imagePath]), 0);
      c.Answered? && Is2xx(c.reply.status) && c.reply.body == JsonBody(JObj(fields))
    requires var file := Get(fields, "file");
      file.None? || (file.value.JObj? && !Truthy(GetOr(file.value.fields, "uri", JNull)))
    ensures UploadImage(env, baseUrl, imagePath, fs) == Ok(None)
  {
  }

  // ---------------------------------------------------------------------
  // Initiating the generation
  // ---------------------------------------------------------------------

  /** `{"instances": [{"prompt": prompt.strip(), "image": {"uri": image_uri}}]}`,
      the image entry present only for a truthy URI. */
  function Payload(prompt: string, imageUri: Option<Json>): (j: Json)
    ensures j.JObj? && Keys(j.fields) == ["instances"]
    ensures Get(j.fields, "instances").Some? && Get(j.fields, "instances").value.JList?
    ensures var items := Get(j.fields, "instances").value.items;
      |items| == 1 && items[0].JObj?
      && Get(items[0].fields, "prompt") == Some(JStr(StripSpace(prompt)))
      && (HasKey(items[0].fields, "image") <==> JsonTruthy(imageUri))
      && (JsonTruthy(imageUri) ==> Get(items[0].fields, "image") == Some(JObj([("uri", imageUri.value)])))
  {
    var image := if JsonTruthy(imageUri) then [("image", JObj([("uri", imageUri.value)]))] else [];
    var instance := [("prompt", JStr(StripSpace(prompt)))] + image;
    assert "prompt"[0] != "image"[0];
    GetSmall(instance, "prompt");
    GetSmall(instance, "image");
    var j := JObj([("instances", JList([JObj(instance)]))]);
    assert Keys(j.fields) == ["instances"];
    j
  }

  /** The data the error carries for a rejected status: the decoded body, or
      `{"text": body}` when it does not decode. */
  function ErrorData(body: Body): Json {
    match body
    case JsonBody(j) => j
    case RawBody(text, _) => JObj([("text", JStr(text))])
  }

  /** One attempt of `_initiate_generation` after the prompt check. */
  function InitiateAttempt(env: Env, baseUrl: string, prompt: string, imageUri: Option<Json>, attempt: nat)
    : (r: Result<Json, Raised>)
    ensures r.Ok? ==> Truthy(r.value)
    ensures r.Ok? ==>
      var c := env.call(PostJson(GenerateUrl(baseUrl), Payload(prompt, imageUri)), attempt);
      && c.Answered? && Is2xx(c.reply.status) && c.reply.body.JsonBody? && c.reply.body.json.JObj?
      && Get(c.reply.body.json.fields, "name") == Some(r.value)
  {
    match env.call(PostJson(GenerateUrl(baseUrl), Payload(prompt, imageUri)), attempt)
    case Broken(m) => Err(Transport(m))
    case Answered(reply) =>
      if !Is2xx(reply.status) then
        Err(Package(ApiErr("API request failed: " + reply.statusError, Some(reply.status), Some(ErrorData(reply.body)))))
      else match reply.body
        case RawBody(_, decodeError) => Err(Builtin("JSONDecodeError", decodeError))
        case JsonBody(data) =>
          var name := DictGet(data, "name", JNull);
          if name.Err? then Err(name.error)
          else if !Truthy(name.value) then
            Err(Package(ApiErr("No operation name returned from API", Some(reply.status), Some(data))))
          else Ok(name.value)
  }

  /** tenacity: an attempt that fails with a transport error is repeated, up to
      three attempts in all; any other outcome is final. */
  function Attempts(env: Env, baseUrl: string, prompt: string, imageUri: Option<Json>, attempt: nat)
    : (r: Result<Json, Raised>)
    decreases Config.MaxRetryAttempts - attempt
  {
    var a := InitiateAttempt(env, baseUrl, prompt, imageUri, attempt);
    if a.Err? && a.error.Transport? && attempt + 1 < Config.MaxRetryAttempts then
      Attempts(env, baseUrl, prompt, imageUri, attempt + 1)
    else a
  }

  /** `_initiate_generation`: a blank prompt is rejected before any request. */
  function Initiate(env: Env, baseUrl: string, prompt: string, imageUri: Option<Json>): (r: Result<Json, Raised>)
    ensures StripSpace(prompt) == [] ==> r == Err(Package(ValidationErr("Prompt cannot be empty", Some("prompt"))))
    ensures StripSpace(prompt) != [] ==> r == Attempts(env, baseUrl, prompt, imageUri, 0)
    ensures r.Ok? ==> Truthy(r.value)
  {
    if prompt == [] || StripSpace(prompt) == [] then
      Err(Package(ValidationErr("Prompt cannot be empty", Some("prompt"))))
    else
      AttemptsSucceedTruthy(env, baseUrl, prompt, imageUri, 0);
      Attempts(env, baseUrl, prompt, imageUri, 0)
  }

  lemma {:induction false} AttemptsSucceedTruthy(env: Env, baseUrl: string, prompt: string, imageUri: Option<Json>, attempt: nat)
    ensures var r := Attempts(env, baseUrl, prompt, imageUri, attempt); r.Ok? ==> Truthy(r.value)
    decreases Config.MaxRetryAttempts - attempt
  {
    var a := InitiateAttempt(env, baseUrl, prompt, imageUri, attempt);
    if a.Err? && a.error.Transport? && attempt + 1 < Config.MaxRetryAttempts {
      AttemptsSucceedTruthy(env, baseUrl, prompt, imageUri, attempt + 1);
    }
  }

  /** The blank-prompt error does not depend on the service: no request is made. */
  lemma BlankPromptMakesNoRequest(env1: Env, env2: Env, baseUrl: string, prompt: string, imageUri: Option<Json>)
    requires StripSpace(prompt) == []
    ensures Initiate(env1, baseUrl, prompt, imageUri) == Initiate(env2, baseUrl, prompt, imageUri)
    ensures Initiate(env1, baseUrl, prompt, imageUri).error.error.details == [("field", JStr("prompt"))]
  {
  }

  /** An answer that is not a transport error settles the outcome on the
      first attempt. */
  lemma FirstAnswerIsFinal(env: Env, baseUrl: string, prompt: string, imageUri: Option<Json>)
    requires env.call(PostJson(GenerateUrl(baseUrl), Payload(prompt, imageUri)), 0).Answered?
    ensures Attempts(env, baseUrl, prompt, imageUri, 0) == InitiateAttempt(env, baseUrl, prompt, imageUri, 0)
  {
  }

  /** Three transport failures in a row: the third one's error propagates. */
  lemma ThreeTransportFailures(env: Env, baseUrl: string, prompt: string, imageUri: Option<Json>)
    requires forall n: nat :: n < 3 ==> env.call(PostJson(GenerateUrl(baseUrl), Payload(prompt, imageUri)), n).Broken?
    ensures Attempts(env, baseUrl, prompt, imageUri, 0)
      == Err(Transport(env.call(PostJson(GenerateUrl(baseUrl), Payload(prompt, imageUri)), 2).message))
  {
    var q := PostJson(GenerateUrl(baseUrl), Payload(prompt, imageUri));
    assert env.call(q, 0).Broken? && env.call(q, 1).Broken? && env.call(q, 2).Broken?;
  }

  /** A transport failure followed by an answer: the second attempt decides. */
  lemma TransportFailureIsRetried(env: Env, baseUrl: string, prompt: string, imageUri: Option<Json>)
    requires env.call(PostJson(GenerateUrl(baseUrl), Payload(prompt, imageUri)), 0).Broken?
    ensures Attempts(env, baseUrl, prompt, imageUri, 0) == Attempts(env, baseUrl, prompt, imageUri, 1)
  {
  }

  /** A rejected status gives an APIError carrying the status and the body;
      it is not retried. */
  lemma RejectedStatusIsApiError(env: Env, baseUrl: string, prompt: string, imageUri: Option<Json>, reply: Reply)
    requires env.call(PostJson(GenerateUrl(baseUrl), Payload(prompt, imageUri)), 0) == Answered(reply)
    requires !Is2xx(reply.status) && reply.status != 0
    ensures var r := Attempts(env, baseUrl, prompt, imageUri, 0);
      r.Err? && r.error.Package? && r.error.error.kind == ApiError(Some(reply.status), Some(ErrorData(reply.body)))
      && Get(r.error.error.details, "status_code") == Some(JInt(reply.status))
  {
  }

  /** A 2xx answer without a truthy `name` is an APIError carrying the status
      and the body. */
  lemma MissingNameIsApiError(env: Env, baseUrl: string, prompt: string, imageUri: Option<Json>, status: int, fields: Fields)
    requires var c := env.call(PostJson(GenerateUrl(baseUrl), Payload(prompt, imageUri)), 0);
      c.Answered? && c.reply.status == status && c.reply.body == JsonBody(JObj(fields))
    requires Is2xx(status) && !Truthy(GetOr(fields, "name", JNull))
    ensures Attempts(env, baseUrl, prompt, imageUri, 0)
      == Err(Package(ApiErr("No operation name returned from API", Some(status), Some(JObj(fields)))))
  {
  }

  /** A 2xx answer that is a dict with a truthy `name` gives that name, and
      so does the whole initiation when it is the first answer to a prompt
      that is not blank. */
  lemma InitiateReturnsName(env: Env, baseUrl: string, prompt: string, imageUri: Option<Json>, attempt: nat,
                            fields: Fields, name: Json)
    requires var c := env.call(PostJson(GenerateUrl(baseUrl), Payload(prompt, imageUri)), attempt);
      c.Answered? && Is2xx(c.reply.status) && c.reply.body == JsonBody(JObj(fields))
    requires Get(fields, "name") == Some(name) && Truthy(name)
    ensures InitiateAttempt(env, baseUrl, prompt, imageUri, attempt) == Ok(name)
    ensures attempt == 0 && StripSpace(prompt) != [] ==> Initiate(env, baseUrl, prompt, imageUri) == Ok(name)
  {
  }
}
