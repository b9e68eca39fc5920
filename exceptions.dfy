/** The package's error records (video_generation/exceptions.py) and what a
    raised exception looks like to the code that catches it. */
module Exceptions {
  import opened PyValues
  import opened PyText

  /** Which class of the hierarchy an error is, with the arguments the
      subclass keeps as attributes. Every kind is a VideoGenerationError. */
  datatype ErrorKind =
    | BaseError
    | ApiError(statusCode: Option<int>, responseData: Option<Json>)
    | TimeoutError(elapsedTime: Option<real>)
    | DownloadError(videoUri: Option<string>, partialBytes: Option<int>)
    | ValidationError(field: Option<string>)
    | OperationNotFoundError(operationName: Option<string>)

  /** An instance of VideoGenerationError or one of its subclasses. */
  datatype VideoGenerationError = VideoGenerationError(kind: ErrorKind, message: string, details: Fields)

  /** Python's truth value of an optional integer / float / string argument. */
  predicate IntTruthy(x: Option<int>) {
    x.Some? && x.value != 0
  }

  predicate RealTruthy(x: Option<real>) {
    x.Some? && x.value != 0.0
  }

  predicate StrTruthy(x: Option<string>) {
    x.Some? && x.value != []
  }

  predicate JsonTruthy(x: Option<Json>) {
    x.Some? && Truthy(x.value)
  }

  /** The keys a details map holds. */
  function Keys(fields: Fields): (ks: seq<string>)
    ensures |ks| == |fields|
  {
    seq(|fields|, i requires 0 <= i < |fields| => fields[i].0)
  }

  /** `VideoGenerationError(message, details)`: `details or {}`. */
  function BaseErr(message: string, details: Option<Fields>): (e: VideoGenerationError)
    ensures e.kind == BaseError && e.message == message
    ensures e.details == [] <==> details.None? || details.value == []
    ensures details.Some? ==> e.details == details.value
  {
    VideoGenerationError(BaseError, message, if details.Some? then details.value else [])
  }

  /** `APIError(message, status_code, response_data)`. */
  function ApiErr(message: string, statusCode: Option<int>, responseData: Option<Json>): (e: VideoGenerationError)
    ensures e.kind == ApiError(statusCode, responseData) && e.message == message
    ensures HasKey(e.details, "status_code") <==> IntTruthy(statusCode)
    ensures IntTruthy(statusCode) ==> Get(e.details, "status_code") == Some(JInt(statusCode.value))
    ensures HasKey(e.details, "response") <==> JsonTruthy(responseData)
    ensures JsonTruthy(responseData) ==> Get(e.details, "response") == Some(responseData.value)
    ensures forall k :: k in Keys(e.details) ==> k == "status_code" || k == "response"
  {
    assert "status_code"[0] != "response"[0];
    var details :=
      if IntTruthy(statusCode) && JsonTruthy(responseData) then
        [("status_code", JInt(statusCode.value)), ("response", responseData.value)]
      else if IntTruthy(statusCode) then [("status_code", JInt(statusCode.value))]
      else if JsonTruthy(responseData) then [("response", responseData.value)]
      else [];
    GetSmall(details, "status_code");
    GetSmall(details, "response");
    VideoGenerationError(ApiError(statusCode, responseData), message, details)
  }

  /** `TimeoutError(message, elapsed_time)`. */
  function TimeoutErr(message: string, elapsedTime: Option<real>): (e: VideoGenerationError)
    ensures e.kind == TimeoutError(elapsedTime) && e.message == message
    ensures e.details == [] <==> !RealTruthy(elapsedTime)
    ensures RealTruthy(elapsedTime) ==> Get(e.details, "elapsed_time") == Some(JFloat(elapsedTime.value))
    ensures |e.details| <= 1
  {
    var details := if RealTruthy(elapsedTime) then [("elapsed_time", JFloat(elapsedTime.value))] else [];
    VideoGenerationError(TimeoutError(elapsedTime), message, details)
  }

  /** `DownloadError(message, video_uri, partial_bytes)`. */
  function DownloadErr(message: string, videoUri: Option<string>, partialBytes: Option<int>): (e: VideoGenerationError)
    ensures e.kind == DownloadError(videoUri, partialBytes) && e.message == message
    ensures HasKey(e.details, "video_uri") <==> StrTruthy(videoUri)
    ensures StrTruthy(videoUri) ==> Get(e.details, "video_uri") == Some(JStr(videoUri.value))
    ensures HasKey(e.details, "partial_bytes_downloaded") <==> IntTruthy(partialBytes)
    ensures IntTruthy(partialBytes) ==> Get(e.details, "partial_bytes_downloaded") == Some(JInt(partialBytes.value))
    ensures forall k :: k in Keys(e.details) ==> k == "video_uri" || k == "partial_bytes_downloaded"
  {
    assert "video_uri"[0] != "partial_bytes_downloaded"[0];
    var details :=
      if StrTruthy(videoUri) && IntTruthy(partialBytes) then
        [("video_uri", JStr(videoUri.value)), ("partial_bytes_downloaded", JInt(partialBytes.value))]
      else if StrTruthy(videoUri) then [("video_uri", JStr(videoUri.value))]
      else if IntTruthy(partialBytes) then [("partial_bytes_downloaded", JInt(partialBytes.value))]
      else [];
    GetSmall(details, "video_uri");
    GetSmall(details, "partial_bytes_downloaded");
    VideoGenerationError(DownloadError(videoUri, partialBytes), message, details)
  }

  /** `ValidationError(message, field)`. */
  function ValidationErr(message: string, field: Option<string>): (e: VideoGenerationError)
    ensures e.kind == ValidationError(field) && e.message == message
    ensures e.details == [] <==> !StrTruthy(field)
    ensures StrTruthy(field) ==> Get(e.details, "field") == Some(JStr(field.value))
    ensures |e.details| <= 1
  {
    var details := if StrTruthy(field) then [("field", JStr(field.value))] else [];
    VideoGenerationError(ValidationError(field), message, details)
  }

  /** `OperationNotFoundError(message, operation_name)`. */
  function OperationNotFoundErr(message: string, operationName: Option<string>): (e: VideoGenerationError)
    ensures e.kind == OperationNotFoundError(operationName) && e.message == message
    ensures e.details == [] <==> !StrTruthy(operationName)
    ensures StrTruthy(operationName) ==> Get(e.details, "operation_name") == Some(JStr(operationName.value))
    ensures |e.details| <= 1
  {
    var details := if StrTruthy(operationName) then [("operation_name", JStr(operationName.value))] else [];
    VideoGenerationError(OperationNotFoundError(operationName), message, details)
  }

  /** `str(e)`: the message alone when there are no details, otherwise the
      message, ` | Details: ` and the dict's repr. */
  function Str(e: VideoGenerationError): (r: string)
    ensures StartsWith(r, e.message)
    ensures r == e.message <==> e.details == []
    ensures e.details != [] ==> r[|e.message|..] == " | Details: " + Repr(JObj(e.details))
  {
    if e.details != [] then e.message + " | Details: " + Repr(JObj(e.details)) else e.message
  }

  /** The error of the import test: `APIError("Test error", status_code=404,
      response_data={"error": "Not found"})` keeps its status code and records
      both arguments in its details, status first. */
  lemma ApiErrorExample()
    ensures var body := JObj([("error", JStr("Not found"))]);
      var e := ApiErr("Test error", Some(404), Some(body));
      && e.kind.statusCode == Some(404)
      && e.kind.responseData == Some(body)
      && e.details == [("status_code", JInt(404)), ("response", body)]
  {
    var body := JObj([("error", JStr("Not found"))]);
    assert JsonTruthy(Some(body));
  }

  /** An APIError with status 404 and no response data prints as
      `Test error | Details: {'status_code': 404}`. */
  lemma ApiErrorStatusOnlyExample()
    ensures var e := ApiErr("Test error", Some(404), None);
      && e.details == [("status_code", JInt(404))]
      && Str(e) == "Test error | Details: {'status_code': 404}"
  {
    var e := ApiErr("Test error", Some(404), None);
    assert e.details == [("status_code", JInt(404))];
    ReprOfStatusDetails();
    RenderWithDetails(e.message, Repr(JObj(e.details)));
  }

  lemma RenderWithDetails(message: string, details: string)
    requires message == "Test error" && details == "{'status_code': 404}"
    ensures message + " | Details: " + details == "Test error | Details: {'status_code': 404}"
  {
  }

  lemma ReprOfStatusDetails()
    ensures Repr(JObj([("status_code", JInt(404))])) == "{'status_code': 404}"
  {
    KeyRepr("status_code");
    StatusValueRepr();
    ReprOfOneEntry("status_code", JInt(404));
    StatusDetailsText(StrRepr("status_code"), Repr(JInt(404)));
  }

  lemma StatusDetailsText(key: string, value: string)
    requires key == "'status_code'" && value == "404"
    ensures "{" + key + ": " + value + "}" == "{'status_code': 404}"
  {
  }

  lemma KeyRepr(key: string)
    requires key == "status_code"
    ensures StrRepr(key) == "'" + key + "'"
  {
    assert forall i :: 0 <= i < |key| ==> 'a' <= key[i] <= 'z' || key[i] == '_';
    LowerWordPlain(key);
    StrReprPlain(key);
  }

  lemma StatusValueRepr()
    ensures Repr(JInt(404)) == "404"
  {
    assert NatToDecimal(40) == "40";
  }

  /** A zero status code and empty response data leave the details empty, so
      the error prints as its bare message. */
  lemma ApiErrorFalsyArguments(message: string)
    ensures Str(ApiErr(message, Some(0), Some(JObj([])))) == message
  {
  }

  // ---------------------------------------------------------------------
  // Raised exceptions
  // ---------------------------------------------------------------------

  /** An exception in flight: one of the package's errors, the HTTP library's
      error for a response status it rejects, an error of its transport layer,
      or a built-in Python exception given by its class name and its `str`. */
  datatype Raised =
    | Package(error: VideoGenerationError)
    | HttpStatus(status: int, message: string)
    | Transport(message: string)
    | Builtin(typeName: string, message: string)

  /** `str(e)`. */
  function Text(r: Raised): string {
    match r
    case Package(e) => Str(e)
    case HttpStatus(_, m) => m
    case Transport(m) => m
    case Builtin(_, m) => m
  }

  /** `e.details if hasattr(e, "details") else {}`. */
  function DetailsOf(r: Raised): (d: Fields)
    ensures r.Package? ==> d == r.error.details
    ensures !r.Package? ==> d == []
  {
    if r.Package? then r.error.details else []
  }
}
