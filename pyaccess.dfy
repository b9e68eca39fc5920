/** The four ways the workflow code reads a decoded JSON body: `key in data`,
    `data.get(key, default)`, `data[key]` and `data[0]`. Each returns the value
    Python computes or the built-in exception Python raises, with its text. */
module PyAccess {
  import opened PyValues
  import opened PyText
  import opened Exceptions

  /** `key in j`: dict membership, list membership of the string, substring of
      a string; any other value is not iterable. */
  function Contains(j: Json, key: string): (r: Result<bool, Raised>)
    ensures j.JObj? ==> r == Ok(HasKey(j.fields, key))
    ensures j.JList? ==> r == Ok(JStr(key) in j.items)
    ensures j.JStr? ==> r == Ok(Occurs(j.s, key))
    ensures r.Err? <==> !(j.JObj? || j.JList? || j.JStr?)
    ensures r.Err? ==> r.error == Builtin("TypeError", "argument of type '" + TypeName(j) + "' is not iterable")
  {
    match j
    case JObj(fs) => Ok(HasKey(fs, key))
    case JList(xs) => Ok(JStr(key) in xs)
    case JStr(s) => Ok(Occurs(s, key))
    case _ => Err(Builtin("TypeError", "argument of type '" + TypeName(j) + "' is not iterable"))
  }

  /** `j.get(key, default)`: only a dict has `get`. */
  function DictGet(j: Json, key: string, default: Json): (r: Result<Json, Raised>)
    ensures r.Ok? <==> j.JObj?
    ensures j.JObj? && HasKey(j.fields, key) ==> r == Ok(Get(j.fields, key).value)
    ensures j.JObj? && !HasKey(j.fields, key) ==> r == Ok(default)
    ensures r.Err? ==> r.error == Builtin("AttributeError", "'" + TypeName(j) + "' object has no attribute 'get'")
  {
    if j.JObj? then Ok(GetOr(j.fields, key, default))
    else Err(Builtin("AttributeError", "'" + TypeName(j) + "' object has no attribute 'get'"))
  }

  /** `j[key]` with a string key. A missing dict key raises KeyError, whose
      `str` is the repr of the key. */
  function KeyLookup(j: Json, key: string): (r: Result<Json, Raised>)
    ensures r.Ok? <==> j.JObj? && HasKey(j.fields, key)
    ensures r.Ok? ==> r.value == Get(j.fields, key).value
    ensures j.JObj? && !HasKey(j.fields, key) ==> r == Err(Builtin("KeyError", StrRepr(key)))
    ensures !j.JObj? ==> r.Err? && r.error.Builtin? && r.error.typeName == "TypeError"
  {
    match j
    case JObj(fs) =>
      (match Get(fs, key)
       case Some(v) => Ok(v)
       case None => Err(Builtin("KeyError", StrRepr(key))))
    case JList(_) => Err(Builtin("TypeError", "list indices must be integers or slices, not str"))
    case JStr(_) => Err(Builtin("TypeError", "string indices must be integers, not 'str'"))
    case _ => Err(Builtin("TypeError", "'" + TypeName(j) + "' object is not subscriptable"))
  }

  /** `j[0]`. JSON object keys are strings, so a dict never holds the key 0. */
  function FirstItem(j: Json): (r: Result<Json, Raised>)
    ensures j.JList? && j.items != [] ==> r == Ok(j.items[0])
    ensures j.JList? && j.items == [] ==> r == Err(Builtin("IndexError", "list index out of range"))
    ensures j.JStr? && j.s != [] ==> r == Ok(JStr([j.s[0]]))
    ensures j.JObj? ==> r == Err(Builtin("KeyError", "0"))
    ensures r.Ok? ==> j.JList? || j.JStr?
    ensures r.Err? ==> r.error.Builtin?
  {
    match j
    case JList(xs) => if xs != [] then Ok(xs[0]) else Err(Builtin("IndexError", "list index out of range"))
    case JStr(s) => if s != [] then Ok(JStr([s[0]])) else Err(Builtin("IndexError", "string index out of range"))
    case JObj(_) => Err(Builtin("KeyError", "0"))
    case _ => Err(Builtin("TypeError", "'" + TypeName(j) + "' object is not subscriptable"))
  }

  /** Whether a raised exception is a KeyError. */
  predicate IsKeyError(e: Raised) {
    e.Builtin? && e.typeName == "KeyError"
  }

  /** `data["response"]["generateVideoResponse"]["generatedSamples"][0]["video"]["uri"]`,
      stopping at the first lookup that raises. */
  function VideoUriOf(data: Json): (r: Result<Json, Raised>)
    ensures r.Err? ==> r.error.Builtin?
  {
    var a := KeyLookup(data, "response");
    if a.Err? then a else
    var b := KeyLookup(a.value, "generateVideoResponse");
    if b.Err? then b else
    var c := KeyLookup(b.value, "generatedSamples");
    if c.Err? then c else
    var d := FirstItem(c.value);
    if d.Err? then d else
    var e := KeyLookup(d.value, "video");
    if e.Err? then e else
    KeyLookup(e.value, "uri")
  }

  /** The body the completed operation returns, holding `uri` at the nested path. */
  function CompletedBody(uri: Json): Json {
    JObj([("done", JBool(true)), ("response", JObj([("generateVideoResponse", JObj([
      ("generatedSamples", JList([JObj([("video", JObj([("uri", uri)]))])]))]))]))])
  }

  /** The nested path reads back the URI a completed body holds. */
  lemma VideoUriOfCompletedBody(uri: Json)
    ensures VideoUriOf(CompletedBody(uri)) == Ok(uri)
  {
    var video := JObj([("uri", uri)]);
    var sample := JObj([("video", video)]);
    var samples := JObj([("generatedSamples", JList([sample]))]);
    var response := JObj([("generateVideoResponse", samples)]);
    assert "done"[0] != "response"[0];
    LookupSecond("done", JBool(true), "response", response);
    LookupOnly("generateVideoResponse", samples);
    LookupOnly("generatedSamples", JList([sample]));
    assert FirstItem(JList([sample])) == Ok(sample);
    LookupOnly("video", video);
    LookupOnly("uri", uri);
  }

  /** The key of a one-entry dict finds its value. */
  lemma LookupOnly(key: string, v: Json)
    ensures KeyLookup(JObj([(key, v)]), key) == Ok(v)
  {
  }

  /** The second key of a two-entry dict finds its value. */
  lemma LookupSecond(k0: string, v0: Json, key: string, v: Json)
    requires k0 != key
    ensures KeyLookup(JObj([(k0, v0), (key, v)]), key) == Ok(v)
  {
    GetSmall([(k0, v0), (key, v)], key);
  }

  /** An empty `generatedSamples` list raises IndexError, not KeyError. */
  lemma EmptySamplesRaiseIndexError()
    ensures var data := JObj([("response", JObj([("generateVideoResponse", JObj([("generatedSamples", JList([]))]))]))]);
      VideoUriOf(data) == Err(Builtin("IndexError", "list index out of range"))
  {
  }

  /** A dict without `response` raises the KeyError for that key first. */
  lemma MissingResponseRaisesKeyError(fields: Fields)
    requires !HasKey(fields, "response")
    ensures VideoUriOf(JObj(fields)) == Err(Builtin("KeyError", StrRepr("response")))
    ensures IsKeyError(VideoUriOf(JObj(fields)).error)
  {
  }
}
