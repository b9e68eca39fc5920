/** Waiting for the operation (VeoVideoGenerator._poll_operation): the
    deadline is checked before every request, a rejected status is swallowed,
    an `error` entry wins over `done`, and the sleep between ticks grows from
    10 s by a factor 1.2 up to 30 s. */
module Poller {
  import opened PyValues
  import opened Exceptions
  import opened PyAccess
  import opened Environment
  import Config

  // ---------------------------------------------------------------------
  // Backoff and time
  // ---------------------------------------------------------------------

  /** `min(i * 1.2, 30)`. */
  function NextInterval(i: real): (r: real)
    ensures r <= Config.MaxPollInterval
    ensures r == i * Config.PollBackoffMultiplier || r == Config.MaxPollInterval
  {
    if i * Config.PollBackoffMultiplier < Config.MaxPollInterval then i * Config.PollBackoffMultiplier
    else Config.MaxPollInterval
  }

  /** The sleep after the k-th tick (from 0). */
  function Interval(k: nat): real {
    if k == 0 then Config.InitialPollInterval else NextInterval(Interval(k - 1))
  }

  /** The interval stays between 10 and 30 seconds. */
  lemma {:induction false} IntervalBounds(k: nat)
    ensures Config.InitialPollInterval <= Interval(k) <= Config.MaxPollInterval
  {
    if k > 0 {
      IntervalBounds(k - 1);
    }
  }

  /** The interval never shrinks. */
  lemma IntervalMonotone(k: nat)
    ensures Interval(k) <= Interval(k + 1)
  {
    IntervalBounds(k);
  }

  /** Six growths stay below the cap; from the seventh on, the interval is 30 s. */
  lemma {:induction false} IntervalReachesCap(k: nat)
    ensures k <= 6 ==> Interval(k) < Config.MaxPollInterval
    ensures k >= 7 ==> Interval(k) == Config.MaxPollInterval
  {
    if k >= 8 {
      IntervalReachesCap(k - 1);
    } else {
      assert Interval(1) == 12.0;
      assert Interval(2) == 14.4;
      assert Interval(3) == 17.28;
      assert Interval(4) == 20.736;
      assert Interval(5) == 24.8832;
      assert Interval(6) == 29.85984;
    }
  }

  /** The time since the start when the k-th tick checks the deadline: the
      sleeps before it plus the time the requests took. */
  function Elapsed(env: Env, k: nat): real {
    if k == 0 then env.latency(0) else Elapsed(env, k - 1) + Interval(k - 1) + env.latency(k)
  }

  /** Each tick is at least 10 s after the previous one. */
  lemma {:induction false} ElapsedLowerBound(env: Env, k: nat)
    ensures Elapsed(env, k) >= 10.0 * k as real
  {
    if k > 0 {
      ElapsedLowerBound(env, k - 1);
      IntervalBounds(k - 1);
    }
  }

  // ---------------------------------------------------------------------
  // One tick
  // ---------------------------------------------------------------------

  /** What a tick decides: the operation finished with a URI, it is still
      running, or the poll raises. */
  datatype Tick = Finished(uri: Json) | Running | Raises(error: Raised)

  /** How the answer of one status request is read. */
  function ClassifyPoll(call: Call): (t: Tick)
    ensures call.Broken? ==> t == Raises(Transport(call.message))
    ensures call.Answered? && !Is2xx(call.reply.status) ==> t == Running
  {
    match call
    case Broken(m) => Raises(Transport(m))
    case Answered(reply) =>
      if !Is2xx(reply.status) then Running
      else match reply.body
        case RawBody(_, decodeError) => Raises(Builtin("JSONDecodeError", decodeError))
        case JsonBody(data) => ClassifyData(data)
  }

  /** The decoded body: an `error` entry raises, a truthy `done` extracts the
      URI (only a KeyError becomes an APIError), anything else keeps polling. */
  function ClassifyData(data: Json): Tick {
    var hasError := Contains(data, "error");
    if hasError.Err? then Raises(hasError.error)
    else if hasError.value then
      var err := DictGet(data, "error", JNull);
      if err.Err? then Raises(err.error)
      else Raises(Package(ApiErr("Video generation failed", None, Some(err.value))))
    else
      var done := DictGet(data, "done", JBool(false));
      if done.Err? then Raises(done.error)
      else if !Truthy(done.value) then Running
      else
        var uri := VideoUriOf(data);
        if uri.Ok? then Finished(uri.value)
        else if IsKeyError(uri.error) then
          Raises(Package(ApiErr("Could not extract video URI: " + uri.error.message, None, Some(data))))
        else Raises(uri.error)
  }

  /** An `error` entry wins over a truthy `done`. */
  lemma ErrorWinsOverDone(fields: Fields)
    requires HasKey(fields, "error")
    ensures ClassifyData(JObj(fields)) == Raises(Package(ApiErr("Video generation failed", None, Get(fields, "error"))))
  {
  }

  /** A finished operation with the nested URI yields that URI. */
  lemma CompletedBodyFinishes(uri: Json)
    ensures ClassifyData(CompletedBody(uri)) == Finished(uri)
  {
    var body := CompletedBody(uri);
    assert "done"[0] != "error"[0] && "response"[0] != "error"[0];
    GetSmall(body.fields, "error");
    GetSmall(body.fields, "done");
    VideoUriOfCompletedBody(uri);
  }

  /** A finished operation without `response` raises an APIError carrying the
      whole body. */
  lemma DoneWithoutResponse(fields: Fields)
    requires !HasKey(fields, "error") && !HasKey(fields, "response")
    requires Get(fields, "done") == Some(JBool(true))
    ensures ClassifyData(JObj(fields))
      == Raises(Package(ApiErr("Could not extract video URI: " + StrRepr("response"), None, Some(JObj(fields)))))
  {
  }

  /** A finished operation with no samples raises the IndexError itself. */
  lemma DoneWithoutSamples()
    ensures var data := JObj([("done", JBool(true)), ("response", JObj([("generateVideoResponse",
      JObj([("generatedSamples", JList([]))]))]))]);
      ClassifyData(data) == Raises(Builtin("IndexError", "list index out of range"))
  {
    var data := JObj([("done", JBool(true)), ("response", JObj([("generateVideoResponse",
      JObj([("generatedSamples", JList([]))]))]))]);
    assert "done"[0] != "error"[0] && "response"[0] != "error"[0];
    GetSmall(data.fields, "error");
    GetSmall(data.fields, "done");
    GetSmall(data.fields, "response");
  }

  // ---------------------------------------------------------------------
  // The loop
  // ---------------------------------------------------------------------

  function OperationUrl(baseUrl: string, operationName: Json): string {
    baseUrl + "/" + PyStr(operationName)
  }

  function TimeoutFor(maxWaitTime: int, elapsed: real): Raised {
    Package(TimeoutErr("Operation timed out after " + IntToDecimal(maxWaitTime) + " seconds", Some(elapsed)))
  }

  /** The outcome of polling from the k-th tick on. */
  function PollFrom(env: Env, url: string, maxWaitTime: int, k: nat): Result<Json, Raised>
    decreases maxWaitTime - 10 * k
  {
    var elapsed := Elapsed(env, k);
    if elapsed >= maxWaitTime as real then Err(TimeoutFor(maxWaitTime, elapsed))
    else match ClassifyPoll(env.call(GetUrl(url), k))
      case Finished(uri) => Ok(uri)
      case Raises(e) => Err(e)
      case Running =>
        ElapsedLowerBound(env, k);
        PollFrom(env, url, maxWaitTime, k + 1)
  }

  /** `_poll_operation`. */
  function Poll(env: Env, baseUrl: string, operationName: Json, maxWaitTime: int): Result<Json, Raised> {
    PollFrom(env, OperationUrl(baseUrl, operationName), maxWaitTime, 0)
  }

  /** The loop as the source runs it: the clock and the interval are updated
      after every tick that neither returns nor raises. */
  method PollOperation(env: Env, baseUrl: string, operationName: Json, maxWaitTime: int)
    returns (r: Result<Json, Raised>)
    ensures r == Poll(env, baseUrl, operationName, maxWaitTime)
  {
    r := PollUrl(env, OperationUrl(baseUrl, operationName), maxWaitTime);
  }

  /** The polling loop on the operation's URL. */
  method PollUrl(env: Env, url: string, maxWaitTime: int) returns (r: Result<Json, Raised>)
    ensures r == PollFrom(env, url, maxWaitTime, 0)
  {
    var k: nat := 0;
    var pollInterval := Config.InitialPollInterval;
    var elapsed := env.latency(0);
    while elapsed < maxWaitTime as real
      invariant pollInterval == Interval(k) && elapsed == Elapsed(env, k)
      invariant PollFrom(env, url, maxWaitTime, k) == PollFrom(env, url, maxWaitTime, 0)
      decreases maxWaitTime - 10 * k
    {
      var finished, result := PollStep(env, url, maxWaitTime, k);
      if finished {
        return result;
      }
      ClockStep(env, k);
      elapsed := elapsed + pollInterval + env.latency(k + 1);
      pollInterval := NextInterval(pollInterval);
      k := k + 1;
    }
    PollExpired(env, url, maxWaitTime, k);
    r := Err(TimeoutFor(maxWaitTime, elapsed));
  }

  /** Once the deadline has passed, the poll times out with the elapsed time. */
  lemma PollExpired(env: Env, url: string, maxWaitTime: int, k: nat)
    requires Elapsed(env, k) >= maxWaitTime as real
    ensures PollFrom(env, url, maxWaitTime, k) == Err(TimeoutFor(maxWaitTime, Elapsed(env, k)))
  {
  }

  /** One request of the loop: either it ends the poll with its result, or
      the poll goes on with the next tick. */
  method PollStep(env: Env, url: string, maxWaitTime: int, k: nat) returns (finished: bool, r: Result<Json, Raised>)
    requires Elapsed(env, k) < maxWaitTime as real
    ensures finished ==> r == PollFrom(env, url, maxWaitTime, k)
    ensures !finished ==> PollFrom(env, url, maxWaitTime, k) == PollFrom(env, url, maxWaitTime, k + 1) && 10 * k < maxWaitTime
  {
    var tick := ClassifyPoll(env.call(GetUrl(url), k));
    PollTick(env, url, maxWaitTime, k);
    match tick
    case Finished(uri) => return true, Ok(uri);
    case Raises(e) => return true, Err(e);
    case Running => return false, Err(Transport(""));
  }

  /** The clock and the interval after a running tick. */
  lemma ClockStep(env: Env, k: nat)
    ensures Elapsed(env, k + 1) == Elapsed(env, k) + Interval(k) + env.latency(k + 1)
    ensures Interval(k + 1) == NextInterval(Interval(k))
  {
  }

  /** One tick before the deadline: a finished or raising tick ends the poll,
      a running one hands over to the next tick. */
  lemma PollTick(env: Env, url: string, maxWaitTime: int, k: nat)
    requires Elapsed(env, k) < maxWaitTime as real
    ensures var t := ClassifyPoll(env.call(GetUrl(url), k));
      && (t.Finished? ==> PollFrom(env, url, maxWaitTime, k) == Ok(t.uri))
      && (t.Raises? ==> PollFrom(env, url, maxWaitTime, k) == Err(t.error))
      && (t.Running? ==> PollFrom(env, url, maxWaitTime, k) == PollFrom(env, url, maxWaitTime, k + 1)
                         && 10 * k < maxWaitTime)
  {
    ElapsedLowerBound(env, k);
  }

  /** The deadline is checked before the request: once the time is up, the
      poll times out whatever the service would answer. */
  lemma DeadlineBeforeRequest(env1: Env, env2: Env, url: string, maxWaitTime: int, k: nat)
    requires Elapsed(env1, k) == Elapsed(env2, k) >= maxWaitTime as real
    ensures PollFrom(env1, url, maxWaitTime, k) == PollFrom(env2, url, maxWaitTime, k)
    ensures PollFrom(env1, url, maxWaitTime, k) == Err(TimeoutFor(maxWaitTime, Elapsed(env1, k)))
  {
  }

  /** A tick never raises a TimeoutError: only the deadline check does. */
  lemma TickNeverTimesOut(call: Call)
    ensures var t := ClassifyPoll(call);
      t.Raises? ==> !(t.error.Package? && t.error.error.kind.TimeoutError?)
  {
    if call.Answered? && call.reply.body.JsonBody? {
      var data := call.reply.body.json;
      var uri := VideoUriOf(data);
      assert uri.Err? ==> uri.error.Builtin?;
    }
  }

  /** A timeout reports an elapsed time that has reached the limit. */
  lemma {:induction false} TimeoutReportsElapsed(env: Env, url: string, maxWaitTime: int, k: nat, t: real)
    ensures PollFrom(env, url, maxWaitTime, k) == Err(TimeoutFor(maxWaitTime, t)) ==> t >= maxWaitTime as real
    decreases maxWaitTime - 10 * k
  {
    var elapsed := Elapsed(env, k);
    if elapsed < maxWaitTime as real {
      var tick := ClassifyPoll(env.call(GetUrl(url), k));
      TickNeverTimesOut(env.call(GetUrl(url), k));
      if tick.Running? {
        ElapsedLowerBound(env, k);
        TimeoutReportsElapsed(env, url, maxWaitTime, k + 1, t);
      }
    }
  }

  /** A rejected status is swallowed: polling goes on with the next tick. */
  lemma RejectedStatusKeepsPolling(env: Env, url: string, maxWaitTime: int, k: nat)
    requires Elapsed(env, k) < maxWaitTime as real
    requires env.call(GetUrl(url), k).Answered? && !Is2xx(env.call(GetUrl(url), k).reply.status)
    ensures PollFrom(env, url, maxWaitTime, k) == PollFrom(env, url, maxWaitTime, k + 1)
  {
  }

  /** A transport failure is not swallowed: it ends the poll. */
  lemma TransportFailureEndsPolling(env: Env, url: string, maxWaitTime: int, k: nat)
    requires Elapsed(env, k) < maxWaitTime as real
    requires env.call(GetUrl(url), k).Broken?
    ensures PollFrom(env, url, maxWaitTime, k) == Err(Transport(env.call(GetUrl(url), k).message))
  {
  }

  /** At most `max_wait_time / 10 + 1` status requests are made: a tick k
      with 10 k >= max_wait_time is past the deadline. */
  lemma TicksBounded(env: Env, url: string, maxWaitTime: int, k: nat)
    requires 10 * k >= maxWaitTime
    ensures PollFrom(env, url, maxWaitTime, k) == Err(TimeoutFor(maxWaitTime, Elapsed(env, k)))
  {
    ElapsedLowerBound(env, k);
  }
}
