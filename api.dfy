/**
 * The API client's own decisions (src/services/api.js): what the request
 * interceptor does to each request config, how the response interceptors
 * update the correlation id and normalise errors, and the requests the
 * exported functions build. Sending, axios's interceptor chaining and the
 * log calls the interceptors make are not modelled; the clock is an input.
 */
module Api {
  import opened JsText
  import Constants
  import Security
  import Logging

  /** The `{status, message}` object every failure is turned into. */
  datatype ApiError = ApiError(status: int, message: string)

  const TooManyRequests: string := "Too many requests. Please wait a moment."
  const DefaultHttpMessage: string := "An error occurred"
  const NetworkMessage: string := "Network error. Please check your connection."
  const UnexpectedMessage: string := "An unexpected error occurred"

  /** The request header the interceptor sets and the response header it reads. */
  const RequestCorrelationHeader: string := "X-Correlation-ID"
  const ResponseCorrelationHeader: string := "x-correlation-id"

  /** A chosen file; only its name and size matter to this client. */
  datatype FileRef = FileRef(name: string, size: int)

  /**
   * A request body: none, a JSON object with its `texts` and `tasks` members
   * (`None` where the member is missing or null), or multipart form data.
   */
  datatype Body =
    | NoBody
    | JsonBody(texts: Option<seq<Value>>, tasks: Option<seq<string>>)
    | FormBody(file: FileRef, taskList: Option<string>)

  /** `['post', 'put', 'patch'].includes(httpMethod.toLowerCase())`. */
  predicate IsWriteMethod(httpMethod: string)
  {
    Lower(httpMethod) in ["post", "put", "patch"]
  }

  /** `texts.map(text => sanitizeInput(text))`. */
  function SanitizeAll(texts: seq<Value>): (r: seq<Value>)
    ensures |r| == |texts|
    ensures forall i :: 0 <= i < |texts| ==> r[i] == Security.SanitizeInput(texts[i])
  {
    if texts == [] then [] else [Security.SanitizeInput(texts[0])] + SanitizeAll(texts[1..])
  }

  /**
   * The interceptor's body rewrite: a post, put or patch whose JSON body has
   * `texts` gets them sanitised element by element; everything else is kept.
   * (Form data has no `texts` member.)
   */
  function SanitizeBody(httpMethod: string, data: Body): Body
  {
    if data.JsonBody? && IsWriteMethod(httpMethod) && data.texts.Some? then
      JsonBody(Some(SanitizeAll(data.texts.value)), data.tasks)
    else data
  }

  /**
   * What the rewrite does: same length, same order, each element through
   * `sanitizeInput`, so every string sent is entity-encoded and every
   * non-string is left alone; `tasks` and every other body are untouched.
   */
  lemma SanitizeBodySpec(httpMethod: string, data: Body)
    ensures var r := SanitizeBody(httpMethod, data);
      && (IsWriteMethod(httpMethod) && data.JsonBody? && data.texts.Some? ==>
            && r.JsonBody? && r.tasks == data.tasks && r.texts.Some?
            && |r.texts.value| == |data.texts.value|
            && (forall i :: 0 <= i < |data.texts.value| ==>
                  && (data.texts.value[i].Str? ==> r.texts.value[i].Str? && Security.Encoded(r.texts.value[i].s))
                  && (!data.texts.value[i].Str? ==> r.texts.value[i] == data.texts.value[i])))
      && (!IsWriteMethod(httpMethod) || !data.JsonBody? || data.texts.None? ==> r == data)
  {
  }

  /** The request config fields the request interceptor reads or writes. */
  class RequestConfig {
    var httpMethod: string
    var url: string
    var headers: map<string, string>
    /** `metadata.startTime`; `None` until the interceptor records it. */
    var startTime: Option<int>
    var data: Body

    constructor(httpMethod: string, url: string, headers: map<string, string>, data: Body)
      ensures this.httpMethod == httpMethod && this.url == url && this.headers == headers && this.data == data
      ensures startTime == None
    {
      this.httpMethod := httpMethod;
      this.url := url;
      this.headers := headers;
      this.data := data;
      startTime := None;
    }
  }

  datatype RequestOutcome = Forward | Rejected(error: ApiError)

  const RequestStartedMessage: string := "API Request Started"
  const RateLimitedMessage: string := "Rate limit exceeded"
  const ResponseReceivedMessage: string := "API Response Received"

  /** A log call's arguments: its message, then the object it describes, `JSON.stringify`-ed (an input here). */
  function LogArgs(message: string, payload: string): seq<Logging.Arg>
  {
    [Logging.Prim(message), Logging.Obj(payload)]
  }

  /**
   * The request interceptor. The correlation header and the start time are
   * set first, on every request, and the start is logged at `info`; then the
   * rate limiter (10 per 60 s) is asked, and a refusal is logged at `warn` and
   * rejects with 429 before any sanitisation. `startPayload` and
   * `limitPayload` are the serialised objects passed to the two log calls.
   */
  method OnRequest(config: RequestConfig, logger: Logging.Logger, limiter: Security.RateLimiter, now: int,
                   env: Logging.Ambient, startPayload: string, limitPayload: string)
    returns (outcome: RequestOutcome)
    requires logger.Valid()
    modifies config, limiter, logger
    ensures config.headers == old(config.headers)[RequestCorrelationHeader := logger.correlationId]
    ensures config.startTime == Some(now)
    ensures config.httpMethod == old(config.httpMethod) && config.url == old(config.url)
    ensures Security.RateDecision(outcome.Forward?, limiter.timestamps)
         == Security.RateStep(old(limiter.timestamps), Constants.RateLimitRequests, Constants.RateLimitWindowMs, now)
    ensures outcome.Rejected? ==> outcome.error == ApiError(429, TooManyRequests) && config.data == old(config.data)
    ensures outcome.Forward? ==> config.data == SanitizeBody(config.httpMethod, old(config.data))
    ensures logger.Valid() && logger.level == old(logger.level) && logger.correlationId == old(logger.correlationId)
    ensures var started := Logging.Logged(old(Logging.Buffer(logger.logBatch, logger.shipped)), logger.level,
                                          Logging.MakeEntry(Logging.Info, LogArgs(RequestStartedMessage, startPayload), env, logger.correlationId));
      Logging.Buffer(logger.logBatch, logger.shipped)
        == if outcome.Rejected? then
             Logging.Logged(started, logger.level,
                            Logging.MakeEntry(Logging.Warn, LogArgs(RateLimitedMessage, limitPayload), env, logger.correlationId))
           else started
  {
    var id := logger.GetCorrelationId();
    config.headers := config.headers[RequestCorrelationHeader := id];
    config.startTime := Some(now);
    logger.Emit(Logging.Info, LogArgs(RequestStartedMessage, startPayload), env);
    var ok := limiter.CheckRateLimit(10, 60000, now);
    if !ok {
      logger.Emit(Logging.Warn, LogArgs(RateLimitedMessage, limitPayload), env);
      return Rejected(ApiError(429, TooManyRequests));
    }
    if config.data != NoBody && IsWriteMethod(config.httpMethod) {
      if config.data.JsonBody? && config.data.texts.Some? {
        config.data := JsonBody(Some(SanitizeAll(config.data.texts.value)), config.data.tasks);
      }
    }
    return Forward;
  }

  /** `metadata?.startTime ? now - startTime : 0`; a start time of 0 is falsy too. */
  function Duration(startTime: Option<int>, now: int): (d: int)
  {
    if startTime.Some? && startTime.value != 0 then now - startTime.value else 0
  }

  /** A start time recorded by the interceptor gives the elapsed time; no start time gives 0. */
  lemma DurationSpec(start: int, now: int)
    ensures start != 0 ==> Duration(Some(start), now) == now - start
    ensures start != 0 && start <= now ==> Duration(Some(start), now) >= 0
    ensures Duration(None, now) == 0 && Duration(Some(0), now) == 0
  {
  }

  /** The response fields the response interceptor reads. */
  datatype Response = Response(status: int, headers: map<string, string>)

  /** `response.headers['x-correlation-id']` when present and non-empty. */
  function ResponseCorrelation(headers: map<string, string>): (r: Option<string>)
    ensures r.Some? <==> ResponseCorrelationHeader in headers && headers[ResponseCorrelationHeader] != ""
    ensures r.Some? ==> r.value == headers[ResponseCorrelationHeader]
  {
    if ResponseCorrelationHeader in headers && headers[ResponseCorrelationHeader] != "" then
      Some(headers[ResponseCorrelationHeader])
    else None
  }

  /** The logger's correlation id after a successful response. */
  function CorrelationAfter(headers: map<string, string>, current: string): string
  {
    match ResponseCorrelation(headers)
    case Some(id) => id
    case None => current
  }

  /** The backend's id wins when it sends one; otherwise the id is kept. Replaying a response changes nothing more. */
  lemma CorrelationAfterSpec(headers: map<string, string>, current: string)
    ensures ResponseCorrelation(headers).None? ==> CorrelationAfter(headers, current) == current
    ensures ResponseCorrelation(headers).Some? ==> CorrelationAfter(headers, current) == headers[ResponseCorrelationHeader]
    ensures CorrelationAfter(headers, CorrelationAfter(headers, current)) == CorrelationAfter(headers, current)
  {
  }

  /**
   * The success interceptor: the response is logged at `info` under the
   * current id, the backend's id is adopted, and the response passes through
   * unchanged. `payload` is the serialised object passed to the log call.
   */
  method OnResponse(logger: Logging.Logger, response: Response, env: Logging.Ambient, payload: string)
    returns (r: Response)
    requires logger.Valid()
    modifies logger
    ensures r == response
    ensures logger.correlationId == CorrelationAfter(response.headers, old(logger.correlationId))
    ensures logger.Valid() && logger.level == old(logger.level)
    ensures Logging.Buffer(logger.logBatch, logger.shipped)
         == Logging.Logged(old(Logging.Buffer(logger.logBatch, logger.shipped)), logger.level,
                           Logging.MakeEntry(Logging.Info, LogArgs(ResponseReceivedMessage, payload), env, old(logger.correlationId)))
  {
    logger.Emit(Logging.Info, LogArgs(ResponseReceivedMessage, payload), env);
    var header := ResponseCorrelation(response.headers);
    if header.Some? {
      logger.SetCorrelationId(header.value);
    }
    return response;
  }

  /**
   * A failed request as the error interceptor sees it: with a response (its
   * status and the `detail` and `message` of its body, `""` where missing),
   * with a request but no response, or with neither (the error's own message).
   */
  datatype HttpFailure =
    | WithResponse(status: int, detail: string, message: string)
    | NoResponse
    | Unexpected(message: string)

  /** The error interceptor's three-way normalisation. */
  function NormalizeError(e: HttpFailure): (r: ApiError)
  {
    match e
    case WithResponse(status, detail, message) => ApiError(status, OrElse(OrElse(detail, message), DefaultHttpMessage))
    case NoResponse => ApiError(0, NetworkMessage)
    case Unexpected(message) => ApiError(0, OrElse(message, UnexpectedMessage))
  }

  /**
   * The message is never empty; a response keeps its status and prefers
   * `detail` over `message`; failures without a response report status 0.
   */
  lemma NormalizeErrorSpec(e: HttpFailure)
    ensures NormalizeError(e).message != ""
    ensures e.WithResponse? ==> NormalizeError(e).status == e.status
    ensures e.WithResponse? && e.detail != "" ==> NormalizeError(e).message == e.detail
    ensures e.WithResponse? && e.detail == "" && e.message != "" ==> NormalizeError(e).message == e.message
    ensures e.WithResponse? && e.detail == "" && e.message == "" ==> NormalizeError(e).message == DefaultHttpMessage
    ensures !e.WithResponse? ==> NormalizeError(e).status == 0
    ensures e.NoResponse? ==> NormalizeError(e).message == NetworkMessage
    ensures e.Unexpected? ==> NormalizeError(e).message == (if e.message != "" then e.message else UnexpectedMessage)
  {
  }

  // ---------------------------------------------------------------- exported calls

  /** A call as the exported functions hand it to the client. */
  datatype ApiCall = ApiCall(httpMethod: string, url: string, data: Body, contentType: Option<string>)

  function StrValues(texts: seq<string>): (r: seq<Value>)
    ensures |r| == |texts|
    ensures forall i :: 0 <= i < |texts| ==> r[i] == Str(texts[i])
  {
    if texts == [] then [] else [Str(texts[0])] + StrValues(texts[1..])
  }

  /** `analyzeTexts`: always `{texts, tasks}`, `tasks` defaulting to null (`None`). */
  function AnalyzeTexts(texts: seq<string>, tasks: Option<seq<string>>): ApiCall
  {
    ApiCall("post", Constants.AnalyzeEndpoint, JsonBody(Some(StrValues(texts)), tasks), None)
  }

  /** `analyzeFile`: the file, plus a comma-joined `tasks` field when tasks is given (an empty list counts). */
  function AnalyzeFile(file: FileRef, tasks: Option<seq<string>>): ApiCall
  {
    var form := FormBody(file, if tasks.Some? then Some(Join(",", tasks.value)) else None);
    ApiCall("post", Constants.AnalyzeFileEndpoint, form, Some("multipart/form-data"))
  }

  function GetHealth(): ApiCall
  {
    ApiCall("get", Constants.HealthEndpoint, NoBody, None)
  }

  function GetMeta(): ApiCall
  {
    ApiCall("get", Constants.MetaEndpoint, NoBody, None)
  }

  /** The texts of `analyzeTexts` reach the wire sanitised one by one, in order. */
  lemma AnalyzeTextsSanitised(texts: seq<string>, tasks: Option<seq<string>>)
    ensures var call := AnalyzeTexts(texts, tasks);
      var sent := SanitizeBody(call.httpMethod, call.data);
      && sent.JsonBody? && sent.tasks == tasks && sent.texts.Some? && |sent.texts.value| == |texts|
      && forall i :: 0 <= i < |texts| ==> sent.texts.value[i] == Str(Security.SanitizeString(texts[i]))
  {
    LowerOfLower("post");
    assert IsWriteMethod("post");
  }

  /** The form's `tasks` field splits back into the task names when none is empty or holds a comma. */
  lemma AnalyzeFileTasks(file: FileRef, tasks: Option<seq<string>>)
    ensures var form := AnalyzeFile(file, tasks).data;
      && form.FormBody? && form.file == file
      && (form.taskList.Some? <==> tasks.Some?)
      && (tasks == Some([]) ==> form.taskList == Some(""))
      && ((tasks.Some? && tasks.value != [] && forall i :: 0 <= i < |tasks.value| ==> ',' !in tasks.value[i])
            ==> Split(form.taskList.value, ',') == tasks.value)
  {
    if tasks.Some? && tasks.value != [] && (forall i :: 0 <= i < |tasks.value| ==> ',' !in tasks.value[i]) {
      SplitJoin(tasks.value, ',');
    }
  }

  /** Form uploads and reads never pass through the text sanitiser. */
  lemma OtherCallsUntouched(file: FileRef, tasks: Option<seq<string>>)
    ensures SanitizeBody(AnalyzeFile(file, tasks).httpMethod, AnalyzeFile(file, tasks).data) == AnalyzeFile(file, tasks).data
    ensures SanitizeBody(GetHealth().httpMethod, GetHealth().data) == GetHealth().data
    ensures SanitizeBody(GetMeta().httpMethod, GetMeta().data) == GetMeta().data
  {
  }
}
