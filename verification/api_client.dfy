/**
 * The API client: construction from a merged configuration, the generic POST
 * with its response-envelope check, the error translation, and the masked
 * token. The HTTP transport is a parameter: `Post` receives what the request
 * produced, a response body or a thrown value.
 */
module ApiClient {
  import opened Wrappers
  import opened JsStrings
  import opened AppConfig

  /** The state the constructor sets up: the request defaults and the token. */
  datatype Client = Client(baseUrl: string, timeout: int, authorization: string, token: string)

  const InvalidConfigPrefix: string := "无效的配置: "
  const TokenRequired: string := "API Token 是必需的。请通过 --token、环境变量或配置文件提供。"

  /** The client's fallback timeout, the same value as the configuration default. */
  const ClientTimeout: int := 10000

  /** The constructor: validate, insist on a token, then fix the request defaults. */
  function Construct(config: Config): (r: Result<Client>)
    ensures r.Ok? ==> |r.value.token| > 0 && r.value.authorization == "Token " + r.value.token
  {
    var validation := ValidateConfig(ToPartial(config));
    if !validation.valid then Err(InvalidConfigPrefix + Join(validation.errors, ", "))
    else if |config.token| == 0 then Err(TokenRequired)
    else
      Ok(Client(
        Or(Some(config.endpoint), DefaultEndpoint),
        OrNum(Some(config.timeout), ClientTimeout),
        "Token " + config.token,
        config.token))
  }

  /** A client is built exactly for the configurations the validator accepts. */
  lemma ConstructAccepts(config: Config)
    ensures Construct(config).Ok? <==> Acceptable(ToPartial(config))
  {
    ValidIff(ToPartial(config));
  }

  /** A rejected configuration is reported with every validation error, joined by `, `. */
  lemma ConstructRejects(config: Config)
    requires !Acceptable(ToPartial(config))
    ensures Construct(config) == Err(InvalidConfigPrefix + Join(ValidateConfig(ToPartial(config)).errors, ", "))
  {
    ValidIff(ToPartial(config));
  }

  /** The separate missing-token error is never raised: the validator has already rejected an empty token. */
  lemma TokenGuardUnreachable(config: Config)
    ensures Construct(config) != Err(TokenRequired)
  {
    ValidIff(ToPartial(config));
    var r := Construct(config);
    if r.Err? && !Acceptable(ToPartial(config)) {
      assert r.message[..|InvalidConfigPrefix|] == InvalidConfigPrefix;
      assert TokenRequired[0] != InvalidConfigPrefix[0];
    }
  }

  /** A built client talks to the configured endpoint, with the configured timeout unless that is zero. */
  lemma ConstructDefaults(config: Config)
    requires Construct(config).Ok?
    ensures Construct(config).value.baseUrl == config.endpoint
    ensures Construct(config).value.timeout == if config.timeout == 0 then ClientTimeout else config.timeout
    ensures Construct(config).value.token == config.token
  {
    ValidIff(ToPartial(config));
  }

  // ---------------------------------------------------------------------------
  // Responses and errors.
  // ---------------------------------------------------------------------------

  /** The `data` property of an envelope. */
  datatype Field<T> = Missing | Null | Present(value: T)

  /** A response body: the API's `{code, msg, data}` envelope, or anything else. */
  datatype Body<T> = Envelope(code: int, msg: string, data: Field<T>) | Other(value: T)

  /** What `post` hands back: a value, or the `{}` that stands in for a missing one. */
  datatype Payload<T> = Json(value: T) | EmptyObject

  /** A value thrown by the transport. */
  datatype Thrown =
    | HttpError(message: string, responseMsg: Option<string>)
    | PlainError(message: string)
    | NonError(text: string)

  /** The outcome of the HTTP request. */
  datatype Transport<T> = Received(body: Body<T>) | Failed(thrown: Thrown)

  const CodeErrorPrefix: string := "API 请求失败，代码: "

  /** `checkResponseCode`: the message of the error thrown for a nonzero code. */
  function CheckResponseCode(code: int): (r: Option<string>)
    ensures r.None? <==> code == 0
    ensures r.Some? ==> |r.value| > |CodeErrorPrefix| && r.value[..|CodeErrorPrefix|] == CodeErrorPrefix
  {
    if code != 0 then Some(CodeErrorPrefix + IntToString(code)) else None
  }

  /** `handleError`: the message of the `Error` it throws for `thrown` at `path`. */
  function HandleError(thrown: Thrown, path: string): (r: string)
    ensures thrown.PlainError? ==> r == thrown.message
  {
    match thrown
    case HttpError(message, responseMsg) => "API 错误 (" + path + "): " + Or(responseMsg, message)
    case PlainError(message) => message
    case NonError(text) => "未知错误 (" + path + "): " + text
  }

  /**
   * Transport failures and non-errors are reported with the request path: `API 错误 (path): msg`
   * with the server's nonempty `msg` or else the transport's message, and `未知错误 (path): value`.
   */
  lemma HandleErrorNamesPath(thrown: Thrown, path: string)
    requires !thrown.PlainError?
    ensures OccursAt(HandleError(thrown, path), if thrown.HttpError? then |"API 错误 "| else |"未知错误 "|, "(" + path + "): ")
    ensures thrown.HttpError? ==>
      var shown := if thrown.responseMsg.Some? && |thrown.responseMsg.value| > 0 then thrown.responseMsg.value else thrown.message;
      HandleError(thrown, path) == "API 错误 (" + path + "): " + shown
    ensures thrown.NonError? ==> HandleError(thrown, path) == "未知错误 (" + path + "): " + thrown.text
  {
  }

  /** A failed request names the server's `msg` when it sent a nonempty one, else the transport's message. */
  lemma HandleErrorPrefersServerMsg(message: string, responseMsg: Option<string>, path: string)
    ensures var r := HandleError(HttpError(message, responseMsg), path);
      var shown := if responseMsg.Some? && |responseMsg.value| > 0 then responseMsg.value else message;
      |r| >= |shown| && r[|r| - |shown|..] == shown
  {
  }

  /** `post`: the payload of the response, or the message of the error it throws. */
  function Post<T>(path: string, outcome: Transport<T>): (r: Result<Payload<T>>)
    ensures r.Ok? <==> outcome.Received? && (outcome.body.Other? || outcome.body.code == 0)
  {
    match outcome
    case Failed(thrown) => Err(HandleError(thrown, path))
    case Received(Other(v)) => Ok(Json(v))
    case Received(Envelope(code, _, data)) =>
      match CheckResponseCode(code)
      case Some(message) => Err(HandleError(PlainError(message), path))
      case None => Ok(if data.Present? then Json(data.value) else EmptyObject)
  }

  /** A successful envelope yields its data, and `{}` in place of a missing or null one. */
  lemma PostUnwraps<T>(path: string, msg: string, data: Field<T>)
    ensures Post(path, Received(Envelope(0, msg, data))) == Ok(if data.Present? then Json(data.value) else EmptyObject)
    ensures Post(path, Received(Envelope(0, msg, data))).value != EmptyObject <==> data.Present?
  {
  }

  /** A body that is not an envelope is handed back unchanged. */
  lemma PostPassesOther<T>(path: string, v: T)
    ensures Post(path, Received(Other(v))) == Ok(Json(v))
  {
  }

  /** A nonzero code is reported with the code, and not wrapped again with the path. */
  lemma PostRejectsCode<T>(path: string, code: int, msg: string, data: Field<T>)
    requires code != 0
    ensures Post(path, Received(Envelope(code, msg, data))) == Err(CodeErrorPrefix + IntToString(code))
  {
  }

  /** A transport failure always fails, naming the path unless an `Error` was thrown as it is. */
  lemma PostReportsFailure<T>(path: string, thrown: Thrown)
    ensures Post<T>(path, Failed(thrown)).Err?
    ensures thrown.PlainError? ==> Post<T>(path, Failed(thrown)).message == thrown.message
    ensures !thrown.PlainError? ==>
      OccursAt(Post<T>(path, Failed(thrown)).message, if thrown.HttpError? then |"API 错误 "| else |"未知错误 "|, "(" + path + "): ")
  {
    if !thrown.PlainError? {
      HandleErrorNamesPath(thrown, path);
    }
  }

  // ---------------------------------------------------------------------------
  // The masked token.
  // ---------------------------------------------------------------------------

  const Stars: string := "****"

  /** `getTokenMasked`: four stars for a short token, else its first and last four characters around them. */
  function TokenMasked(token: string): (r: string)
    ensures |r| == if |token| <= 8 then 4 else 12
    ensures r == Stars <==> |token| <= 8
  {
    if |token| <= 8 then Stars else token[..4] + Stars + token[|token| - 4..]
  }

  /** Only the first and last four characters can show: tokens that share them share the mask. */
  lemma MaskShowsOnlyEnds(a: string, b: string)
    requires |a| > 8 && |b| > 8
    requires a[..4] == b[..4] && a[|a| - 4..] == b[|b| - 4..]
    ensures TokenMasked(a) == TokenMasked(b)
  {
  }

  /** Short tokens reveal nothing at all. */
  lemma MaskHidesShort(a: string, b: string)
    requires |a| <= 8 && |b| <= 8
    ensures TokenMasked(a) == TokenMasked(b) == Stars
  {
  }

  /** A long token's first and last four characters can be read back from its mask. */
  lemma MaskKeepsEnds(token: string)
    requires |token| > 8
    ensures var r := TokenMasked(token);
      r[..4] == token[..4] && r[4..8] == Stars && r[8..] == token[|token| - 4..]
  {
  }
}
