/** `TelegramClient`: one `sendMessage` call to the Telegram Bot API and the
    classification of what came back into a `TelegramSendResult`. The HTTP
    exchange itself is a parameter: the transport either timed out, failed
    otherwise, or delivered a status code and a body. */
module TelegramClient {
  import opened Text

  /** A decoded JSON value (numbers are integers only). */
  datatype Json =
    | JNull
    | JBool(b: bool)
    | JInt(i: int)
    | JText(s: string)
    | JArray(items: seq<Json>)
    | JObject(fields: map<string, Json>)

  /** Python truthiness of a decoded value. */
  predicate Truthy(j: Json)
  {
    match j
    case JNull => false
    case JBool(b) => b
    case JInt(i) => i != 0
    case JText(s) => s != ""
    case JArray(items) => items != []
    case JObject(fields) => fields != map[]
  }

  /** A response body: valid JSON, or text `response.json()` rejects. */
  datatype Body = Decoded(value: Json) | Undecodable

  /** What `httpx` delivered for the POST. */
  datatype Transport =
    | Timeout
    | HttpError
    | Response(status: int, body: Body)

  /** The configuration kept by the constructor. */
  datatype Client = Client(botToken: string, chatId: string, enabled: bool)

  /** `TelegramSendResult` (the duration is left out). */
  datatype SendResult = SendResult(
    success: bool,
    telegramMessageId: Option<int>,
    recordsSent: nat,
    statusCode: int,
    shouldRetry: bool,
    errorCode: Option<string>,
    errorDescription: Option<Json>,
    rawResponse: Option<map<string, Json>>)

  const DisabledCode := "telegram_disabled"
  const TimeoutCode := "telegram_timeout"
  const HttpErrorCode := "telegram_http_error"
  const UnexpectedStatusCode := "telegram_unexpected_status"
  const EmptyBodyCode := "telegram_empty_body"
  const ApiErrorCode := "telegram_api_error"

  const DisabledDescription := "Las notificaciones de Telegram están deshabilitadas."
  const TimeoutDescription := "La solicitud a Telegram excedió el tiempo máximo permitido."
  const HttpErrorDescription := "Error HTTP al comunicarse con Telegram."
  const UnexpectedStatusDescription := "Telegram respondió con un código HTTP inesperado."
  const EmptyBodyDescription := "No se recibió un cuerpo JSON válido desde Telegram."
  const UnspecifiedDescription := "Error no especificado por Telegram"

  /** The API error codes worth another attempt. */
  const RetryableApiCodes: set<int> := {429, 500, 502, 503, 504}

  /** The constructor: an enabled client needs a bot token and a chat id;
      None where it raises ValueError. */
  function NewClient(botToken: string, chatId: string, enabled: bool): (r: Option<Client>)
    ensures r.None? <==> enabled && (botToken == "" || chatId == "")
    ensures r.Some? ==> r.value.enabled == enabled && r.value.botToken == botToken && r.value.chatId == chatId
  {
    if enabled && (botToken == "" || chatId == "") then None
    else Some(Client(botToken, chatId, enabled))
  }

  /** `_safe_json`: the body when it decodes to a JSON object. */
  function SafeJson(body: Body): (r: Option<map<string, Json>>)
    ensures r.Some? <==> body.Decoded? && body.value.JObject?
    ensures r.Some? ==> body == Decoded(JObject(r.value))
  {
    match body
    case Decoded(JObject(fields)) => Some(fields)
    case _ => None
  }

  /** `dict.get(key)`: a missing key reads as None. */
  function Get(data: map<string, Json>, key: string): Option<Json>
  {
    if key in data then Some(data[key]) else None
  }

  /** `_extract_message_id`: `result.message_id` when `result` is an object
      and the id is an `int`; a JSON boolean is an `int` to Python. */
  function ExtractMessageId(data: map<string, Json>): (r: Option<int>)
    ensures r.Some? ==> "result" in data && data["result"].JObject?
                        && "message_id" in data["result"].fields
                        && (data["result"].fields["message_id"] == JInt(r.value)
                            || (data["result"].fields["message_id"].JBool? && r.value in {0, 1}))
    ensures ("result" in data && data["result"].JObject? && "message_id" in data["result"].fields
             && data["result"].fields["message_id"].JInt?) ==> r == Some(data["result"].fields["message_id"].i)
  {
    match Get(data, "result")
    case Some(JObject(result)) =>
      (match Get(result, "message_id")
       case Some(JInt(i)) => Some(i)
       case Some(JBool(b)) => Some(if b then 1 else 0)
       case _ => None)
    case _ => None
  }

  /** `_should_retry`: a missing (or null) API code is retried, as are the
      rate-limit and server codes; any other value is not. */
  function ShouldRetry(apiCode: Option<Json>): (r: bool)
    ensures apiCode.None? || apiCode == Some(JNull) ==> r
    ensures forall i: int :: apiCode == Some(JInt(i)) ==> (r <==> i in RetryableApiCodes)
    ensures apiCode.Some? && !apiCode.value.JNull? && !apiCode.value.JInt? ==> !r
  {
    match apiCode
    case None => true
    case Some(JNull) => true
    case Some(JInt(i)) => i in RetryableApiCodes
    case Some(_) => false
  }

  /** A failed send: nothing was delivered. */
  function Failed(status: int, retry: bool, code: string, description: Option<Json>,
                  raw: Option<map<string, Json>>): (r: SendResult)
    ensures !r.success && r.recordsSent == 0 && r.telegramMessageId.None?
    ensures r.errorCode == Some(code) && r.statusCode == status && r.shouldRetry == retry
  {
    SendResult(false, None, 0, status, retry, Some(code), description, raw)
  }

  /** `send_message`: the decision tree over the transport outcome. */
  function SendMessage(c: Client, t: Transport): (r: SendResult)
    ensures r.success <==> r.recordsSent == 1
    ensures !r.success ==> r.recordsSent == 0 && r.telegramMessageId.None? && r.errorCode.Some?
    ensures r.success <==> c.enabled && t.Response? && t.status == 200
                           && SafeJson(t.body).Some? && SafeJson(t.body).value != map[]
                           && "ok" in SafeJson(t.body).value && Truthy(SafeJson(t.body).value["ok"])
    ensures r.success ==> r.errorCode.None? && !r.shouldRetry
                          && r.telegramMessageId == ExtractMessageId(SafeJson(t.body).value)
  {
    if !c.enabled then
      Failed(0, false, DisabledCode, Some(JText(DisabledDescription)), None)
    else match t
      case Timeout =>
        Failed(0, true, TimeoutCode, Some(JText(TimeoutDescription)), None)
      case HttpError =>
        Failed(0, true, HttpErrorCode, Some(JText(HttpErrorDescription)), None)
      case Response(status, body) =>
        if status != 200 then
          Failed(status, status >= 500, UnexpectedStatusCode, Some(JText(UnexpectedStatusDescription)), SafeJson(body))
        else
          var data := SafeJson(body);
          if data.None? || data.value == map[] then
            Failed(status, true, EmptyBodyCode, Some(JText(EmptyBodyDescription)), None)
          else if "ok" in data.value && Truthy(data.value["ok"]) then
            SendResult(true, ExtractMessageId(data.value), 1, status, false, None, None, data)
          else
            var description := if "description" in data.value then data.value["description"]
                               else JText(UnspecifiedDescription);
            Failed(status, ShouldRetry(Get(data.value, "error_code")), ApiErrorCode, Some(description), data)
  }

  /** A disabled client reports `telegram_disabled` whatever the transport
      would have done, and asks for no retry. */
  lemma DisabledClient(c: Client, t: Transport)
    requires !c.enabled
    ensures var r := SendMessage(c, t);
            !r.success && r.errorCode == Some(DisabledCode) && !r.shouldRetry
            && r.recordsSent == 0 && r.statusCode == 0 && r.rawResponse.None?
  {
  }

  /** Transport failures are retried: a timeout as `telegram_timeout`, any
      other HTTP error as `telegram_http_error`. */
  lemma TransportFailures(c: Client)
    requires c.enabled
    ensures SendMessage(c, Timeout).errorCode == Some(TimeoutCode) && SendMessage(c, Timeout).shouldRetry
    ensures SendMessage(c, HttpError).errorCode == Some(HttpErrorCode) && SendMessage(c, HttpError).shouldRetry
  {
  }

  /** A status other than 200 is `telegram_unexpected_status`, retried
      exactly for server errors, keeping the body when it is an object. */
  lemma UnexpectedStatus(c: Client, status: int, body: Body)
    requires c.enabled && status != 200
    ensures var r := SendMessage(c, Response(status, body));
            r.errorCode == Some(UnexpectedStatusCode) && r.statusCode == status
            && (r.shouldRetry <==> status >= 500) && r.rawResponse == SafeJson(body)
  {
  }

  /** A 200 whose body is not a non-empty JSON object is
      `telegram_empty_body`, retried. */
  lemma EmptyBody(c: Client, body: Body)
    requires c.enabled
    requires SafeJson(body).None? || SafeJson(body) == Some(map[])
    ensures var r := SendMessage(c, Response(200, body));
            r.errorCode == Some(EmptyBodyCode) && r.shouldRetry && r.rawResponse.None?
  {
  }

  /** A 200 object whose "ok" is not truthy is `telegram_api_error`, with
      Telegram's description (or the fixed fallback) and the retry decision
      of `_should_retry` on its "error_code". */
  lemma ApiError(c: Client, data: map<string, Json>)
    requires c.enabled && data != map[]
    requires !("ok" in data && Truthy(data["ok"]))
    ensures var r := SendMessage(c, Response(200, Decoded(JObject(data))));
            r.errorCode == Some(ApiErrorCode)
            && r.shouldRetry == ShouldRetry(Get(data, "error_code"))
            && r.errorDescription == Some(if "description" in data then data["description"] else JText(UnspecifiedDescription))
            && r.rawResponse == Some(data)
  {
  }

  /** A rate limit or a server error reported by the API is retried; a
      client error such as 400 is not. */
  lemma ApiCodeRetry(c: Client, data: map<string, Json>, code: int)
    requires c.enabled && "error_code" in data && data["error_code"] == JInt(code)
    requires !("ok" in data && Truthy(data["ok"]))
    ensures SendMessage(c, Response(200, Decoded(JObject(data)))).shouldRetry <==> code in RetryableApiCodes
  {
  }
}
