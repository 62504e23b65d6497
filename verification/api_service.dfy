/** The request/response rules of the HTTP gateway to the backend. Each call is
    modelled from the reply it receives: the network failure or the status and
    body of the response. A rejected promise is `Failure(message)`, the
    message of the `Error` it carries. */
module ApiService {
  import opened Wrappers
  import opened Json
  import Text
  import opened LocalStorage

  // ---------------------------------------------------------------- chat history

  datatype Role = User | Model

  /** One turn of the chat history in the backend's format. */
  datatype Turn = Turn(role: Role, parts: string)

  /** `item.response` is truthy: present and not the empty string. */
  predicate HasResponse(item: HistoryItem) {
    item.response.Some? && item.response.value != ""
  }

  /** `convertHistoryForBackend`: one turn per item, in order. An answered item
      becomes a model turn carrying the answer; an unanswered one a user turn
      carrying the query. */
  function ConvertHistoryForBackend(h: seq<HistoryItem>): (r: seq<Turn>)
    ensures |r| == |h|
    ensures forall i :: 0 <= i < |h| ==> (r[i].role == Model <==> HasResponse(h[i]))
    ensures forall i :: 0 <= i < |h| && HasResponse(h[i]) ==> r[i].parts == h[i].response.value
    ensures forall i :: 0 <= i < |h| && !HasResponse(h[i]) ==> r[i].parts == h[i].query
  {
    if |h| == 0 then []
    else
      var head := if HasResponse(h[0])
        then Turn(Model, h[0].response.value)
        else Turn(User, h[0].query);
      [head] + ConvertHistoryForBackend(h[1..])
  }

  /** Patching a placeholder with a non-empty answer turns exactly the turns of
      that id into model turns carrying the answer; every other turn is kept. */
  lemma ConvertAfterPatch(h: seq<HistoryItem>, id: string, response: string)
    requires response != ""
    ensures var before := ConvertHistoryForBackend(h);
      var after := ConvertHistoryForBackend(PatchResponse(h, id, response));
      && |after| == |before|
      && forall i :: 0 <= i < |h| ==>
        if h[i].id == id then after[i] == Turn(Model, response) else after[i] == before[i]
  {
  }

  // ---------------------------------------------------------------- replies

  /** The body of a reply: parsed JSON, or the message of the `SyntaxError`
      that `response.json()` throws. */
  datatype Body = Parsed(json: Json) | Unparsable(syntaxError: string)

  /** What `fetch` yields: a rejection (network failure) or a response. */
  datatype HttpReply = NetworkError(message: string) | Reply(status: nat, body: Body)

  /** `response.ok`. */
  predicate IsOk(status: nat) {
    200 <= status <= 299
  }

  predicate Succeeded(reply: HttpReply) {
    reply.Reply? && IsOk(reply.status)
  }

  /** The status-only message `Error: <status>`. */
  function StatusMessage(status: nat): (m: string)
    ensures Text.StartsWith(m, "Error: ") && |m| > 7
  {
    "Error: " + Text.NatToString(status)
  }

  /** The status can be read back from its message. */
  lemma StatusMessageCarriesStatus(status: nat)
    ensures Text.ParseInt(StatusMessage(status)[7..]) == Some(status)
  {
    Text.ParseIntOfNatToString(status);
    assert StatusMessage(status)[7..] == Text.NatToString(status);
  }

  /** The message for a non-OK reply: the body's truthy `error` field, else the
      status message. A body that does not parse, or parses to something
      without such a field, falls back to the status message. */
  function ErrorMessage(js: Js, status: nat, body: Body): (m: string)
    ensures body.Parsed? && IsNonEmptyStringField(body.json, "error") ==>
      m == Field(body.json, "error").value.s
    ensures !(body.Parsed? && Truthy(Field(body.json, "error"))) ==> m == StatusMessage(status)
    ensures body.Parsed? && Truthy(Field(body.json, "error")) ==> m == TextOf(js, Field(body.json, "error").value)
  {
    if body.Parsed? && Truthy(Field(body.json, "error"))
    then TextOf(js, Field(body.json, "error").value)
    else StatusMessage(status)
  }

  /** Unless the `error` field holds a non-string value, the message is never empty. */
  lemma ErrorMessageNotEmpty(js: Js, status: nat, body: Body)
    requires body.Parsed? && Field(body.json, "error").Some? ==> Field(body.json, "error").value.JStr?
    ensures ErrorMessage(js, status, body) != ""
  {
  }

  const UnexpectedResponseFormat := "Received unexpected response format from API."

  /** `getResponse`: the reply's `response` text. */
  function GetResponse(js: Js, reply: HttpReply): (r: Result<string, string>)
    ensures reply.NetworkError? ==> r == Failure(reply.message)
    ensures reply.Reply? && !IsOk(reply.status) ==> r == Failure(ErrorMessage(js, reply.status, reply.body))
    ensures Succeeded(reply) && reply.body.Unparsable? ==> r == Failure(reply.body.syntaxError)
    ensures Succeeded(reply) && reply.body == Parsed(JNull) ==> r == Failure(js.nullRead("response"))
    ensures Succeeded(reply) && reply.body.Parsed? && IsStringField(reply.body.json, "response") ==>
      r == Success(Field(reply.body.json, "response").value.s)
    ensures (Succeeded(reply) && reply.body.Parsed? && Field(reply.body.json, "response").Some? &&
             (Field(reply.body.json, "response").value.JObj? || Field(reply.body.json, "response").value.JArr?))
      ==> r == Success(js.stringify(Field(reply.body.json, "response").value))
    ensures (Succeeded(reply) && reply.body.Parsed? && reply.body.json != JNull &&
             (Field(reply.body.json, "response").None? ||
              Field(reply.body.json, "response").value.JNull? ||
              Field(reply.body.json, "response").value.JNum? ||
              Field(reply.body.json, "response").value.JBool?))
      ==> r == Success(UnexpectedResponseFormat)
  {
    match reply
    case NetworkError(m) => Failure(m)
    case Reply(status, body) =>
      if !IsOk(status) then Failure(ErrorMessage(js, status, body))
      else match body
        case Unparsable(e) => Failure(e)
        case Parsed(v) =>
          if v.JNull? then Failure(js.nullRead("response"))
          else match Field(v, "response")
            case Some(JStr(s)) => Success(s)
            case Some(JObj(f)) => Success(js.stringify(JObj(f)))
            case Some(JArr(a)) => Success(js.stringify(JArr(a)))
            case _ => Success(UnexpectedResponseFormat)
  }

  const InvalidSearchUrl := "Backend did not return a valid search URL."

  /** `searchImage`: succeeds with the URL exactly when the reply is OK and its
      `searchUrl` is a non-empty string. */
  function SearchImage(js: Js, reply: HttpReply): (r: Result<string, string>)
    ensures r.Success? <==>
      Succeeded(reply) && reply.body.Parsed? && IsNonEmptyStringField(reply.body.json, "searchUrl")
    ensures r.Success? ==> r.value == Field(reply.body.json, "searchUrl").value.s && r.value != ""
    ensures reply.NetworkError? ==> r == Failure(reply.message)
    ensures reply.Reply? && !IsOk(reply.status) ==> r == Failure(ErrorMessage(js, reply.status, reply.body))
    ensures (Succeeded(reply) && reply.body.Parsed? && reply.body.json != JNull &&
             !IsNonEmptyStringField(reply.body.json, "searchUrl"))
      ==> r == Failure(InvalidSearchUrl)
  {
    match reply
    case NetworkError(m) => Failure(m)
    case Reply(status, body) =>
      if !IsOk(status) then Failure(ErrorMessage(js, status, body))
      else match body
        case Unparsable(e) => Failure(e)
        case Parsed(v) =>
          if v.JNull? then Failure(js.nullRead("searchUrl"))
          else if IsNonEmptyStringField(v, "searchUrl") then Success(Field(v, "searchUrl").value.s)
          else Failure(InvalidSearchUrl)
  }

  /** `getGreeting` never rejects: the reply's `response` value (`None` when
      the field is missing) or, on any failure, `Hello <name>!`. */
  function GetGreeting(reply: HttpReply, name: string): (r: Option<Json>)
    ensures !(Succeeded(reply) && reply.body.Parsed? && reply.body.json != JNull) ==>
      r == Some(JStr("Hello " + name + "!"))
    ensures Succeeded(reply) && reply.body.Parsed? && reply.body.json != JNull ==>
      r == Field(reply.body.json, "response")
  {
    if Succeeded(reply) && reply.body.Parsed? && reply.body.json != JNull
    then Field(reply.body.json, "response")
    else Some(JStr("Hello " + name + "!"))
  }

  /** The value `analyzeDocument` resolves to; fields are passed through as the backend sent them. */
  datatype DocumentResult = DocumentResult(extractedText: Option<Json>, response: Option<Json>)

  /** `analyzeDocument`: renames `extracted_text` and passes `response` through.
      A non-OK status gives the status message without reading the body. */
  function AnalyzeDocument(js: Js, reply: HttpReply): (r: Result<DocumentResult, string>)
    ensures reply.NetworkError? ==> r == Failure(reply.message)
    ensures reply.Reply? && !IsOk(reply.status) ==> r == Failure(StatusMessage(reply.status))
    ensures Succeeded(reply) && reply.body.Parsed? && reply.body.json != JNull ==>
      && r.Success?
      && r.value.extractedText == Field(reply.body.json, "extracted_text")
      && r.value.response == Field(reply.body.json, "response")
    ensures Succeeded(reply) && reply.body.Unparsable? ==> r == Failure(reply.body.syntaxError)
  {
    match reply
    case NetworkError(m) => Failure(m)
    case Reply(status, body) =>
      if !IsOk(status) then Failure(StatusMessage(status))
      else match body
        case Unparsable(e) => Failure(e)
        case Parsed(v) =>
          if v.JNull? then Failure(js.nullRead("extracted_text"))
          else Success(DocumentResult(Field(v, "extracted_text"), Field(v, "response")))
  }

  /** `analyzeImage`: the reply's `analysis` value, whatever its type. */
  function AnalyzeImage(js: Js, reply: HttpReply): (r: Result<Option<Json>, string>)
    ensures reply.NetworkError? ==> r == Failure(reply.message)
    ensures reply.Reply? && !IsOk(reply.status) ==> r == Failure(StatusMessage(reply.status))
    ensures Succeeded(reply) && reply.body.Parsed? && reply.body.json != JNull ==>
      r == Success(Field(reply.body.json, "analysis"))
    ensures Succeeded(reply) && reply.body.Unparsable? ==> r == Failure(reply.body.syntaxError)
  {
    match reply
    case NetworkError(m) => Failure(m)
    case Reply(status, body) =>
      if !IsOk(status) then Failure(StatusMessage(status))
      else match body
        case Unparsable(e) => Failure(e)
        case Parsed(v) =>
          if v.JNull? then Failure(js.nullRead("analysis")) else Success(Field(v, "analysis"))
  }

  /** `translateText`: the parsed body as it is, or the error message. */
  function TranslateText(js: Js, reply: HttpReply): (r: Result<Json, string>)
    ensures r.Success? <==> Succeeded(reply) && reply.body.Parsed?
    ensures r.Success? ==> r.value == reply.body.json
    ensures reply.NetworkError? ==> r == Failure(reply.message)
    ensures reply.Reply? && !IsOk(reply.status) ==> r == Failure(ErrorMessage(js, reply.status, reply.body))
    ensures Succeeded(reply) && reply.body.Unparsable? ==> r == Failure(reply.body.syntaxError)
  {
    match reply
    case NetworkError(m) => Failure(m)
    case Reply(status, body) =>
      if !IsOk(status) then Failure(ErrorMessage(js, status, body))
      else match body
        case Unparsable(e) => Failure(e)
        case Parsed(v) => Success(v)
  }

  /** `convertImagesToPdf`: an OK reply is the PDF; otherwise the error message. */
  function ConvertImagesToPdf(js: Js, reply: HttpReply): (r: Result<(), string>)
    ensures r.Success? <==> Succeeded(reply)
    ensures reply.NetworkError? ==> r == Failure(reply.message)
    ensures reply.Reply? && !IsOk(reply.status) ==> r == Failure(ErrorMessage(js, reply.status, reply.body))
  {
    match reply
    case NetworkError(m) => Failure(m)
    case Reply(status, body) =>
      if !IsOk(status) then Failure(ErrorMessage(js, status, body)) else Success(())
  }
}
