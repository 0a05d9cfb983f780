/**
 * The chat route of server.js: the history is mapped to the wire shape of the
 * model API, an empty history is replaced by a single "(session start)" turn,
 * the model's text is read by `parseAriaResponse`, and anything thrown becomes
 * a 500 answer. The model call is a parameter.
 */
module Server {
  import opened Wrappers
  import opened Js
  import opened ParseJs

  datatype Role = User | Assistant

  /** A message in the wire shape of the model API: `{role, content}`. */
  datatype LlmMessage = LlmMessage(role: Role, content: Value)

  /** What the route answers: a JSON body with status 200, or an error body with status 500. */
  datatype Response<T> = Answer(reply: T) | ServerError(error: string)

  /** The model call: the system prompt and the messages in, the first text block out, or what it threw. */
  type Llm = (string, seq<LlmMessage>) -> Result<string, Thrown>

  /** One history entry in the wire shape: only the role `"user"` stays a user turn. */
  function FormatEntry(m: Json): (r: LlmMessage)
    requires !m.JNull?
    ensures r.role == User <==> Field(m, "role") == Defined(JString("user"))
    ensures r.content == Field(m, "text")
  {
    LlmMessage(if Field(m, "role") == Defined(JString("user")) then User else Assistant, Field(m, "text"))
  }

  /**
   * `formatMessages`: `messages.map(...)`, which throws a TypeError at the first
   * entry that is `null`. Length and order are kept, entry by entry.
   */
  function FormatMessages(ms: seq<Json>): (r: Result<seq<LlmMessage>, Thrown>)
    ensures r.Err? <==> exists k :: 0 <= k < |ms| && ms[k].JNull?
    ensures r.Err? ==> r.error == TypeError
    ensures r.Ok? ==> |r.value| == |ms| && forall k :: 0 <= k < |ms| ==> r.value[k] == FormatEntry(ms[k])
    decreases |ms|
  {
    if ms == [] then Ok([])
    else if ms[0].JNull? then Err(TypeError)
    else
      match FormatMessages(ms[1..])
      case Err(e) => Err(e)
      case Ok(rest) => Ok([FormatEntry(ms[0])] + rest)
  }

  /**
   * `formatMessages(messages || [])`: a falsy value, a missing one among them, is
   * the empty history; any other value that is not an array has no `map` and throws.
   */
  function History(messages: Value): (r: Result<seq<LlmMessage>, Thrown>)
    ensures Falsy(messages) ==> r == Ok([])
    ensures !Falsy(messages) && !(messages.Defined? && messages.j.JArray?) ==> r == Err(TypeError)
    ensures messages.Defined? && messages.j.JArray? ==> r == FormatMessages(messages.j.items)
  {
    if Falsy(messages) then Ok([])
    else if messages.Defined? && messages.j.JArray? then FormatMessages(messages.j.items)
    else Err(TypeError)
  }

  /** The turn that stands in for an empty history. */
  const SessionStart := LlmMessage(User, Defined(JString("(session start)")))

  /** The messages sent to the model: never empty, and the history itself whenever it is not empty. */
  function WithSentinel(formatted: seq<LlmMessage>): (r: seq<LlmMessage>)
    ensures |r| > 0
    ensures formatted != [] ==> r == formatted
    ensures formatted == [] ==> r == [SessionStart]
  {
    if |formatted| > 0 then formatted else [SessionStart]
  }

  /** What server.js answers with: a message and a distress, and no safety flag. */
  datatype AriaReply = AriaReply(message: string, distress: Num)

  /**
   * `parseAriaResponse`: the text goes to `JSON.parse` as it is, the message is
   * `String(parsed.message)` and the distress is clamped with no fallback, so only
   * a number that is not NaN comes out as an integer in [0,10]. Reading a field of
   * `null` throws, and so does converting a field that is an object with an own
   * `toString` key.
   */
  function ParseAriaResponse(rt: Runtime, text: string): (r: Result<AriaReply, Thrown>)
    ensures rt.jsonParse(text).None? <==> r == Err(SyntaxError)
    ensures r == Err(TypeError) <==> (rt.jsonParse(text).Some? &&
      (rt.jsonParse(text).value.JNull? || Throws(Field(rt.jsonParse(text).value, "message")) ||
       Throws(Field(rt.jsonParse(text).value, "distress"))))
    ensures r.Err? ==> r.error == SyntaxError || r.error == TypeError
    ensures r.Ok? ==> var d := r.value.distress;
      d.NaN? || (d.Finite? && 0.0 <= d.x <= 10.0 && d.x == d.x.Floor as real)
    ensures r.Ok? ==> (
      rt.jsonParse(text).Some? && !rt.jsonParse(text).value.JNull? &&
      var parsed := rt.jsonParse(text).value;
      ToText(rt, Field(parsed, "message")) == Ok(r.value.message) &&
      r.value.distress == Clamp(ToNumber(rt, Field(parsed, "distress")).value))
  {
    match rt.jsonParse(text)
    case None => Err(SyntaxError)
    case Some(JNull) => Err(TypeError)
    case Some(parsed) =>
      match ToText(rt, Field(parsed, "message"))
      case Err(e) => Err(e)
      case Ok(message) =>
        match ToNumber(rt, Field(parsed, "distress"))
        case Err(e) => Err(e)
        case Ok(n) => Ok(AriaReply(message, Clamp(n)))
  }

  /**
   * A string message is answered as it is, the empty string included: unlike
   * the shared parser, server.js has no fallback for an empty message. The answer
   * comes back unless the distress is an object `Number(...)` cannot convert.
   */
  lemma StringMessageVerbatim(rt: Runtime, text: string, fields: map<string, Json>, s: string)
    requires rt.jsonParse(text) == Some(JObject(fields))
    requires "message" in fields && fields["message"] == JString(s)
    ensures ParseAriaResponse(rt, text).Ok? <==> !Throws(Field(JObject(fields), "distress"))
    ensures ParseAriaResponse(rt, text).Ok? ==> ParseAriaResponse(rt, text).value.message == s
  {
  }

  const AriaError := "Aria needs a moment"

  /** The body of the `/api/chat` route of server.js. */
  function Route(rt: Runtime, llm: Llm, systemPrompt: string, messages: Value): (r: Response<AriaReply>)
    ensures r.ServerError? ==> r.error == AriaError
    ensures r.Answer? <==> (History(messages).Ok? &&
      llm(systemPrompt, WithSentinel(History(messages).value)).Ok? &&
      ParseAriaResponse(rt, llm(systemPrompt, WithSentinel(History(messages).value)).value).Ok?)
    ensures r.Answer? ==>
      r.reply == ParseAriaResponse(rt, llm(systemPrompt, WithSentinel(History(messages).value)).value).value
  {
    match History(messages)
    case Err(_) => ServerError(AriaError)
    case Ok(formatted) =>
      match llm(systemPrompt, WithSentinel(formatted))
      case Err(_) => ServerError(AriaError)
      case Ok(text) =>
        match ParseAriaResponse(rt, text)
        case Err(_) => ServerError(AriaError)
        case Ok(reply) => Answer(reply)
  }

  /** A missing or `null` history is the empty one: the model is asked to open the session. */
  lemma RouteMissingHistory(rt: Runtime, llm: Llm, systemPrompt: string, messages: Value)
    requires messages == Undefined || messages == Defined(JNull) || messages == Defined(JArray([]))
    ensures Route(rt, llm, systemPrompt, messages) == Route(rt, llm, systemPrompt, Defined(JArray([])))
    ensures History(messages) == Ok([]) && WithSentinel(History(messages).value) == [SessionStart]
  {
  }

  /** Formatting keeps every entry's text and maps every role but `"user"` to the assistant. */
  lemma FormatRoles(ms: seq<Json>, k: nat)
    requires FormatMessages(ms).Ok? && k < |ms|
    ensures !ms[k].JNull?
    ensures FormatMessages(ms).value[k].content == Field(ms[k], "text")
    ensures Field(ms[k], "role") == Defined(JString("aria")) ==> FormatMessages(ms).value[k].role == Assistant
    ensures Field(ms[k], "role") == Defined(JString("character")) ==> FormatMessages(ms).value[k].role == Assistant
    ensures Field(ms[k], "role") == Defined(JString("user")) ==> FormatMessages(ms).value[k].role == User
  {
  }
}
