/**
 * The `/api/chat` handler of the end-to-end test server (test-e2e.js:75-110):
 * the two-sided safety gate around the model call. The model, the safety
 * predicate and the system-prompt lookup are parameters, so the handler is a
 * function of the request.
 */
module TestServer {
  import opened Wrappers
  import opened Js
  import opened Server
  import SafetyFilter

  /** What the test server answers with: message, distress and safety flag. */
  datatype TurnReply = TurnReply(message: string, distress: Num, safety: bool)

  /** The fixed answer of a blocked turn (test-e2e.js:58-59 holds the same text as src/safety.js). */
  const Exit := TurnReply(SafetyFilter.SafetyExitMessage, Finite(0.0), true)

  const TestError := "They need a moment"

  /** `checkSafety(v)`: `toLowerCase` is read off the value, so anything but a string throws. */
  function CheckValue(check: string -> bool, v: Value): (r: Result<bool, Thrown>)
    ensures r.Err? <==> !(v.Defined? && v.j.JString?)
    ensures r.Ok? ==> r.value == check(v.j.s)
  {
    if v.Defined? && v.j.JString? then Ok(check(v.j.s)) else Err(TypeError)
  }

  /** The entry the input gate looks at: the last one, and only when it is a user turn. */
  predicate LastIsUser(formatted: seq<LlmMessage>) {
    formatted != [] && formatted[|formatted| - 1].role == User
  }

  /** The input gate: `Ok(true)` blocks the turn before the model is called. */
  function InputGate(check: string -> bool, formatted: seq<LlmMessage>): (r: Result<bool, Thrown>)
    ensures !LastIsUser(formatted) ==> r == Ok(false)
    ensures LastIsUser(formatted) ==> r == CheckValue(check, formatted[|formatted| - 1].content)
  {
    if LastIsUser(formatted) then CheckValue(check, formatted[|formatted| - 1].content) else Ok(false)
  }

  /** `topic || "anxiety"`. */
  function TopicOrDefault(topic: Value): (r: Value)
    ensures Falsy(topic) ==> r == Defined(JString("anxiety"))
    ensures !Falsy(topic) ==> r == topic
  {
    if Falsy(topic) then Defined(JString("anxiety")) else topic
  }

  /** Lines 95-100: like `parseAriaResponse` of server.js, with the model's safety flag read as well. */
  function ParseTurn(rt: Runtime, text: string): (r: Result<TurnReply, Thrown>)
    ensures r.Ok? <==> ParseAriaResponse(rt, text).Ok?
    ensures r.Err? ==> r.error == ParseAriaResponse(rt, text).error
    ensures r.Ok? ==> (r.value.message == ParseAriaResponse(rt, text).value.message &&
      r.value.distress == ParseAriaResponse(rt, text).value.distress &&
      (r.value.safety <==> Field(rt.jsonParse(text).value, "safety") == Defined(JBool(true))))
  {
    match rt.jsonParse(text)
    case None => Err(SyntaxError)
    case Some(JNull) => Err(TypeError)
    case Some(parsed) =>
      match ToText(rt, Field(parsed, "message"))
      case Err(e) => Err(e)
      case Ok(message) =>
        match ToNumber(rt, Field(parsed, "distress"))
        case Err(e) => Err(e)
        case Ok(n) => Ok(TurnReply(message, Clamp(n), Field(parsed, "safety") == Defined(JBool(true))))
  }

  /** What happens once the model has answered (or thrown): parse, then the output gate. */
  function AfterModel(rt: Runtime, check: string -> bool, outcome: Result<string, Thrown>): (r: Response<TurnReply>)
    ensures r.ServerError? ==> r.error == TestError
    ensures r.ServerError? <==> outcome.Err? || ParseTurn(rt, outcome.value).Err?
    ensures r.Answer? && r.reply != Exit ==> r.reply == ParseTurn(rt, outcome.value).value && !check(r.reply.message)
  {
    match outcome
    case Err(_) => ServerError(TestError)
    case Ok(text) =>
      match ParseTurn(rt, text)
      case Err(_) => ServerError(TestError)
      case Ok(result) => if check(result.message) then Answer(Exit) else Answer(result)
  }

  /**
   * The handler. `messages` and `topic` are the fields of the request body; the
   * model sees the system prompt of the topic (or of "anxiety") and the formatted
   * history, or the single "(session start)" turn when the history is empty.
   */
  function Handle(rt: Runtime, check: string -> bool, llm: Llm, prompt: Value -> string,
                  messages: Value, topic: Value): (r: Response<TurnReply>)
    ensures r.ServerError? ==> r.error == TestError
  {
    match History(messages)
    case Err(_) => ServerError(TestError)
    case Ok(formatted) =>
      match InputGate(check, formatted)
      case Err(_) => ServerError(TestError)
      case Ok(true) => Answer(Exit)
      case Ok(false) => AfterModel(rt, check, llm(prompt(TopicOrDefault(topic)), WithSentinel(formatted)))
  }

  /**
   * A last user turn that trips the filter gets exactly the exit answer, and the
   * model is not consulted: any two models give the same answer.
   */
  lemma InputBlocked(rt: Runtime, check: string -> bool, llm: Llm, other: Llm, prompt: Value -> string,
                     messages: Value, topic: Value, formatted: seq<LlmMessage>, text: string)
    requires History(messages) == Ok(formatted) && LastIsUser(formatted)
    requires formatted[|formatted| - 1].content == Defined(JString(text)) && check(text)
    ensures Handle(rt, check, llm, prompt, messages, topic) == Answer(Exit)
    ensures Handle(rt, check, llm, prompt, messages, topic) == Handle(rt, check, other, prompt, messages, topic)
  {
  }

  /** The input gate reads the last entry only: whatever comes before it is never checked. */
  lemma OnlyLastEntryChecked(check: string -> bool, earlier: seq<LlmMessage>, last: LlmMessage)
    ensures InputGate(check, earlier + [last]) == InputGate(check, [last])
    ensures last.role == Assistant ==> InputGate(check, earlier + [last]) == Ok(false)
  {
    assert (earlier + [last])[|earlier + [last]| - 1] == last;
  }

  /**
   * An absent, `null` or empty history makes the model open the session: it is
   * given the single "(session start)" turn, under the prompt of the topic or of
   * "anxiety" when the topic is missing.
   */
  lemma EmptyHistoryOpens(rt: Runtime, check: string -> bool, llm: Llm, prompt: Value -> string,
                          messages: Value, topic: Value)
    requires messages == Undefined || messages == Defined(JNull) || messages == Defined(JArray([]))
    ensures Handle(rt, check, llm, prompt, messages, topic) ==
      AfterModel(rt, check, llm(prompt(TopicOrDefault(topic)), [SessionStart]))
  {
  }

  /** A model text whose message trips the filter is replaced by the exit answer, whatever distress and flag it carried. */
  lemma OutputOverridden(rt: Runtime, check: string -> bool, text: string)
    requires ParseTurn(rt, text).Ok? && check(ParseTurn(rt, text).value.message)
    ensures AfterModel(rt, check, Ok(text)) == Answer(Exit)
  {
  }

  /**
   * A model text whose message and distress convert, and whose message the filter
   * lets through, is answered with that message, a distress that is NaN or an
   * integer in [0,10], and the model's flag read as `=== true`.
   */
  lemma PassedThrough(rt: Runtime, check: string -> bool, text: string, parsed: Json, message: string, n: Num)
    requires rt.jsonParse(text) == Some(parsed) && !parsed.JNull?
    requires ToText(rt, Field(parsed, "message")) == Ok(message) && ToNumber(rt, Field(parsed, "distress")) == Ok(n)
    requires !check(message)
    ensures var r := AfterModel(rt, check, Ok(text));
      r.Answer? && r.reply.message == message && r.reply.distress == Clamp(n) &&
      (r.reply.distress.NaN? || (r.reply.distress.Finite? && 0.0 <= r.reply.distress.x <= 10.0)) &&
      (r.reply.safety <==> Field(parsed, "safety") == Defined(JBool(true)))
  {
  }

  /**
   * A model that throws, a text `JSON.parse` rejects or reads as `null`, or a
   * message or distress that cannot be converted, gives the error answer, never
   * a safety answer.
   */
  lemma FailureIsError(rt: Runtime, check: string -> bool, outcome: Result<string, Thrown>)
    requires outcome.Err? || rt.jsonParse(outcome.value).None? || rt.jsonParse(outcome.value) == Some(JNull) ||
      (rt.jsonParse(outcome.value).Some? && !rt.jsonParse(outcome.value).value.JNull? &&
       (Throws(Field(rt.jsonParse(outcome.value).value, "message")) ||
        Throws(Field(rt.jsonParse(outcome.value).value, "distress"))))
    ensures AfterModel(rt, check, outcome) == ServerError(TestError)
  {
  }

  /** A history whose every entry is an object with a string `text` reaches the model as strings. */
  predicate TextsAreStrings(ms: seq<Json>) {
    forall k :: 0 <= k < |ms| ==> ms[k].JObject? && "text" in ms[k].fields && ms[k].fields["text"].JString?
  }

  /** What the mock model demands of its messages: at least one, and every content a string. */
  predicate MockAccepts(ms: seq<LlmMessage>) {
    |ms| > 0 && forall k :: 0 <= k < |ms| ==> ms[k].content.Defined? && ms[k].content.j.JString?
  }

  /** The model is always given messages the mock accepts when every entry's `text` is a string. */
  lemma ModelInputAccepted(items: seq<Json>)
    requires TextsAreStrings(items)
    ensures History(Defined(JArray(items))).Ok?
    ensures MockAccepts(WithSentinel(History(Defined(JArray(items))).value))
  {
    assert forall k :: 0 <= k < |items| ==> !items[k].JNull?;
  }
}
