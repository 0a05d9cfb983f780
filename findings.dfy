/**
 * Where the chat route of server.js departs from what the rest of the repository
 * evidently intends: it reads the model's text with a bare `JSON.parse` instead
 * of `parseResponse` of src/parse.js, whose header says it is shared by
 * server.js, and it never applies the filter of src/safety.js, although the
 * test server of test-e2e.js, which says it mirrors the real server, gates both
 * the user's turn and the model's reply. Each departure is shown on an input
 * below, and `CorrectedRoute` is the route with both put right.
 */
module Findings {
  import opened Wrappers
  import opened Text
  import opened Js
  import opened ParseJs
  import opened Server
  import TestServer
  import SafetyFilter
  import SafetyExamples
  import Sentences

  // ---------------------------------------------------------------------------
  // The route as intended

  /** The reply of a blocked turn: the exit message, distress 0 and the safety flag. */
  const ExitReply := Reply(SafetyFilter.SafetyExitMessage, 0, true)

  /**
   * The chat route with the filter `check` on the last user turn and on the
   * model's message, and the model's text read by `parseResponse`.
   */
  function CorrectedRoute(rt: Runtime, check: string -> bool, llm: Llm, systemPrompt: string, messages: Value): (r: Response<Reply>)
    ensures r.ServerError? ==> r.error == AriaError
    ensures r.Answer? ==> |r.reply.message| > 0 && 0 <= r.reply.distress <= 10
    ensures r.Answer? && r.reply != ExitReply ==> !check(r.reply.message)
  {
    match History(messages)
    case Err(_) => ServerError(AriaError)
    case Ok(formatted) =>
      match TestServer.InputGate(check, formatted)
      case Err(_) => ServerError(AriaError)
      case Ok(true) => Answer(ExitReply)
      case Ok(false) =>
        match llm(systemPrompt, WithSentinel(formatted))
        case Err(_) => ServerError(AriaError)
        case Ok(text) =>
          match ParseResponse(rt, text)
          case Err(_) => ServerError(AriaError)
          case Ok(reply) => if check(reply.message) then Answer(ExitReply) else Answer(reply)
  }

  /** A last user turn the filter catches gets the exit reply, and the model is not consulted. */
  lemma CorrectedBlocks(rt: Runtime, check: string -> bool, llm: Llm, other: Llm, systemPrompt: string,
                        messages: Value, formatted: seq<LlmMessage>, text: string)
    requires History(messages) == Ok(formatted) && TestServer.LastIsUser(formatted)
    requires formatted[|formatted| - 1].content == Defined(JString(text)) && check(text)
    ensures CorrectedRoute(rt, check, llm, systemPrompt, messages) == Answer(ExitReply)
    ensures CorrectedRoute(rt, check, llm, systemPrompt, messages) == CorrectedRoute(rt, check, other, systemPrompt, messages)
  {
  }

  /** A reply fenced as a code block is read as the block's body. */
  lemma CorrectedReadsFence(rt: Runtime, check: string -> bool, llm: Llm, systemPrompt: string, messages: Value,
                            formatted: seq<LlmMessage>, pre: string, tag: string, body: string, post: string)
    requires History(messages) == Ok(formatted) && TestServer.InputGate(check, formatted) == Ok(false)
    requires llm(systemPrompt, WithSentinel(formatted)) == Ok(pre + "```" + tag + body + "```" + post)
    requires '`' !in pre && '`' !in body
    requires tag == "json" || (tag == "" && !TagAt(body, 0))
    ensures CorrectedRoute(rt, check, llm, systemPrompt, messages) ==
      match ParseResponse(rt, body)
      case Err(_) => ServerError(AriaError)
      case Ok(reply) => if check(reply.message) then Answer(ExitReply) else Answer(reply)
  {
    ParseFenced(rt, pre + "```" + tag + body + "```" + post, pre, tag, body, post);
  }

  // ---------------------------------------------------------------------------
  // The route as written, on the inputs that show each departure

  /** A text that opens with a backtick is no JSON text. */
  lemma BacktickNotJson(rt: Runtime, text: string)
    requires RejectsNonJson(rt) && text != [] && text[0] == '`'
    ensures rt.jsonParse(text) == None
  {
    assert !JsonSpace(text[0]) && !MayStartJson(text);
  }

  /**
   * A reply fenced as a code block, which `parseResponse` reads, makes the route
   * of server.js answer 500: `JSON.parse` is given the fence itself.
   */
  lemma FencedReplyRejected(rt: Runtime, llm: Llm, systemPrompt: string, messages: Value, tag: string, body: string)
    requires RejectsNonJson(rt) && History(messages).Ok?
    requires llm(systemPrompt, WithSentinel(History(messages).value)) == Ok("```" + tag + body + "```")
    ensures ParseAriaResponse(rt, "```" + tag + body + "```") == Err(SyntaxError)
    ensures Route(rt, llm, systemPrompt, messages) == ServerError(AriaError)
  {
    var text := "```" + tag + body + "```";
    assert text[0] == '`';
    BacktickNotJson(rt, text);
  }

  /** A text with no backtick and no whitespace at either end, as `JSON.stringify` writes one. */
  predicate Bare(text: string) {
    text != [] && IsTrimmed(text) && '`' !in text
  }

  /** Both readers see a bare text as it is. */
  lemma BareExtracted(text: string)
    requires Bare(text)
    ensures ExtractJson(text) == text
  {
    ExtractBacktickFree(text);
    assert TrimStart(text) == text;
    assert TrimEnd(text) == text;
  }

  /**
   * An object with no `message` field (the model wrote `response` or `text`
   * instead, both of which `parseResponse` accepts) is answered with the message
   * "undefined"; `parseResponse` never answers with it.
   */
  lemma MissingMessageUndefined(rt: Runtime, text: string, fields: map<string, Json>)
    requires Bare(text) && rt.jsonParse(text) == Some(JObject(fields)) && "message" !in fields
    ensures ParseAriaResponse(rt, text).Ok? <==> !Throws(Field(JObject(fields), "distress"))
    ensures ParseAriaResponse(rt, text).Ok? ==> ParseAriaResponse(rt, text).value.message == "undefined"
    ensures ParseResponse(rt, text).Ok? <==> !Throws(Field(JObject(fields), "distress"))
    ensures ("response" in fields && fields["response"].JString? && fields["response"].s != "" &&
      ParseResponse(rt, text).Ok?) ==> ParseResponse(rt, text).value.message == fields["response"].s
  {
    BareExtracted(text);
  }

  /**
   * An object whose distress is missing is answered with distress NaN, which the
   * client receives as `null`; `parseResponse` falls back to 8.
   */
  lemma MissingDistressNaN(rt: Runtime, text: string, fields: map<string, Json>)
    requires Bare(text) && rt.jsonParse(text) == Some(JObject(fields)) && "distress" !in fields
    ensures ParseAriaResponse(rt, text).Ok? <==> !Throws(Field(JObject(fields), "message"))
    ensures ParseAriaResponse(rt, text).Ok? ==> ParseAriaResponse(rt, text).value.distress == NaN
    ensures ParseResponse(rt, text).Ok? && ParseResponse(rt, text).value.distress == 8
  {
    BareExtracted(text);
  }

  /** A history of one user turn reaches the model as that turn alone. */
  lemma SingleUserTurn(m: string)
    ensures History(Defined(JArray([JObject(map["role" := JString("user"), "text" := JString(m)])]))) ==
      Ok([LlmMessage(User, Defined(JString(m)))])
  {
    var entry := JObject(map["role" := JString("user"), "text" := JString(m)]);
    assert Field(entry, "role") == Defined(JString("user"));
    assert FormatEntry(entry) == LlmMessage(User, Defined(JString(m)));
    assert [entry][1..] == [];
    assert [FormatEntry(entry)] + [] == [FormatEntry(entry)];
  }

  /**
   * "I want to kill myself", which src/safety.js catches, is forwarded to the
   * model by the route of server.js, which answers with whatever the model says;
   * the corrected route answers with the exit reply and does not consult the model.
   */
  lemma UnsafeInputForwarded(rt: Runtime, llm: Llm, systemPrompt: string, m: string, reply: string)
    requires m == Sentences.Unwords(["I", "want", "to", "kill", "myself"])
    requires llm(systemPrompt, [LlmMessage(User, Defined(JString(m)))]) == Ok(reply)
    requires ParseAriaResponse(rt, reply).Ok?
    ensures var messages := Defined(JArray([JObject(map["role" := JString("user"), "text" := JString(m)])]));
      SafetyFilter.CheckSafety(m) &&
      Route(rt, llm, systemPrompt, messages) == Answer(ParseAriaResponse(rt, reply).value) &&
      CorrectedRoute(rt, SafetyFilter.CheckSafety, llm, systemPrompt, messages) == Answer(ExitReply)
  {
    var messages := Defined(JArray([JObject(map["role" := JString("user"), "text" := JString(m)])]));
    SingleUserTurn(m);
    SafetyExamples.KillMyself(m);
    assert Route(rt, llm, systemPrompt, messages) == Answer(ParseAriaResponse(rt, reply).value);
    CorrectedBlocks(rt, SafetyFilter.CheckSafety, llm, llm, systemPrompt, messages, [LlmMessage(User, Defined(JString(m)))], m);
  }
}
