/**
 * The mock model of the end-to-end suite (test-e2e.js:9-45): a call counter, a
 * failure switch and a distress level that moves with what the user last said,
 * and the full-resolution scenario (test-e2e.js:165-184) run against the test
 * server with that mock behind it.
 */
module Mock {
  import opened Wrappers
  import opened Text
  import opened Js
  import opened Server
  import opened TestServer
  import opened MockMessages
  import SafetyFilter

  const SessionStartText := "(session start)"

  /** The phrases that lower the mock's distress (test-e2e.js:32). */
  predicate Soothing(text: string) {
    Contains(text, "hear") || Contains(text, "feel") || Contains(text, "here for you") || Contains(text, "sounds hard")
  }

  /** The phrases that raise it (test-e2e.js:34). */
  predicate Dismissive(text: string) {
    Contains(text, "calm down") || Contains(text, "not that bad") || Contains(text, "whatever")
  }

  /**
   * The distress after the user said `text` (lower-cased): the session start sets
   * 8, a soothing phrase lowers it by 2, a dismissive one raises it by 1, and
   * anything else lowers it by 1, never below 0 nor above 10.
   */
  function NextDistress(d: int, text: string): (r: int)
    ensures 0 <= d <= 10 ==> 0 <= r <= 10
    ensures text == SessionStartText ==> r == 8
    ensures text != SessionStartText && Soothing(text) ==> r == (if d >= 2 then d - 2 else 0)
    ensures text != SessionStartText && !Soothing(text) && Dismissive(text) ==> r == (if d <= 9 then d + 1 else 10)
    ensures text != SessionStartText && !Soothing(text) && !Dismissive(text) ==> r == (if d >= 1 then d - 1 else 0)
    ensures 0 <= d && r > d ==> text == SessionStartText || (Dismissive(text) && !Soothing(text))
    ensures 0 < d <= 10 && text != SessionStartText && !Dismissive(text) ==> r < d
  {
    if text == SessionStartText then 8
    else if Soothing(text) then (if d - 2 > 0 then d - 2 else 0)
    else if Dismissive(text) then (if d + 1 < 10 then d + 1 else 10)
    else (if d - 1 > 0 then d - 1 else 0)
  }

  /** A soothing phrase wins over a dismissive one said in the same breath. */
  lemma SoothingFirst(d: int, text: string)
    requires 0 <= d <= 10 && text != SessionStartText && Soothing(text) && Dismissive(text)
    ensures NextDistress(d, text) < d || d == 0
  {
  }

  /** Dismissiveness alone raises distress until it saturates at 10. */
  lemma DismissiveRaises(d: int, text: string)
    requires 0 <= d <= 10 && text != SessionStartText && Dismissive(text) && !Soothing(text)
    ensures NextDistress(d, text) == (if d < 10 then d + 1 else 10)
  {
  }

  /** `[...messages].reverse().find(m => m.role === "user")`: the index of the last user turn. */
  function LastUser(ms: seq<LlmMessage>): (r: Option<nat>)
    ensures r.Some? ==> (r.value < |ms| && ms[r.value].role == User &&
      forall j :: r.value < j < |ms| ==> ms[j].role != User)
    ensures r.None? ==> forall j :: 0 <= j < |ms| ==> ms[j].role != User
    decreases |ms|
  {
    if ms == [] then None
    else if ms[|ms| - 1].role == User then Some(|ms| - 1)
    else LastUser(ms[..|ms| - 1])
  }

  /** `lastUser?.content?.toLowerCase() || ""`, once every content is known to be a string. */
  function HeardText(ms: seq<LlmMessage>): (r: string)
    requires MockAccepts(ms)
    ensures LastUser(ms).None? ==> r == ""
    ensures LastUser(ms).Some? ==> r == Lower(ms[LastUser(ms).value].content.j.s)
  {
    match LastUser(ms)
    case None => ""
    case Some(k) => Lower(ms[k].content.j.s)
  }

  function Reply(d: int): (r: string)
    ensures r in {StruggleReply, StillReply}
    ensures r == StillReply <==> d <= 0
  {
    if d > 0 then StruggleReply else StillReply
  }

  /** `{message, distress, safety: false}`, the object the mock writes out. */
  function MockJson(d: int): (j: Json)
    ensures 0 <= d <= 10 ==> Exact(j)
  {
    var message := Reply(d);
    var j := JObject(map["message" := JString(message), "distress" := JNumber(Finite(d as real)), "safety" := JBool(false)]);
    assert 0 <= d <= 10 ==> Exact(j) by {
      if 0 <= d <= 10 {
        ObjectExact(message, d);
      }
    }
    j
  }

  /** A distress in [0,10] is a safe integer, so the mock's object reads back exactly. */
  lemma ObjectExact(message: string, d: int)
    requires 0 <= d <= 10
    ensures Exact(JObject(map["message" := JString(message), "distress" := JNumber(Finite(d as real)), "safety" := JBool(false)]))
  {
    assert SafeInteger(Finite(d as real));
  }

  /**
   * One call of the mock with the switch `failing` and distress `d`: what it
   * returns or throws, and its distress afterwards. The checks of lines 17-25 run
   * in order; the role check of line 23 always passes here, since a formatted
   * message has role user or assistant.
   */
  function MockOutcome(rt: Runtime, failing: bool, d: int, prompt: string, ms: seq<LlmMessage>): (r: (Result<string, Thrown>, int))
    ensures 0 <= d <= 10 ==> 0 <= r.1 <= 10
    ensures r.0.Err? ==> r.1 == d
    ensures r.0.Ok? <==> !failing && prompt != "" && MockAccepts(ms)
    ensures r.0.Ok? ==> r.1 == NextDistress(d, HeardText(ms)) && r.0.value == rt.jsonText(MockJson(r.1))
    ensures failing ==> r.0 == Err(Failure("Simulated API failure"))
  {
    if failing then (Err(Failure("Simulated API failure")), d)
    else if prompt == "" then (Err(Failure("Missing system prompt")), d)
    else if ms == [] then (Err(Failure("Empty messages")), d)
    else if !MockAccepts(ms) then (Err(Failure("Content must be string")), d)
    else
      var next := NextDistress(d, HeardText(ms));
      (Ok(rt.jsonText(MockJson(next))), next)
  }

  /** The mock seen as the model of the handler, in a given state. */
  function MockModel(rt: Runtime, failing: bool, d: int): Llm {
    (prompt: string, ms: seq<LlmMessage>) => MockOutcome(rt, failing, d, prompt, ms).0
  }

  /** The module-level state of the mock. */
  class MockLlm {
    var callCount: nat
    var shouldFail: bool
    var distress: int

    ghost predicate Valid()
      reads this
    {
      0 <= distress <= 10
    }

    constructor ()
      ensures Valid() && callCount == 0 && !shouldFail && distress == 8
    {
      callCount, shouldFail, distress := 0, false, 8;
    }

    /** `resetMockDistress`. */
    method ResetDistress()
      modifies this
      ensures Valid() && distress == 8
      ensures callCount == old(callCount) && shouldFail == old(shouldFail)
    {
      distress := 8;
    }

    /** `mockLLM(systemPrompt, messages)`: every call is counted, whether it throws or not. */
    method Call(rt: Runtime, systemPrompt: string, messages: seq<LlmMessage>) returns (r: Result<string, Thrown>)
      requires Valid()
      modifies this
      ensures Valid()
      ensures callCount == old(callCount) + 1 && shouldFail == old(shouldFail)
      ensures (r, distress) == MockOutcome(rt, old(shouldFail), old(distress), systemPrompt, messages)
    {
      callCount := callCount + 1;
      if shouldFail {
        return Err(Failure("Simulated API failure"));
      }
      if systemPrompt == "" {
        return Err(Failure("Missing system prompt"));
      }
      if |messages| == 0 {
        return Err(Failure("Empty messages"));
      }
      var i := 0;
      while i < |messages|
        invariant 0 <= i <= |messages|
        invariant forall k :: 0 <= k < i ==> messages[k].content.Defined? && messages[k].content.j.JString?
      {
        if !(messages[i].content.Defined? && messages[i].content.j.JString?) {
          return Err(Failure("Content must be string"));
        }
        i := i + 1;
      }
      distress := NextDistress(distress, HeardText(messages));
      r := Ok(rt.jsonText(MockJson(distress)));
    }
  }

  /** The handler consults the model exactly when the history formats and the input gate lets it through. */
  predicate Consulted(check: string -> bool, messages: Value) {
    History(messages).Ok? && InputGate(check, History(messages).value) == Ok(false)
  }

  /**
   * The test server's handler with the mock behind it. It answers as `Handle`
   * does with the mock in its state before the call, and the mock is called (and
   * counted, and its distress moved) only when the input gate lets the turn through.
   */
  method Serve(mock: MockLlm, rt: Runtime, check: string -> bool, prompt: Value -> string,
               messages: Value, topic: Value) returns (r: Response<TurnReply>)
    requires mock.Valid()
    modifies mock
    ensures mock.Valid() && mock.shouldFail == old(mock.shouldFail)
    ensures r == Handle(rt, check, MockModel(rt, old(mock.shouldFail), old(mock.distress)), prompt, messages, topic)
    ensures Consulted(check, messages) ==> (mock.callCount == old(mock.callCount) + 1 &&
      mock.distress == MockOutcome(rt, old(mock.shouldFail), old(mock.distress),
        prompt(TopicOrDefault(topic)), WithSentinel(History(messages).value)).1)
    ensures !Consulted(check, messages) ==> mock.callCount == old(mock.callCount) && mock.distress == old(mock.distress)
  {
    var formatted := History(messages);
    if formatted.Err? {
      return ServerError(TestError);
    }
    var blocked := InputGate(check, formatted.value);
    if blocked.Err? {
      return ServerError(TestError);
    }
    if blocked.value {
      return Answer(Exit);
    }
    var outcome := mock.Call(rt, prompt(TopicOrDefault(topic)), WithSentinel(formatted.value));
    r := AfterModel(rt, check, outcome);
  }

  /** A blocked turn leaves the mock untouched: it is not even counted. */
  lemma BlockedNotCounted(check: string -> bool, messages: Value, formatted: seq<LlmMessage>, text: string)
    requires History(messages) == Ok(formatted) && LastIsUser(formatted)
    requires formatted[|formatted| - 1].content == Defined(JString(text)) && check(text)
    ensures !Consulted(check, messages)
  {
  }

  // ---------------------------------------------------------------------------
  // What the mock answers, as the handler reads it

  /** The fields of the mock's object, one by one. */
  lemma MockFields(d: int)
    ensures Field(MockJson(d), "message") == Defined(JString(Reply(d)))
    ensures Field(MockJson(d), "distress") == Defined(JNumber(Finite(d as real)))
    ensures Field(MockJson(d), "safety") == Defined(JBool(false))
  {
    var message := Reply(d);
    assert MockJson(d) == JObject(map["message" := JString(message), "distress" := JNumber(Finite(d as real)), "safety" := JBool(false)]);
    ObjectFields(message, d);
  }

  lemma ObjectFields(message: string, d: int)
    ensures var j := JObject(map["message" := JString(message), "distress" := JNumber(Finite(d as real)), "safety" := JBool(false)]);
      Field(j, "message") == Defined(JString(message)) && Field(j, "distress") == Defined(JNumber(Finite(d as real))) &&
      Field(j, "safety") == Defined(JBool(false))
  {
    var m := map["message" := JString(message), "distress" := JNumber(Finite(d as real)), "safety" := JBool(false)];
    assert "message" in m && m["message"] == JString(message);
    assert "distress" in m && m["distress"] == JNumber(Finite(d as real));
    assert "safety" in m && m["safety"] == JBool(false);
  }

  /** An integer distress in [0,10] survives the clamp unchanged. */
  lemma ClampKeeps(d: int)
    requires 0 <= d <= 10
    ensures Clamp(Finite(d as real)) == Finite(d as real)
  {
    assert (d as real + 0.5).Floor == d;
  }

  /** The mock's text reads back as its message, its distress and a false safety flag. */
  lemma MockReplyParses(rt: Runtime, d: int)
    requires ReadsBack(rt) && 0 <= d <= 10
    ensures ParseTurn(rt, rt.jsonText(MockJson(d))) == Ok(TurnReply(Reply(d), Finite(d as real), false))
  {
    MockJsonReads(rt, d);
    MockFieldsRead(rt, d);
  }

  lemma MockJsonReads(rt: Runtime, d: int)
    requires ReadsBack(rt) && 0 <= d <= 10
    ensures rt.jsonParse(rt.jsonText(MockJson(d))) == Some(MockJson(d))
  {
  }

  lemma MockFieldsRead(rt: Runtime, d: int)
    requires 0 <= d <= 10
    ensures ToText(rt, Field(MockJson(d), "message")) == Ok(Reply(d))
    ensures ToNumber(rt, Field(MockJson(d), "distress")) == Ok(Finite(d as real))
    ensures Clamp(Finite(d as real)) == Finite(d as real)
    ensures (Field(MockJson(d), "safety") == Defined(JBool(true))) == false
  {
    MockFields(d);
    ClampKeeps(d);
  }

  /** A filter that lets the mock's reply through passes the mock's answer on unchanged. */
  lemma MockReplyPasses(rt: Runtime, check: string -> bool, d: int)
    requires ReadsBack(rt) && 0 <= d <= 10 && !check(Reply(d))
    ensures AfterModel(rt, check, Ok(rt.jsonText(MockJson(d)))) ==
      Answer(TurnReply(Reply(d), Finite(d as real), false))
  {
    MockReplyParses(rt, d);
  }

  /** Neither reply of the mock trips the filter copy. */
  lemma RepliesPass(d: int)
    ensures !SafetyFilter.TestCheckSafety(Reply(d))
  {
    StruggleReplySafe();
    StillReplySafe();
  }

  /** The lower-cased sentinel is the sentinel. */
  lemma SentinelHeard(s: string)
    requires s == SessionStartText
    ensures Lower(s) == SessionStartText
  {
    assert NoUpper(s);
    LowerFixed(s);
  }

  /** Given the lone "(session start)" turn, the mock (not failing) goes to distress 8. */
  lemma SessionStartOutcome(rt: Runtime, p: string, d: int)
    requires p != ""
    ensures MockOutcome(rt, false, d, p, [SessionStart]) == (Ok(rt.jsonText(MockJson(8))), 8)
  {
    var ms := [SessionStart];
    assert MockAccepts(ms);
    assert LastUser(ms) == Some(0);
    SentinelHeard(SessionStart.content.j.s);
    assert HeardText(ms) == SessionStartText;
  }

  /** An empty history opens the session: the mock is reset to 8 and answers with distress 8. */
  lemma SessionStartAnswer(rt: Runtime, prompt: Value -> string, topic: Value, d: int)
    requires ReadsBack(rt) && prompt(TopicOrDefault(topic)) != ""
    ensures Handle(rt, SafetyFilter.TestCheckSafety, MockModel(rt, false, d), prompt, Defined(JArray([])), topic) ==
      Answer(TurnReply(StruggleReply, Finite(8.0), false))
  {
    SessionStartOutcome(rt, prompt(TopicOrDefault(topic)), d);
    RepliesPass(8);
    MockReplyPasses(rt, SafetyFilter.TestCheckSafety, 8);
    EmptyHistoryOpens(rt, SafetyFilter.TestCheckSafety, MockModel(rt, false, d), prompt, Defined(JArray([])), topic);
  }

  /** The empty history reaches the mock, which goes to distress 8. */
  lemma SessionStartConsulted(rt: Runtime, p: string, d: int)
    requires p != ""
    ensures Consulted(SafetyFilter.TestCheckSafety, Defined(JArray([])))
    ensures MockOutcome(rt, false, d, p, WithSentinel(History(Defined(JArray([]))).value)).1 == 8
  {
    var empty: seq<Json> := [];
    assert !Falsy(Defined(JArray(empty)));
    assert FormatMessages(empty) == Ok([]);
    assert History(Defined(JArray(empty))) == Ok([]);
    SessionStartOutcome(rt, p, d);
  }

  /** A history entry of the client: `{role, text}`. */
  function Entry(role: string, text: string): (j: Json)
    ensures j.JObject?
    ensures Field(j, "role") == Defined(JString(role)) && Field(j, "text") == Defined(JString(text))
  {
    JObject(map["role" := JString(role), "text" := JString(text)])
  }

  /** Appending a `{role, text}` entry keeps every text a string. */
  lemma EntryKeepsTexts(history: seq<Json>, role: string, text: string)
    requires TextsAreStrings(history)
    ensures TextsAreStrings(history + [Entry(role, text)])
  {
    var items := history + [Entry(role, text)];
    assert forall k :: 0 <= k < |history| ==> items[k] == history[k];
    assert items[|history|] == Entry(role, text);
  }

  /** A history ending in the user turn `u` reaches the model with `u` last, as a user turn. */
  lemma UserTurnFormatted(history: seq<Json>, u: string)
    requires TextsAreStrings(history)
    ensures var items := history + [Entry("user", u)];
      TextsAreStrings(items) && FormatMessages(items).Ok? &&
      var f := FormatMessages(items).value;
      |f| == |items| && f[|f| - 1] == LlmMessage(User, Defined(JString(u)))
  {
    var items := history + [Entry("user", u)];
    assert items[|items| - 1] == Entry("user", u);
    assert forall k :: 0 <= k < |history| ==> items[k] == history[k];
    ModelInputAccepted(items);
  }

  /** What the mock in state `d` (not failing) does with a history that ends in the user turn `u`. */
  lemma UserTurnOutcome(rt: Runtime, p: string, history: seq<Json>, u: string, d: int)
    requires p != "" && TextsAreStrings(history)
    ensures var items := history + [Entry("user", u)];
      var next := NextDistress(d, Lower(u));
      FormatMessages(items).Ok? &&
      MockOutcome(rt, false, d, p, WithSentinel(FormatMessages(items).value)) == (Ok(rt.jsonText(MockJson(next))), next)
  {
    var items := history + [Entry("user", u)];
    UserTurnFormatted(history, u);
    ModelInputAccepted(items);
    var f := FormatMessages(items).value;
    assert LastUser(f) == Some(|f| - 1);
    assert HeardText(f) == Lower(u);
  }

  /**
   * A turn of the test client: a history of string texts followed by a user turn
   * `u` that the filter lets through reaches the mock, which moves its distress
   * by `u`, and its reply, which the filter lets through too, comes back unchanged.
   */
  lemma UserTurnAnswered(rt: Runtime, check: string -> bool, prompt: Value -> string, topic: Value,
                         history: seq<Json>, u: string, d: int)
    requires ReadsBack(rt) && 0 <= d <= 10 && prompt(TopicOrDefault(topic)) != "" && TextsAreStrings(history)
    requires !check(u) && !check(Reply(NextDistress(d, Lower(u))))
    ensures var messages := Defined(JArray(history + [Entry("user", u)]));
      var next := NextDistress(d, Lower(u));
      Consulted(check, messages) &&
      MockOutcome(rt, false, d, prompt(TopicOrDefault(topic)), WithSentinel(History(messages).value)).1 == next &&
      Handle(rt, check, MockModel(rt, false, d), prompt, messages, topic) ==
        Answer(TurnReply(Reply(next), Finite(next as real), false))
  {
    var items := history + [Entry("user", u)];
    var next := NextDistress(d, Lower(u));
    var p := prompt(TopicOrDefault(topic));
    UserTurnFormatted(history, u);
    UserTurnOutcome(rt, p, history, u, d);
    var f := FormatMessages(items).value;
    assert InputGate(check, f) == Ok(false);
    MockReplyPasses(rt, check, next);
    HandleThrough(rt, check, MockModel(rt, false, d), prompt, topic, items, f, rt.jsonText(MockJson(next)),
      Answer(TurnReply(Reply(next), Finite(next as real), false)));
  }

  /** A history the input gate lets through gets whatever the model's text becomes after the output gate. */
  lemma HandleThrough(rt: Runtime, check: string -> bool, llm: Llm, prompt: Value -> string, topic: Value,
                      items: seq<Json>, f: seq<LlmMessage>, text: string, a: Response<TurnReply>)
    requires FormatMessages(items) == Ok(f) && InputGate(check, f) == Ok(false)
    requires llm(prompt(TopicOrDefault(topic)), WithSentinel(f)) == Ok(text) && AfterModel(rt, check, Ok(text)) == a
    ensures History(Defined(JArray(items))) == Ok(f) && Consulted(check, Defined(JArray(items)))
    ensures Handle(rt, check, llm, prompt, Defined(JArray(items)), topic) == a
  {
    assert !Falsy(Defined(JArray(items)));
  }

  /** `distress > 0` on what the test reads back; `undefined` and NaN compare false. */
  predicate Positive(n: Num) {
    n.PosInf? || (n.Finite? && n.x > 0.0)
  }

  /**
   * One turn of the test client against the test server with the mock behind it:
   * the history plus the user turn `u` is posted, and the history grows by that
   * turn and the reply. A turn the filter copy lets through always reaches the mock.
   */
  method SendTurn(mock: MockLlm, rt: Runtime, prompt: Value -> string, topic: Value, history: seq<Json>, u: string)
    returns (reply: TurnReply, next: seq<Json>)
    requires ReadsBack(rt) && mock.Valid() && !mock.shouldFail && prompt(TopicOrDefault(topic)) != ""
    requires TextsAreStrings(history) && !SafetyFilter.TestCheckSafety(u)
    modifies mock
    ensures mock.Valid() && !mock.shouldFail && mock.callCount == old(mock.callCount) + 1
    ensures mock.distress == NextDistress(old(mock.distress), Lower(u))
    ensures reply == TurnReply(Reply(mock.distress), Finite(mock.distress as real), false)
    ensures next == history + [Entry("user", u)] + [Entry("character", reply.message)] && TextsAreStrings(next)
  {
    var msgs := history + [Entry("user", u)];
    RepliesPass(NextDistress(mock.distress, Lower(u)));
    UserTurnAnswered(rt, SafetyFilter.TestCheckSafety, prompt, topic, history, u, mock.distress);
    var r := Serve(mock, rt, SafetyFilter.TestCheckSafety, prompt, Defined(JArray(msgs)), topic);
    reply := r.reply;
    next := msgs + [Entry("character", reply.message)];
    EntryKeepsTexts(history, "user", u);
    EntryKeepsTexts(msgs, "character", reply.message);
  }

  /** The empathic turn soothes: each time it is heard, distress falls by 2 down to 0. */
  lemma EmpathySoothes(d: int)
    requires 0 <= d <= 10
    ensures NextDistress(d, Lower(EmpathyTurn)) == (if d >= 2 then d - 2 else 0)
  {
    EmpathyHeard();
  }

  /** The mock's distress after hearing the same text `n` times from `d`. */
  function Repeated(d: int, heard: string, n: nat): (r: int)
    requires 0 <= d <= 10
    ensures 0 <= r <= 10
    decreases n
  {
    if n == 0 then d else Repeated(NextDistress(d, heard), heard, n - 1)
  }

  /** A soothing text heard `n` times takes `d` to `max(d - 2n, 0)`. */
  lemma {:induction false} SoothedClosedForm(d: int, heard: string, n: nat)
    requires 0 <= d <= 10 && heard != SessionStartText && Soothing(heard)
    ensures Repeated(d, heard, n) == (if d >= 2 * n then d - 2 * n else 0)
  {
    if n > 0 {
      SoothedClosedForm(NextDistress(d, heard), heard, n - 1);
    }
  }

  /** From the session's 8, the empathic turn reaches stillness after 4 turns and not before. */
  lemma EmpathyConverges(heard: string, n: nat)
    requires heard == Lower(EmpathyTurn)
    ensures n < 4 ==> Repeated(8, heard, n) == 8 - 2 * n && Repeated(8, heard, n) > 0
    ensures n >= 4 ==> Repeated(8, heard, n) == 0
  {
    EmpathyHeard();
    SoothedClosedForm(8, heard, n);
  }

  /**
   * `testSessionStartWithTopic`: posting the empty history under any topic whose
   * prompt is not empty answers with the struggling reply, distress 8 and no
   * safety flag, and resets the mock to 8 whatever it held.
   */
  method OpenSession(mock: MockLlm, rt: Runtime, prompt: Value -> string, topic: Value) returns (reply: TurnReply)
    requires ReadsBack(rt) && mock.Valid() && !mock.shouldFail && prompt(TopicOrDefault(topic)) != ""
    modifies mock
    ensures mock.Valid() && !mock.shouldFail && mock.callCount == old(mock.callCount) + 1 && mock.distress == 8
    ensures reply == TurnReply(StruggleReply, Finite(8.0), false)
  {
    SessionStartAnswer(rt, prompt, topic, mock.distress);
    SessionStartConsulted(rt, prompt(TopicOrDefault(topic)), mock.distress);
    var r := Serve(mock, rt, SafetyFilter.TestCheckSafety, prompt, Defined(JArray([])), topic);
    reply := r.reply;
  }

  /**
   * `testFullResolution`: from a fresh session, the empathic turn is sent until
   * distress reaches 0 or 20 turns have passed. Against the mock, stillness is
   * reached after exactly 4 turns (8, 6, 4, 2, 0), no turn is cut short by the
   * safety gate, and the mock is called 5 times.
   */
  method FullResolution(mock: MockLlm, rt: Runtime, prompt: Value -> string, topic: Value)
    returns (distress: Num, turns: nat)
    requires ReadsBack(rt) && mock.Valid() && !mock.shouldFail
    requires prompt(TopicOrDefault(topic)) != ""
    modifies mock
    ensures distress == Finite(0.0) && turns == 4
    ensures mock.distress == 0 && mock.callCount == old(mock.callCount) + 5
  {
    var u := EmpathyTurn;
    EmpathyTurnSafe();
    EmpathyHeard();
    var start := OpenSession(mock, rt, prompt, topic);
    var history := [] + [Entry("character", start.message)];
    EntryKeepsTexts([], "character", start.message);
    distress := start.distress;
    turns := 0;
    while Positive(distress) && turns < 20
      invariant mock.Valid() && !mock.shouldFail
      invariant 0 <= turns <= 4 && mock.distress == 8 - 2 * turns
      invariant distress == Finite(mock.distress as real)
      invariant mock.callCount == old(mock.callCount) + 1 + turns
      invariant TextsAreStrings(history)
      decreases 20 - turns
    {
      var reply;
      reply, history := SendTurn(mock, rt, prompt, topic, history, u);
      distress := reply.distress;
      turns := turns + 1;
    }
    assert !Positive(Finite(mock.distress as real));
    assert mock.distress == 0;
  }
}
