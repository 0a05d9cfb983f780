/**
 * The session controller of src/App.jsx: the phase of the session, the distress
 * shown, the history, and the loading and error flags, updated by the Begin,
 * Send and Retry handlers around one call of the chat API. The API call is a
 * parameter: a function from the history sent to what `sendMessage` resolved to,
 * or `Failed` when it threw. Every call is taken as atomic.
 */
module Session {
  import opened Js
  import opened Server
  import TestServer

  datatype Phase = Landing | Active | Resolved

  /** What `sendMessage(msgs)` gave back: the `message` and `distress` fields of the body, or a throw. */
  datatype ApiOutcome = Replied(message: Value, distress: Value) | Failed

  /** The state the controller keeps. */
  datatype View = View(phase: Phase, distress: Value, messages: seq<Json>, loading: bool, error: bool)

  const InitialDistress := Defined(JNumber(Finite(8.0)))

  /** `{role: "aria", text: message}`, as it is sent back later: an undefined text is left out. */
  function AriaEntry(message: Value): (j: Json)
    ensures j.JObject? && Field(j, "role") == Defined(JString("aria")) && Field(j, "text") == message
  {
    JObject(if message.Defined? then map["role" := JString("aria"), "text" := message.j] else map["role" := JString("aria")])
  }

  /** `{role: "user", text}`. */
  function UserEntry(text: string): (j: Json)
    ensures j.JObject? && Field(j, "role") == Defined(JString("user")) && Field(j, "text") == Defined(JString(text))
  {
    JObject(map["role" := JString("user"), "text" := JString(text)])
  }

  /** `newDistress === 0` (true of `-0` as well, which is the same real). */
  predicate IsZero(v: Value) {
    v == Defined(JNumber(Finite(0.0)))
  }

  /**
   * The state after `callAria(msgs)` whose API call had the given outcome: the
   * reply is appended to the history sent and its distress shown; the session is
   * resolved exactly when that distress is 0; a failure only raises the error flag.
   */
  function Called(v: View, msgs: seq<Json>, outcome: ApiOutcome): (r: View)
    ensures !r.loading
    ensures r.error <==> outcome.Failed?
    ensures outcome.Failed? ==> r.messages == v.messages && r.distress == v.distress && r.phase == v.phase
    ensures outcome.Replied? ==> r.messages == msgs + [AriaEntry(outcome.message)] && r.distress == outcome.distress
    ensures r.phase == Resolved <==> v.phase == Resolved || (outcome.Replied? && IsZero(outcome.distress))
    ensures r.phase != Resolved ==> r.phase == v.phase
  {
    match outcome
    case Failed => v.(loading := false, error := true)
    case Replied(message, distress) =>
      View(if IsZero(distress) then Resolved else v.phase, distress, msgs + [AriaEntry(message)], false, false)
  }

  /** `handleBegin`: a fresh active session at distress 8 and an empty history, which is sent. */
  function Begun(v: View, api: seq<Json> -> ApiOutcome): (r: View)
    ensures r.phase != Landing && !r.loading
    ensures r.error <==> api([]).Failed?
    ensures r.phase == Resolved <==> api([]).Replied? && IsZero(api([]).distress)
    ensures api([]).Failed? ==> r.messages == [] && r.distress == InitialDistress
    ensures api([]).Replied? ==> r.messages == [AriaEntry(api([]).message)]
  {
    Called(View(Active, InitialDistress, [], v.loading, false), [], api([]))
  }

  /** `handleSend(text)`: the user's turn is appended and the whole history sent. */
  function Sent(v: View, text: string, api: seq<Json> -> ApiOutcome): (r: View)
    ensures v.messages + [UserEntry(text)] <= r.messages
    ensures r.error <==> api(v.messages + [UserEntry(text)]).Failed?
    ensures |r.messages| == |v.messages| + if r.error then 1 else 2
    ensures r.phase == Resolved <==> v.phase == Resolved || (!r.error && IsZero(r.distress))
  {
    var updated := v.messages + [UserEntry(text)];
    Called(v.(messages := updated), updated, api(updated))
  }

  /** `handleRetry`: the history is sent again as it stands. */
  function Retried(v: View, api: seq<Json> -> ApiOutcome): (r: View)
    ensures v.messages <= r.messages
    ensures r.error <==> api(v.messages).Failed?
    ensures r.error ==> r == v.(loading := false, error := true)
    ensures !r.error ==> |r.messages| == |v.messages| + 1
  {
    Called(v, v.messages, api(v.messages))
  }

  /** The component's state, updated through its setters. */
  class Controller {
    var phase: Phase
    var distress: Value
    var messages: seq<Json>
    var loading: bool
    var error: bool

    ghost function State(): View
      reads this
    {
      View(phase, distress, messages, loading, error)
    }

    constructor ()
      ensures State() == View(Landing, InitialDistress, [], false, false)
    {
      phase, distress, messages, loading, error := Landing, InitialDistress, [], false, false;
    }

    /** `callAria(msgs)`. */
    method CallAria(msgs: seq<Json>, api: seq<Json> -> ApiOutcome)
      modifies this
      ensures State() == Called(old(State()), msgs, api(msgs))
    {
      loading := true;
      error := false;
      var outcome := api(msgs);
      match outcome {
        case Replied(message, newDistress) =>
          messages := msgs + [AriaEntry(message)];
          distress := newDistress;
          if IsZero(newDistress) {
            phase := Resolved;
          }
        case Failed =>
          error := true;
      }
      loading := false;
    }

    /** `handleBegin`. */
    method HandleBegin(api: seq<Json> -> ApiOutcome)
      modifies this
      ensures State() == Begun(old(State()), api)
    {
      phase := Active;
      distress := InitialDistress;
      messages := [];
      error := false;
      CallAria([], api);
    }

    /** `handleSend(text)`. */
    method HandleSend(text: string, api: seq<Json> -> ApiOutcome)
      modifies this
      ensures State() == Sent(old(State()), text, api)
    {
      var updated := messages + [UserEntry(text)];
      messages := updated;
      CallAria(updated, api);
    }

    /** `handleRetry`. */
    method HandleRetry(api: seq<Json> -> ApiOutcome)
      modifies this
      ensures State() == Retried(old(State()), api)
    {
      CallAria(messages, api);
    }
  }

  /** Beginning forgets the session before it: the state that follows does not depend on it. */
  lemma BeginForgets(v: View, w: View, api: seq<Json> -> ApiOutcome)
    ensures Begun(v, api) == Begun(w, api)
    ensures Begun(v, api).phase != Landing && !Begun(v, api).loading
    ensures |Begun(v, api).messages| <= 1
  {
  }

  /**
   * A send adds exactly the user's turn to the history, and the reply after it
   * when the call succeeds; nothing earlier changes.
   */
  lemma SendAppends(v: View, text: string, api: seq<Json> -> ApiOutcome)
    ensures var r := Sent(v, text, api);
      var outcome := api(v.messages + [UserEntry(text)]);
      (outcome.Failed? ==> r.messages == v.messages + [UserEntry(text)]) &&
      (outcome.Replied? ==> r.messages == v.messages + [UserEntry(text), AriaEntry(outcome.message)]) &&
      r.messages[..|v.messages|] == v.messages
  {
    var updated := v.messages + [UserEntry(text)];
    var outcome := api(updated);
    if outcome.Replied? {
      assert updated + [AriaEntry(outcome.message)] == v.messages + [UserEntry(text), AriaEntry(outcome.message)];
    }
  }

  /**
   * Retrying after a failed send loses nothing: the retry sends the history with
   * the user's turn in it, exactly as the failed send did.
   */
  lemma RetryAfterFailedSend(v: View, text: string, api: seq<Json> -> ApiOutcome, again: seq<Json> -> ApiOutcome)
    requires api(v.messages + [UserEntry(text)]).Failed?
    ensures var failed := Sent(v, text, api);
      failed.error && failed.messages == v.messages + [UserEntry(text)] &&
      Retried(failed, again) == Called(failed, v.messages + [UserEntry(text)], again(v.messages + [UserEntry(text)]))
  {
  }

  /** A failed retry changes nothing but the error flag (and leaves loading off). */
  lemma FailedRetryKeeps(v: View, api: seq<Json> -> ApiOutcome)
    requires api(v.messages).Failed?
    ensures Retried(v, api) == v.(loading := false, error := true)
  {
  }

  /** Only Begin leaves the resolved phase: no call's outcome does. */
  lemma ResolvedIsFinal(v: View, msgs: seq<Json>, outcome: ApiOutcome)
    requires v.phase == Resolved
    ensures Called(v, msgs, outcome).phase == Resolved
  {
  }

  /** What the client reads off an answer of the test server: a 500 makes `sendMessage` throw. */
  function Delivered(r: Response<TestServer.TurnReply>): (o: ApiOutcome)
    ensures r.ServerError? <==> o.Failed?
    ensures r.Answer? ==> o.message == Defined(JString(r.reply.message))
  {
    match r
    case ServerError(_) => Failed
    case Answer(reply) =>
      // JSON.stringify writes NaN and the infinities as null.
      Replied(Defined(JString(reply.message)), Defined(if reply.distress.Finite? then JNumber(reply.distress) else JNull))
  }

  /**
   * The safety flag is never read: a blocked turn, answered with the exit message
   * and distress 0, resolves the session like any reply at distress 0, and the exit
   * message becomes the last entry of the history.
   */
  lemma SafetyExitResolves(v: View, msgs: seq<Json>)
    ensures var r := Called(v, msgs, Delivered(Answer(TestServer.Exit)));
      r.phase == Resolved && !r.error && r.messages[|r.messages| - 1] == AriaEntry(Defined(JString(TestServer.Exit.message)))
  {
  }

  /** A distress the server could not read (NaN) arrives as `null`, which is not 0: the session goes on. */
  lemma UnreadDistressContinues(v: View, msgs: seq<Json>, message: string)
    requires v.phase == Active
    ensures var r := Called(v, msgs, Delivered(Answer(TestServer.TurnReply(message, NaN, false))));
      r.phase == Active && r.distress == Defined(JNull)
  {
  }
}
