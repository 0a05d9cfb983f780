/**
 * The response parser of src/parse.js: `extractJSON` strips an optional markdown
 * code fence, and `parseResponse` turns the model's text into a message, a
 * distress level in [0,10] and a safety flag, throwing only when the text is
 * not JSON (or is the JSON `null`).
 */
module ParseJs {
  import opened Wrappers
  import opened Text
  import opened Js

  /** Three backticks start at `p`. */
  predicate FenceAt(s: string, p: int) {
    0 <= p && p + 3 <= |s| && s[p] == '`' && s[p + 1] == '`' && s[p + 2] == '`'
  }

  /** The language tag `json` (the regular expression has no `i` flag) starts at `p`. */
  predicate TagAt(s: string, p: int) {
    0 <= p && p + 4 <= |s| && s[p] == 'j' && s[p + 1] == 's' && s[p + 2] == 'o' && s[p + 3] == 'n'
  }

  /** The first fence at or after `from`. */
  function FindFence(s: string, from: nat): (r: Option<nat>)
    ensures r.Some? ==> from <= r.value && FenceAt(s, r.value)
    ensures forall p :: from <= p && (r.None? || p < r.value) ==> !FenceAt(s, p)
    decreases |s| - from
  {
    if from + 3 > |s| then None
    else if FenceAt(s, from) then Some(from)
    else FindFence(s, from + 1)
  }

  /**
   * `extractJSON`. The pattern ```` ```(?:json)?\s*([\s\S]*?)``` ```` matches at the
   * first fence when another fence follows it, and then captures from after the
   * fence and the optional tag up to the next fence; `\s*` only moves whitespace out
   * of a capture that is trimmed anyway, and skipping the tag never moves the
   * closing fence, since neither whitespace nor the tag holds a backtick. When the
   * first fence has no fence after it, no later one has either, and there is no match.
   */
  function ExtractJson(text: string): (r: string)
    ensures IsTrimmed(r)
  {
    Trim(Captured(text))
  }

  /** What `extractJSON` trims: the capture when the pattern matches, the whole text otherwise. */
  function Captured(text: string): (r: string)
    ensures |r| <= |text|
    ensures r == text || forall p :: !FenceAt(r, p)
  {
    match FindFence(text, 0)
    case None => text
    case Some(i) =>
      var j := if TagAt(text, i + 3) then i + 7 else i + 3;
      match FindFence(text, j)
      case None => text
      case Some(c) =>
        FenceFreeBetween(text, j, c);
        text[j..c]
  }

  /** Between `j` and the first fence from `j` on, no fence stands. */
  lemma FenceFreeBetween(text: string, j: nat, c: nat)
    requires j <= c <= |text| && FindFence(text, j) == Some(c)
    ensures forall p :: !FenceAt(text[j..c], p)
  {
    forall p | FenceAt(text[j..c], p) ensures false {
      assert FenceAt(text, j + p);
    }
  }

  /** Without a fence, the text is only trimmed. */
  lemma ExtractUnfenced(text: string)
    requires forall p :: !FenceAt(text, p)
    ensures ExtractJson(text) == Trim(text)
  {
    assert FindFence(text, 0).None?;
  }

  /** A first fence with no fence after it is no match either: the text is only trimmed. */
  lemma ExtractLoneFence(text: string, i: nat)
    requires FindFence(text, 0) == Some(i)
    requires forall p :: i + 3 <= p ==> !FenceAt(text, p)
    ensures ExtractJson(text) == Trim(text)
  {
    var j := if TagAt(text, i + 3) then i + 7 else i + 3;
    assert FindFence(text, j).None?;
  }

  /** A text without a backtick holds no fence, so it is only trimmed. */
  lemma ExtractBacktickFree(text: string)
    requires '`' !in text
    ensures forall p :: !FenceAt(text, p)
    ensures ExtractJson(text) == Trim(text)
  {
    forall p | 0 <= p < |text| ensures text[p] != '`' {
      assert text[p] in text;
    }
    ExtractUnfenced(text);
  }

  /** A fence with no backtick before it is the first fence. */
  lemma FirstFence(text: string, i: nat)
    requires FenceAt(text, i)
    requires forall p :: 0 <= p < i ==> text[p] != '`'
    ensures FindFence(text, 0) == Some(i)
  {
  }

  /**
   * A fenced body, with or without the tag and with prose around it, is extracted
   * as the trimmed body. An untagged body that itself begins with `json` loses
   * those four letters to the optional tag; that case is `ExtractUntaggedJsonWord`.
   */
  lemma ExtractFenced(text: string, pre: string, tag: string, body: string, post: string)
    requires text == pre + "```" + tag + body + "```" + post
    requires '`' !in pre && '`' !in body
    requires tag == "json" || (tag == "" && !TagAt(body, 0))
    ensures ExtractJson(text) == Trim(body)
  {
    FencedLayout(text, pre, tag, body, post);
    assert forall p :: 0 <= p < |pre| ==> text[p] != '`' by {
      assert forall p :: 0 <= p < |pre| ==> pre[p] != '`';
    }
    ExtractLaidOut(text, |pre|, tag, body);
  }

  /** Where the pieces of a fenced text stand. */
  lemma FencedLayout(text: string, pre: string, tag: string, body: string, post: string)
    requires text == pre + "```" + tag + body + "```" + post
    ensures |pre| + 6 + |tag| + |body| <= |text|
    ensures forall p :: 0 <= p < |pre| ==> text[p] == pre[p]
    ensures FenceAt(text, |pre|)
    ensures forall m :: 0 <= m < |tag| ==> text[|pre| + 3 + m] == tag[m]
    ensures text[|pre| + 3 + |tag|..|pre| + 3 + |tag| + |body|] == body
    ensures FenceAt(text, |pre| + 3 + |tag| + |body|)
  {
  }

  /** `ExtractJson` on a text whose first fence is at `i`, followed by the tag, the body and a fence. */
  lemma ExtractLaidOut(text: string, i: nat, tag: string, body: string)
    requires '`' !in body
    requires tag == "json" || (tag == "" && !TagAt(body, 0))
    requires i + 3 + |tag| + |body| <= |text|
    requires forall p :: 0 <= p < i ==> text[p] != '`'
    requires FenceAt(text, i)
    requires forall m :: 0 <= m < |tag| ==> text[i + 3 + m] == tag[m]
    requires text[i + 3 + |tag|..i + 3 + |tag| + |body|] == body
    requires FenceAt(text, i + 3 + |tag| + |body|)
    ensures ExtractJson(text) == Trim(body)
  {
    FirstFence(text, i);
    var j := i + 3 + |tag|;
    var c := j + |body|;
    TagLaidOut(text, i, tag, body);
    NextFenceLaidOut(text, j, body);
    ExtractAt(text, i, j, c);
  }

  /** The tag is read exactly when it was written: an untagged body never supplies it. */
  lemma TagLaidOut(text: string, i: nat, tag: string, body: string)
    requires '`' !in body
    requires tag == "json" || (tag == "" && !TagAt(body, 0))
    requires i + 3 + |tag| + |body| < |text|
    requires forall m :: 0 <= m < |tag| ==> text[i + 3 + m] == tag[m]
    requires text[i + 3 + |tag|..i + 3 + |tag| + |body|] == body
    requires text[i + 3 + |tag| + |body|] == '`'
    ensures TagAt(text, i + 3) <==> tag == "json"
  {
    var j := i + 3 + |tag|;
    if tag == "" {
      var u := text[j..j + |body|];
      assert |body| >= 4 ==> (u[0] == body[0] && u[1] == body[1] && u[2] == body[2] && u[3] == body[3]);
    } else {
      assert tag[0] == 'j' && tag[1] == 's' && tag[2] == 'o' && tag[3] == 'n';
    }
  }

  /** After a backtick-free body starting at `j`, the next fence is the one that closes it. */
  lemma NextFenceLaidOut(text: string, j: nat, body: string)
    requires '`' !in body
    requires j + |body| <= |text| && text[j..j + |body|] == body
    requires FenceAt(text, j + |body|)
    ensures FindFence(text, j) == Some(j + |body|)
  {
    forall p | j <= p < j + |body| ensures !FenceAt(text, p) {
      assert text[p] == text[j..j + |body|][p - j];
    }
  }

  /** What `ExtractJson` returns once both fences are known. */
  lemma ExtractAt(text: string, i: nat, j: nat, c: nat)
    requires FindFence(text, 0) == Some(i) && FindFence(text, j) == Some(c)
    requires j == if TagAt(text, i + 3) then i + 7 else i + 3
    ensures j <= c <= |text| && ExtractJson(text) == Trim(text[j..c])
  {
    assert Captured(text) == text[j..c];
  }

  /** An untagged fence whose body starts with `json` is read as a tagged fence. */
  lemma ExtractUntaggedJsonWord(text: string, pre: string, body: string, post: string)
    requires text == pre + "```" + body + "```" + post
    requires '`' !in pre && '`' !in body && TagAt(body, 0)
    ensures ExtractJson(text) == Trim(body[4..])
  {
    assert body == "json" + body[4..];
    assert text == pre + "```" + "json" + body[4..] + "```" + post;
    ExtractFenced(text, pre, "json", body[4..], post);
  }

  /** Text free of backticks before position `|pre|` holds no fence there. */
  lemma FencesFrom(text: string, pre: string, from: nat)
    requires pre <= text && '`' !in pre
    ensures forall p :: from <= p < |pre| ==> !FenceAt(text, p)
  {
    forall p | from <= p < |pre| ensures !FenceAt(text, p) {
      assert text[p] == pre[p];
    }
  }

  /** The result of `parseResponse`. */
  datatype Reply = Reply(message: string, distress: int, safety: bool)

  /** The field the message is taken from: `message ?? response ?? text`. */
  function Chosen(parsed: Json): (r: Value)
    requires !parsed.JNull?
    ensures r in {Field(parsed, "message"), Field(parsed, "response"), Field(parsed, "text")}
    ensures Field(parsed, "message") !in {Undefined, Defined(JNull)} ==> r == Field(parsed, "message")
  {
    Nullish(Nullish(Field(parsed, "message"), Field(parsed, "response")), Field(parsed, "text"))
  }

  /** A non-empty string is kept; anything else becomes `"..."`. */
  function MessageOf(v: Value): (r: string)
    ensures |r| > 0
    ensures r == "..." || v == Defined(JString(r))
    ensures v.Defined? && v.j.JString? && v.j.s != "" ==> r == v.j.s
  {
    if v.Defined? && v.j.JString? && |v.j.s| > 0 then v.j.s else "..."
  }

  /**
   * The distress of a reply: a number that is not finite gives 8, a finite one is
   * rounded to the nearest integer and clamped to [0,10].
   */
  function DistressOf(n: Num): (r: int)
    ensures 0 <= r <= 10
    ensures !n.Finite? ==> r == 8
    ensures n.Finite? && n.x < 0.5 ==> r == 0
    ensures n.Finite? && n.x >= 9.5 ==> r == 10
    ensures n.Finite? && 0.5 <= n.x < 9.5 ==> r as real - 0.5 <= n.x < r as real + 0.5
  {
    if n.Finite? then Clamp(n).x.Floor else 8
  }

  /**
   * The reply built from a parsed value other than `null`. Only `Number(parsed.distress)`
   * can throw: the message is tested with `typeof` and never converted.
   */
  function ReplyOf(rt: Runtime, parsed: Json): (r: Result<Reply, Thrown>)
    requires !parsed.JNull?
    ensures r.Err? <==> Throws(Field(parsed, "distress"))
    ensures r.Err? ==> r.error == TypeError
    ensures r.Ok? ==> |r.value.message| > 0 && 0 <= r.value.distress <= 10
  {
    match ToNumber(rt, Field(parsed, "distress"))
    case Err(e) => Err(e)
    case Ok(n) =>
      Ok(Reply(
        MessageOf(Chosen(parsed)),
        DistressOf(n),
        Field(parsed, "safety") == Defined(JBool(true))))
  }

  /** `parseResponse`. */
  function ParseResponse(rt: Runtime, text: string): (r: Result<Reply, Thrown>)
    ensures rt.jsonParse(ExtractJson(text)).None? <==> r == Err(SyntaxError)
    ensures r == Err(TypeError) <==> (rt.jsonParse(ExtractJson(text)).Some? &&
      (rt.jsonParse(ExtractJson(text)).value.JNull? || Throws(Field(rt.jsonParse(ExtractJson(text)).value, "distress"))))
    ensures r.Err? ==> r.error == SyntaxError || r.error == TypeError
    ensures r.Ok? ==> |r.value.message| > 0 && 0 <= r.value.distress <= 10
  {
    match rt.jsonParse(ExtractJson(text))
    case None => Err(SyntaxError)
    case Some(JNull) => Err(TypeError)
    case Some(parsed) => ReplyOf(rt, parsed)
  }

  /** A fenced reply parses as its body alone, whatever prose surrounds the fence. */
  lemma ParseFenced(rt: Runtime, text: string, pre: string, tag: string, body: string, post: string)
    requires text == pre + "```" + tag + body + "```" + post
    requires '`' !in pre && '`' !in body
    requires tag == "json" || (tag == "" && !TagAt(body, 0))
    ensures ParseResponse(rt, text) == ParseResponse(rt, body)
  {
    ExtractFenced(text, pre, tag, body, post);
    ExtractBacktickFree(body);
  }

  /**
   * A text that parses to anything but `null` gives the reply built from the parsed
   * value, which is an answer exactly when its distress converts to a number.
   */
  lemma ParseSucceeds(rt: Runtime, text: string, parsed: Json)
    requires rt.jsonParse(ExtractJson(text)) == Some(parsed) && !parsed.JNull?
    ensures ParseResponse(rt, text) == ReplyOf(rt, parsed)
    ensures ParseResponse(rt, text).Ok? <==> !Throws(Field(parsed, "distress"))
  {
  }

  /** A blank text, the empty text among them, makes `parseResponse` throw. */
  lemma ParseRejectsBlank(rt: Runtime, text: string)
    requires RejectsNonJson(rt) && AllSpace(text)
    ensures ParseResponse(rt, text) == Err(SyntaxError)
  {
    forall k | 0 <= k < |text| ensures text[k] != '`' {
      assert IsSpace(text[k]);
    }
    assert '`' !in text;
    ExtractBacktickFree(text);
    AllSpaceTrimStart(text);
  }

  /** Unfenced text that no JSON value can begin makes `parseResponse` throw. */
  lemma ParseRejectsNonJson(rt: Runtime, text: string)
    requires RejectsNonJson(rt)
    requires forall p :: !FenceAt(text, p)
    requires text != [] && !IsSpace(text[0]) && !MayStartJson(text)
    ensures ParseResponse(rt, text) == Err(SyntaxError)
  {
    ExtractUnfenced(text);
    TrimKeepsFirst(text);
    MayStartPrefix(Trim(text), text);
    NotJsonStart(rt, Trim(text));
  }

  /** A text that opens with neither JSON whitespace nor the start of a value is not JSON. */
  lemma NotJsonStart(rt: Runtime, t: string)
    requires RejectsNonJson(rt) && t != [] && !IsSpace(t[0]) && !MayStartJson(t)
    ensures rt.jsonParse(t) == None
  {
    assert !JsonSpace(t[0]);
  }

  /** The prose reply of the unit tests is unfenced and no JSON value can begin it. */
  lemma ProseIsNotJson(text: string)
    requires text == "this is not json at all"
    ensures forall p :: !FenceAt(text, p)
    ensures text != [] && !IsSpace(text[0]) && !MayStartJson(text)
  {
    assert forall p :: 0 <= p < |text| ==> text[p] != '`';
    assert text[1] == 'h';
  }

  /** The reply's safety flag is set by the JSON `true` alone: `"yes"`, a missing field or `1` leave it unset. */
  lemma SafetyExact(rt: Runtime, fields: map<string, Json>)
    ensures ReplyOf(rt, JObject(fields)).Ok? ==>
      (ReplyOf(rt, JObject(fields)).value.safety <==> "safety" in fields && fields["safety"] == JBool(true))
  {
  }

  /**
   * The first of `message`, `response`, `text` that is neither missing nor `null`
   * decides the message, even when it is not a usable string.
   */
  lemma MessagePriority(rt: Runtime, fields: map<string, Json>)
    requires ReplyOf(rt, JObject(fields)).Ok?
    ensures "message" in fields && fields["message"] != JNull ==>
      ReplyOf(rt, JObject(fields)).value.message == MessageOf(Defined(fields["message"]))
    ensures ("message" !in fields || fields["message"] == JNull) && "response" in fields && fields["response"] != JNull ==>
      ReplyOf(rt, JObject(fields)).value.message == MessageOf(Defined(fields["response"]))
    ensures ("message" !in fields || fields["message"] == JNull) && ("response" !in fields || fields["response"] == JNull) ==>
      ReplyOf(rt, JObject(fields)).value.message == MessageOf(Field(JObject(fields), "text"))
  {
  }

  /**
   * A distress that is missing, or a string holding a character that is neither
   * whitespace nor part of any numeral (a word such as `"high"`), falls back to 8.
   */
  lemma DistressFallback(rt: Runtime, fields: map<string, Json>)
    requires "distress" !in fields || (fields["distress"].JString? &&
      exists k :: 0 <= k < |fields["distress"].s| && !IsSpace(fields["distress"].s[k]) && !NumeralChar(fields["distress"].s[k]))
    ensures ReplyOf(rt, JObject(fields)).Ok? && ReplyOf(rt, JObject(fields)).value.distress == 8
  {
  }

  /**
   * An object as distress: with an own `toString` key `Number(...)` throws and so
   * does `parseResponse`; without one it is NaN and falls back to 8.
   */
  lemma DistressObject(rt: Runtime, fields: map<string, Json>, inner: map<string, Json>)
    requires "distress" in fields && fields["distress"] == JObject(inner)
    ensures "toString" in inner <==> ReplyOf(rt, JObject(fields)) == Err(TypeError)
    ensures "toString" !in inner ==> ReplyOf(rt, JObject(fields)).Ok? && ReplyOf(rt, JObject(fields)).value.distress == 8
  {
  }

  /** The rounding and clamping the parser applies to 15, -5 and 3.7. */
  lemma DistressExamples()
    ensures DistressOf(Finite(15.0)) == 10
    ensures DistressOf(Finite(-5.0)) == 0
    ensures DistressOf(Finite(3.7)) == 4
  {
  }
}
