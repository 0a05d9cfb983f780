/**
 * The JavaScript values and conversions the turn pipeline relies on: the values
 * `JSON.parse` produces, reading a property, the nullish operator `??`,
 * `Number(...)`, `String(...)`, `Math.round`, `Math.min` and `Math.max`.
 *
 * `JSON.parse`, `JSON.stringify`, the numeral grammar and number-to-text
 * conversion are not written out: they are fields of a `Runtime`, and the only
 * facts assumed of them are stated as predicates that the lemmas needing them
 * require: `RejectsNonJson` (two facts of the JSON grammar) and `ReadsBack`
 * (`JSON.parse` undoes `JSON.stringify` on values whose numbers are safe integers).
 */
module Js {
  import opened Wrappers
  import opened Text

  /** A JavaScript number. Finite values are exact reals: double rounding is not modelled. */
  datatype Num = Finite(x: real) | PosInf | NegInf | NaN

  /** A value `JSON.parse` can produce. */
  datatype Json =
    | JNull
    | JBool(b: bool)
    | JNumber(n: Num)
    | JString(s: string)
    | JArray(items: seq<Json>)
    | JObject(fields: map<string, Json>)

  /** What reading a property yields: `undefined`, or a JSON value. */
  datatype Value = Undefined | Defined(j: Json)

  /** What the code under model can throw. */
  datatype Thrown = SyntaxError | TypeError | Failure(message: string)

  /** The parts of the JavaScript runtime the model takes as given. */
  datatype Runtime = Runtime(
    jsonParse: string -> Option<Json>,   // JSON.parse; None when it throws a SyntaxError
    jsonText: Json -> string,            // JSON.stringify
    numeral: string -> Num,              // the value of a trimmed StringNumericLiteral
    numberText: Num -> string)           // Number.prototype.toString

  /**
   * A number `JSON.stringify` writes out and `JSON.parse` reads back as the same
   * number: an integer no larger in size than 2^53, so that its decimal numeral
   * denotes it exactly.
   */
  predicate SafeInteger(n: Num) {
    n.Finite? && n.x == n.x.Floor as real && -9007199254740992.0 <= n.x <= 9007199254740992.0
  }

  /** A JSON value that survives `JSON.stringify` and then `JSON.parse` unchanged: every number inside is a safe integer. */
  predicate Exact(j: Json) {
    match j
    case JNumber(n) => SafeInteger(n)
    case JArray(items) => forall k :: 0 <= k < |items| ==> Exact(items[k])
    case JObject(fields) => forall key :: key in fields ==> Exact(fields[key])
    case _ => true
  }

  /** Whether a JSON value can begin the text: a value starts with one of `{ [ " -`, a digit, or a literal. */
  predicate MayStartJson(s: string)
    requires s != []
  {
    var c := s[0];
    c == '{' || c == '[' || c == '"' || c == '-' || ('0' <= c <= '9') || "true" <= s || "false" <= s || "null" <= s
  }

  /** A text that may begin a JSON value still may once more follows it. */
  lemma MayStartPrefix(t: string, s: string)
    requires t != [] && t <= s
    ensures MayStartJson(t) ==> MayStartJson(s)
  {
    assert t[0] == s[0];
    assert "true" <= t ==> "true" <= s;
    assert "false" <= t ==> "false" <= s;
    assert "null" <= t ==> "null" <= s;
  }

  /** The whitespace JSON allows around a value. */
  predicate JsonSpace(c: char) {
    c == ' ' || c == '\t' || c == '\n' || c == '\r'
  }

  /**
   * Two facts of the JSON grammar (ECMA-404) about `JSON.parse`: the empty text is
   * not JSON, and neither is a text that opens with neither JSON whitespace nor a
   * character some JSON value can begin with.
   */
  ghost predicate RejectsNonJson(rt: Runtime) {
    && rt.jsonParse("") == None
    && (forall s :: s != [] && !JsonSpace(s[0]) && !MayStartJson(s) ==> rt.jsonParse(s) == None)
  }

  /** `JSON.parse` reads back what `JSON.stringify` wrote, for the values whose numbers are safe integers. */
  ghost predicate ReadsBack(rt: Runtime) {
    forall j :: Exact(j) ==> rt.jsonParse(rt.jsonText(j)) == Some(j)
  }

  /** Reading property `key` of a parsed value other than `null`; no key used here is inherited. */
  function Field(j: Json, key: string): (r: Value)
    requires !j.JNull?
    ensures r.Defined? <==> j.JObject? && key in j.fields
    ensures r.Defined? ==> r.j == j.fields[key]
  {
    if j.JObject? && key in j.fields then Defined(j.fields[key]) else Undefined
  }

  /** `a ?? b`. */
  function Nullish(a: Value, b: Value): (r: Value)
    ensures r == a || r == b
    ensures r == a <==> (a != Undefined && a != Defined(JNull)) || a == b
  {
    if a == Undefined || a == Defined(JNull) then b else a
  }

  /** The falsy values of JavaScript, as far as a JSON value or `undefined` can be one. */
  predicate Falsy(v: Value) {
    match v
    case Undefined => true
    case Defined(JNull) => true
    case Defined(JBool(b)) => !b
    case Defined(JNumber(n)) => n == Finite(0.0) || n == NaN
    case Defined(JString(s)) => s == ""
    case Defined(_) => false
  }

  /** The characters a StringNumericLiteral can contain (digits, signs, exponents, radix prefixes, `Infinity`). */
  predicate NumeralChar(c: char) {
    ('0' <= c <= '9') || c == '.' || c == '+' || c == '-' || ('a' <= c <= 'f') || ('A' <= c <= 'F') ||
    c == 'x' || c == 'X' || c == 'o' || c == 'O' || c == 'I' || c == 'n' || c == 'i' || c == 't' || c == 'y'
  }

  /** StringToNumber: blank is 0, a character outside every numeral is NaN, the rest is the runtime's numeral. */
  function StringToNumber(rt: Runtime, s: string): (r: Num)
    ensures AllSpace(s) ==> r == Finite(0.0)
    ensures (exists k :: 0 <= k < |s| && !IsSpace(s[k]) && !NumeralChar(s[k])) ==> r == NaN
  {
    var t := Trim(s);
    if t == [] then
      assert AllSpace(s) by { AllSpaceTrimmed(s); }
      Finite(0.0)
    else if exists k :: 0 <= k < |t| && !NumeralChar(t[k]) then NaN
    else
      assert !AllSpace(s) by { TrimNotBlank(s); }
      assert forall k :: 0 <= k < |s| && !IsSpace(s[k]) ==> NumeralChar(s[k]) by { TrimInner(s); }
      rt.numeral(t)
  }

  /** What trim leaves is empty only when everything was whitespace. */
  lemma AllSpaceTrimmed(s: string)
    requires Trim(s) == []
    ensures AllSpace(s)
  {
    var t := TrimStart(s);
    TrimStartCut(s);
    TrimEndCut(t);
    assert s[..|s| - |t|] == s;
  }

  /** Whitespace alone trims to nothing. */
  lemma TrimNotBlank(s: string)
    requires Trim(s) != []
    ensures !AllSpace(s)
  {
    if AllSpace(s) {
      AllSpaceTrimStart(s);
    }
  }

  /** Every non-whitespace character of `s` is a character of `Trim(s)`. */
  lemma TrimInner(s: string)
    ensures forall k :: 0 <= k < |s| && !IsSpace(s[k]) ==> exists m :: 0 <= m < |Trim(s)| && Trim(s)[m] == s[k]
  {
    var t := TrimStart(s);
    var r := TrimEnd(t);
    var a := |s| - |t|;
    TrimStartCut(s);
    TrimEndCut(t);
    forall k | 0 <= k < |s| && !IsSpace(s[k]) ensures exists m :: 0 <= m < |Trim(s)| && Trim(s)[m] == s[k] {
      TrimCovers(s, a, t, r, k);
      assert Trim(s)[k - a] == s[k];
    }
  }

  /** A non-whitespace character lies inside the piece that `trimStart` and then `trimEnd` keep. */
  lemma TrimCovers(s: string, a: nat, t: string, r: string, k: nat)
    requires a <= |s| && t == s[a..] && AllSpace(s[..a]) && |r| <= |t| && r == t[..|r|] && AllSpace(t[|r|..])
    requires k < |s| && !IsSpace(s[k])
    ensures a <= k < a + |r| && r[k - a] == s[k]
  {
    forall i | 0 <= i < a ensures IsSpace(s[i]) {
      assert s[..a][i] == s[i];
    }
    forall i | a + |r| <= i < |s| ensures IsSpace(s[i]) {
      assert t[|r|..][i - a - |r|] == s[i];
    }
    assert t[k - a] == s[k];
  }

  /**
   * Whether converting a parsed value to a primitive throws a TypeError. An object
   * is converted through its `valueOf` and then its `toString`; a parsed value is
   * never callable, so an own `toString` key leaves no way to a primitive (an own
   * `valueOf` key alone does not: the inherited `toString` gives "[object Object]").
   * An array is converted by joining its elements, so it throws when one of them does.
   */
  predicate ConversionThrows(j: Json)
    decreases j
  {
    match j
    case JObject(fields) => "toString" in fields
    case JArray(items) => exists k :: 0 <= k < |items| && ConversionThrows(items[k])
    case _ => false
  }

  /** Whether `Number(v)` or `String(v)` throws. */
  predicate Throws(v: Value) {
    v.Defined? && ConversionThrows(v.j)
  }

  /** `Number(v)`. */
  function ToNumber(rt: Runtime, v: Value): (r: Result<Num, Thrown>)
    ensures r.Err? <==> Throws(v)
    ensures r.Err? ==> r.error == TypeError
    ensures v == Undefined ==> r == Ok(NaN)
    ensures v == Defined(JNull) ==> r == Ok(Finite(0.0))
    ensures v.Defined? && v.j.JNumber? ==> r == Ok(v.j.n)
    ensures v.Defined? && v.j.JString? ==> r == Ok(StringToNumber(rt, v.j.s))
    ensures v.Defined? && v.j.JObject? && !Throws(v) ==> r == Ok(NaN)
  {
    match v
    case Undefined => Ok(NaN)
    case Defined(JNull) => Ok(Finite(0.0))
    case Defined(JBool(b)) => Ok(Finite(if b then 1.0 else 0.0))
    case Defined(JNumber(n)) => Ok(n)
    case Defined(JString(s)) => Ok(StringToNumber(rt, s))
    case Defined(JArray(items)) =>
      (match ArrayText(rt, items)
       case Ok(t) => Ok(StringToNumber(rt, t))
       case Err(e) => Err(e))
    case Defined(JObject(fields)) =>
      if "toString" in fields then Err(TypeError) else Ok(NaN)  // the number of "[object Object]"
  }

  /** `String(v)`. */
  function ToText(rt: Runtime, v: Value): (r: Result<string, Thrown>)
    ensures r.Err? <==> Throws(v)
    ensures r.Err? ==> r.error == TypeError
    ensures v.Defined? && v.j.JString? ==> r == Ok(v.j.s)
    ensures v == Undefined ==> r == Ok("undefined")
    ensures v.Defined? && v.j.JObject? && !Throws(v) ==> r == Ok("[object Object]")
  {
    match v
    case Undefined => Ok("undefined")
    case Defined(j) => JsonToText(rt, j)
  }

  /** `String(j)` of a parsed value. */
  function JsonToText(rt: Runtime, j: Json): (r: Result<string, Thrown>)
    ensures r.Err? <==> ConversionThrows(j)
    ensures r.Err? ==> r.error == TypeError
    decreases j
  {
    match j
    case JNull => Ok("null")
    case JBool(b) => Ok(if b then "true" else "false")
    case JNumber(n) => Ok(rt.numberText(n))
    case JString(s) => Ok(s)
    case JArray(items) => ArrayText(rt, items)
    case JObject(fields) => if "toString" in fields then Err(TypeError) else Ok("[object Object]")
  }

  /** `Array.prototype.toString`: the elements joined by commas, `null` written as nothing. */
  function ArrayText(rt: Runtime, items: seq<Json>): (r: Result<string, Thrown>)
    ensures r.Err? <==> exists k :: 0 <= k < |items| && ConversionThrows(items[k])
    ensures r.Err? ==> r.error == TypeError
    decreases items
  {
    if items == [] then Ok("")
    else
      var head := if items[0].JNull? then Ok("") else JsonToText(rt, items[0]);
      if head.Err? then head
      else if |items| == 1 then head
      else
        var tail := ArrayText(rt, items[1..]);
        assert forall k :: 1 <= k < |items| ==> items[k] == items[1..][k - 1];
        if tail.Err? then tail else Ok(head.value + "," + tail.value)
  }

  /** `Math.round`: the nearest integer, halves rounded up. */
  function Round(n: Num): (r: Num)
    ensures n.Finite? ==> r.Finite? && r.x == r.x.Floor as real && n.x - 0.5 < r.x <= n.x + 0.5
    ensures !n.Finite? ==> r == n
  {
    if n.Finite? then Finite((n.x + 0.5).Floor as real) else n
  }

  /** The order of numbers other than NaN. */
  predicate AtMost(a: Num, b: Num)
    requires !a.NaN? && !b.NaN?
  {
    a.NegInf? || b.PosInf? || (a.Finite? && b.Finite? && a.x <= b.x)
  }

  /** `Math.min(a, b)`. */
  function Min(a: Num, b: Num): (r: Num)
    ensures r.NaN? <==> a.NaN? || b.NaN?
    ensures !r.NaN? ==> AtMost(r, a) && AtMost(r, b) && (r == a || r == b)
  {
    if a.NaN? || b.NaN? then NaN else if AtMost(a, b) then a else b
  }

  /** `Math.max(a, b)`. */
  function Max(a: Num, b: Num): (r: Num)
    ensures r.NaN? <==> a.NaN? || b.NaN?
    ensures !r.NaN? ==> AtMost(a, r) && AtMost(b, r) && (r == a || r == b)
  {
    if a.NaN? || b.NaN? then NaN else if AtMost(a, b) then b else a
  }

  /**
   * `Math.max(0, Math.min(10, Math.round(n)))`, the clamp of server.js and of the
   * test server: a number that is not NaN comes out as an integer in [0,10].
   */
  function Clamp(n: Num): (r: Num)
    ensures n.NaN? <==> r.NaN?
    ensures !n.NaN? ==> r.Finite? && 0.0 <= r.x <= 10.0 && r.x == r.x.Floor as real
    ensures n == PosInf ==> r == Finite(10.0)
    ensures n == NegInf ==> r == Finite(0.0)
    ensures n.Finite? && -0.5 <= n.x < 10.5 ==> r == Round(n)
  {
    Max(Finite(0.0), Min(Finite(10.0), Round(n)))
  }
}
