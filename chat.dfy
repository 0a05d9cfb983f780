/**
 * The input validation of src/Chat.jsx: a submitted input is trimmed, refused
 * with a warning when it is empty or longer than 1000 UTF-16 code units, and otherwise
 * handed to the session controller; and the rule that disables the input.
 */
module Chat {
  import opened Wrappers
  import opened Text
  import Session
  import Js

  const MaxLength := 1000

  const EmptyWarning := "Take a moment \U{2014} then try saying something."
  const LongWarning := "Messages can be up to 1000 characters."

  /** A character outside the Basic Multilingual Plane is two UTF-16 code units. */
  predicate IsAstral(c: char) {
    c as int > 0xFFFF
  }

  /** JavaScript's `length` of a string: the number of its UTF-16 code units. */
  function Utf16Length(s: string): (n: nat)
    ensures |s| <= n <= 2 * |s|
  {
    if s == [] then 0 else (if IsAstral(s[0]) then 2 else 1) + Utf16Length(s[1..])
  }

  /** Without astral characters, `length` counts characters. */
  lemma {:induction false} PlainLength(s: string)
    requires forall i :: 0 <= i < |s| ==> !IsAstral(s[i])
    ensures Utf16Length(s) == |s|
  {
    if s != [] {
      PlainLength(s[1..]);
    }
  }

  /** Astral characters alone, such as emoji, count twice each. */
  lemma {:induction false} AstralLength(s: string)
    requires forall i :: 0 <= i < |s| ==> IsAstral(s[i])
    ensures Utf16Length(s) == 2 * |s|
  {
    if s != [] {
      AstralLength(s[1..]);
    }
  }

  /**
   * What a submit does with `input`: the warning it shows, or the text it sends.
   * The emptiness check comes first, so a blank input of any length gets the
   * empty-input warning.
   */
  function Validate(input: string): (r: Result<string, string>)
    ensures Trim(input) == [] ==> r == Err(EmptyWarning)
    ensures Trim(input) != [] && Utf16Length(Trim(input)) > MaxLength ==> r == Err(LongWarning)
    ensures r.Ok? <==> Trim(input) != [] && Utf16Length(Trim(input)) <= MaxLength
    ensures r.Ok? ==> r.value == Trim(input) && 1 <= Utf16Length(r.value) <= MaxLength && IsTrimmed(r.value)
  {
    var trimmed := Trim(input);
    if trimmed == [] then Err(EmptyWarning)
    else if Utf16Length(trimmed) > MaxLength then Err(LongWarning)
    else Ok(trimmed)
  }

  /** A trimmed text of emoji alone is accepted only up to 500 of them. */
  lemma AstralHalvesTheLimit(input: string)
    requires Trim(input) != []
    requires forall i :: 0 <= i < |Trim(input)| ==> IsAstral(Trim(input)[i])
    ensures Validate(input).Ok? <==> |Trim(input)| <= MaxLength / 2
  {
    AstralLength(Trim(input));
  }

  /** Without astral characters, the limit is 1000 characters. */
  lemma PlainKeepsTheLimit(input: string)
    requires Trim(input) != []
    requires forall i :: 0 <= i < |Trim(input)| ==> !IsAstral(Trim(input)[i])
    ensures Validate(input).Ok? <==> |Trim(input)| <= MaxLength
  {
    PlainLength(Trim(input));
  }

  /** A text that was sent is accepted again as it is: validation is idempotent. */
  lemma AcceptedIsStable(input: string)
    requires Validate(input).Ok?
    ensures Validate(Validate(input).value) == Validate(input)
  {
    TrimIdempotent(input);
  }

  /** Whitespace typed around a message changes nothing about whether, or what, it sends. */
  lemma PaddingIgnored(pre: string, input: string, post: string)
    requires AllSpace(pre) && AllSpace(post)
    ensures Validate(pre + input + post) == Validate(input)
  {
    TrimPadded(pre, input, post);
  }

  /** An input of only whitespace is always refused, however long. */
  lemma BlankRefused(input: string)
    requires AllSpace(input)
    ensures Validate(input) == Err(EmptyWarning)
  {
    TrimPadded(input, [], []);
    assert input + [] + [] == input;
  }

  /** `disabled`: while a call is in flight, and for good once the session is resolved. */
  predicate Disabled(loading: bool, phase: Session.Phase) {
    loading || phase == Session.Resolved
  }

  /** After any call has settled, the input is disabled exactly when the session is resolved. */
  lemma SettledDisabledIffResolved(v: Session.View, msgs: seq<Js.Json>, outcome: Session.ApiOutcome)
    ensures var r := Session.Called(v, msgs, outcome);
      Disabled(r.loading, r.phase) <==> (v.phase == Session.Resolved || (outcome.Replied? && Session.IsZero(outcome.distress)))
  {
  }

  /** The input box and its warning line. */
  class Composer {
    var input: string
    var warning: string

    constructor ()
      ensures input == "" && warning == ""
    {
      input, warning := "", "";
    }

    /**
     * `handleSubmit`: a refused input stays in the box under its warning and
     * nothing is sent; an accepted one is sent once, trimmed, and the box and
     * the warning are cleared.
     */
    method HandleSubmit() returns (sent: Option<string>)
      modifies this
      ensures sent.Some? <==> Validate(old(input)).Ok?
      ensures sent.Some? ==> sent.value == Validate(old(input)).value && input == "" && warning == ""
      ensures sent.None? ==> input == old(input) && warning == Validate(old(input)).error
    {
      var trimmed := Trim(input);
      if trimmed == [] {
        warning := EmptyWarning;
        return None;
      }
      if Utf16Length(trimmed) > MaxLength {
        warning := LongWarning;
        return None;
      }
      warning := "";
      input := "";
      return Some(trimmed);
    }
  }
}
