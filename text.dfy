/**
 * The string primitives of the JavaScript runtime that the core relies on:
 * `String.prototype.trim`, `toLowerCase`, `includes`, and the character classes
 * `\s` and `\w` of (non-unicode) regular expressions.
 */
module Text {

  /** JavaScript's WhiteSpace and LineTerminator code points: the class `\s`, and what `trim` removes. */
  predicate IsSpace(c: char) {
    c == '\t' || c == '\n' || c == '\U{B}' || c == '\U{C}' || c == '\r' || c == ' ' ||
    c == '\U{A0}' || c == '\U{1680}' || ('\U{2000}' <= c <= '\U{200A}') ||
    c == '\U{2028}' || c == '\U{2029}' || c == '\U{202F}' || c == '\U{205F}' ||
    c == '\U{3000}' || c == '\U{FEFF}'
  }

  predicate AllSpace(s: string) {
    forall k :: 0 <= k < |s| ==> IsSpace(s[k])
  }

  /** A string with no whitespace at either end. */
  predicate IsTrimmed(s: string) {
    s == [] || (!IsSpace(s[0]) && !IsSpace(s[|s| - 1]))
  }

  /** The class `\w` of a regular expression without the `u` flag. */
  predicate IsWordChar(c: char) {
    ('a' <= c <= 'z') || ('A' <= c <= 'Z') || ('0' <= c <= '9') || c == '_'
  }

  /** `String.prototype.trimStart`: a suffix of `s` that does not open with whitespace. */
  function TrimStart(s: string): (r: string)
    ensures |r| <= |s| && r == s[|s| - |r|..]
    ensures r == [] || !IsSpace(r[0])
  {
    if s != [] && IsSpace(s[0]) then TrimStart(s[1..]) else s
  }

  /** `String.prototype.trimEnd`: a prefix of `s` that does not close with whitespace. */
  function TrimEnd(s: string): (r: string)
    ensures |r| <= |s| && r == s[..|r|]
    ensures r == [] || !IsSpace(r[|r| - 1])
  {
    if s != [] && IsSpace(s[|s| - 1]) then TrimEnd(s[..|s| - 1]) else s
  }

  /** What `trimStart` cuts away is whitespace. */
  lemma {:induction false} TrimStartCut(s: string)
    ensures AllSpace(s[..|s| - |TrimStart(s)|])
  {
    if s != [] && IsSpace(s[0]) {
      TrimStartCut(s[1..]);
      var n := |s| - |TrimStart(s)|;
      forall k | 0 <= k < n ensures IsSpace(s[..n][k]) {
        if k > 0 {
          assert s[..n][k] == s[1..][..n - 1][k - 1];
        }
      }
    }
  }

  /** What `trimEnd` cuts away is whitespace. */
  lemma {:induction false} TrimEndCut(s: string)
    ensures AllSpace(s[|TrimEnd(s)|..])
  {
    if s != [] && IsSpace(s[|s| - 1]) {
      var p := s[..|s| - 1];
      TrimEndCut(p);
      var n := |TrimEnd(s)|;
      forall k | 0 <= k < |s| - n ensures IsSpace(s[n..][k]) {
        if n + k < |p| {
          assert s[n..][k] == p[n..][k];
        }
      }
    }
  }

  /** `String.prototype.trim`: `trimStart` and then `trimEnd`, which leaves no whitespace at either end. */
  function Trim(s: string): (r: string)
    ensures IsTrimmed(r)
  {
    var t := TrimStart(s);
    var r := TrimEnd(t);
    assert r != [] ==> r[0] == t[0];
    r
  }

  /** A string that opens with a visible character keeps it first when trimmed. */
  lemma TrimKeepsFirst(s: string)
    requires s != [] && !IsSpace(s[0])
    ensures Trim(s) != [] && Trim(s)[0] == s[0] && Trim(s) <= s
  {
    assert TrimStart(s) == s;
    TrimEndCut(s);
  }

  /** Whitespace added around a string is removed again by `Trim`. */
  lemma {:induction false} TrimPadded(pre: string, s: string, post: string)
    requires AllSpace(pre) && AllSpace(post)
    ensures Trim(pre + s + post) == Trim(s)
  {
    AppendAssoc(pre, s, post);
    TrimStartPadded(pre, s + post);
    TrimEndPadded(TrimStart(s), post);
    if TrimStart(s) == [] {
      TrimStartAllSpace(s, post);
    } else {
      TrimStartAppend(s, post);
    }
  }

  lemma AppendAssoc(a: string, b: string, c: string)
    ensures a + b + c == a + (b + c)
  {
  }

  /** The first character and the rest of `a + b`, when `a` is not empty. */
  lemma ConsAppend(a: string, b: string)
    requires a != []
    ensures (a + b)[0] == a[0] && (a + b)[1..] == a[1..] + b
  {
  }

  /** The last character and the rest of `a + b`, when `b` is not empty. */
  lemma SnocAppend(a: string, b: string)
    requires b != []
    ensures (a + b)[|a + b| - 1] == b[|b| - 1] && (a + b)[..|a + b| - 1] == a + b[..|b| - 1]
  {
  }

  lemma {:induction false} TrimStartPadded(pre: string, s: string)
    requires AllSpace(pre)
    ensures TrimStart(pre + s) == TrimStart(s)
  {
    if pre == [] {
      assert pre + s == s;
    } else {
      ConsAppend(pre, s);
      TrimStartPadded(pre[1..], s);
    }
  }

  lemma {:induction false} TrimEndPadded(s: string, post: string)
    requires AllSpace(post)
    ensures TrimEnd(s + post) == TrimEnd(s)
  {
    if post == [] {
      assert s + post == s;
    } else {
      SnocAppend(s, post);
      TrimEndPadded(s, post[..|post| - 1]);
    }
  }

  /** When `s` is not all whitespace, `trimStart` of `s + post` keeps `post` untouched. */
  lemma {:induction false} TrimStartAppend(s: string, post: string)
    requires TrimStart(s) != []
    ensures TrimStart(s + post) == TrimStart(s) + post
  {
    ConsAppend(s, post);
    if IsSpace(s[0]) {
      TrimStartAppend(s[1..], post);
    }
  }

  lemma {:induction false} TrimStartAllSpace(s: string, post: string)
    requires TrimStart(s) == [] && AllSpace(post)
    ensures TrimStart(s + post) == []
  {
    TrimStartCut(s);
    assert AllSpace(s + post);
    AllSpaceTrimStart(s + post);
  }

  lemma {:induction false} AllSpaceTrimStart(s: string)
    requires AllSpace(s)
    ensures TrimStart(s) == []
  {
    if s != [] {
      AllSpaceTrimStart(s[1..]);
    }
  }

  /** Trimming twice is trimming once. */
  lemma TrimIdempotent(s: string)
    ensures Trim(Trim(s)) == Trim(s)
  {
    var r := Trim(s);
    if r != [] {
      assert TrimStart(r) == r;
      assert TrimEnd(r) == r;
    }
  }

  /** The ASCII case folding: A-Z to a-z, every other character kept. */
  function LowerChar(c: char): (r: char)
  {
    if 'A' <= c <= 'Z' then (c as int + 32) as char else c
  }

  /** KELVIN SIGN, whose lower case is the ASCII `k`. */
  const KelvinSign: char := '\U{212A}'

  /** LATIN CAPITAL LETTER I WITH DOT ABOVE, whose lower case is `i` followed by COMBINING DOT ABOVE. */
  const CapitalIDot: char := '\U{0130}'

  /**
   * `toLowerCase` of one character, as far as ASCII goes: the characters whose
   * lower case holds an ASCII letter are A-Z, the Kelvin sign and the capital I
   * with dot above; every other character is kept as it is.
   */
  function LowerOf(c: char): (r: string)
    ensures 1 <= |r| <= 2
    ensures c != KelvinSign && c != CapitalIDot ==> r == [LowerChar(c)]
    ensures c == KelvinSign ==> r == "k"
    ensures c == CapitalIDot ==> r == "i\U{0307}"
  {
    if c == KelvinSign then "k" else if c == CapitalIDot then "i\U{0307}" else [LowerChar(c)]
  }

  /** A text that lower-cases character for character: no Kelvin sign and no capital I with dot above. */
  predicate LowersInPlace(s: string) {
    forall k :: 0 <= k < |s| ==> s[k] != KelvinSign && s[k] != CapitalIDot
  }

  /** `String.prototype.toLowerCase`. */
  function Lower(s: string): (r: string)
    ensures |s| <= |r| <= 2 * |s|
    ensures LowersInPlace(s) ==> |r| == |s| && forall k :: 0 <= k < |s| ==> r[k] == LowerChar(s[k])
  {
    if s == [] then []
    else
      var r := LowerOf(s[0]) + Lower(s[1..]);
      assert LowersInPlace(s) ==> (LowersInPlace(s[1..]) && r[0] == LowerChar(s[0]) &&
        forall k :: 1 <= k < |s| ==> r[k] == Lower(s[1..])[k - 1] && s[k] == s[1..][k - 1]);
      r
  }

  /** Lower-casing a concatenation lower-cases each part. */
  lemma {:induction false} LowerAppend(a: string, b: string)
    ensures Lower(a + b) == Lower(a) + Lower(b)
  {
    if a == [] {
      assert a + b == b;
    } else {
      assert (a + b)[0] == a[0] && (a + b)[1..] == a[1..] + b;
      LowerAppend(a[1..], b);
      calc {
        Lower(a + b);
        LowerOf(a[0]) + Lower(a[1..] + b);
        LowerOf(a[0]) + (Lower(a[1..]) + Lower(b));
        (LowerOf(a[0]) + Lower(a[1..])) + Lower(b);
      }
    }
  }

  /** A text with no capital that `toLowerCase` changes. */
  predicate NoUpper(s: string) {
    forall k :: 0 <= k < |s| ==> !('A' <= s[k] <= 'Z') && s[k] != KelvinSign && s[k] != CapitalIDot
  }

  /** Lower-casing leaves a text with no upper-case letter as it is. */
  lemma LowerFixed(s: string)
    requires NoUpper(s)
    ensures Lower(s) == s
  {
  }

  /** Lower-casing twice is lower-casing once. */
  lemma {:induction false} LowerIdempotent(s: string)
    ensures Lower(Lower(s)) == Lower(s)
  {
    if s != [] {
      var head := LowerOf(s[0]);
      LowerAppend(head, Lower(s[1..]));
      LowerFixed(head);
      LowerIdempotent(s[1..]);
    }
  }

  /** `String.prototype.includes`. */
  predicate Contains(s: string, part: string) {
    exists k :: 0 <= k <= |s| && part <= s[k..]
  }
}
