/**
 * The hard safety filter of src/safety.js (and the smaller copy in test-e2e.js).
 *
 * Every pattern of the source has one shape: `\b G1\s+G2\s+...\s+Gn\b` where each
 * Gi is a parenthesised alternation of literal words (an alternative may itself be
 * several words joined by `\s+`), and a group may be optional (`(a\s+)?`).  The
 * patterns are kept here as data of that shape, matched by a small matcher that
 * is proved to agree with the language the regular expression denotes.
 */
module Safety {
  import opened Wrappers
  import opened Text

  /** A literal word of a pattern: lower-case ASCII letters, as every word of the source's patterns is. */
  type Word = w: string | IsLowerWord(w) witness "a"

  /** One alternative of a group: literal words joined by `\s+`. */
  type Phrase = seq<string>

  /** A parenthesised alternation, followed by `?` when `optional`. */
  datatype Group = Group(alts: seq<Phrase>, optional: bool)

  /** `\b G1 \s+ G2 \s+ ... \s+ Gn \b`, matched with the `i` flag and without `g`. */
  type Pattern = seq<Group>

  /** `(w1|w2|...)`: single-word alternatives. */
  function AnyOf(words: seq<Word>): (g: Group)
    ensures |g.alts| == |words| && !g.optional && IsGroup(g)
  {
    Group(seq(|words|, k requires 0 <= k < |words| => [words[k]]), false)
  }

  /** A phrase of a pattern as written: one or more words. */
  type WordPhrase = ph: seq<Word> | |ph| > 0 witness ["a"]

  /** `(p1|p2|...)`: alternatives that may be several words each. */
  function Alts(phrases: seq<WordPhrase>): (g: Group)
    ensures g.alts == phrases && !g.optional && IsGroup(g)
  {
    Group(phrases, false)
  }

  /** `(w\s+)?`: one optional word. */
  function Maybe(word: Word): (g: Group)
    ensures g.optional && IsGroup(g)
  {
    Group([[word]], true)
  }

  // ---------------------------------------------------------------------------
  // Well-formedness of pattern data

  /** The characters of `w` from `i` on are lower-case ASCII letters. */
  predicate LowerFrom(w: string, i: nat)
    decreases |w| - i
  {
    i >= |w| || ('a' <= w[i] <= 'z' && LowerFrom(w, i + 1))
  }

  /** A non-empty word of lower-case ASCII letters. */
  predicate IsLowerWord(w: string) {
    w != [] && LowerFrom(w, 0)
  }

  lemma {:induction false} LowerFromAt(w: string, i: nat, k: nat)
    requires LowerFrom(w, i) && i <= k < |w|
    ensures 'a' <= w[k] <= 'z'
    decreases k - i
  {
    if i < k {
      LowerFromAt(w, i + 1, k);
    }
  }

  /** Each character of a lower-case word is a lower-case letter. */
  lemma LetterAt(w: string, k: nat)
    requires IsLowerWord(w) && k < |w|
    ensures 'a' <= w[k] <= 'z'
  {
    LowerFromAt(w, 0, k);
  }

  predicate IsPhrase(ph: Phrase) {
    ph != [] && forall k :: 0 <= k < |ph| ==> IsLowerWord(ph[k])
  }

  predicate IsGroup(g: Group) {
    forall k :: 0 <= k < |g.alts| ==> IsPhrase(g.alts[k])
  }

  /** Groups whose alternatives are words, the last of which is not optional. */
  predicate WellFormedGroups(gs: seq<Group>) {
    gs != [] && !gs[|gs| - 1].optional && forall k :: 0 <= k < |gs| ==> IsGroup(gs[k])
  }

  /** A pattern of the source's shape: it also does not begin with an optional group. */
  predicate WellFormed(p: Pattern) {
    WellFormedGroups(p) && !p[0].optional
  }

  // ---------------------------------------------------------------------------
  // The language of a pattern: what the regular expression denotes

  /** Every word sequence the groups spell, one alternative per group, optional groups possibly left out. */
  ghost function Expand(gs: seq<Group>): set<Phrase>
    decreases |gs|
  {
    if gs == [] then {[]}
    else
      (set a, r | a in gs[0].alts && r in Expand(gs[1..]) :: a + r)
      + (if gs[0].optional then Expand(gs[1..]) else {})
  }

  /** `t` equals `w` when letters are compared without regard to case (the `i` flag). */
  predicate SameText(t: string, w: string) {
    |t| == |w| && forall k :: 0 <= k < |t| ==> LowerChar(t[k]) == LowerChar(w[k])
  }

  /** `t` is the words of `ph` with a non-empty run of whitespace between each two (`w1\s+w2...`). */
  ghost predicate Joined(t: string, ph: Phrase)
    decreases |ph|
  {
    if ph == [] then false
    else if |ph| == 1 then SameText(t, ph[0])
    else
      var m := |ph[0]|;
      m <= |t| && SameText(t[..m], ph[0]) &&
      exists n :: m < n <= |t| && AllSpace(t[m..n]) && Joined(t[n..], ph[1..])
  }

  /** `\b` at position `k`: a word character on exactly one side. */
  predicate Boundary(s: string, k: int) {
    IsWordAt(s, k - 1) != IsWordAt(s, k)
  }

  predicate IsWordAt(s: string, k: int) {
    0 <= k < |s| && IsWordChar(s[k])
  }

  /** What `pattern.test(s)` means: some substring between two word boundaries spells a phrase of the pattern. */
  ghost predicate Occurs(p: Pattern, s: string) {
    exists i, j, ph :: 0 <= i <= j <= |s| && ph in Expand(p) &&
      Boundary(s, i) && Boundary(s, j) && Joined(s[i..j], ph)
  }

  // ---------------------------------------------------------------------------
  // The matcher

  /** The literal `w` appears at position `i`, ignoring case. */
  predicate LiteralAt(s: string, i: nat, w: string)
    ensures LiteralAt(s, i, w) ==> i + |w| <= |s|
    decreases |w|
  {
    if w == [] then i <= |s|
    else i < |s| && LowerChar(s[i]) == LowerChar(w[0]) && LiteralAt(s, i + 1, w[1..])
  }

  /** The end of the run of whitespace that starts at `i` (what a greedy `\s*` consumes). */
  function SkipSpaces(s: string, i: nat): (j: nat)
    requires i <= |s|
    ensures i <= j <= |s| && AllSpace(s[i..j]) && (j == |s| || !IsSpace(s[j]))
    decreases |s| - i
  {
    if i < |s| && IsSpace(s[i]) then SkipSpaces(s, i + 1) else i
  }

  /** Where the words of `ph`, joined by `\s+`, end when matched from `i`. */
  function MatchWords(s: string, i: nat, ph: Phrase): (r: Option<nat>)
    requires i <= |s|
    ensures r.Some? ==> i <= r.value <= |s|
    decreases |ph|
  {
    if ph == [] || !LiteralAt(s, i, ph[0]) then None
    else
      var m := i + |ph[0]|;
      if |ph| == 1 then Some(m)
      else
        var n := SkipSpaces(s, m);
        if n == m then None else MatchWords(s, n, ph[1..])
  }

  /** The groups `gs` match from `i` and are followed by `\b`. */
  predicate MatchFrom(s: string, i: nat, gs: seq<Group>)
    requires i <= |s|
    decreases |gs|, 2, 0
  {
    gs != [] && (AltsFrom(s, i, gs, 0) || (gs[0].optional && MatchFrom(s, i, gs[1..])))
  }

  /** One of the alternatives `b..` of the first group matches, then the rest of the groups. */
  predicate AltsFrom(s: string, i: nat, gs: seq<Group>, b: nat)
    requires i <= |s| && gs != []
    decreases |gs|, 1, |gs[0].alts| - b
  {
    b < |gs[0].alts| && (AltThen(s, i, gs[0].alts[b], gs[1..]) || AltsFrom(s, i, gs, b + 1))
  }

  /** The alternative `alt` matches at `i`, then `\s+` and the groups `rest`, or `\b` when none is left. */
  predicate AltThen(s: string, i: nat, alt: Phrase, rest: seq<Group>)
    requires i <= |s|
    decreases |rest| + 1, 0, 0
  {
    match MatchWords(s, i, alt)
    case None => false
    case Some(m) =>
      if rest == [] then Boundary(s, m)
      else
        var n := SkipSpaces(s, m);
        n > m && MatchFrom(s, n, rest)
  }

  /** Some start position from `i` on is a `\b` where the pattern matches. */
  predicate SearchFrom(s: string, p: Pattern, i: nat)
    requires i <= |s|
    decreases |s| - i
  {
    (Boundary(s, i) && MatchFrom(s, i, p)) || (i < |s| && SearchFrom(s, p, i + 1))
  }

  /** `pattern.test(s)`. */
  predicate Test(p: Pattern, s: string) {
    SearchFrom(s, p, 0)
  }

  /** `patterns.some(p => p.test(s))`, from index `k` on. */
  predicate AnyTest(patterns: seq<Pattern>, s: string, k: nat)
    decreases |patterns| - k
  {
    k < |patterns| && (Test(patterns[k], s) || AnyTest(patterns, s, k + 1))
  }

  /** `checkSafety` against a pattern table: lower-case, then any pattern matches. */
  predicate CheckWith(patterns: seq<Pattern>, text: string) {
    AnyTest(patterns, Lower(text), 0)
  }

  // ---------------------------------------------------------------------------
  // The matcher agrees with the language of the pattern

  lemma {:induction false} LiteralAtSpec(s: string, i: nat, w: string)
    ensures LiteralAt(s, i, w) <==> i + |w| <= |s| && SameText(s[i..i + |w|], w)
    decreases |w|
  {
    if w != [] {
      LiteralAtSpec(s, i + 1, w[1..]);
      if i + |w| <= |s| {
        var t := s[i..i + |w|];
        assert t[1..] == s[i + 1..i + 1 + |w[1..]|];
        if SameText(t, w) {
          assert SameText(t[1..], w[1..]) by {
            forall k | 0 <= k < |t| - 1 ensures LowerChar(t[1..][k]) == LowerChar(w[1..][k]) {
              assert t[1..][k] == t[k + 1];
            }
          }
        }
        if LowerChar(s[i]) == LowerChar(w[0]) && SameText(t[1..], w[1..]) {
          forall k | 0 <= k < |t| ensures LowerChar(t[k]) == LowerChar(w[k]) {
            if k > 0 { assert t[k] == t[1..][k - 1]; }
          }
        }
      }
    }
  }

  /** A whitespace run from `a` to a non-space at `b` is exactly what `SkipSpaces` consumes. */
  lemma {:induction false} SkipSpacesTo(s: string, a: nat, b: nat)
    requires a <= b < |s| && AllSpace(s[a..b]) && !IsSpace(s[b])
    ensures SkipSpaces(s, a) == b
    decreases b - a
  {
    if a < b {
      assert IsSpace(s[a..b][0]);
      assert s[a + 1..b] == s[a..b][1..];
      SkipSpacesTo(s, a + 1, b);
    }
  }

  /** A lower-case ASCII letter matched ignoring case is a word character and not whitespace. */
  lemma LetterMatched(c: char, l: char)
    requires 'a' <= l <= 'z' && LowerChar(c) == l
    ensures IsWordChar(c) && !IsSpace(c)
  {
  }

  /** Matching `a + r` is matching `a`, a whitespace run, then `r`. */
  lemma {:induction false} MatchWordsAppend(s: string, i: nat, a: Phrase, r: Phrase)
    requires i <= |s| && a != [] && r != []
    ensures MatchWords(s, i, a + r) ==
      match MatchWords(s, i, a)
      case None => None
      case Some(m) =>
        var n := SkipSpaces(s, m);
        if n == m then None else MatchWords(s, n, r)
    decreases |a|
  {
    assert (a + r)[0] == a[0];
    if |a| == 1 {
      assert (a + r)[1..] == r;
    } else {
      assert (a + r)[1..] == a[1..] + r;
      if LiteralAt(s, i, a[0]) {
        var n := SkipSpaces(s, i + |a[0]|);
        if n != i + |a[0]| {
          MatchWordsAppend(s, n, a[1..], r);
        }
      }
    }
  }

  /** A spelled phrase starts with its first letter. */
  lemma JoinedHead(t: string, ph: Phrase)
    requires IsPhrase(ph) && Joined(t, ph)
    ensures |t| > 0 && LowerChar(t[0]) == ph[0][0]
  {
    LetterAt(ph[0], 0);
    if |ph| > 1 {
      assert SameText(t[..|ph[0]|], ph[0]);
      assert t[..|ph[0]|][0] == t[0];
    }
  }

  /** The greedy matcher finds a spelling exactly when there is one: backtracking into `\s+` never helps. */
  lemma MatchWordsJoined(s: string, i: nat, j: nat, ph: Phrase)
    requires IsPhrase(ph) && i <= j <= |s|
    ensures MatchWords(s, i, ph) == Some(j) <==> Joined(s[i..j], ph)
  {
    if MatchWords(s, i, ph) == Some(j) {
      MatchWordsToJoined(s, i, j, ph);
    }
    if Joined(s[i..j], ph) {
      JoinedToMatchWords(s, i, j, ph);
    }
  }

  lemma {:induction false} MatchWordsToJoined(s: string, i: nat, j: nat, ph: Phrase)
    requires IsPhrase(ph) && i <= j <= |s| && MatchWords(s, i, ph) == Some(j)
    ensures Joined(s[i..j], ph)
    decreases |ph|
  {
    var w := ph[0];
    LiteralAtSpec(s, i, w);
    if |ph| == 1 {
      assert j == i + |w|;
    } else {
      IsPhraseTail(ph);
      var n := SkipSpaces(s, i + |w|);
      assert n > i + |w| && MatchWords(s, n, ph[1..]) == Some(j);
      MatchWordsToJoined(s, n, j, ph[1..]);
      JoinedGlue(s, i, n, j, ph);
    }
  }

  /** A first word, a whitespace run and a spelling of the rest, at positions of `s`, spell the phrase. */
  lemma JoinedGlue(s: string, i: nat, n: nat, j: nat, ph: Phrase)
    requires |ph| > 1 && i + |ph[0]| < n <= j <= |s| && SameText(s[i..i + |ph[0]|], ph[0])
    requires AllSpace(s[i + |ph[0]|..n]) && Joined(s[n..j], ph[1..])
    ensures Joined(s[i..j], ph)
  {
    ThreePieces(s, i, i + |ph[0]|, n, j);
    JoinedCons(s[i..j], ph, n - i);
  }

  /** The three pieces of `s[i..j]` cut at `a` and `n`, as slices of `s`. */
  lemma ThreePieces(s: string, i: nat, a: nat, n: nat, j: nat)
    requires i <= a <= n <= j <= |s|
    ensures s[i..j][0..a - i] == s[i..a] && s[i..j][a - i..n - i] == s[a..n] && s[i..j][n - i..|s[i..j]|] == s[n..j]
  {
    SliceOfSlice(s, i, j, 0, a - i);
    SliceOfSlice(s, i, j, a - i, n - i);
    SliceOfSlice(s, i, j, n - i, j - i);
  }

  /** The first word, a whitespace run and a spelling of the rest spell the phrase. */
  lemma JoinedCons(t: string, ph: Phrase, n: nat)
    requires |ph| > 1 && |ph[0]| < n <= |t| && SameText(t[0..|ph[0]|], ph[0])
    requires AllSpace(t[|ph[0]|..n]) && Joined(t[n..|t|], ph[1..])
    ensures Joined(t, ph)
  {
    assert t[..|ph[0]|] == t[0..|ph[0]|];
    assert t[n..] == t[n..|t|];
  }

  lemma SliceOfSlice(s: string, i: nat, j: nat, a: nat, b: nat)
    requires i <= j <= |s| && a <= b <= j - i
    ensures s[i..j][a..b] == s[i + a..i + b]
  {
    assert forall k :: 0 <= k < b - a ==> s[i..j][a..b][k] == s[i + a + k];
  }

  /** The pieces of a spelling of several words: the first word, a whitespace run, the rest. */
  lemma JoinedParts(t: string, ph: Phrase) returns (n: nat)
    requires |ph| > 1 && Joined(t, ph)
    ensures |ph[0]| < n <= |t| && SameText(t[..|ph[0]|], ph[0])
    ensures AllSpace(t[|ph[0]|..n]) && Joined(t[n..], ph[1..])
  {
    n :| |ph[0]| < n <= |t| && AllSpace(t[|ph[0]|..n]) && Joined(t[n..], ph[1..]);
  }

  lemma IsPhraseTail(ph: Phrase)
    requires IsPhrase(ph) && |ph| > 1
    ensures IsPhrase(ph[1..]) && IsLowerWord(ph[1])
  {
    assert forall k :: 0 <= k < |ph| - 1 ==> ph[1..][k] == ph[k + 1];
  }

  /** After a first word that is there and a whitespace run, matching goes on with the rest of the words. */
  lemma MatchWordsStep(s: string, i: nat, n: nat, j: nat, ph: Phrase)
    requires i <= |s| && |ph| > 1 && LiteralAt(s, i, ph[0])
    requires i + |ph[0]| < n < |s| && AllSpace(s[i + |ph[0]|..n]) && !IsSpace(s[n])
    requires MatchWords(s, n, ph[1..]) == Some(j)
    ensures MatchWords(s, i, ph) == Some(j)
  {
    SkipSpacesTo(s, i + |ph[0]|, n);
  }

  /** A spelling of several words inside `s`, taken apart at positions of `s`. */
  lemma JoinedSplit(s: string, i: nat, j: nat, ph: Phrase) returns (n: nat)
    requires |ph| > 1 && i <= j <= |s| && Joined(s[i..j], ph)
    ensures i + |ph[0]| < n <= j && SameText(s[i..i + |ph[0]|], ph[0])
    ensures AllSpace(s[i + |ph[0]|..n]) && Joined(s[n..j], ph[1..])
  {
    var t := s[i..j];
    var m := |ph[0]|;
    var k := JoinedParts(t, ph);
    SliceOfSlice(s, i, j, 0, m);
    assert t[..m] == t[0..m];
    SliceOfSlice(s, i, j, m, k);
    SliceOfSlice(s, i, j, k, j - i);
    assert t[k..] == t[k..j - i];
    n := i + k;
  }

  lemma {:induction false} JoinedToMatchWords(s: string, i: nat, j: nat, ph: Phrase)
    requires IsPhrase(ph) && i <= j <= |s| && Joined(s[i..j], ph)
    ensures MatchWords(s, i, ph) == Some(j)
    decreases |ph|
  {
    var w := ph[0];
    LiteralAtSpec(s, i, w);
    if |ph| == 1 {
      assert SameText(s[i..j], w) && j == i + |w|;
    } else {
      var n := JoinedSplit(s, i, j, ph);
      IsPhraseTail(ph);
      JoinedHead(s[n..j], ph[1..]);
      assert s[n..j][0] == s[n];
      LetterMatched(s[n], ph[1][0]);
      JoinedToMatchWords(s, n, j, ph[1..]);
      MatchWordsStep(s, i, n, j, ph);
    }
  }

  lemma {:induction false} AltsFromSpec(s: string, i: nat, gs: seq<Group>, b: nat)
    requires i <= |s| && gs != []
    ensures AltsFrom(s, i, gs, b) <==>
      exists c :: b <= c < |gs[0].alts| && AltThen(s, i, gs[0].alts[c], gs[1..])
    decreases |gs[0].alts| - b
  {
    if b < |gs[0].alts| {
      AltsFromSpec(s, i, gs, b + 1);
    }
  }

  /** Dropping the first of well-formed groups leaves well-formed groups, when any are left. */
  lemma WellFormedRest(gs: seq<Group>)
    requires WellFormedGroups(gs) && |gs| > 1
    ensures WellFormedGroups(gs[1..])
  {
    assert forall k :: 0 <= k < |gs| - 1 ==> gs[1..][k] == gs[k + 1];
  }

  /** Every word sequence of well-formed groups is a phrase. */
  lemma {:induction false} ExpandPhrases(gs: seq<Group>)
    requires WellFormedGroups(gs)
    ensures forall ph :: ph in Expand(gs) ==> IsPhrase(ph)
    decreases |gs|
  {
    var rest := gs[1..];
    if rest != [] {
      WellFormedRest(gs);
      ExpandPhrases(rest);
    }
    forall ph | ph in Expand(gs) ensures IsPhrase(ph) {
      if a, r :| a in gs[0].alts && r in Expand(rest) && ph == a + r {
        assert IsGroup(gs[0]);
        assert IsPhrase(a);
        if rest == [] {
          assert r == [] && ph == a;
        } else {
          forall k | 0 <= k < |ph| ensures IsLowerWord(ph[k]) {
            if k < |a| { assert ph[k] == a[k]; } else { assert ph[k] == r[k - |a|]; }
          }
        }
      } else {
        assert gs[0].optional && ph in Expand(rest);
      }
    }
  }

  /** An alternative of the first group followed by a word sequence of the rest is a word sequence of the groups. */
  lemma ExpandStep(gs: seq<Group>, a: Phrase, r: Phrase)
    requires gs != [] && a in gs[0].alts && r in Expand(gs[1..])
    ensures a + r in Expand(gs)
  {
  }

  /** An alternative of each of two groups, one after the other, is a word sequence of the two. */
  lemma ExpandPair(g0: Group, g1: Group, a: Phrase, b: Phrase)
    requires a in g0.alts && b in g1.alts
    ensures a + b in Expand([g0, g1])
  {
    ExpandOne(g1, b);
    assert [g0, g1][1..] == [g1];
    ExpandStep([g0, g1], a, b);
  }

  /** An alternative of each of three groups, one after the other, is a word sequence of the three. */
  lemma ExpandTriple(g0: Group, g1: Group, g2: Group, a: Phrase, b: Phrase, c: Phrase)
    requires a in g0.alts && b in g1.alts && c in g2.alts
    ensures a + b + c in Expand([g0, g1, g2])
  {
    ExpandPair(g1, g2, b, c);
    assert [g0, g1, g2][1..] == [g1, g2];
    ExpandStep([g0, g1, g2], a, b + c);
    assert a + (b + c) == a + b + c;
  }

  /** The single-word alternative `words[k]` is one of those of `AnyOf(words)`. */
  lemma AnyOfAlt(words: seq<Word>, k: nat)
    requires k < |words|
    ensures [words[k]] in AnyOf(words).alts
  {
    assert AnyOf(words).alts[k] == [words[k]];
  }

  /** An alternative of a single group is a word sequence of that group. */
  lemma ExpandOne(g: Group, a: Phrase)
    requires a in g.alts
    ensures a in Expand([g])
  {
    assert [g][1..] == [];
    assert a + [] == a;
  }

  /** The word sequence `ph` matches from `i` and is followed by `\b`. */
  predicate EndsAt(s: string, i: nat, ph: Phrase)
    requires i <= |s|
  {
    MatchWords(s, i, ph).Some? && Boundary(s, MatchWords(s, i, ph).value)
  }

  /** What the group matcher accepts is spelled by the groups. */
  lemma {:induction false} MatchFromSound(s: string, i: nat, gs: seq<Group>)
    requires i <= |s| && WellFormedGroups(gs) && MatchFrom(s, i, gs)
    ensures exists ph :: ph in Expand(gs) && EndsAt(s, i, ph)
    decreases |gs|
  {
    var g, rest := gs[0], gs[1..];
    AltsFromSpec(s, i, gs, 0);
    if rest != [] {
      WellFormedRest(gs);
    }
    if AltsFrom(s, i, gs, 0) {
      var c :| 0 <= c < |g.alts| && AltThen(s, i, g.alts[c], rest);
      var a := g.alts[c];
      var m := MatchWords(s, i, a).value;
      if rest == [] {
        assert a + [] == a;
        assert [] in Expand(rest);
        assert a in Expand(gs) && EndsAt(s, i, a);
      } else {
        var n := SkipSpaces(s, m);
        MatchFromSound(s, n, rest);
        var r :| r in Expand(rest) && EndsAt(s, n, r);
        ExpandPhrases(rest);
        assert IsPhrase(a) by { assert IsGroup(g); }
        MatchWordsAppend(s, i, a, r);
        assert a + r in Expand(gs);
        assert EndsAt(s, i, a + r);
      }
    } else {
      MatchFromSound(s, i, rest);
    }
  }

  /** Whatever the groups spell, the group matcher accepts. */
  lemma {:induction false} MatchFromComplete(s: string, i: nat, gs: seq<Group>, ph: Phrase)
    requires i <= |s| && WellFormedGroups(gs) && ph in Expand(gs) && EndsAt(s, i, ph)
    ensures MatchFrom(s, i, gs)
    decreases |gs|
  {
    var g, rest := gs[0], gs[1..];
    AltsFromSpec(s, i, gs, 0);
    if rest != [] {
      WellFormedRest(gs);
    }
    if a, r :| a in g.alts && r in Expand(rest) && ph == a + r {
      var c :| 0 <= c < |g.alts| && g.alts[c] == a;
      assert IsPhrase(a) by { assert IsGroup(g); }
      if rest == [] {
        assert r == [] && ph == a;
        assert AltThen(s, i, a, rest);
      } else {
        ExpandPhrases(rest);
        MatchWordsAppend(s, i, a, r);
        var m := MatchWords(s, i, a).value;
        var n := SkipSpaces(s, m);
        assert EndsAt(s, n, r);
        MatchFromComplete(s, n, rest, r);
        assert AltThen(s, i, a, rest);
      }
    } else {
      assert g.optional && ph in Expand(rest);
      MatchFromComplete(s, i, rest, ph);
    }
  }

  /** The group matcher accepts exactly the word sequences the groups spell. */
  lemma MatchFromSpec(s: string, i: nat, gs: seq<Group>)
    requires i <= |s| && WellFormedGroups(gs)
    ensures MatchFrom(s, i, gs) <==> exists ph :: ph in Expand(gs) && EndsAt(s, i, ph)
  {
    if MatchFrom(s, i, gs) {
      MatchFromSound(s, i, gs);
    }
    if ph :| ph in Expand(gs) && EndsAt(s, i, ph) {
      MatchFromComplete(s, i, gs, ph);
    }
  }

  lemma {:induction false} SearchFromSpec(s: string, p: Pattern, i: nat)
    requires i <= |s|
    ensures SearchFrom(s, p, i) <==> exists k :: i <= k <= |s| && Boundary(s, k) && MatchFrom(s, k, p)
    decreases |s| - i
  {
    if i < |s| {
      SearchFromSpec(s, p, i + 1);
    }
  }

  /** `Test` decides exactly what the regular expression denotes. */
  lemma TestIsOccurs(p: Pattern, s: string)
    requires WellFormed(p)
    ensures Test(p, s) <==> Occurs(p, s)
  {
    SearchFromSpec(s, p, 0);
    ExpandPhrases(p);
    if Test(p, s) {
      var i :| 0 <= i <= |s| && Boundary(s, i) && MatchFrom(s, i, p);
      MatchFromSpec(s, i, p);
      var ph :| ph in Expand(p) && EndsAt(s, i, ph);
      var j := MatchWords(s, i, ph).value;
      MatchWordsJoined(s, i, j, ph);
    }
    if Occurs(p, s) {
      var i, j, ph :| 0 <= i <= j <= |s| && ph in Expand(p) &&
        Boundary(s, i) && Boundary(s, j) && Joined(s[i..j], ph);
      MatchWordsJoined(s, i, j, ph);
      assert EndsAt(s, i, ph);
      MatchFromSpec(s, i, p);
    }
  }

  // ---------------------------------------------------------------------------
  // Whole words: every match begins with one of the first words of its pattern

  /** `w` stands at `i` as a whole word (ignoring case): no word character touches it on either side. */
  predicate WholeWordAt(s: string, i: int, w: string) {
    0 <= i && i + |w| <= |s| && SameText(s[i..i + |w|], w) &&
    !IsWordAt(s, i - 1) && !IsWordAt(s, i + |w|)
  }

  /** The first word of each alternative of the pattern's first group. */
  function FirstWords(p: Pattern): (ws: seq<string>)
    requires p != []
    ensures |ws| == |p[0].alts|
  {
    seq(|p[0].alts|, c requires 0 <= c < |p[0].alts| => if p[0].alts[c] == [] then "" else p[0].alts[c][0])
  }

  /** A word the matcher accepts at `i` is not continued by a word character. */
  lemma {:induction false} WordEndsAfterMatch(s: string, i: nat, alt: Phrase, rest: seq<Group>)
    requires i <= |s| && IsPhrase(alt) && AltThen(s, i, alt, rest)
    ensures LiteralAt(s, i, alt[0]) && !IsWordAt(s, i + |alt[0]|)
  {
    var w := alt[0];
    LetterAt(w, |w| - 1);
    var m := MatchWords(s, i, alt).value;
    LiteralAtSpec(s, i, w);
    var e := i + |w|;
    if |alt| == 1 && rest == [] {
      assert Boundary(s, e);
      assert SameText(s[i..e], w) && s[i..e][|w| - 1] == s[e - 1];
      LetterMatched(s[e - 1], w[|w| - 1]);
    } else if |alt| == 1 {
      assert SkipSpaces(s, e) > e;
    } else {
      assert SkipSpaces(s, e) > e;
    }
  }

  /** Where a pattern matches, one of its first words stands as a whole word. */
  lemma MatchStartsWithWord(s: string, i: nat, p: Pattern)
    requires WellFormed(p) && i <= |s| && Boundary(s, i) && MatchFrom(s, i, p)
    ensures exists c :: 0 <= c < |p[0].alts| && WholeWordAt(s, i, FirstWords(p)[c])
  {
    AltsFromSpec(s, i, p, 0);
    var c :| 0 <= c < |p[0].alts| && AltThen(s, i, p[0].alts[c], p[1..]);
    var alt := p[0].alts[c];
    assert IsGroup(p[0]);
    assert IsPhrase(alt);
    WordEndsAfterMatch(s, i, alt, p[1..]);
    var w := alt[0];
    LiteralAtSpec(s, i, w);
    LetterAt(w, 0);
    assert s[i..i + |w|][0] == s[i];
    LetterMatched(s[i], w[0]);
    assert FirstWords(p)[c] == w;
    assert WholeWordAt(s, i, w);
  }

  /** A pattern none of whose first words stands as a whole word in `s` does not match `s`. */
  lemma NoFirstWordNoMatch(p: Pattern, s: string)
    requires WellFormed(p)
    requires forall i, c :: 0 <= c < |p[0].alts| ==> !WholeWordAt(s, i, FirstWords(p)[c])
    ensures !Test(p, s)
  {
    SearchFromSpec(s, p, 0);
    if Test(p, s) {
      var i :| 0 <= i <= |s| && Boundary(s, i) && MatchFrom(s, i, p);
      MatchStartsWithWord(s, i, p);
    }
  }

  /** Whole-word occurrences do not depend on the case of a text that lower-cases in place. */
  lemma WholeWordLower(s: string, i: int, w: string)
    requires LowersInPlace(s)
    ensures WholeWordAt(Lower(s), i, w) <==> WholeWordAt(s, i, w)
  {
    if 0 <= i && i + |w| <= |s| {
      SameTextLower(s, i, w);
    }
    WordAtLower(s, i - 1);
    WordAtLower(s, i + |w|);
  }

  /** Lower-casing a text does not change which pieces of it spell a word, case aside. */
  lemma SameTextLower(s: string, i: nat, w: string)
    requires LowersInPlace(s) && i + |w| <= |s|
    ensures SameText(Lower(s)[i..i + |w|], w) <==> SameText(s[i..i + |w|], w)
  {
    var a, b := Lower(s)[i..i + |w|], s[i..i + |w|];
    forall k | 0 <= k < |w| ensures LowerChar(a[k]) == LowerChar(b[k]) {
      assert a[k] == Lower(s)[i + k];
    }
  }

  /** Lower-casing a text keeps its word characters where they are. */
  lemma WordAtLower(s: string, k: int)
    requires LowersInPlace(s)
    ensures IsWordAt(Lower(s), k) <==> IsWordAt(s, k)
  {
    if 0 <= k < |s| {
      assert Lower(s)[k] == LowerChar(s[k]);
    }
  }

  /** `w` is the first word of an alternative of the first group of some pattern of the table. */
  ghost predicate IsFirstWord(patterns: seq<Pattern>, w: string) {
    exists k, c :: 0 <= k < |patterns| && patterns[k] != [] && 0 <= c < |patterns[k][0].alts| &&
      FirstWords(patterns[k])[c] == w
  }

  /** A first word of a table of well-formed patterns is a lower-case word. */
  lemma FirstWordIsWord(patterns: seq<Pattern>, w: string)
    requires forall k :: 0 <= k < |patterns| ==> WellFormed(patterns[k])
    requires IsFirstWord(patterns, w)
    ensures IsLowerWord(w)
  {
    var k, c :| 0 <= k < |patterns| && patterns[k] != [] && 0 <= c < |patterns[k][0].alts| &&
      FirstWords(patterns[k])[c] == w;
    assert WellFormed(patterns[k]);
    assert IsGroup(patterns[k][0]);
    assert IsPhrase(patterns[k][0].alts[c]);
  }

  /** A text in which, once lower-cased, no first word of the table stands as a whole word is let through. */
  lemma NoFirstWordSafe(patterns: seq<Pattern>, text: string)
    requires forall k :: 0 <= k < |patterns| ==> WellFormed(patterns[k])
    requires forall i, w :: IsFirstWord(patterns, w) ==> !WholeWordAt(Lower(text), i, w)
    ensures !CheckWith(patterns, text)
  {
    var s := Lower(text);
    forall k | 0 <= k < |patterns| ensures !Test(patterns[k], s) {
      var p := patterns[k];
      forall i, c | 0 <= c < |p[0].alts| ensures !WholeWordAt(s, i, FirstWords(p)[c]) {
        assert IsFirstWord(patterns, FirstWords(p)[c]);
      }
      NoFirstWordNoMatch(p, s);
    }
    AnyTestNone(patterns, s, 0);
  }

  /** The patterns of the table are well formed and all their first words are in `ws`. */
  ghost predicate Covers(patterns: seq<Pattern>, ws: iset<string>) {
    (forall k :: 0 <= k < |patterns| ==> WellFormed(patterns[k])) &&
    (forall w :: IsFirstWord(patterns, w) ==> w in ws)
  }

  /**
   * A text that, lower-cased, holds no whole word of a set that covers the
   * table's first words passes the check.
   */
  lemma NoneWholeSafe(patterns: seq<Pattern>, ws: iset<string>, text: string)
    requires Covers(patterns, ws) && NoneWhole(Lower(text), ws)
    ensures !CheckWith(patterns, text)
  {
    NoFirstWordSafe(patterns, text);
  }

  lemma {:induction false} AnyTestNone(patterns: seq<Pattern>, s: string, k: nat)
    requires forall j :: k <= j < |patterns| ==> !Test(patterns[j], s)
    ensures !AnyTest(patterns, s, k)
    decreases |patterns| - k
  {
    if k < |patterns| {
      AnyTestNone(patterns, s, k + 1);
    }
  }

  /** `some` is true exactly when one of the patterns from index `k` on matches. */
  lemma {:induction false} AnyTestSpec(patterns: seq<Pattern>, s: string, k: nat)
    ensures AnyTest(patterns, s, k) <==> exists j :: k <= j < |patterns| && Test(patterns[j], s)
    decreases |patterns| - k
  {
    if k < |patterns| {
      AnyTestSpec(patterns, s, k + 1);
      if Test(patterns[k], s) {
        assert k <= k < |patterns| && Test(patterns[k], s);
      }
    }
  }

  /** A pattern of the table that matches the lower-cased text makes the check fire. */
  lemma CheckWithFound(patterns: seq<Pattern>, k: nat, text: string)
    requires k < |patterns| && Test(patterns[k], Lower(text))
    ensures CheckWith(patterns, text)
  {
    AnyTestSpec(patterns, Lower(text), 0);
  }

  /** The check does not depend on the case of the text. */
  lemma CheckWithLower(patterns: seq<Pattern>, text: string)
    ensures CheckWith(patterns, Lower(text)) == CheckWith(patterns, text)
  {
    LowerIdempotent(text);
  }

  /** Two texts that differ only in the case of their letters get the same verdict. */
  lemma CheckWithRecased(patterns: seq<Pattern>, text: string, other: string)
    requires Lower(text) == Lower(other)
    ensures CheckWith(patterns, text) == CheckWith(patterns, other)
  {
  }

  // ---------------------------------------------------------------------------
  // Whole words of a text, one token at a time

  /** A whole word made of letters consists of word characters only. */
  lemma WholeWordLetters(s: string, i: int, w: string)
    requires IsLowerWord(w) && WholeWordAt(s, i, w)
    ensures forall k :: i <= k < i + |w| ==> IsWordChar(s[k])
  {
    forall k | i <= k < i + |w| ensures IsWordChar(s[k]) {
      assert s[i..i + |w|][k - i] == s[k];
      LetterAt(w, k - i);
      LetterMatched(s[k], w[k - i]);
    }
  }

  /** A whole word of `a + [c] + b`, where `c` is not a word character, is a whole word of `a` or of `b`. */
  lemma WholeWordSplit(a: string, c: char, b: string, i: int, w: string)
    requires !IsWordChar(c) && IsLowerWord(w)
    ensures WholeWordAt(a + [c] + b, i, w) ==> WholeWordAt(a, i, w) || WholeWordAt(b, i - |a| - 1, w)
  {
    var s := a + [c] + b;
    if WholeWordAt(s, i, w) {
      WholeWordLetters(s, i, w);
      assert s[|a|] == c;
      if i + |w| <= |a| {
        assert s[i..i + |w|] == a[i..i + |w|];
        assert i > 0 ==> s[i - 1] == a[i - 1];
        assert i + |w| < |a| ==> s[i + |w|] == a[i + |w|];
        assert WholeWordAt(a, i, w);
      } else {
        var j := i - |a| - 1;
        assert s[i..i + |w|] == b[j..j + |w|];
        assert j > 0 ==> s[i - 1] == b[j - 1];
        assert j + |w| < |b| ==> s[i + |w|] == b[j + |w|];
        assert WholeWordAt(b, j, w);
      }
    }
  }

  /** A lower-case word standing whole inside a run of letters is that run, lower-cased. */
  lemma WholeWordInToken(t: string, lt: string, i: int, w: string)
    requires |lt| == |t| && forall k :: 0 <= k < |t| ==> LowerChar(t[k]) == lt[k] && 'a' <= lt[k] <= 'z'
    requires IsLowerWord(w)
    ensures WholeWordAt(t, i, w) ==> lt == w
  {
    if WholeWordAt(t, i, w) {
      forall k | 0 <= k < |t| ensures IsWordChar(t[k]) {
        LetterMatched(t[k], lt[k]);
      }
      assert i == 0 && i + |w| == |t|;
      assert t[i..i + |w|] == t;
      forall k | 0 <= k < |t| ensures lt[k] == w[k] {
        LetterAt(w, k);
        assert LowerChar(t[k]) == LowerChar(w[k]);
      }
    }
  }

  /** Every member of `ws` is a lower-case word. */
  ghost predicate AllWords(ws: iset<string>) {
    forall w :: w in ws ==> IsLowerWord(w)
  }

  /** No word of `ws` stands as a whole word in `t`. */
  ghost predicate NoneWhole(t: string, ws: iset<string>) {
    forall i, w :: w in ws ==> !WholeWordAt(t, i, w)
  }

  lemma NoneWholeGlue(a: string, c: char, b: string, ws: iset<string>)
    requires !IsWordChar(c) && AllWords(ws)
    requires NoneWhole(a, ws) && NoneWhole(b, ws)
    ensures NoneWhole(a + [c] + b, ws)
  {
    forall i, w | w in ws ensures !WholeWordAt(a + [c] + b, i, w) {
      WholeWordSplit(a, c, b, i, w);
    }
  }

  /** A run of letters that, lower-cased as `lt`, is not one of `ws` holds none of them as a whole word. */
  lemma NoneWholeToken(t: string, lt: string, ws: iset<string>)
    requires AllWords(ws)
    requires |lt| == |t| && forall k :: 0 <= k < |t| ==> LowerChar(t[k]) == lt[k] && 'a' <= lt[k] <= 'z'
    requires lt !in ws
    ensures NoneWhole(t, ws)
  {
    forall i, w | w in ws ensures !WholeWordAt(t, i, w) {
      WholeWordInToken(t, lt, i, w);
    }
  }

  /** A word of lower-case letters that is not one of `ws` holds none of them as a whole word. */
  lemma NoneWholeWord(t: string, ws: iset<string>)
    requires AllWords(ws) && IsLowerWord(t) && t !in ws
    ensures NoneWhole(t, ws)
  {
    forall k | 0 <= k < |t| ensures LowerChar(t[k]) == t[k] && 'a' <= t[k] <= 'z' {
      LetterAt(t, k);
    }
    NoneWholeToken(t, t, ws);
  }

  /** A capitalised word, `c` followed by lower-case letters, that is not one of `ws` once lower-cased. */
  lemma NoneWholeCapital(c: char, t: string, ws: iset<string>)
    requires AllWords(ws) && 'A' <= c <= 'Z' && LowerFrom(t, 0) && [LowerChar(c)] + t !in ws
    ensures NoneWhole([c] + t, ws)
  {
    var s, ls := [c] + t, [LowerChar(c)] + t;
    forall k | 0 <= k < |s| ensures LowerChar(s[k]) == ls[k] && 'a' <= ls[k] <= 'z' {
      if k > 0 {
        assert s[k] == t[k - 1] && ls[k] == t[k - 1];
        LowerFromAt(t, 0, k - 1);
      }
    }
    NoneWholeToken(s, ls, ws);
  }

  /** A text that lower-cases in place keeps the absence of whole words when lower-cased. */
  lemma NoneWholeLower(t: string, ws: iset<string>)
    requires LowersInPlace(t) && NoneWhole(t, ws)
    ensures NoneWhole(Lower(t), ws)
  {
    forall i, w | w in ws ensures !WholeWordAt(Lower(t), i, w) {
      WholeWordLower(t, i, w);
    }
  }

}
