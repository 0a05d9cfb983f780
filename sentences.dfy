/**
 * Texts written as words joined by single spaces, and what a pattern table does
 * with them: a text none of whose words is a first word of the table passes, and
 * a text in which the words of a phrase of some pattern stand next to each other
 * is caught.
 */
module Sentences {
  import opened Text
  import opened Safety

  /** The words joined by single spaces. */
  function Unwords(ws: seq<string>): string
    decreases |ws|
  {
    if ws == [] then "" else if |ws| == 1 then ws[0] else ws[0] + " " + Unwords(ws[1..])
  }

  /** Words that are separately free of the words `fw` give a text free of them. */
  lemma {:induction false} NoneWholeUnwords(ws: seq<string>, fw: iset<string>)
    requires AllWords(fw)
    requires forall k :: 0 <= k < |ws| ==> NoneWhole(ws[k], fw)
    ensures NoneWhole(Unwords(ws), fw)
    decreases |ws|
  {
    if ws == [] {
      forall i, w | w in fw ensures !WholeWordAt("", i, w) {
        assert |w| > 0;
      }
    } else if |ws| > 1 {
      var rest := ws[1..];
      assert forall k :: 0 <= k < |rest| ==> rest[k] == ws[k + 1];
      NoneWholeUnwords(rest, fw);
      assert NoneWhole(ws[0], fw);
      NoneWholeGlue(ws[0], ' ', Unwords(rest), fw);
      assert ws[0] + [' '] + Unwords(rest) == Unwords(ws);
    }
  }

  /** Lower-casing a text of words lower-cases each word. */
  lemma {:induction false} LowerUnwords(ws: seq<string>, lws: seq<string>)
    requires |ws| == |lws| && forall k :: 0 <= k < |ws| ==> Lower(ws[k]) == lws[k]
    ensures Lower(Unwords(ws)) == Unwords(lws)
    decreases |ws|
  {
    if |ws| > 1 {
      var rest, lrest := ws[1..], lws[1..];
      assert forall k :: 0 <= k < |rest| ==> rest[k] == ws[k + 1] && lrest[k] == lws[k + 1];
      LowerUnwords(rest, lrest);
      LowerAppend(ws[0], " " + Unwords(rest));
      LowerAppend(" ", Unwords(rest));
      assert Lower(" ") == " ";
      assert ws[0] + " " + Unwords(rest) == ws[0] + (" " + Unwords(rest));
    }
  }

  /** A word of lower-case letters is its own lower case. */
  lemma LowerWord(w: string)
    requires LowerFrom(w, 0)
    ensures Lower(w) == w
  {
    forall k | 0 <= k < |w| ensures 'a' <= w[k] <= 'z' {
      LowerFromAt(w, 0, k);
    }
    assert LowersInPlace(w);
  }

  /** A capitalised word lower-cases to its initial lower-cased and the rest unchanged. */
  lemma LowerCapital(c: char, t: string)
    requires 'A' <= c <= 'Z' && LowerFrom(t, 0)
    ensures Lower([c] + t) == [LowerChar(c)] + t
  {
    LowerAppend([c], t);
    LowerWord(t);
  }

  lemma {:induction false} UnwordsAppend(a: seq<string>, b: seq<string>)
    requires a != [] && b != []
    ensures Unwords(a + b) == Unwords(a) + " " + Unwords(b)
    decreases |a|
  {
    if |a| == 1 {
      assert (a + b)[1..] == b;
    } else {
      assert (a + b)[1..] == a[1..] + b;
      UnwordsAppend(a[1..], b);
    }
  }

  /** The words of a phrase, joined by single spaces, spell the phrase. */
  lemma {:induction false} JoinedUnwords(ph: Phrase)
    requires IsPhrase(ph)
    ensures Joined(Unwords(ph), ph)
    decreases |ph|
  {
    var t := Unwords(ph);
    if |ph| > 1 {
      var w, rest := ph[0], ph[1..];
      IsPhraseTail(ph);
      JoinedUnwords(rest);
      var m := |w|;
      assert t == w + " " + Unwords(rest);
      assert t[0..m] == w;
      assert t[m..m + 1] == " ";
      assert t[m + 1..|t|] == Unwords(rest);
      JoinedCons(t, ph, m + 1);
    }
  }

  /** The spelling of a phrase begins and ends with a letter. */
  lemma UnwordsEnds(ph: Phrase)
    requires IsPhrase(ph)
    ensures |Unwords(ph)| > 0 && IsWordChar(Unwords(ph)[0]) && IsWordChar(Unwords(ph)[|Unwords(ph)| - 1])
  {
    JoinedUnwords(ph);
    JoinedHead(Unwords(ph), ph);
    LetterAt(ph[0], 0);
    LetterMatched(Unwords(ph)[0], ph[0][0]);
    UnwordsLast(ph);
  }

  lemma {:induction false} UnwordsLast(ph: Phrase)
    requires IsPhrase(ph)
    ensures |Unwords(ph)| > 0 && 'a' <= Unwords(ph)[|Unwords(ph)| - 1] <= 'z'
    decreases |ph|
  {
    if |ph| == 1 {
      LetterAt(ph[0], |ph[0]| - 1);
    } else {
      IsPhraseTail(ph);
      UnwordsLast(ph[1..]);
    }
  }

  /** A phrase of a well-formed pattern, written as words between other words, is found by the pattern. */
  lemma PhraseFound(p: Pattern, pre: seq<string>, ph: Phrase, post: seq<string>)
    requires WellFormed(p) && ph in Expand(p)
    ensures Test(p, Unwords(pre + ph + post))
  {
    ExpandPhrases(p);
    UnwordsEnds(ph);
    JoinedUnwords(ph);
    var a := if pre == [] then "" else Unwords(pre) + " ";
    var b := if post == [] then "" else " " + Unwords(post);
    UnwordsAround(pre, ph, post);
    OccursBetween(p, a, Unwords(ph), b, ph);
    TestIsOccurs(p, Unwords(pre + ph + post));
  }

  /** A text that lower-cases to words holding a phrase of a pattern is matched by the pattern, once lower-cased. */
  lemma PhraseCaught(p: Pattern, text: string, pre: seq<string>, ph: Phrase, post: seq<string>)
    requires WellFormed(p) && ph in Expand(p)
    requires Lower(text) == Unwords(pre + ph + post)
    ensures Test(p, Lower(text))
  {
    PhraseFound(p, pre, ph, post);
  }

  lemma UnwordsAround(pre: seq<string>, ph: Phrase, post: seq<string>)
    requires ph != []
    ensures Unwords(pre + ph + post) ==
      (if pre == [] then "" else Unwords(pre) + " ") + Unwords(ph) + (if post == [] then "" else " " + Unwords(post))
  {
    if pre == [] {
      assert pre + ph == ph;
    } else {
      UnwordsAppend(pre, ph);
    }
    if post == [] {
      assert pre + ph + post == pre + ph;
    } else {
      UnwordsAppend(pre + ph, post);
    }
  }

  /** A spelling of a phrase between separators that are not word characters occurs as a whole. */
  lemma OccursBetween(p: Pattern, a: string, u: string, b: string, ph: Phrase)
    requires ph in Expand(p) && Joined(u, ph) && |u| > 0 && IsWordChar(u[0]) && IsWordChar(u[|u| - 1])
    requires a == [] || !IsWordChar(a[|a| - 1])
    requires b == [] || !IsWordChar(b[0])
    ensures Occurs(p, a + u + b)
  {
    var s := a + u + b;
    BoundariesAround(a, u, b);
    var i, j := |a|, |a| + |u|;
    assert 0 <= i <= j <= |s| && ph in Expand(p) && Boundary(s, i) && Boundary(s, j) && Joined(s[i..j], ph);
  }

  lemma BoundariesAround(a: string, u: string, b: string)
    requires |u| > 0 && IsWordChar(u[0]) && IsWordChar(u[|u| - 1])
    requires a == [] || !IsWordChar(a[|a| - 1])
    requires b == [] || !IsWordChar(b[0])
    ensures (a + u + b)[|a|..|a| + |u|] == u
    ensures Boundary(a + u + b, |a|) && Boundary(a + u + b, |a| + |u|)
  {
    var s := a + u + b;
    var i, j := |a|, |a| + |u|;
    assert s[i..j] == u;
    assert s[i] == u[0] && s[j - 1] == u[|u| - 1];
    assert i > 0 ==> s[i - 1] == a[|a| - 1];
    assert j < |s| ==> s[j] == b[0];
  }
}
