/**
 * The texts the end-to-end conversation exchanges with the mock model: its two
 * replies (test-e2e.js:40-42) and the user's empathic turn (test-e2e.js:173).
 * None of them trips the filter copy of test-e2e.js, so a conversation made of
 * them is never cut short by the safety gate.
 */
module MockMessages {
  import opened Text
  import opened Safety
  import opened SafetyFilter
  import opened Sentences

  /** The mock's reply while distress is above 0: "I just... everything feels like too much right now." */
  const StruggleReply := Unwords(["I", "just...", "everything", "feels", "like", "too", "much", "right", "now."])

  /** The mock's reply once distress has reached 0: "Thank you. I feel... still. For the first time in a while." */
  const StillReply := Unwords(["Thank", "you.", "I", "feel...", "still.", "For", "the", "first", "time", "in", "a", "while."])

  /** The user's turn in the full-resolution scenario: "I hear you. I feel what you're going through. I'm here for you." */
  const EmpathyTurn := Unwords(["I", "hear", "you.", "I", "feel", "what", "you're", "going", "through.", "I'm", "here", "for", "you."])

  // ---------------------------------------------------------------------------
  // Punctuation, and the words only the filter of src/safety.js looks for

  lemma NoneWholeEmpty(ws: iset<string>)
    requires AllWords(ws)
    ensures NoneWhole("", ws)
  {
    forall i, w | w in ws ensures !WholeWordAt("", i, w) {
      assert |w| > 0;
    }
  }

  /** A punctuation mark after a word adds no whole word. */
  lemma TrailingFree(t: string, c: char)
    requires !IsWordChar(c) && NoneWhole(t, Shaped)
    ensures NoneWhole(t + [c], Shaped)
  {
    ShapedAreWords();
    NoneWholeEmpty(Shaped);
    NoneWholeGlue(t, c, "", Shaped);
    assert t + [c] + "" == t + [c];
  }

  /** A text free of shaped words stays free with a full stop or an ellipsis after it. */
  lemma DottedFree(t: string)
    requires NoneWhole(t, Shaped)
    ensures NoneWhole(t + ".", Shaped) && NoneWhole(t + "...", Shaped)
  {
    TrailingFree(t, '.');
    assert t + "." == t + ['.'];
    TrailingFree(t + ".", '.');
    assert t + ".." == (t + ".") + ['.'];
    TrailingFree(t + "..", '.');
    assert t + "..." == (t + "..") + ['.'];
  }

  /**
   * The length and the first, second and last letters of a first word of the
   * copy in test-e2e.js; unlike `FirstWordShape`, the words only src/safety.js
   * looks for ("going", "want", "best", ...) are left out.
   */
  predicate CopyWordShape(n: nat, a: char, b: char, z: char) {
    match n
    case 3 =>
      (a == 'h' && b == 'o' && z == 'w') ||
      (a == 's' && b == 'e' && z == 'x')
    case 4 =>
      (a == 'k' && b == 'i' && z == 'l') ||
      (a == 's' && b == 't' && z == 'b') ||
      (a == 'n' && b == 'u' && z == 'e') ||
      (a == 'p' && b == 'o' && z == 'n') ||
      (a == 'r' && b == 'a' && z == 'e')
    case 5 =>
      (a == 's' && b == 'h' && z == 't') ||
      (a == 'n' && b == 'a' && z == 'd')
    case 6 =>
      (a == 'm' && b == 'u' && z == 'r') ||
      (a == 'm' && b == 'o' && z == 't')
    case 7 =>
      (a == 's' && b == 'u' && z == 'e') ||
      (a == 'a' && b == 's' && z == 't')
    case 8 =>
      (a == 's' && b == 'u' && z == 'l')
    case _ => false
  }

  /** The lower-case words shaped like a first word of the copy. */
  ghost const CopyShaped: iset<string> :=
    iset w | IsLowerWord(w) && |w| >= 3 && CopyWordShape(|w|, w[0], w[1], w[|w| - 1])

  lemma CopyFirstWordShapes(w: string)
    requires w in TestFirstWords
    ensures |w| >= 3 && CopyWordShape(|w|, w[0], w[1], w[|w| - 1])
  {
  }

  lemma CopyShapedWords()
    ensures AllWords(CopyShaped)
  {
  }

  lemma CopyShapedCovers()
    ensures AllWords(CopyShaped) && Covers(TestPatterns, CopyShaped)
  {
    TestPatternsWellFormed();
    forall w | IsFirstWord(TestPatterns, w) ensures w in CopyShaped {
      FirstWordIsWord(TestPatterns, w);
      TestFirstWordsListed(w);
      CopyFirstWordShapes(w);
    }
  }

  /** Every shape of the copy is a shape of the full filter. */
  lemma CopyShapeIsShape(n: nat, a: char, b: char, z: char)
    requires CopyWordShape(n, a, b, z)
    ensures FirstWordShape(n, a, b, z)
  {
  }

  /** A text free of the shaped words of the full filter is free of those of the copy. */
  lemma CopyNarrower(t: string)
    requires NoneWhole(t, Shaped)
    ensures NoneWhole(t, CopyShaped)
  {
    forall w | w in CopyShaped ensures w in Shaped {
      CopyShapeIsShape(|w|, w[0], w[1], w[|w| - 1]);
    }
  }

  /** A text in which, once lower-cased, no word the copy may look for stands whole passes the copy. */
  lemma CopySafeWithoutFirstWord(text: string)
    requires NoneWhole(Lower(text), CopyShaped)
    ensures !TestCheckSafety(text)
  {
    CopyShapedCovers();
    NoneWholeSafe(TestPatterns, CopyShaped, text);
  }

  // ---------------------------------------------------------------------------
  // The three texts

  /** An ordinary word followed by a full stop or an ellipsis. */
  lemma Punctuated(t: string, w: string, p: string)
    requires OrdinaryToken(w) && (p == "." || p == "...") && t == w + p
    ensures NoneWhole(Lower(t), Shaped)
  {
    OrdinaryTokenFree(w);
    DottedFree(Lower(w));
    LowerAppend(w, p);
    assert NoUpper(p);
    LowerFixed(p);
  }

  /** Two texts free of a set of words once lower-cased, joined by a space, are free of it once lower-cased. */
  lemma Glue(a: seq<string>, b: seq<string>, fw: iset<string>)
    requires a != [] && b != [] && AllWords(fw)
    requires NoneWhole(Lower(Unwords(a)), fw) && NoneWhole(Lower(Unwords(b)), fw)
    ensures NoneWhole(Lower(Unwords(a + b)), fw)
  {
    UnwordsAppend(a, b);
    NoneWholeGlue(Lower(Unwords(a)), ' ', Lower(Unwords(b)), fw);
    LowerAppend(Unwords(a) + " ", Unwords(b));
    LowerAppend(Unwords(a), " ");
    assert Lower(" ") == " ";
    assert Lower(Unwords(a)) + [' '] + Lower(Unwords(b)) == Lower(Unwords(a)) + " " + Lower(Unwords(b));
  }

  // The word lists are parameters fixed by a `requires`, so that the verifier
  // does not evaluate `Unwords` on them.

  lemma StruggleHead(ws: seq<string>)
    requires ws == ["I", "just...", "everything", "feels"]
    ensures NoneWhole(Lower(Unwords(ws)), Shaped)
  {
    forall k | 0 <= k < |ws| ensures NoneWhole(Lower(ws[k]), Shaped) {
      if k == 1 {
        Punctuated(ws[k], "just", "...");
      } else {
        OrdinaryTokenFree(ws[k]);
      }
    }
    FreeWords(ws);
  }

  lemma StruggleTail(ws: seq<string>)
    requires ws == ["like", "too", "much", "right", "now."]
    ensures NoneWhole(Lower(Unwords(ws)), Shaped)
  {
    forall k | 0 <= k < |ws| ensures NoneWhole(Lower(ws[k]), Shaped) {
      if k == 4 {
        Punctuated(ws[k], "now", ".");
      } else {
        OrdinaryTokenFree(ws[k]);
      }
    }
    FreeWords(ws);
  }

  lemma StruggleFree(ws: seq<string>, a: seq<string>, b: seq<string>)
    requires ws == ["I", "just...", "everything", "feels", "like", "too", "much", "right", "now."]
    requires a == ["I", "just...", "everything", "feels"] && b == ["like", "too", "much", "right", "now."]
    ensures NoneWhole(Lower(Unwords(ws)), Shaped)
  {
    StruggleSplit(ws, a, b);
    StruggleHead(a);
    StruggleTail(b);
    ShapedAreWords();
    Glue(a, b, Shaped);
  }

  lemma StruggleSplit(ws: seq<string>, a: seq<string>, b: seq<string>)
    requires ws == ["I", "just...", "everything", "feels", "like", "too", "much", "right", "now."]
    requires a == ["I", "just...", "everything", "feels"] && b == ["like", "too", "much", "right", "now."]
    ensures a + b == ws
  {
  }

  /** The reply of a still-distressed mock passes both filters. */
  lemma StruggleReplySafe()
    ensures !CheckSafety(StruggleReply) && !TestCheckSafety(StruggleReply)
  {
    StruggleFree(["I", "just...", "everything", "feels", "like", "too", "much", "right", "now."],
      ["I", "just...", "everything", "feels"], ["like", "too", "much", "right", "now."]);
    SafeWithoutFirstWord(StruggleReply);
    TestSafeWithoutFirstWord(StruggleReply);
  }

  lemma StillHead(ws: seq<string>)
    requires ws == ["Thank", "you.", "I", "feel..."]
    ensures NoneWhole(Lower(Unwords(ws)), Shaped)
  {
    forall k | 0 <= k < |ws| ensures NoneWhole(Lower(ws[k]), Shaped) {
      if k == 1 {
        Punctuated(ws[k], "you", ".");
      } else if k == 3 {
        Punctuated(ws[k], "feel", "...");
      } else {
        OrdinaryTokenFree(ws[k]);
      }
    }
    FreeWords(ws);
  }

  lemma StillMiddle(ws: seq<string>)
    requires ws == ["still.", "For", "the", "first"]
    ensures NoneWhole(Lower(Unwords(ws)), Shaped)
  {
    forall k | 0 <= k < |ws| ensures NoneWhole(Lower(ws[k]), Shaped) {
      if k == 0 {
        Punctuated(ws[k], "still", ".");
      } else {
        OrdinaryTokenFree(ws[k]);
      }
    }
    FreeWords(ws);
  }

  lemma StillTail(ws: seq<string>)
    requires ws == ["time", "in", "a", "while."]
    ensures NoneWhole(Lower(Unwords(ws)), Shaped)
  {
    forall k | 0 <= k < |ws| ensures NoneWhole(Lower(ws[k]), Shaped) {
      if k == 3 {
        Punctuated(ws[k], "while", ".");
      } else {
        OrdinaryTokenFree(ws[k]);
      }
    }
    FreeWords(ws);
  }

  lemma StillFree(ws: seq<string>, a: seq<string>, b: seq<string>, c: seq<string>)
    requires ws == ["Thank", "you.", "I", "feel...", "still.", "For", "the", "first", "time", "in", "a", "while."]
    requires a == ["Thank", "you.", "I", "feel..."] && b == ["still.", "For", "the", "first"]
    requires c == ["time", "in", "a", "while."]
    ensures NoneWhole(Lower(Unwords(ws)), Shaped)
  {
    StillSplit(ws, a, b, c);
    StillHead(a);
    StillMiddle(b);
    StillTail(c);
    ShapedAreWords();
    Glue(b, c, Shaped);
    Glue(a, b + c, Shaped);
  }

  lemma StillSplit(ws: seq<string>, a: seq<string>, b: seq<string>, c: seq<string>)
    requires ws == ["Thank", "you.", "I", "feel...", "still.", "For", "the", "first", "time", "in", "a", "while."]
    requires a == ["Thank", "you.", "I", "feel..."] && b == ["still.", "For", "the", "first"]
    requires c == ["time", "in", "a", "while."]
    ensures a + (b + c) == ws
  {
  }

  /** The reply of a still mock passes both filters. */
  lemma StillReplySafe()
    ensures !CheckSafety(StillReply) && !TestCheckSafety(StillReply)
  {
    StillFree(["Thank", "you.", "I", "feel...", "still.", "For", "the", "first", "time", "in", "a", "while."],
      ["Thank", "you.", "I", "feel..."], ["still.", "For", "the", "first"], ["time", "in", "a", "while."]);
    SafeWithoutFirstWord(StillReply);
    TestSafeWithoutFirstWord(StillReply);
  }

  /** "going" is a first word of src/safety.js only ("going to kill myself"): the copy does not look for it. */
  lemma GoingCopyFree(ws: seq<string>)
    requires ws == ["going"]
    ensures NoneWhole(Lower(Unwords(ws)), CopyShaped)
  {
    CopyShapedWords();
    LowerWord("going");
    NoneWholeWord("going", CopyShaped);
  }

  lemma EmpathyHead(ws: seq<string>)
    requires ws == ["I", "hear", "you.", "I", "feel"]
    ensures NoneWhole(Lower(Unwords(ws)), CopyShaped)
  {
    forall k | 0 <= k < |ws| ensures NoneWhole(Lower(ws[k]), Shaped) {
      if k == 2 {
        Punctuated(ws[k], "you", ".");
      } else {
        OrdinaryTokenFree(ws[k]);
      }
    }
    FreeWords(ws);
    CopyNarrower(Lower(Unwords(ws)));
  }

  lemma EmpathyMiddle(ws: seq<string>)
    requires ws == ["what", "you're"]
    ensures NoneWhole(Lower(Unwords(ws)), CopyShaped)
  {
    forall k | 0 <= k < |ws| ensures NoneWhole(Lower(ws[k]), Shaped) {
      if k == 1 {
        ContractionFree("you", "re");
        assert ws[k] == "you" + "'" + "re";
      } else {
        OrdinaryTokenFree(ws[k]);
      }
    }
    FreeWords(ws);
    CopyNarrower(Lower(Unwords(ws)));
  }

  lemma EmpathyTail(ws: seq<string>)
    requires ws == ["through.", "I'm", "here", "for", "you."]
    ensures NoneWhole(Lower(Unwords(ws)), CopyShaped)
  {
    forall k | 0 <= k < |ws| ensures NoneWhole(Lower(ws[k]), Shaped) {
      if k == 0 {
        Punctuated(ws[k], "through", ".");
      } else if k == 1 {
        ContractionFree("I", "m");
        assert ws[k] == "I" + "'" + "m";
      } else if k == 4 {
        Punctuated(ws[k], "you", ".");
      } else {
        OrdinaryTokenFree(ws[k]);
      }
    }
    FreeWords(ws);
    CopyNarrower(Lower(Unwords(ws)));
  }

  lemma EmpathyFree(ws: seq<string>, a: seq<string>, b: seq<string>, c: seq<string>, d: seq<string>)
    requires ws == ["I", "hear", "you.", "I", "feel", "what", "you're", "going", "through.", "I'm", "here", "for", "you."]
    requires a == ["I", "hear", "you.", "I", "feel"] && b == ["what", "you're"] && c == ["going"]
    requires d == ["through.", "I'm", "here", "for", "you."]
    ensures NoneWhole(Lower(Unwords(ws)), CopyShaped)
  {
    EmpathySplit(ws, a, b, c, d);
    EmpathyHead(a);
    EmpathyMiddle(b);
    GoingCopyFree(c);
    EmpathyTail(d);
    CopyShapedWords();
    Glue(c, d, CopyShaped);
    Glue(b, c + d, CopyShaped);
    Glue(a, b + (c + d), CopyShaped);
  }

  lemma EmpathySplit(ws: seq<string>, a: seq<string>, b: seq<string>, c: seq<string>, d: seq<string>)
    requires ws == ["I", "hear", "you.", "I", "feel", "what", "you're", "going", "through.", "I'm", "here", "for", "you."]
    requires a == ["I", "hear", "you.", "I", "feel"] && b == ["what", "you're"] && c == ["going"]
    requires d == ["through.", "I'm", "here", "for", "you."]
    ensures a + (b + (c + d)) == ws
  {
  }

  /**
   * The user's empathic turn passes the filter copy of test-e2e.js. (Only the
   * copy is stated: "going" is a first word of src/safety.js.)
   */
  lemma EmpathyTurnSafe()
    ensures !TestCheckSafety(EmpathyTurn)
  {
    EmpathyFree(["I", "hear", "you.", "I", "feel", "what", "you're", "going", "through.", "I'm", "here", "for", "you."],
      ["I", "hear", "you.", "I", "feel"], ["what", "you're"], ["going"], ["through.", "I'm", "here", "for", "you."]);
    CopySafeWithoutFirstWord(EmpathyTurn);
  }

  lemma HearAt(ws: seq<string>, rest: seq<string>)
    requires ws == ["I", "hear"] + rest && rest != []
    ensures Contains(Lower(Unwords(ws)), "hear")
    ensures |Unwords(ws)| > 0 && Lower(Unwords(ws))[0] == 'i'
  {
    var m := Unwords(ws);
    UnwordsAppend(["I"], ["hear"] + rest);
    UnwordsAppend(["hear"], rest);
    assert ["I"] + (["hear"] + rest) == ws;
    var tail := " " + Unwords(rest);
    assert m == "I" + " " + ("hear" + " " + Unwords(rest));
    assert m == "I hear" + tail;
    HearPrefix(m, tail);
  }

  lemma HearPrefix(m: string, tail: string)
    requires m == "I hear" + tail
    ensures Contains(Lower(m), "hear") && |m| > 0 && Lower(m)[0] == 'i'
  {
    LowerAppend("I hear", tail);
    LowerIHear("I hear");
    assert "hear" <= "i hear"[2..];
    ContainsAppend("i hear", Lower(tail), "hear");
  }

  /** What a text contains, it still contains with more text after it. */
  lemma ContainsAppend(p: string, t: string, part: string)
    requires Contains(p, part)
    ensures Contains(p + t, part)
  {
    var k :| 0 <= k <= |p| && part <= p[k..];
    assert (p + t)[k..] == p[k..] + t;
    assert part <= (p + t)[k..];
  }

  lemma LowerIHear(s: string)
    requires s == "I hear"
    ensures Lower(s) == "i hear"
  {
    assert LowersInPlace(s);
    assert forall k :: 0 <= k < |s| ==> LowerChar(s[k]) == "i hear"[k];
  }

  /** The empathic turn, lower-cased, contains "hear", the first word the mock listens for. */
  lemma EmpathyHeard()
    ensures Contains(Lower(EmpathyTurn), "hear")
    ensures Lower(EmpathyTurn) != "(session start)"
  {
    HearAt(["I", "hear", "you.", "I", "feel", "what", "you're", "going", "through.", "I'm", "here", "for", "you."],
      ["you.", "I", "feel", "what", "you're", "going", "through.", "I'm", "here", "for", "you."]);
  }
}
