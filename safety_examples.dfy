/**
 * What the two `checkSafety` functions answer on the messages the end-to-end
 * suite sends (test-e2e.js:186-215): the crisis messages are caught by a named
 * pattern of each table, and the everyday messages of a distressed user pass.
 */
module SafetyExamples {
  import opened Text
  import opened Safety
  import opened SafetyFilter
  import opened Sentences

  // ---------------------------------------------------------------------------
  // Messages that pass

  lemma OverwhelmedWords()
    ensures var ws := ["I", "feel", "really", "overwhelmed", "right", "now"];
      forall k :: 0 <= k < |ws| ==> NoneWhole(Lower(ws[k]), Shaped)
  {
    var ws := ["I", "feel", "really", "overwhelmed", "right", "now"];
    forall k | 0 <= k < |ws| ensures NoneWhole(Lower(ws[k]), Shaped) {
      OrdinaryTokenFree(ws[k]);
    }
  }

  /** "I feel really overwhelmed right now" passes both checks. */
  lemma Overwhelmed()
    ensures var m := Unwords(["I", "feel", "really", "overwhelmed", "right", "now"]);
      !CheckSafety(m) && !TestCheckSafety(m)
  {
    OverwhelmedWords();
    FreeMessageSafe(["I", "feel", "really", "overwhelmed", "right", "now"]);
    FreeMessageTestSafe(["I", "feel", "really", "overwhelmed", "right", "now"]);
  }

  lemma EverythingHurtsWords(a: seq<string>, b: seq<string>)
    requires a == ["Everything", "hurts", "and", "I"]
    requires b == ["don't", "know", "what", "to", "do"]
    ensures forall k :: 0 <= k < |a + b| ==> NoneWhole(Lower((a + b)[k]), Shaped)
  {
    EverythingHurtsFront(a);
    EverythingHurtsBack(b);
    FreeJoin(a, b);
  }

  lemma EverythingHurtsFront(a: seq<string>)
    requires a == ["Everything", "hurts", "and", "I"]
    ensures forall k :: 0 <= k < |a| ==> NoneWhole(Lower(a[k]), Shaped)
  {
    forall k | 0 <= k < |a| ensures NoneWhole(Lower(a[k]), Shaped) {
      OrdinaryTokenFree(a[k]);
    }
  }

  lemma EverythingHurtsBack(b: seq<string>)
    requires b == ["don't", "know", "what", "to", "do"]
    ensures forall k :: 0 <= k < |b| ==> NoneWhole(Lower(b[k]), Shaped)
  {
    forall k | 0 <= k < |b| ensures NoneWhole(Lower(b[k]), Shaped) {
      if k == 0 { DontFree(); } else { OrdinaryTokenFree(b[k]); }
    }
  }

  lemma FreeJoin(a: seq<string>, b: seq<string>)
    requires forall k :: 0 <= k < |a| ==> NoneWhole(Lower(a[k]), Shaped)
    requires forall k :: 0 <= k < |b| ==> NoneWhole(Lower(b[k]), Shaped)
    ensures forall k :: 0 <= k < |a + b| ==> NoneWhole(Lower((a + b)[k]), Shaped)
  {
    forall k | 0 <= k < |a + b| ensures NoneWhole(Lower((a + b)[k]), Shaped) {
      if k < |a| { assert (a + b)[k] == a[k]; } else { assert (a + b)[k] == b[k - |a|]; }
    }
  }

  lemma DontFree()
    ensures NoneWhole(Lower("don't"), Shaped)
  {
    ContractionFree("don", "t");
    assert "don't" == "don" + "'" + "t";
  }

  /** "Everything hurts and I don't know what to do" passes both checks. */
  lemma EverythingHurts(m: string)
    requires m == Unwords(["Everything", "hurts", "and", "I", "don't", "know", "what", "to", "do"])
    ensures !CheckSafety(m) && !TestCheckSafety(m)
  {
    var a, b := ["Everything", "hurts", "and", "I"], ["don't", "know", "what", "to", "do"];
    EverythingHurtsHalves(a, b);
    EverythingHurtsJoin(a, b);
  }

  lemma EverythingHurtsHalves(a: seq<string>, b: seq<string>)
    requires a == ["Everything", "hurts", "and", "I"]
    requires b == ["don't", "know", "what", "to", "do"]
    ensures !CheckSafety(Unwords(a + b)) && !TestCheckSafety(Unwords(a + b))
  {
    EverythingHurtsWords(a, b);
    FreeMessageSafe(a + b);
    FreeMessageTestSafe(a + b);
  }

  lemma EverythingHurtsJoin(a: seq<string>, b: seq<string>)
    requires a == ["Everything", "hurts", "and", "I"]
    requires b == ["don't", "know", "what", "to", "do"]
    ensures a + b == ["Everything", "hurts", "and", "I", "don't", "know", "what", "to", "do"]
  {
  }

  lemma CryingWords()
    ensures var ws := ["I've", "been", "crying", "all", "day"];
      forall k :: 0 <= k < |ws| ==> NoneWhole(Lower(ws[k]), Shaped)
  {
    var ws := ["I've", "been", "crying", "all", "day"];
    forall k | 0 <= k < |ws| ensures NoneWhole(Lower(ws[k]), Shaped) {
      if k == 0 {
        IveFree();
      } else {
        OrdinaryTokenFree(ws[k]);
      }
    }
  }

  lemma IveFree()
    ensures NoneWhole(Lower("I've"), Shaped)
  {
    ContractionFree("I", "ve");
    assert "I've" == "I" + "'" + "ve";
  }

  /** "I've been crying all day" passes both checks. */
  lemma Crying()
    ensures var m := Unwords(["I've", "been", "crying", "all", "day"]);
      !CheckSafety(m) && !TestCheckSafety(m)
  {
    CryingWords();
    FreeMessageSafe(["I've", "been", "crying", "all", "day"]);
    FreeMessageTestSafe(["I've", "been", "crying", "all", "day"]);
  }

  lemma NobodyWords()
    ensures var ws := ["Nobody", "understands", "me"];
      forall k :: 0 <= k < |ws| ==> NoneWhole(Lower(ws[k]), Shaped)
  {
    var ws := ["Nobody", "understands", "me"];
    forall k | 0 <= k < |ws| ensures NoneWhole(Lower(ws[k]), Shaped) {
      OrdinaryTokenFree(ws[k]);
    }
  }

  /** "Nobody understands me" passes both checks. */
  lemma Nobody()
    ensures var m := Unwords(["Nobody", "understands", "me"]);
      !CheckSafety(m) && !TestCheckSafety(m)
  {
    NobodyWords();
    FreeMessageSafe(["Nobody", "understands", "me"]);
    FreeMessageTestSafe(["Nobody", "understands", "me"]);
  }

  /** "sex" inside "essex" is not a whole word, so "essex" passes both checks. */
  lemma Essex()
    ensures !CheckSafety("essex") && !TestCheckSafety("essex")
  {
    var ws := ["essex"];
    forall k | 0 <= k < |ws| ensures NoneWhole(Lower(ws[k]), Shaped) {
      OrdinaryTokenFree(ws[k]);
    }
    FreeMessageSafe(ws);
    FreeMessageTestSafe(ws);
  }

  // ---------------------------------------------------------------------------
  // Messages that are caught

  lemma KillMyselfLower()
    ensures Lower(Unwords(["I", "want", "to", "kill", "myself"])) == Unwords(["i", "want", "to", "kill", "myself"])
  {
    var ws, lws := ["I", "want", "to", "kill", "myself"], ["i", "want", "to", "kill", "myself"];
    forall k | 0 <= k < |ws| ensures Lower(ws[k]) == lws[k] {
      if k > 0 { LowerWord(ws[k]); }
    }
    LowerUnwords(ws, lws);
  }

  lemma KillMyselfPhrase()
    ensures ["kill", "myself"] in Expand(ViolenceTarget)
  {
    AnyOfAlt(ViolenceVerbs, 0);
    AnyOfAlt(ViolenceTargets, 4);
    ExpandPair(AnyOf(ViolenceVerbs), AnyOf(ViolenceTargets), ["kill"], ["myself"]);
    assert ["kill"] + ["myself"] == ["kill", "myself"];
  }

  lemma KillMyselfCopyPhrase()
    ensures ["kill", "myself"] in Expand(CopyViolenceTarget)
  {
    AnyOfAlt(["kill", "murder", "shoot", "stab"], 0);
    AnyOfAlt(CopyTargets, 4);
    ExpandPair(AnyOf(["kill", "murder", "shoot", "stab"]), AnyOf(CopyTargets), ["kill"], ["myself"]);
    assert ["kill"] + ["myself"] == ["kill", "myself"];
  }

  lemma WantToKillMyselfPhrase()
    ensures ["want", "to", "kill", "myself"] in Expand(SuicidalIntent)
  {
    AnyOfAlt(IntentVerbs, 0);
    AnyOfAlt(["to"], 0);
    assert IntentActs[0] == ["kill", "myself"];
    ExpandTriple(AnyOf(IntentVerbs), AnyOf(["to"]), Alts(IntentActs), ["want"], ["to"], ["kill", "myself"]);
    assert ["want"] + ["to"] + ["kill", "myself"] == ["want", "to", "kill", "myself"];
  }

  lemma WantToKillMyselfSplit()
    ensures Unwords(["i", "want", "to", "kill", "myself"]) == Unwords(["i"] + ["want", "to", "kill", "myself"] + [])
  {
    assert ["i"] + ["want", "to", "kill", "myself"] + [] == ["i", "want", "to", "kill", "myself"];
  }

  /** The same message is also caught by the stated-intent pattern of `SAFETY_PATTERNS`. */
  lemma WantToKillMyself(m: string)
    requires m == Unwords(["I", "want", "to", "kill", "myself"])
    ensures Test(SuicidalIntent, Lower(m))
  {
    KillMyselfLower();
    WantToKillMyselfSplit();
    WantToKillMyselfPhrase();
    SuicidalIntentWellFormed();
    PhraseCaught(SuicidalIntent, m, ["i"], ["want", "to", "kill", "myself"], []);
  }

  lemma KillMyselfSplit()
    ensures Unwords(["i", "want", "to", "kill", "myself"]) == Unwords(["i", "want", "to"] + ["kill", "myself"] + [])
  {
    assert ["i", "want", "to"] + ["kill", "myself"] + [] == ["i", "want", "to", "kill", "myself"];
  }

  lemma KillMyselfFound(m: string)
    requires m == Unwords(["I", "want", "to", "kill", "myself"])
    ensures Test(ViolenceTarget, Lower(m)) && Test(CopyViolenceTarget, Lower(m))
  {
    KillMyselfLower();
    KillMyselfSplit();
    KillMyselfPhrase();
    KillMyselfCopyPhrase();
    ViolenceTargetWellFormed();
    CopyViolenceTargetWellFormed();
    PhraseCaught(ViolenceTarget, m, ["i", "want", "to"], ["kill", "myself"], []);
    PhraseCaught(CopyViolenceTarget, m, ["i", "want", "to"], ["kill", "myself"], []);
  }

  /** "I want to kill myself" is caught by the violence pattern of `SAFETY_PATTERNS`. */
  lemma KillMyself(m: string)
    requires m == Unwords(["I", "want", "to", "kill", "myself"])
    ensures CheckSafety(m)
  {
    KillMyselfFound(m);
    SafetyPatternsAt();
    CheckWithFound(SafetyPatterns, 0, m);
  }

  /** ... and by the violence pattern of the test-e2e.js copy. */
  lemma KillMyselfTest(m: string)
    requires m == Unwords(["I", "want", "to", "kill", "myself"])
    ensures TestCheckSafety(m)
  {
    KillMyselfFound(m);
    TestPatternsAt();
    CheckWithFound(TestPatterns, 0, m);
  }

  lemma HarmSomeoneLower()
    ensures Lower(Unwords(["how", "to", "harm", "someone"])) == Unwords(["how", "to", "harm", "someone"])
  {
    var ws := ["how", "to", "harm", "someone"];
    forall k | 0 <= k < |ws| ensures Lower(ws[k]) == ws[k] {
      LowerWord(ws[k]);
    }
    LowerUnwords(ws, ws);
  }

  lemma HarmSomeoneSplit()
    ensures Unwords(["how", "to", "harm", "someone"]) == Unwords([] + ["how", "to", "harm"] + ["someone"])
  {
    assert [] + ["how", "to", "harm"] + ["someone"] == ["how", "to", "harm", "someone"];
  }

  lemma HarmSomeonePhrase()
    ensures ["how", "to", "harm"] in Expand(HowToHarm)
  {
    AnyOfAlt(["how"], 0);
    AnyOfAlt(["to"], 0);
    AnyOfAlt(HarmVerbs, 1);
    ExpandTriple(AnyOf(["how"]), AnyOf(["to"]), AnyOf(HarmVerbs), ["how"], ["to"], ["harm"]);
    assert ["how"] + ["to"] + ["harm"] == ["how", "to", "harm"];
  }

  lemma HarmSomeoneCopyPhrase()
    ensures ["how", "to", "harm"] in Expand(CopyHowToHarm)
  {
    AnyOfAlt(["how"], 0);
    AnyOfAlt(["to"], 0);
    AnyOfAlt(["kill", "harm", "hurt", "poison"], 1);
    ExpandTriple(AnyOf(["how"]), AnyOf(["to"]), AnyOf(["kill", "harm", "hurt", "poison"]), ["how"], ["to"], ["harm"]);
    assert ["how"] + ["to"] + ["harm"] == ["how", "to", "harm"];
  }

  lemma HarmSomeoneFound(m: string)
    requires m == Unwords(["how", "to", "harm", "someone"])
    ensures Test(HowToHarm, Lower(m)) && Test(CopyHowToHarm, Lower(m))
  {
    HarmSomeoneLower();
    HarmSomeoneSplit();
    HarmSomeonePhrase();
    HarmSomeoneCopyPhrase();
    HowToHarmWellFormed();
    CopyHowToHarmWellFormed();
    PhraseCaught(HowToHarm, m, [], ["how", "to", "harm"], ["someone"]);
    PhraseCaught(CopyHowToHarm, m, [], ["how", "to", "harm"], ["someone"]);
  }

  /** "how to harm someone" is caught by the how-to-harm pattern of `SAFETY_PATTERNS`. */
  lemma HarmSomeone(m: string)
    requires m == Unwords(["how", "to", "harm", "someone"])
    ensures CheckSafety(m)
  {
    HarmSomeoneFound(m);
    SafetyPatternsAt();
    CheckWithFound(SafetyPatterns, 1, m);
  }

  /** ... and by the how-to-harm pattern of the test-e2e.js copy. */
  lemma HarmSomeoneTest(m: string)
    requires m == Unwords(["how", "to", "harm", "someone"])
    ensures TestCheckSafety(m)
  {
    HarmSomeoneFound(m);
    TestPatternsAt();
    CheckWithFound(TestPatterns, 1, m);
  }

  lemma NudePhotosLower()
    ensures Lower(Unwords(["show", "me", "nude", "photos"])) == Unwords(["show", "me", "nude", "photos"])
  {
    var ws := ["show", "me", "nude", "photos"];
    forall k | 0 <= k < |ws| ensures Lower(ws[k]) == ws[k] {
      LowerWord(ws[k]);
    }
    LowerUnwords(ws, ws);
  }

  lemma NudePhotosSplit()
    ensures Unwords(["show", "me", "nude", "photos"]) == Unwords(["show", "me"] + ["nude"] + ["photos"])
  {
    assert ["show", "me"] + ["nude"] + ["photos"] == ["show", "me", "nude", "photos"];
  }

  lemma NudePhotosPhrase()
    ensures ["nude"] in Expand(Explicit) && ["nude"] in Expand(CopyExplicit)
  {
    AnyOfAlt(ExplicitWords, 0);
    ExpandOne(AnyOf(ExplicitWords), ["nude"]);
    AnyOfAlt(["nude", "naked", "sex", "porn"], 0);
    ExpandOne(AnyOf(["nude", "naked", "sex", "porn"]), ["nude"]);
  }

  lemma NudePhotosFound(m: string)
    requires m == Unwords(["show", "me", "nude", "photos"])
    ensures Test(Explicit, Lower(m)) && Test(CopyExplicit, Lower(m))
  {
    NudePhotosLower();
    NudePhotosSplit();
    NudePhotosPhrase();
    ExplicitWellFormed();
    CopyExplicitWellFormed();
    PhraseCaught(Explicit, m, ["show", "me"], ["nude"], ["photos"]);
    PhraseCaught(CopyExplicit, m, ["show", "me"], ["nude"], ["photos"]);
  }

  /** "show me nude photos" is caught by the explicit-content pattern of `SAFETY_PATTERNS`. */
  lemma NudePhotos(m: string)
    requires m == Unwords(["show", "me", "nude", "photos"])
    ensures CheckSafety(m)
  {
    NudePhotosFound(m);
    SafetyPatternsAt();
    CheckWithFound(SafetyPatterns, 7, m);
  }

  /** ... and by the explicit-content pattern of the test-e2e.js copy. */
  lemma NudePhotosTest(m: string)
    requires m == Unwords(["show", "me", "nude", "photos"])
    ensures TestCheckSafety(m)
  {
    NudePhotosFound(m);
    TestPatternsAt();
    CheckWithFound(TestPatterns, 4, m);
  }
}
