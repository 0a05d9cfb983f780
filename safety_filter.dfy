/**
 * The pattern tables of src/safety.js and of the copy in test-e2e.js, the two
 * `checkSafety` functions built on them, and what can be proved of the tables:
 * every pattern has the shape the matcher of `Safety` is proved for, and a text
 * without any of the tables' first words as a whole word is let through.
 */
module SafetyFilter {
  import opened Text
  import opened Safety
  import opened Sentences

  // ---------------------------------------------------------------------------
  // The pattern tables

  /** Direct violence toward specific targets (src/safety.js:8); "myself" is listed twice there. */
  const ViolenceTarget: Pattern := [AnyOf(ViolenceVerbs), AnyOf(ViolenceTargets)]
  const ViolenceVerbs: seq<Word> := ["kill", "murder", "shoot", "stab", "strangle", "choke"]
  const ViolenceTargets: seq<Word> := ["you", "him", "her", "them", "myself", "everyone", "myself"]

  /** How-to harm queries (src/safety.js:10). */
  const HowToHarm: Pattern := [AnyOf(["how"]), AnyOf(["to"]), AnyOf(HarmVerbs)]
  const HarmVerbs: seq<Word> := ["kill", "harm", "hurt", "poison", "attack", "injure", "wound"]

  /** Suicide methods (src/safety.js:12). */
  const SuicideMethod: Pattern := [AnyOf(["suicide", "suicidal"]), AnyOf(SuicideMeans)]
  const SuicideMeans: seq<Word> := ["method", "plan", "how", "way", "ways", "technique"]

  /** How-to self-harm queries (src/safety.js:13). */
  const HowToSelfHarm: Pattern := [AnyOf(["how"]), Alts(SelfHarmAsks), Alts(SelfHarmActs)]
  const SelfHarmAsks: seq<WordPhrase> := [["to"], ["do", "i"], ["can", "i"], ["should", "i"]]
  const SelfHarmActs: seq<WordPhrase> :=
    [["cut"], ["hang"], ["overdose"], ["end", "it"], ["end", "my", "life"], ["jump"], ["drown"]]

  /** Stated intent; `end\s+(my\s+)?life` is the two alternatives "end my life" and "end life" (src/safety.js:14). */
  const SuicidalIntent: Pattern := [AnyOf(IntentVerbs), AnyOf(["to"]), Alts(IntentActs)]
  const IntentVerbs: seq<Word> := ["want", "going", "plan", "planning", "intend", "trying"]
  const IntentActs: seq<WordPhrase> :=
    [["kill", "myself"], ["end", "my", "life"], ["end", "life"], ["die"], ["commit", "suicide"]]

  /** Self-harm encouragement (src/safety.js:16). */
  const BestWay: Pattern :=
    [Alts(Superlatives), AnyOf(["way", "method"]), AnyOf(["to"]), Alts([["die"], ["end", "it"], ["kill"]])]
  const Superlatives: seq<WordPhrase> := [["best"], ["easiest"], ["quickest"], ["fastest"], ["most", "painless"]]

  /** Requests for a method (src/safety.js:17). */
  const GiveMeAWay: Pattern :=
    [AnyOf(["give"]), AnyOf(["me"]), Maybe("a"), AnyOf(["method", "way", "plan"]), AnyOf(["to"]), AnyOf(RequestedEnds)]
  const RequestedEnds: seq<Word> := ["die", "kill", "harm", "hurt"]

  /** Sexually explicit content (src/safety.js:19). */
  const Explicit: Pattern := [AnyOf(ExplicitWords)]
  const ExplicitWords: seq<Word> := ["nude", "naked", "sex", "porn", "pornograph", "hentai", "nsfw"]

  /** Sexual violence and abuse (src/safety.js:21). */
  const SexualViolence: Pattern := [AnyOf(["molest", "rape", "assault", "grope", "trafficking"])]

  /** Child exploitation (src/safety.js:23). */
  const ChildExploitation: Pattern := [AnyOf(["child"]), AnyOf(["abuse", "porn", "exploit", "sex"])]

  /** Exploitation of minors; `minor[s]?` is the two words "minor" and "minors" (src/safety.js:24). */
  const MinorExploitation: Pattern := [AnyOf(["minor", "minors"]), AnyOf(["sex", "nude", "naked", "exploit"])]

  /** Drug manufacture or purchase (src/safety.js:26). */
  const HowToDrugs: Pattern := [AnyOf(["how"]), AnyOf(["to"]), AnyOf(DrugVerbs), AnyOf(Drugs)]
  const DrugVerbs: seq<Word> := ["make", "cook", "synthesize", "buy", "get"]
  const Drugs: seq<Word> := ["meth", "fentanyl", "heroin", "cocaine"]

  /** Weapons (src/safety.js:28). */
  const HowToWeapons: Pattern :=
    [AnyOf(["how"]), AnyOf(["to"]), AnyOf(["make", "build", "assemble"]), Maybe("a"), AnyOf(Weapons)]
  const Weapons: seq<Word> := ["bomb", "explosive", "weapon", "gun"]

  /** `SAFETY_PATTERNS` of src/safety.js, in order. */
  const SafetyPatterns: seq<Pattern> := [
    ViolenceTarget, HowToHarm, SuicideMethod, HowToSelfHarm, SuicidalIntent, BestWay, GiveMeAWay,
    Explicit, SexualViolence, ChildExploitation, MinorExploitation, HowToDrugs, HowToWeapons]

  lemma SafetyPatternsAt()
    ensures |SafetyPatterns| == 13
    ensures SafetyPatterns[0] == ViolenceTarget && SafetyPatterns[1] == HowToHarm && SafetyPatterns[7] == Explicit
  {
  }

  /** The copy of the violence pattern in test-e2e.js (line 50): four verbs, six targets. */
  const CopyViolenceTarget: Pattern := [AnyOf(["kill", "murder", "shoot", "stab"]), AnyOf(CopyTargets)]
  const CopyTargets: seq<Word> := ["you", "him", "her", "them", "myself", "everyone"]

  /** test-e2e.js:51. */
  const CopyHowToHarm: Pattern := [AnyOf(["how"]), AnyOf(["to"]), AnyOf(["kill", "harm", "hurt", "poison"])]

  /** test-e2e.js:52. */
  const CopySuicideMethod: Pattern := [AnyOf(["suicide", "suicidal"]), AnyOf(["method", "plan", "how"])]

  /** test-e2e.js:53. */
  const CopyHowToSelfHarm: Pattern :=
    [AnyOf(["how"]), Alts([["to"], ["do", "i"]]), Alts([["cut"], ["hang"], ["overdose"], ["end", "it"]])]

  /** test-e2e.js:54. */
  const CopyExplicit: Pattern := [AnyOf(["nude", "naked", "sex", "porn"])]

  /** test-e2e.js:55. */
  const CopySexualViolence: Pattern := [AnyOf(["molest", "rape", "assault"])]

  /** The six-pattern copy of the filter kept in test-e2e.js (lines 49-56), which its server uses. */
  const TestPatterns: seq<Pattern> := [
    CopyViolenceTarget, CopyHowToHarm, CopySuicideMethod, CopyHowToSelfHarm, CopyExplicit, CopySexualViolence]

  lemma TestPatternsAt()
    ensures |TestPatterns| == 6
    ensures TestPatterns[0] == CopyViolenceTarget && TestPatterns[1] == CopyHowToHarm && TestPatterns[4] == CopyExplicit
  {
  }

  /** `SAFETY_EXIT_MESSAGE`. */
  const SafetyExitMessage: string :=
    "I want to step outside our conversation for a moment. What you've shared sounds serious, and you deserve real support from someone who can truly help. Please reach out to a crisis resource \U{2014} you don't have to go through this alone."

  /** `checkSafety` of src/safety.js. */
  predicate CheckSafety(text: string) {
    CheckWith(SafetyPatterns, text)
  }

  /** `checkSafety` of test-e2e.js. */
  predicate TestCheckSafety(text: string) {
    CheckWith(TestPatterns, text)
  }

  // ---------------------------------------------------------------------------
  // The pattern tables are well formed; their first words

  lemma ViolenceTargetWellFormed()
    ensures WellFormed(ViolenceTarget)
  {
  }

  lemma HowToHarmWellFormed()
    ensures WellFormed(HowToHarm)
  {
  }

  lemma SuicideMethodWellFormed()
    ensures WellFormed(SuicideMethod)
  {
  }

  lemma HowToSelfHarmWellFormed()
    ensures WellFormed(HowToSelfHarm)
  {
  }

  lemma SuicidalIntentWellFormed()
    ensures WellFormed(SuicidalIntent)
  {
  }

  lemma BestWayWellFormed()
    ensures WellFormed(BestWay)
  {
  }

  lemma GiveMeAWayWellFormed()
    ensures WellFormed(GiveMeAWay)
  {
  }

  lemma ExplicitWellFormed()
    ensures WellFormed(Explicit)
  {
  }

  lemma SexualViolenceWellFormed()
    ensures WellFormed(SexualViolence)
  {
  }

  lemma ChildExploitationWellFormed()
    ensures WellFormed(ChildExploitation)
  {
  }

  lemma MinorExploitationWellFormed()
    ensures WellFormed(MinorExploitation)
  {
  }

  lemma HowToDrugsWellFormed()
    ensures WellFormed(HowToDrugs)
  {
  }

  lemma HowToWeaponsWellFormed()
    ensures WellFormed(HowToWeapons)
  {
  }

  /** Every pattern of `SAFETY_PATTERNS` has the shape the matcher is proved for. */
  lemma SafetyPatternsWellFormed()
    ensures forall k :: 0 <= k < |SafetyPatterns| ==> WellFormed(SafetyPatterns[k])
  {
    ViolenceTargetWellFormed();
    HowToHarmWellFormed();
    SuicideMethodWellFormed();
    HowToSelfHarmWellFormed();
    SuicidalIntentWellFormed();
    BestWayWellFormed();
    GiveMeAWayWellFormed();
    ExplicitWellFormed();
    SexualViolenceWellFormed();
    ChildExploitationWellFormed();
    MinorExploitationWellFormed();
    HowToDrugsWellFormed();
    HowToWeaponsWellFormed();
  }

  lemma CopyHowToSelfHarmWellFormed()
    ensures WellFormed(CopyHowToSelfHarm)
  {
  }

  lemma CopyViolenceTargetWellFormed()
    ensures WellFormed(CopyViolenceTarget)
  {
  }

  lemma CopyHowToHarmWellFormed()
    ensures WellFormed(CopyHowToHarm)
  {
  }

  lemma CopySuicideMethodWellFormed()
    ensures WellFormed(CopySuicideMethod)
  {
  }

  lemma CopyExplicitWellFormed()
    ensures WellFormed(CopyExplicit)
  {
  }

  lemma CopySexualViolenceWellFormed()
    ensures WellFormed(CopySexualViolence)
  {
  }

  /** Every pattern of the test-e2e.js copy has the shape the matcher is proved for. */
  lemma TestPatternsWellFormed()
    ensures forall k :: 0 <= k < |TestPatterns| ==> WellFormed(TestPatterns[k])
  {
    CopyViolenceTargetWellFormed();
    CopyHowToHarmWellFormed();
    CopySuicideMethodWellFormed();
    CopyHowToSelfHarmWellFormed();
    CopyExplicitWellFormed();
    CopySexualViolenceWellFormed();
  }

  /** The first words of `SAFETY_PATTERNS`: those of the violence and self-harm patterns, then the sexual ones. */
  const SafetyFirstWords: set<string> := HarmFirstWords + SexualFirstWords
  const HarmFirstWords: set<string> := {
    "kill", "murder", "shoot", "stab", "strangle", "choke", "how", "suicide", "suicidal",
    "want", "going", "plan", "planning", "intend", "trying",
    "best", "easiest", "quickest", "fastest", "most", "give"}
  const SexualFirstWords: set<string> := {
    "nude", "naked", "sex", "porn", "pornograph", "hentai", "nsfw",
    "molest", "rape", "assault", "grope", "trafficking", "child", "minor", "minors"}

  lemma SafetyFirstWordsListed(w: string)
    requires IsFirstWord(SafetyPatterns, w)
    ensures w in SafetyFirstWords
  {
  }

  /** The first words of the test-e2e.js copy. */
  const TestFirstWords: set<string> := {
    "kill", "murder", "shoot", "stab", "how", "suicide", "suicidal",
    "nude", "naked", "sex", "porn", "molest", "rape", "assault"}

  lemma TestFirstWordsListed(w: string)
    requires IsFirstWord(TestPatterns, w)
    ensures w in TestFirstWords
  {
  }

  // ---------------------------------------------------------------------------
  // Words that are not first words, told apart by their length and initial

  /** Some first word of either table has length `n`, first two letters `a`, `b` and last letter `z`. */
  predicate FirstWordShape(n: nat, a: char, b: char, z: char) {
    match n
    case 3 =>
      (a == 'h' && b == 'o' && z == 'w') ||
      (a == 's' && b == 'e' && z == 'x')
    case 4 =>
      (a == 'k' && b == 'i' && z == 'l') ||
      (a == 's' && b == 't' && z == 'b') ||
      (a == 'w' && b == 'a' && z == 't') ||
      (a == 'p' && b == 'l' && z == 'n') ||
      (a == 'b' && b == 'e' && z == 't') ||
      (a == 'm' && b == 'o' && z == 't') ||
      (a == 'g' && b == 'i' && z == 'e') ||
      (a == 'n' && b == 'u' && z == 'e') ||
      (a == 'p' && b == 'o' && z == 'n') ||
      (a == 'n' && b == 's' && z == 'w') ||
      (a == 'r' && b == 'a' && z == 'e')
    case 5 =>
      (a == 's' && b == 'h' && z == 't') ||
      (a == 'c' && b == 'h' && z == 'e') ||
      (a == 'c' && b == 'h' && z == 'd') ||
      (a == 'g' && b == 'o' && z == 'g') ||
      (a == 'n' && b == 'a' && z == 'd') ||
      (a == 'g' && b == 'r' && z == 'e') ||
      (a == 'm' && b == 'i' && z == 'r')
    case 6 =>
      (a == 'm' && b == 'u' && z == 'r') ||
      (a == 'i' && b == 'n' && z == 'd') ||
      (a == 't' && b == 'r' && z == 'g') ||
      (a == 'h' && b == 'e' && z == 'i') ||
      (a == 'm' && b == 'o' && z == 't') ||
      (a == 'm' && b == 'i' && z == 's')
    case 7 =>
      (a == 's' && b == 'u' && z == 'e') ||
      (a == 'e' && b == 'a' && z == 't') ||
      (a == 'f' && b == 'a' && z == 't') ||
      (a == 'a' && b == 's' && z == 't')
    case 8 =>
      (a == 's' && b == 't' && z == 'e') ||
      (a == 's' && b == 'u' && z == 'l') ||
      (a == 'p' && b == 'l' && z == 'g') ||
      (a == 'q' && b == 'u' && z == 't')
    case 10 =>
      (a == 'p' && b == 'o' && z == 'h')
    case 11 =>
      (a == 't' && b == 'r' && z == 'g')
    case _ => false
  }


  lemma HarmFirstWordShapes(w: string)
    requires w in HarmFirstWords
    ensures |w| >= 3 && FirstWordShape(|w|, w[0], w[1], w[|w| - 1])
  {
  }

  lemma SexualFirstWordShapes(w: string)
    requires w in SexualFirstWords
    ensures |w| >= 3 && FirstWordShape(|w|, w[0], w[1], w[|w| - 1])
  {
  }

  lemma TestFirstWordShapes(w: string)
    requires w in TestFirstWords
    ensures |w| >= 3 && FirstWordShape(|w|, w[0], w[1], w[|w| - 1])
  {
  }

  /**
   * Every lower-case word with the length and the first, second and last letters
   * of some first word of either table: a superset of both tables' first words.
   */
  ghost const Shaped: iset<string> :=
    iset w | IsLowerWord(w) && |w| >= 3 && FirstWordShape(|w|, w[0], w[1], w[|w| - 1])

  lemma ShapedAreWords()
    ensures AllWords(Shaped)
  {
  }

  lemma SafetyFirstWordsShaped()
    ensures Covers(SafetyPatterns, Shaped)
  {
    SafetyPatternsWellFormed();
    forall w | IsFirstWord(SafetyPatterns, w) ensures w in Shaped {
      SafetyFirstWordShaped(w);
    }
  }

  lemma SafetyFirstWordShaped(w: string)
    requires IsFirstWord(SafetyPatterns, w)
    ensures w in Shaped
  {
    SafetyPatternsWellFormed();
    FirstWordIsWord(SafetyPatterns, w);
    SafetyFirstWordsListed(w);
    if w in HarmFirstWords { HarmFirstWordShapes(w); } else { SexualFirstWordShapes(w); }
  }

  lemma TestFirstWordsShaped()
    ensures Covers(TestPatterns, Shaped)
  {
    TestPatternsWellFormed();
    forall w | IsFirstWord(TestPatterns, w) ensures w in Shaped {
      TestFirstWordShaped(w);
    }
  }

  lemma TestFirstWordShaped(w: string)
    requires IsFirstWord(TestPatterns, w)
    ensures w in Shaped
  {
    TestPatternsWellFormed();
    FirstWordIsWord(TestPatterns, w);
    TestFirstWordsListed(w);
    TestFirstWordShapes(w);
  }

  /** A text in which, once lower-cased, no word shaped like a first word stands whole passes `checkSafety`. */
  lemma SafeWithoutFirstWord(text: string)
    requires NoneWhole(Lower(text), Shaped)
    ensures !CheckSafety(text)
  {
    SafetyFirstWordsShaped();
    NoneWholeSafe(SafetyPatterns, Shaped, text);
  }

  /** The same for the `checkSafety` of test-e2e.js. */
  lemma TestSafeWithoutFirstWord(text: string)
    requires NoneWhole(Lower(text), Shaped)
    ensures !TestCheckSafety(text)
  {
    TestFirstWordsShaped();
    NoneWholeSafe(TestPatterns, Shaped, text);
  }

  /** A word too short, or of a shape no first word has, so that it cannot be a first word. */
  predicate Ordinary(w: string) {
    |w| < 3 || !FirstWordShape(|w|, w[0], w[1], w[|w| - 1])
  }

  /** A lower-case word, or a capitalised one, of a shape no first word has. */
  predicate OrdinaryToken(t: string) {
    (IsLowerWord(t) && Ordinary(t)) ||
    (|t| > 0 && 'A' <= t[0] <= 'Z' && LowerFrom(t[1..], 0) && Ordinary([LowerChar(t[0])] + t[1..]))
  }

  /** An ordinary word, lower-cased, holds no word shaped like a first word. */
  lemma OrdinaryTokenFree(t: string)
    requires OrdinaryToken(t)
    ensures NoneWhole(Lower(t), Shaped)
  {
    ShapedAreWords();
    if IsLowerWord(t) && Ordinary(t) {
      LowerWord(t);
      NoneWholeWord(t, Shaped);
    } else {
      assert t == [t[0]] + t[1..];
      NoneWholeCapital(t[0], t[1..], Shaped);
      forall k | 1 <= k < |t| ensures 'a' <= t[k] <= 'z' {
        assert t[k] == t[1..][k - 1];
        LowerFromAt(t[1..], 0, k - 1);
      }
      assert LowersInPlace(t);
      NoneWholeLower(t, Shaped);
    }
  }

  /**
   * Two ordinary words joined by an apostrophe, as in a contraction, hold no word
   * shaped like a first word once lower-cased.
   */
  lemma ContractionFree(a: string, b: string)
    requires OrdinaryToken(a) && OrdinaryToken(b)
    ensures NoneWhole(Lower(a + "'" + b), Shaped)
  {
    OrdinaryTokenFree(a);
    OrdinaryTokenFree(b);
    ShapedAreWords();
    NoneWholeGlue(Lower(a), '\'', Lower(b), Shaped);
    LowerAppend(a + "'", b);
    LowerAppend(a, "'");
    assert Lower("'") == "'";
    assert Lower(a) + "'" + Lower(b) == Lower(a) + ['\''] + Lower(b);
  }

  /**
   * Words none of which holds a word shaped like a first word once lower-cased,
   * joined by single spaces, hold none either once lower-cased.
   */
  lemma FreeWords(ws: seq<string>)
    requires forall k :: 0 <= k < |ws| ==> NoneWhole(Lower(ws[k]), Shaped)
    ensures NoneWhole(Lower(Unwords(ws)), Shaped)
  {
    var lws := seq(|ws|, k requires 0 <= k < |ws| => Lower(ws[k]));
    LowerUnwords(ws, lws);
    ShapedAreWords();
    NoneWholeUnwords(lws, Shaped);
  }

  /** A message of words, none holding a word shaped like a first word once lower-cased, passes `checkSafety`. */
  lemma FreeMessageSafe(ws: seq<string>)
    requires forall k :: 0 <= k < |ws| ==> NoneWhole(Lower(ws[k]), Shaped)
    ensures !CheckSafety(Unwords(ws))
  {
    FreeWords(ws);
    SafeWithoutFirstWord(Unwords(ws));
  }

  /** The same for the `checkSafety` of test-e2e.js. */
  lemma FreeMessageTestSafe(ws: seq<string>)
    requires forall k :: 0 <= k < |ws| ==> NoneWhole(Lower(ws[k]), Shaped)
    ensures !TestCheckSafety(Unwords(ws))
  {
    FreeWords(ws);
    TestSafeWithoutFirstWord(Unwords(ws));
  }
}
