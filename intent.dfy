/** The intent classifier of `RoseAI.detect_intent`: an ordered table of
    rules, each a list of whole-word patterns with a fixed confidence; the
    result is the rule of strictly highest confidence, the earliest one among
    equals, or `('unknown', 0.0)` when no rule matches.

    Confidences are fixed constants that are only compared, so they are
    written in thousandths: 0.9 is 900, 0.95 is 950, 0.0 is 0. */
module Intent {
  import opened Text

  /** One regular expression `\b(k1|k2|...)\b`, given by its alternatives. */
  type Pattern = seq<string>

  datatype Rule = Rule(intent: string, patterns: seq<Pattern>, confidence: nat)

  /** The pair `detect_intent` returns. */
  datatype Classification = Classification(intent: string, confidence: nat)

  const UnknownIntent: string := "unknown"
  const Unknown: Classification := Classification(UnknownIntent, 0)

  const GreetingRule: Rule :=
    Rule("greeting", [["hello", "hi", "hey", "sup", "yo"]], 900)
  const TaraRule: Rule :=
    Rule("tara_project", [["tara", "voice assistant", "wake word"]], 950)
  const TestingRule: Rule :=
    Rule("testing", [["test", "testing", "test case", "qa"]], 900)

  /** The rule table, in the order the classifier scans it. */
  const Rules: seq<Rule> := [GreetingRule, TaraRule, TestingRule]

  /** `re.search(pattern, t)` succeeds: some alternative occurs as a whole word. */
  predicate PatternMatches(t: string, p: Pattern)
  {
    exists k | 0 <= k < |p| :: ContainsWord(t, p[k])
  }

  /** Some pattern of the rule matches `t`. */
  predicate RuleMatches(t: string, r: Rule)
  {
    exists j | 0 <= j < |r.patterns| :: PatternMatches(t, r.patterns[j])
  }

  /** What one matching rule does to the best result so far: it replaces it
      only when its confidence is strictly greater. */
  function Offer(best: Classification, r: Rule): (next: Classification)
    ensures next.confidence >= best.confidence && next.confidence >= r.confidence
    ensures next == best || next == Classification(r.intent, r.confidence)
    ensures next != best ==> next.confidence > best.confidence
  {
    if r.confidence > best.confidence then Classification(r.intent, r.confidence) else best
  }

  /** The best result after the first `n` rules have been scanned over the
      (already lower-cased) text `t`. */
  function Scan(rules: seq<Rule>, t: string, n: nat): Classification
    requires n <= |rules|
  {
    if n == 0 then Unknown
    else if RuleMatches(t, rules[n - 1]) then Offer(Scan(rules, t, n - 1), rules[n - 1])
    else Scan(rules, t, n - 1)
  }

  /** The classification of a text, as `detect_intent` computes it. */
  function Classify(text: string): Classification
  {
    Scan(Rules, Lower(text), |Rules|)
  }

  /** Reference definition of the winner: rule `k` among the first `n`
      matches, no matching rule has a greater confidence, and every matching
      rule before it has a strictly smaller one. */
  predicate IsFirstBest(rules: seq<Rule>, t: string, n: nat, k: int)
    requires n <= |rules|
  {
    && 0 <= k < n
    && RuleMatches(t, rules[k])
    && (forall j | 0 <= j < n && RuleMatches(t, rules[j]) :: rules[j].confidence <= rules[k].confidence)
    && (forall j | 0 <= j < k && RuleMatches(t, rules[j]) :: rules[j].confidence < rules[k].confidence)
  }

  predicate PositiveConfidences(rules: seq<Rule>)
  {
    forall j | 0 <= j < |rules| :: rules[j].confidence > 0
  }

  /** The scan finds the first best rule: `Unknown` exactly when no rule
      matches, and otherwise the intent and confidence of the first rule of
      highest confidence among those that match. */
  lemma {:induction false} ScanIsFirstBest(rules: seq<Rule>, t: string, n: nat)
    requires n <= |rules|
    requires PositiveConfidences(rules)
    ensures Scan(rules, t, n) == Unknown <==> forall j | 0 <= j < n :: !RuleMatches(t, rules[j])
    ensures Scan(rules, t, n) != Unknown ==>
      exists k :: IsFirstBest(rules, t, n, k)
        && Scan(rules, t, n) == Classification(rules[k].intent, rules[k].confidence)
  {
    if n > 0 {
      ScanIsFirstBest(rules, t, n - 1);
      var prev := Scan(rules, t, n - 1);
      var r := rules[n - 1];
      if RuleMatches(t, r) && r.confidence > prev.confidence {
        assert IsFirstBest(rules, t, n, n - 1) by {
          if prev != Unknown {
            var k :| IsFirstBest(rules, t, n - 1, k) && prev == Classification(rules[k].intent, rules[k].confidence);
          }
        }
      } else if prev != Unknown {
        var k :| IsFirstBest(rules, t, n - 1, k) && prev == Classification(rules[k].intent, rules[k].confidence);
        assert IsFirstBest(rules, t, n, k);
      } else {
        assert !RuleMatches(t, r);
      }
    }
  }

  /** The first-best rule is unique, so the characterisation above
      determines the result. */
  lemma FirstBestUnique(rules: seq<Rule>, t: string, n: nat, k1: int, k2: int)
    requires n <= |rules|
    requires IsFirstBest(rules, t, n, k1) && IsFirstBest(rules, t, n, k2)
    ensures k1 == k2
  {
  }

  /** Mirror of the nested loop of `detect_intent`: for each rule in table
      order, for each of its patterns, a match offers the rule's confidence,
      which replaces the best so far only when strictly greater. */
  method DetectIntent(text: string, language: string) returns (intent: string, confidence: nat)
    ensures Classification(intent, confidence) == Classify(text)
  {
    var textLower := Lower(text);
    intent, confidence := UnknownIntent, 0;
    var i := 0;
    while i < |Rules|
      invariant i <= |Rules|
      invariant Classification(intent, confidence) == Scan(Rules, textLower, i)
    {
      var rule := Rules[i];
      ghost var before := Classification(intent, confidence);
      var j := 0;
      while j < |rule.patterns|
        invariant j <= |rule.patterns|
        invariant Classification(intent, confidence) ==
          if exists m | 0 <= m < j :: PatternMatches(textLower, rule.patterns[m])
          then Offer(before, rule) else before
      {
        if PatternMatches(textLower, rule.patterns[j]) {
          if rule.confidence > confidence {
            intent, confidence := rule.intent, rule.confidence;
          }
        }
        j := j + 1;
      }
      i := i + 1;
    }
  }

  /** The decision table of the fixed rules: a tara_project keyword wins
      whatever else matches; otherwise a greeting keyword; otherwise a
      testing keyword; otherwise `unknown` with confidence 0. */
  lemma {:induction false} ClassifyTable(text: string)
    ensures var t := Lower(text);
      Classify(text) ==
        if RuleMatches(t, TaraRule) then Classification("tara_project", 950)
        else if RuleMatches(t, GreetingRule) then Classification("greeting", 900)
        else if RuleMatches(t, TestingRule) then Classification("testing", 900)
        else Unknown
  {
    var t := Lower(text);
    assert Rules[0] == GreetingRule && Rules[1] == TaraRule && Rules[2] == TestingRule;
    ScanIsFirstBest(Rules, t, 3);
    if Classify(text) != Unknown {
      var k :| IsFirstBest(Rules, t, 3, k) && Classify(text) == Classification(Rules[k].intent, Rules[k].confidence);
      if RuleMatches(t, TaraRule) {
        assert k == 1;
      } else if RuleMatches(t, GreetingRule) {
        assert k == 0;
      } else {
        assert k == 2;
      }
    }
  }

  /** Whenever a tara_project keyword (`tara`, `voice assistant`,
      `wake word`) matches, the result is ('tara_project', 0.95). */
  lemma TaraDominates(text: string)
    requires RuleMatches(Lower(text), TaraRule)
    ensures Classify(text) == Classification("tara_project", 950)
  {
    ClassifyTable(text);
  }

  /** Ties go to the earlier rule: greeting and testing share 0.9, and
      greeting comes first, so greeting wins whenever both match (and no
      tara_project keyword does). */
  lemma GreetingBeatsTesting(text: string)
    requires RuleMatches(Lower(text), GreetingRule) && RuleMatches(Lower(text), TestingRule)
    requires !RuleMatches(Lower(text), TaraRule)
    ensures Classify(text) == Classification("greeting", 900)
  {
    ClassifyTable(text);
  }

  /** Whenever a greeting keyword matches and no tara_project keyword does,
      the result is greeting/900, whatever testing keywords match. */
  lemma GreetingWithoutTara(text: string)
    requires RuleMatches(Lower(text), GreetingRule) && !RuleMatches(Lower(text), TaraRule)
    ensures Classify(text) == Classification("greeting", 900)
  {
    ClassifyTable(text);
  }

  /** The result is `unknown` exactly when no rule matches the lower-cased text. */
  lemma UnknownIffNoMatch(text: string)
    ensures Classify(text) == Unknown <==> forall j | 0 <= j < |Rules| :: !RuleMatches(Lower(text), Rules[j])
  {
    ScanIsFirstBest(Rules, Lower(text), |Rules|);
  }

  /** The confidence is always 0, 0.9 or 0.95, the intent is one of the four
      labels, and it is `unknown` exactly when the confidence is 0. */
  lemma ClassificationRange(text: string)
    ensures Classify(text).confidence in {0, 900, 950}
    ensures Classify(text).intent in {"unknown", "greeting", "tara_project", "testing"}
    ensures Classify(text).intent == UnknownIntent <==> Classify(text).confidence == 0
  {
    ClassifyTable(text);
  }

  /** No keyword is empty, so the empty input matches nothing. */
  lemma EmptyIsUnknown()
    ensures Classify([]) == Unknown
  {
    forall j | 0 <= j < |Rules| ensures !RuleMatches(Lower([]), Rules[j]) {
      forall m, k | 0 <= m < |Rules[j].patterns| && 0 <= k < |Rules[j].patterns[m]|
        ensures !ContainsWord([], Rules[j].patterns[m][k])
      {
        EmptyHasNoWord(Rules[j].patterns[m][k]);
      }
    }
    UnknownIffNoMatch([]);
  }

  /** Matching ignores case: only the lower-cased text is searched. */
  lemma ClassifyIgnoresCase(text: string)
    ensures Classify(Lower(text)) == Classify(text)
  {
    LowerIdempotent(text);
  }
}

/** Worked inputs for the classifier: upper-case input is classified by its
    lower-cased form, a keyword inside a longer word does not match, and a
    tie between greeting and testing goes to the earlier greeting rule. */
module IntentExamples {
  import opened Text
  import opened Intent

  /** A text without upper-case letters is its own lower-cased form. */
  lemma LowerOfLowercase(s: string)
    requires forall i | 0 <= i < |s| :: !('A' <= s[i] <= 'Z')
    ensures Lower(s) == s
  {
  }

  /** A whole-word occurrence of one of a rule's keywords makes the rule match. */
  lemma KeywordMatches(t: string, r: Rule, j: int, k: int, i: int)
    requires 0 <= j < |r.patterns| && 0 <= k < |r.patterns[j]|
    requires WordAt(t, r.patterns[j][k], i)
    ensures RuleMatches(t, r)
  {
    assert ContainsWord(t, r.patterns[j][k]);
  }

  /** A text without 'r', 'v' and 'w' holds no tara_project keyword. */
  lemma NoTaraLetters(t: string)
    requires 'r' !in t && 'v' !in t && 'w' !in t
    ensures !RuleMatches(t, TaraRule)
  {
    MissingCharNoWord(t, "tara", 'r');
    MissingCharNoWord(t, "voice assistant", 'v');
    MissingCharNoWord(t, "wake word", 'w');
  }

  /** "HELLO" lower-cases to "hello". */
  lemma ShoutedIsLowered()
    ensures Lower("HELLO") == "hello"
  {
  }

  /** "hello" is a greeting keyword standing alone. */
  lemma HelloGreets()
    ensures RuleMatches("hello", GreetingRule)
  {
    KeywordMatches("hello", GreetingRule, 0, 0, 0);
  }

  /** "hello" holds no tara_project keyword. */
  lemma HelloHasNoTara()
    ensures !RuleMatches("hello", TaraRule)
  {
    NoTaraLetters("hello");
  }

  /** Upper-case input is classified like its lower-case form. */
  lemma ShoutedGreeting()
    ensures Classify("HELLO") == Classification("greeting", 900)
  {
    ShoutedIsLowered();
    HelloGreets();
    HelloHasNoTara();
    GreetingWithoutTara("HELLO");
  }

  /** "hi, any test?" is already lower-case. */
  lemma TieIsLower()
    ensures Lower("hi, any test?") == "hi, any test?"
  {
    LowerOfLowercase("hi, any test?");
  }

  /** "hi" opens "hi, any test?" as a whole word. */
  lemma TieGreets()
    ensures RuleMatches("hi, any test?", GreetingRule)
  {
    KeywordMatches("hi, any test?", GreetingRule, 0, 1, 0);
  }

  /** "test" stands as a whole word in "hi, any test?", between a space and '?'. */
  lemma TieTests()
    ensures RuleMatches("hi, any test?", TestingRule)
  {
    assert "hi, any test?"[8..12] == "test";
    KeywordMatches("hi, any test?", TestingRule, 0, 0, 8);
  }

  /** "hi, any test?" holds no tara_project keyword. */
  lemma TieHasNoTara()
    ensures !RuleMatches("hi, any test?", TaraRule)
  {
    NoTaraLetters("hi, any test?");
  }

  /** Both a greeting and a testing keyword: the tie goes to greeting. */
  lemma GreetingAndTest()
    ensures RuleMatches(Lower("hi, any test?"), GreetingRule) && RuleMatches(Lower("hi, any test?"), TestingRule)
    ensures Classify("hi, any test?") == Classification("greeting", 900)
  {
    TieIsLower();
    TieGreets();
    TieTests();
    TieHasNoTara();
    GreetingBeatsTesting("hi, any test?");
  }

  /** "hi, any tests?" is already lower-case. */
  lemma PluralIsLower()
    ensures Lower("hi, any tests?") == "hi, any tests?"
  {
    LowerOfLowercase("hi, any tests?");
  }

  /** "hi" opens "hi, any tests?" as a whole word. */
  lemma PluralGreets()
    ensures RuleMatches("hi, any tests?", GreetingRule)
  {
    KeywordMatches("hi, any tests?", GreetingRule, 0, 1, 0);
  }

  /** "hi, any tests?" holds no tara_project keyword. */
  lemma PluralHasNoTara()
    ensures !RuleMatches("hi, any tests?", TaraRule)
  {
    NoTaraLetters("hi, any tests?");
  }

  /** "test" is no whole word of "hi, any tests?": its only occurrence
      starts at index 8 and is followed by the word character 's'; no
      other index starts with 't' and leaves room for four characters. */
  lemma PluralTestIsEmbedded()
    ensures !ContainsWord("hi, any tests?", "test")
  {
    var t := "hi, any tests?";
    forall i | 0 <= i <= |t| ensures !WordAt(t, "test", i) {
      if i == 8 {
        assert t[8..12] == "test";
        EmbeddedIsNoMatch(t, "test", 8);
      } else if i + 4 <= |t| {
        assert t[i..i + 4][0] == t[i];
        assert t[i] != 't';
      }
    }
  }

  /** "testing", "test case" and "qa" need a 'g', a 'c' and a 'q', which
      "hi, any tests?" lacks. */
  lemma PluralLacksLongerKeywords()
    ensures !ContainsWord("hi, any tests?", "testing")
    ensures !ContainsWord("hi, any tests?", "test case")
    ensures !ContainsWord("hi, any tests?", "qa")
  {
    MissingCharNoWord("hi, any tests?", "testing", 'g');
    MissingCharNoWord("hi, any tests?", "test case", 'c');
    MissingCharNoWord("hi, any tests?", "qa", 'q');
  }

  /** No testing keyword is a whole word of "hi, any tests?". */
  lemma PluralHasNoTesting()
    ensures !RuleMatches("hi, any tests?", TestingRule)
  {
    PluralTestIsEmbedded();
    PluralLacksLongerKeywords();
  }

  /** "hi, any tests?" is no tie: only the greeting rule matches it, and it
      is classified greeting. */
  lemma PluralIsNoTie()
    ensures !RuleMatches(Lower("hi, any tests?"), TestingRule)
    ensures Classify("hi, any tests?") == Classification("greeting", 900)
  {
    PluralIsLower();
    PluralGreets();
    PluralHasNoTara();
    PluralHasNoTesting();
    GreetingWithoutTara("hi, any tests?");
  }

  /** "Hit" lower-cases to "hit". */
  lemma HitIsLowered()
    ensures Lower("Hit") == "hit"
  {
  }

  /** "hit" holds "hi" but is no keyword, so no rule matches it. */
  lemma HitMatchesNoRule()
    ensures forall j | 0 <= j < |Rules| :: !RuleMatches("hit", Rules[j])
  {
    SingleWordNoRule("hit");
  }

  /** A keyword inside a longer word does not match: "Hit" holds "hi" and is
      `unknown`. */
  lemma HitIsUnknown()
    ensures Classify("Hit") == Unknown
  {
    HitIsLowered();
    HitMatchesNoRule();
    UnknownIffNoMatch("Hit");
  }

  /** "contest" is already lower-case. */
  lemma ContestIsLower()
    ensures Lower("contest") == "contest"
  {
    LowerOfLowercase("contest");
  }

  /** "contest" holds "test" but is no keyword, so no rule matches it. */
  lemma ContestMatchesNoRule()
    ensures forall j | 0 <= j < |Rules| :: !RuleMatches("contest", Rules[j])
  {
    SingleWordNoRule("contest");
  }

  /** "contest" holds "test" and is `unknown`. */
  lemma ContestIsUnknown()
    ensures Classify("contest") == Unknown
  {
    ContestIsLower();
    ContestMatchesNoRule();
    UnknownIffNoMatch("contest");
  }

  /** A single word that is none of the keywords matches no rule. */
  lemma SingleWordNoRule(t: string)
    requires forall i :: 0 <= i < |t| ==> IsWordChar(t[i])
    requires forall j, m, k | 0 <= j < |Rules| && 0 <= m < |Rules[j].patterns| && 0 <= k < |Rules[j].patterns[m]|
      :: Rules[j].patterns[m][k] != t
    ensures forall j | 0 <= j < |Rules| :: !RuleMatches(t, Rules[j])
  {
    forall j, m, k | 0 <= j < |Rules| && 0 <= m < |Rules[j].patterns| && 0 <= k < |Rules[j].patterns[m]|
      ensures !ContainsWord(t, Rules[j].patterns[m][k])
    {
      SingleWordMatch(t, Rules[j].patterns[m][k]);
    }
  }
}
