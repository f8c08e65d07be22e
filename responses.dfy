/** Response selection of `RoseAI._generate_intent_response`: a fixed
    two-level table intent -> language -> text, with a fallback to the
    greeting's English text, and past that a generic sentence. */
module Responses {
  import opened Intent

  type Table = map<string, map<string, string>>

  /** Last step of the fallback chain, used only if the table had no
      greeting/en entry. */
  const Generic: string := "I can tell you about Yash's projects!"

  const GreetingEn: string := "Hello! I'm Rose, Yash's AI creation. How can I help you learn about his work?"

  const ResponseTable: Table := map[
    "greeting" := map[
      "en" := GreetingEn,
      "es" := "¡Hola! Soy Rose, la creación de IA de Yash.",
      "hi" := "नमस्ते! मैं रोज हूं, यश का AI निर्माण।"
    ],
    "tara_project" := map[
      "en" := "Tara is Yash's flagship project - a privacy-first voice assistant with 95% accuracy!",
      "es" := "¡Tara es el proyecto insignia de Yash!",
      "hi" := "तारा यश की प्रमुख परियोजना है!"
    ],
    "testing" := map[
      "en" := "Yash implemented comprehensive testing for Tara including unit, integration, and stress tests!",
      "es" := "¡Yash implementó pruebas exhaustivas!",
      "hi" := "यश ने व्यापक परीक्षण लागू किया!"
    ]
  ]

  /** Both keys of the pair are in the table. */
  predicate Has(table: Table, intent: string, language: string)
  {
    intent in table && language in table[intent]
  }

  /** The lookup with its fallback chain, over any table: it never fails;
      a hit gives the pair's own entry; the answer is always some entry of
      the table, except the generic text, which only a table without a
      greeting/en entry can produce. */
  function Lookup(table: Table, intent: string, language: string): (r: string)
    ensures Has(table, intent, language) ==> r == table[intent][language]
    ensures r == Generic || exists i, l | i in table && l in table[i] :: r == table[i][l]
    ensures Has(table, "greeting", "en") ==> exists i, l | i in table && l in table[i] :: r == table[i][l]
  {
    if Has(table, intent, language) then table[intent][language]
    else if "greeting" in table && "en" in table["greeting"] then table["greeting"]["en"]
    else Generic
  }

  /** `_generate_intent_response(intent, language, user_input)`; the user
      input is accepted and not read. */
  function SelectResponse(intent: string, language: string, userInput: string): string
  {
    Lookup(ResponseTable, intent, language)
  }

  /** The languages every intent of the table answers in. */
  const Languages: set<string> := {"en", "es", "hi"}

  /** The table has the three intents the classifier can name, each in the
      three languages. */
  lemma TableShape()
    ensures ResponseTable.Keys == {"greeting", "tara_project", "testing"}
    ensures forall intent | intent in ResponseTable :: ResponseTable[intent].Keys == Languages
  {
  }

  /** The selection on the fixed table: the entry for the pair exactly when
      both keys exist, the greeting's English text on any miss (an unknown
      intent, an unsupported language such as "fr"), never the generic text,
      and the same answer whatever the user input. */
  lemma SelectResponseSpec(intent: string, language: string, userInput: string, otherInput: string)
    ensures Has(ResponseTable, intent, language) ==> SelectResponse(intent, language, userInput) == ResponseTable[intent][language]
    ensures !Has(ResponseTable, intent, language) ==> SelectResponse(intent, language, userInput) == GreetingEn
    ensures SelectResponse(intent, language, userInput) != Generic
    ensures SelectResponse(intent, language, userInput) == SelectResponse(intent, language, otherInput)
  {
  }

  /** A language outside {en, es, hi} always gets the greeting's English text. */
  lemma UnsupportedLanguage(intent: string, language: string, userInput: string)
    requires language !in Languages
    ensures SelectResponse(intent, language, userInput) == GreetingEn
  {
  }

  /** Every classification has a response of its own in each supported
      language: a recognised intent gets its entry, `unknown` gets the
      greeting's text in English. */
  lemma ClassifiedResponse(text: string, language: string)
    requires language in Languages
    ensures Classify(text).intent != UnknownIntent ==>
      Has(ResponseTable, Classify(text).intent, language) &&
      SelectResponse(Classify(text).intent, language, text) == ResponseTable[Classify(text).intent][language]
    ensures Classify(text).intent == UnknownIntent ==>
      SelectResponse(Classify(text).intent, language, text) == GreetingEn
  {
    ClassificationRange(text);
    TableShape();
    SelectResponseSpec(Classify(text).intent, language, text, text);
  }

  /** Empty input never fails: it is classified `unknown` and answered with
      the greeting's English text, in any language. */
  lemma EmptyInputResponse(language: string)
    ensures SelectResponse(Classify([]).intent, language, []) == GreetingEn
  {
    EmptyIsUnknown();
    SelectResponseSpec(UnknownIntent, language, [], []);
  }
}
