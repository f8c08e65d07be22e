# Rose AI chatbot core, in Dafny

A model of the `RoseAI` class of `chatbot.py`, with proofs about it. `RoseAI` is a small conversational
responder. It classifies free text into an intent with fixed whole-word keyword rules. It answers with a canned,
localised text. It logs each exchange in an in-memory history and keeps a per-user ledger of reward
records. After each change it writes a snapshot of its state that keeps only the newest 100 history entries.

Modules:

- `Text` (text.dfy): ASCII lower-casing and the `\b…\b` whole-word match.
- `Intent` (intent.dfy): the ordered rule table and the specification `Scan`/`Classify` of the classifier. It
  holds `DetectIntent`, the rule-by-rule, pattern-by-pattern loop of `detect_intent`, proved equal to
  `Classify`. It also proves the characterisation "first rule of strictly highest confidence" and the decision
  table of the three rules. `IntentExamples` works through concrete inputs.
- `Responses` (responses.dfy): the intent → language → text table and its fallback chain.
- `Engine` (engine.dfy): the class `RoseAI`. Its fields are the history, the profiles, the reward ledgers and
  the response patterns, plus one field for the memory file's content. It has `GetResponse`,
  `ApplyReinforcementLearning`, `SaveConversationMemory` and a constructor that loads. The snapshot (`Recent`,
  `Snapshot`), the load defaults (`Load`) and the ledger update (`Credit`) are pure functions, with lemmas
  relating them.

The tie rule (equal confidences keep the earlier rule) is shown on "hi, any test?". A plural such as
"hi, any tests?" is not a tie: `\btest\b` does not match inside "tests", so only the greeting rule
matches that input (`IntentExamples.PluralIsNoTie`).

Confidences are written in thousandths, because they are fixed constants that are only compared: 0.9 is
900, 0.95 is 950 and 0.0 is 0. Clock readings (`datetime.now().isoformat()`) are string parameters of the
methods. Rewards are Dafny `real`s, because they are stored and never computed on.

## Model

| member | source | states |
|---|---|---|
| `Text.LowerChar` | chatbot.py:121 | an ASCII upper-case letter moves up by 32 to its lower-case letter; every other character is kept; the result is never upper-case |
| `Text.Lower` | chatbot.py:121 | lower-casing keeps the length and lower-cases each character on its own |
| `Text.LowerIdempotent` | chatbot.py:121 | lower-casing an already lower-cased text changes nothing |
| `Text.WordAt` | chatbot.py:125-133 | `\b` + keyword + `\b` matches at index i: the text spells the keyword from i, and the characters right before and right after it, if any, are not word characters |
| `Text.ContainsWord` | chatbot.py:143 | `re.search` of one keyword between `\b`s succeeds: a whole-word occurrence exists at some index |
| `Text.EmptyHasNoWord` | chatbot.py:143 | no keyword is found in the empty text |
| `Text.EmbeddedIsNoMatch` | chatbot.py:125-133 | an occurrence with a word character right before or right after it is not a `\b` match |
| `Text.MissingCharNoWord` | chatbot.py:143 | a keyword containing a character the text lacks is not found |
| `Text.SingleWordMatch` | chatbot.py:125-133 | in a text of word characters only, a keyword is found exactly when it is the whole text |
| `Intent.Offer` | chatbot.py:144-147 | a matching rule replaces the best so far only when its confidence is strictly greater: the result is the old best or the rule's pair, and its confidence is at least both |
| `Intent.Scan` | chatbot.py:138-147 | the best (intent, confidence) after the first n rules, starting from unknown/0 and offering each matching rule in order; `ScanIsFirstBest` states what it computes |
| `Intent.Classify` | chatbot.py:119-149 | the classification of a text: the scan of all three rules over the lower-cased text; `ClassifyTable` gives it in closed form |
| `Intent.ScanIsFirstBest` | chatbot.py:138-149 | the scan returns `unknown`/0 exactly when no rule matches; otherwise it returns the first matching rule whose confidence no matching rule exceeds, with every earlier match strictly lower |
| `Intent.FirstBestUnique` | chatbot.py:141-147 | at most one rule is the first best, so the characterisation fixes the result |
| `Intent.DetectIntent` | chatbot.py:119-149 | the nested loop over rules and patterns, with replacement only on strictly greater confidence, returns `Classify(text)` |
| `Intent.ClassifyTable` | chatbot.py:123-149 | decision table: tara_project/950 if a tara keyword matches; else greeting/900 if a greeting keyword matches; else testing/900 if a testing keyword matches; else unknown/0 |
| `Intent.TaraDominates` | chatbot.py:128-147 | whenever `tara`, `voice assistant` or `wake word` matches, the result is tara_project/950, whatever else matches |
| `Intent.GreetingBeatsTesting` | chatbot.py:124-147 | when greeting and testing keywords both match (no tara keyword), the tie at 900 goes to the earlier greeting rule |
| `Intent.GreetingWithoutTara` | chatbot.py:124-147 | whenever a greeting keyword matches and no tara_project keyword does, the result is greeting/900, whatever testing keywords match |
| `Intent.UnknownIffNoMatch` | chatbot.py:138-149 | the result is unknown/0 exactly when no rule matches the lower-cased text |
| `Intent.ClassificationRange` | chatbot.py:123-149 | the confidence is 0, 900 or 950; the intent is one of four labels; it is `unknown` exactly when the confidence is 0 |
| `Intent.EmptyIsUnknown` | chatbot.py:121-149 | the empty input is classified unknown/0 |
| `Intent.ClassifyIgnoresCase` | chatbot.py:121 | classifying the lower-cased text gives the same result as classifying the text |
| `IntentExamples.LowerOfLowercase` | chatbot.py:121 | a text with no upper-case ASCII letter is unchanged by lower-casing |
| `IntentExamples.KeywordMatches` | chatbot.py:141-143 | one whole-word occurrence of any keyword of a rule's pattern makes the rule match |
| `IntentExamples.NoTaraLetters` | chatbot.py:129 | a text without 'r', 'v' and 'w' matches no tara_project keyword |
| `IntentExamples.ShoutedIsLowered` | chatbot.py:121 | "HELLO" lower-cases to "hello" |
| `IntentExamples.HelloGreets` | chatbot.py:125 | "hello" matches the greeting pattern |
| `IntentExamples.HelloHasNoTara` | chatbot.py:129 | "hello" matches no tara_project keyword |
| `IntentExamples.ShoutedGreeting` | chatbot.py:121-147 | "HELLO" is a greeting with confidence 900 |
| `IntentExamples.TieIsLower` | chatbot.py:121 | "hi, any test?" is its own lower-cased form |
| `IntentExamples.TieGreets` | chatbot.py:125 | "hi" is a whole word of "hi, any test?" |
| `IntentExamples.TieTests` | chatbot.py:133 | "test" is a whole word of "hi, any test?", between a space and '?' |
| `IntentExamples.TieHasNoTara` | chatbot.py:129 | "hi, any test?" matches no tara_project keyword |
| `IntentExamples.GreetingAndTest` | chatbot.py:141-147 | "hi, any test?" matches greeting and testing and is classified greeting |
| `IntentExamples.PluralIsLower` | chatbot.py:121 | "hi, any tests?" is its own lower-cased form |
| `IntentExamples.PluralGreets` | chatbot.py:125 | "hi" is a whole word of "hi, any tests?" |
| `IntentExamples.PluralHasNoTara` | chatbot.py:129 | "hi, any tests?" matches no tara_project keyword |
| `IntentExamples.PluralTestIsEmbedded` | chatbot.py:133 | "test" is no whole word of "hi, any tests?": its one occurrence is followed by 's' |
| `IntentExamples.PluralLacksLongerKeywords` | chatbot.py:133 | "testing", "test case" and "qa" do not occur in "hi, any tests?" |
| `IntentExamples.PluralHasNoTesting` | chatbot.py:133 | no testing keyword is a whole word of "hi, any tests?" |
| `IntentExamples.PluralIsNoTie` | chatbot.py:125-147 | "hi, any tests?" is greeting/900 with no tie: the testing rule does not match it |
| `IntentExamples.HitIsLowered` | chatbot.py:121 | "Hit" lower-cases to "hit" |
| `IntentExamples.HitMatchesNoRule` | chatbot.py:123-136 | no rule matches "hit", although it holds "hi" |
| `IntentExamples.HitIsUnknown` | chatbot.py:121-149 | "Hit" is classified unknown/0 |
| `IntentExamples.ContestIsLower` | chatbot.py:121 | "contest" is its own lower-cased form |
| `IntentExamples.ContestMatchesNoRule` | chatbot.py:123-136 | no rule matches "contest", although it holds "test" |
| `IntentExamples.ContestIsUnknown` | chatbot.py:121-149 | "contest" is classified unknown/0 |
| `IntentExamples.SingleWordNoRule` | chatbot.py:123-136 | a single word that is none of the keywords matches no rule |
| `Responses.SelectResponse` | chatbot.py:172-196 | the lookup on the fixed table, the user input unread; `SelectResponseSpec` states the answer |
| `Responses.Lookup` | chatbot.py:193-196 | over any table the lookup never fails; a hit returns the pair's own entry; every answer is an entry of the table, except the generic sentence, which only a table without a greeting/en entry can produce |
| `Responses.TableShape` | chatbot.py:175-191 | the table has greeting, tara_project and testing, each in en, es and hi |
| `Responses.SelectResponseSpec` | chatbot.py:172-196 | the entry for (intent, language) when both keys exist; the greeting/en text on any miss; never the generic sentence; the user input does not change the answer |
| `Responses.UnsupportedLanguage` | chatbot.py:193-196 | a language outside en/es/hi (such as "fr") gets the greeting/en text for every intent |
| `Responses.ClassifiedResponse` | chatbot.py:154-166 | in a supported language, a recognised intent gets its own entry and `unknown` gets the greeting/en text |
| `Responses.EmptyInputResponse` | chatbot.py:138-196 | the empty input is answered with the greeting/en text in every language |
| `Engine.Snapshot` | chatbot.py:95-101 | the written document: its conversations are the newest min(N, 100) history entries, a suffix of the history; the profiles, ledgers and patterns whole; the time of writing |
| `Engine.Load` | chatbot.py:105-117 | the fields after loading: empty when there is no readable document, otherwise each key's value or its empty default; `LoadDefaults` and `RestartFromSnapshot` state its cases |
| `Engine.Recent` | chatbot.py:96 | `history[-100:]` has min(N, 100) entries, the newest ones, in their original order |
| `Engine.RestartFromSnapshot` | chatbot.py:95-115 | loading a written snapshot restores the newest 100 history entries and the profiles, ledgers and patterns whole |
| `Engine.RecentIdempotent` | chatbot.py:96 | truncating an already truncated history changes nothing |
| `Engine.SnapshotAfterCalls` | chatbot.py:96 | after N appended entries the snapshot holds min(total, 100); once N >= 100 it is exactly the newest 100 appended; from an empty history with N < 100 it is all of them |
| `Engine.LoadDefaults` | chatbot.py:105-117 | an absent or unreadable file, or a document without the keys, gives empty history, profiles, ledgers and patterns |
| `Engine.Credit` | chatbot.py:200-207 | the user's ledger exists afterwards, has grown by exactly the new record at its end, and every other user's ledger is unchanged |
| `Engine.CreditAllAppends` | chatbot.py:198-207 | repeated feedback for one user appends the records in call order; other ledgers stay as they were |
| `Engine.TwoFeedbacks` | chatbot.py:198-207 | feedback 1.0 then -1.0 from a new user leaves exactly those two records, in order, and no other ledger changes |
| `Engine.RoseAI.constructor` | chatbot.py:14-20 | the fields are what loading the memory file gives |
| `Engine.RoseAI.SaveConversationMemory` | chatbot.py:92-103 | the memory file is overwritten with the snapshot of the current state |
| `Engine.RoseAI.GetResponse` | chatbot.py:151-170 | one entry is appended, holding the arguments unchanged and the input's classification; earlier entries and the other fields are unchanged; the snapshot is written; the response is the selection for the detected intent |
| `Engine.RoseAI.ApplyReinforcementLearning` | chatbot.py:198-209 | the ledgers become `Credit` of the old ledgers with the new record; history, profiles and patterns are unchanged; the snapshot is written |

## Left out

- File I/O in `save_conversation_memory` and `load_conversation_memory`: opening and writing the file and
  JSON encoding and decoding are not modelled. The file is a field holding the last document written. Loading
  takes the parsed document, or nothing when the file is absent or unreadable (the bare `except: pass`). A
  document whose keys hold values of the wrong type is not modelled.
- Timestamps: each `datetime.now().isoformat()` reading is a string parameter (`entryTime`, `now`, `saveTime`).
- `_load_knowledge_base` (chatbot.py:22-90): a data literal that no response reads.
- The unused `numpy` import and the `__main__` block.
- `api.py`: HTTP routing, CORS, JSON and server start-up. Its empty-message check and its read-back of the last
  entry's timestamp are glue around `get_response`.
- Concurrency on the shared engine: the source has no locking, and the model is sequential.
- Text.Lower: only ASCII 'A'..'Z' are lower-cased. Python's `str.lower()` also lower-cases other Unicode letters,
  and for a few characters it changes the length.
- Text.IsWordChar: the word characters of `\b` are ASCII `[A-Za-z0-9_]`. Python's `\w` also counts other Unicode
  letters and digits, so an accented letter right next to a keyword is a boundary here and not in Python.
- Intent.DetectIntent: confidences are integers in thousandths, not floats. They are only compared, so the
  order and the ties are the same.
- The default arguments `language='en'` of `detect_intent` and `get_response` and `user_id='anonymous'` of
  `get_response` (chatbot.py:119, 151): the model's methods take every argument explicitly, as every caller in
  the source passes them.
- The `language` argument of `detect_intent` and the `user_input` argument of `_generate_intent_response` are
  kept in the signatures and, as in the source, not read.
