/** The conversation engine `RoseAI`: its in-memory state (conversation
    history, user profiles, reward ledgers, response patterns), the two
    operations that change it (`get_response`, `apply_reinforcement_learning`),
    and the snapshot `save_conversation_memory` writes and
    `load_conversation_memory` reads back.

    The memory file is modelled as a field holding the last document
    written; clock readings are parameters. */
module Engine {
  import opened Intent
  import opened Responses

  datatype Option<T> = None | Some(value: T)
  {
    function GetOr(default: T): T
    {
      if Some? then value else default
    }
  }

  /** One logged exchange; `confidence` in thousandths. */
  datatype Entry = Entry(timestamp: string, userId: string, input: string, language: string,
                         intent: string, confidence: nat)

  /** One reward record; the reward is stored and never computed on. */
  datatype Feedback = Feedback(responseId: string, reward: real, timestamp: string)

  /** A user profile; the engine never writes one, it only carries them. */
  type Profile = map<string, string>

  /** The reward ledgers, one list per user id. */
  type Ledgers = map<string, seq<Feedback>>

  /** The memory document as parsed from the file: each top-level key may
      be missing. */
  datatype Document = Document(
    conversations: Option<seq<Entry>>,
    userProfiles: Option<map<string, Profile>>,
    rlRewards: Option<Ledgers>,
    responsePatterns: Option<map<string, string>>,
    lastUpdated: Option<string>)

  /** The engine's fields as one value. */
  datatype EngineState = EngineState(
    history: seq<Entry>,
    userProfiles: map<string, Profile>,
    rlRewards: Ledgers,
    responsePatterns: map<string, string>)

  const EmptyState: EngineState := EngineState([], map[], map[], map[])

  /** How many history entries a snapshot keeps. */
  const HistoryKept: nat := 100

  /** Python's `s[start:]`: a negative start counts from the end and is
      clamped at 0; a start past the end gives the empty list. */
  function SliceFrom<T>(s: seq<T>, start: int): seq<T>
  {
    var lo := if start < 0 then (if |s| + start < 0 then 0 else |s| + start)
              else if start > |s| then |s| else start;
    s[lo..]
  }

  /** `history[-100:]`: the newest min(N, 100) entries of an N-entry
      history, in their original order. */
  function Recent(history: seq<Entry>): (r: seq<Entry>)
    ensures |r| == if |history| < HistoryKept then |history| else HistoryKept
    ensures forall i | 0 <= i < |r| :: r[i] == history[|history| - |r| + i]
  {
    SliceFrom(history, -(HistoryKept as int))
  }

  /** The document `save_conversation_memory` writes: the newest
      min(N, 100) history entries, as a suffix of the history, the
      profiles, ledgers and patterns whole, and the time of writing. */
  function Snapshot(s: EngineState, lastUpdated: string): (d: Document)
    ensures d.conversations.Some?
    ensures |d.conversations.value| == if |s.history| < HistoryKept then |s.history| else HistoryKept
    ensures d.conversations.value == s.history[|s.history| - |d.conversations.value|..]
    ensures d.userProfiles == Some(s.userProfiles) && d.rlRewards == Some(s.rlRewards)
    ensures d.responsePatterns == Some(s.responsePatterns) && d.lastUpdated == Some(lastUpdated)
  {
    Document(Some(Recent(s.history)), Some(s.userProfiles), Some(s.rlRewards),
             Some(s.responsePatterns), Some(lastUpdated))
  }

  /** What `load_conversation_memory` leaves in the fields: the defaults
      when there is no readable document, and otherwise each key's value or
      its empty default when the key is missing. */
  function Load(file: Option<Document>): EngineState
  {
    match file
    case None => EmptyState
    case Some(d) =>
      EngineState(d.conversations.GetOr([]), d.userProfiles.GetOr(map[]),
                  d.rlRewards.GetOr(map[]), d.responsePatterns.GetOr(map[]))
  }

  /** Restarting from a snapshot keeps the newest 100 entries of the history
      and every profile, ledger and pattern, whole. */
  lemma RestartFromSnapshot(s: EngineState, lastUpdated: string)
    ensures Load(Some(Snapshot(s, lastUpdated))).history ==
      (if |s.history| <= HistoryKept then s.history else s.history[|s.history| - HistoryKept..])
    ensures Load(Some(Snapshot(s, lastUpdated))).userProfiles == s.userProfiles
    ensures Load(Some(Snapshot(s, lastUpdated))).rlRewards == s.rlRewards
    ensures Load(Some(Snapshot(s, lastUpdated))).responsePatterns == s.responsePatterns
  {
  }

  /** Saving again after a restart writes the same conversations: the
      truncation is idempotent. */
  lemma RecentIdempotent(history: seq<Entry>)
    ensures Recent(Recent(history)) == Recent(history)
  {
  }

  /** After entries `logged` are appended to a history `h` (one per call of
      `get_response`), the snapshot keeps the newest min(|h| + N, 100)
      entries; once N >= 100 they are exactly the newest 100 logged. */
  lemma SnapshotAfterCalls(h: seq<Entry>, logged: seq<Entry>)
    ensures |Recent(h + logged)| == if |h| + |logged| < HistoryKept then |h| + |logged| else HistoryKept
    ensures |logged| >= HistoryKept ==> Recent(h + logged) == logged[|logged| - HistoryKept..]
    ensures h == [] && |logged| < HistoryKept ==> Recent(h + logged) == logged
  {
  }

  /** A corrupt or absent file and a document with none of the keys both
      start the engine empty. */
  lemma LoadDefaults()
    ensures Load(None) == EmptyState
    ensures Load(Some(Document(None, None, None, None, None))) == EmptyState
  {
  }

  /** The ledger of a user: their list, or the empty list if they have none. */
  function Ledger(ledgers: Ledgers, user: string): seq<Feedback>
  {
    if user in ledgers then ledgers[user] else []
  }

  /** The ledgers after one reward record for `user`: the user's ledger
      exists and has grown by exactly that record at its end, and every
      other user's ledger is as it was (present or absent). */
  function Credit(ledgers: Ledgers, user: string, record: Feedback): (r: Ledgers)
    ensures r.Keys == ledgers.Keys + {user}
    ensures r[user] == Ledger(ledgers, user) + [record]
    ensures forall other | other in ledgers && other != user :: r[other] == ledgers[other]
  {
    ledgers[user := Ledger(ledgers, user) + [record]]
  }

  /** The ledgers after a series of records for one user, in call order. */
  function CreditAll(ledgers: Ledgers, user: string, records: seq<Feedback>): Ledgers
    decreases |records|
  {
    if records == [] then ledgers
    else CreditAll(Credit(ledgers, user, records[0]), user, records[1..])
  }

  /** Repeated feedback for a user appends the records to that user's
      ledger in call order and leaves every other user's ledger alone. */
  lemma {:induction false} CreditAllAppends(ledgers: Ledgers, user: string, records: seq<Feedback>)
    ensures Ledger(CreditAll(ledgers, user, records), user) == Ledger(ledgers, user) + records
    ensures CreditAll(ledgers, user, records).Keys == ledgers.Keys + (if records == [] then {} else {user})
    ensures forall other | other in ledgers && other != user ::
      CreditAll(ledgers, user, records)[other] == ledgers[other]
    decreases |records|
  {
    if records != [] {
      var next := Credit(ledgers, user, records[0]);
      CreditAllAppends(next, user, records[1..]);
      assert Ledger(ledgers, user) + [records[0]] + records[1..] == Ledger(ledgers, user) + records;
    }
  }

  /** Feedback 1.0 then -1.0 from a user without a ledger leaves exactly
      those two records, in call order, and no other ledger changes. */
  lemma TwoFeedbacks(ledgers: Ledgers, user: string, first: string, second: string, t1: string, t2: string)
    requires user !in ledgers
    ensures var after := CreditAll(ledgers, user, [Feedback(first, 1.0, t1), Feedback(second, -1.0, t2)]);
      && user in after && after[user] == [Feedback(first, 1.0, t1), Feedback(second, -1.0, t2)]
      && forall other | other in ledgers :: other in after && after[other] == ledgers[other]
  {
    CreditAllAppends(ledgers, user, [Feedback(first, 1.0, t1), Feedback(second, -1.0, t2)]);
  }

  /** The engine of `chatbot.py`. Its fields are the source's; `memoryFile`
      stands for the contents of the memory file. */
  class RoseAI {
    var conversationHistory: seq<Entry>
    var userProfiles: map<string, Profile>
    var rlRewards: Ledgers
    var responsePatterns: map<string, string>
    /** The parsed memory file: None when it is absent or unreadable. */
    var memoryFile: Option<Document>

    function Current(): EngineState
      reads this
    {
      EngineState(conversationHistory, userProfiles, rlRewards, responsePatterns)
    }

    /** `__init__` followed by `load_conversation_memory`. */
    constructor (file: Option<Document>)
      ensures Current() == Load(file)
      ensures memoryFile == file
    {
      memoryFile := file;
      conversationHistory, userProfiles, rlRewards, responsePatterns := [], map[], map[], map[];
      if file.Some? {
        var d := file.value;
        conversationHistory := d.conversations.GetOr([]);
        userProfiles := d.userProfiles.GetOr(map[]);
        rlRewards := d.rlRewards.GetOr(map[]);
        responsePatterns := d.responsePatterns.GetOr(map[]);
      }
    }

    /** Overwrites the memory file with a snapshot of the current state. */
    method SaveConversationMemory(now: string)
      modifies this`memoryFile
      ensures memoryFile == Some(Snapshot(Current(), now))
    {
      memoryFile := Some(Snapshot(Current(), now));
    }

    /** Classifies the input, logs exactly one entry, saves, and returns the
        response for the detected intent. */
    method GetResponse(userInput: string, language: string, userId: string,
                       entryTime: string, saveTime: string) returns (response: string)
      modifies this
      ensures conversationHistory == old(conversationHistory) +
        [Entry(entryTime, userId, userInput, language, Classify(userInput).intent, Classify(userInput).confidence)]
      ensures userProfiles == old(userProfiles) && rlRewards == old(rlRewards)
      ensures responsePatterns == old(responsePatterns)
      ensures memoryFile == Some(Snapshot(Current(), saveTime))
      ensures response == SelectResponse(Classify(userInput).intent, language, userInput)
    {
      var intent, confidence := DetectIntent(userInput, language);
      var entry := Entry(entryTime, userId, userInput, language, intent, confidence);
      conversationHistory := conversationHistory + [entry];
      response := SelectResponse(intent, language, userInput);
      SaveConversationMemory(saveTime);
    }

    /** Appends one reward record to the user's ledger (creating it when
        absent) and saves; nothing else changes. */
    method ApplyReinforcementLearning(userId: string, responseId: string, reward: real,
                                      now: string, saveTime: string)
      modifies this
      ensures rlRewards == Credit(old(rlRewards), userId, Feedback(responseId, reward, now))
      ensures conversationHistory == old(conversationHistory)
      ensures userProfiles == old(userProfiles) && responsePatterns == old(responsePatterns)
      ensures memoryFile == Some(Snapshot(Current(), saveTime))
    {
      if userId !in rlRewards {
        rlRewards := rlRewards[userId := []];
      }
      rlRewards := rlRewards[userId := rlRewards[userId] + [Feedback(responseId, reward, now)]];
      SaveConversationMemory(saveTime);
    }
  }
}
