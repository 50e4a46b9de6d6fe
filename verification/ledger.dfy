/**
 * `Ledger`: the background page's vocabulary store and the message handlers that change it.
 * The three object stores are modelled as a map of word records keyed by id, the list of
 * context records in key order, and a map of session records; the auto-increment key
 * generators of the last two are explicit counters. `Date.now()` is the parameter `now`.
 */
module Ledger {
  import opened Wrappers
  import opened Strings
  import opened Media

  /** A record of the `words` store, keyed by `id`. */
  datatype WordRecord = WordRecord(
    id: string, word: string, language: string, encounters: int,
    firstSeen: int, lastSeen: int, learned: bool, excluded: bool, masteryLevel: int)

  /** A record of the `contexts` store, keyed by the auto-increment `id`, indexed by `wordId`. */
  datatype ContextRecord = ContextRecord(
    id: nat, wordId: string, sentence: string, videoId: string,
    videoTitle: string, timestampMs: real, capturedAt: int)

  /** A record of the `sessions` store, keyed by an auto-increment id. */
  datatype Session = Session(
    date: string, startTime: int, endTime: int,
    wordsEncountered: int, newWords: int, rewinds: int, videoIds: seq<string>)

  /** The reply to `LOG_WORDS`. */
  datatype LogResult = LogResult(newWords: nat, updatedWords: nat, totalLogged: nat)

  /** The reply to `GET_SESSION_STATE`. */
  datatype SessionState = SessionState(active: bool, sessionId: Option<nat>)

  const WordNotFound: string := "Word not found"

  // ---------------------------------------------------------------------------
  // Words

  /** The key of a word: `${language}:${word}`. */
  function WordId(language: string, word: string): (id: string)
    ensures |id| == |language| + 1 + |word| && id[..|language|] == language
    ensures id[|language|] == ':' && id[|language| + 1..] == word
  {
    language + ":" + word
  }

  /** For one language, different words have different keys. */
  lemma WordIdInjective(language: string, w1: string, w2: string)
    requires WordId(language, w1) == WordId(language, w2)
    ensures w1 == w2
  {
    assert w1 == WordId(language, w1)[|language| + 1..];
  }

  /** The record created the first time a word is logged. */
  function NewWord(id: string, word: string, language: string, now: int): WordRecord {
    WordRecord(id, word, language, 1, now, now, false, false, 0)
  }

  /** One entry's effect on the `words` store: count one more encounter, or create the record. */
  function Upsert(store: map<string, WordRecord>, language: string, word: string, now: int): map<string, WordRecord> {
    var id := WordId(language, word);
    if id in store then store[id := store[id].(encounters := store[id].encounters + 1, lastSeen := now)]
    else store[id := NewWord(id, word, language, now)]
  }

  /** The `words` store after logging `entries` in order. */
  function LoggedWords(store: map<string, WordRecord>, entries: seq<WordEntry>, language: string, now: int): map<string, WordRecord> {
    if entries == [] then store
    else Upsert(LoggedWords(store, entries[..|entries| - 1], language, now), language, entries[|entries| - 1].word, now)
  }

  /** How many of `entries` created a record, each counted against the store as it was at that entry. */
  function CreatedCount(store: map<string, WordRecord>, entries: seq<WordEntry>, language: string, now: int): nat {
    if entries == [] then 0
    else
      var init := entries[..|entries| - 1];
      CreatedCount(store, init, language, now)
      + (if WordId(language, entries[|entries| - 1].word) in LoggedWords(store, init, language, now) then 0 else 1)
  }

  /** How many of `entries` have the key `id`. */
  function Occurrences(entries: seq<WordEntry>, language: string, id: string): nat {
    if entries == [] then 0
    else Occurrences(entries[..|entries| - 1], language, id)
         + (if WordId(language, entries[|entries| - 1].word) == id then 1 else 0)
  }

  /** What every record of the `words` store looks like: stored under its id, seen at least once, mastery in 0..2, never learned. */
  predicate WordOk(id: string, w: WordRecord) {
    w.id == id && w.encounters >= 1 && 0 <= w.masteryLevel <= 2 && !w.learned
  }

  predicate WordsOk(store: map<string, WordRecord>) {
    forall id :: id in store ==> WordOk(id, store[id])
  }

  lemma UpsertOk(store: map<string, WordRecord>, language: string, word: string, now: int)
    requires WordsOk(store)
    ensures WordsOk(Upsert(store, language, word, now))
  {
  }

  /**
   * Logging a batch: a key is in the store afterwards iff it was before or some entry has it;
   * an existing record gains one encounter per entry with its key and only its `lastSeen`
   * changes besides; a new record has as many encounters as entries, mastery 0, and is neither
   * excluded nor learned.
   */
  lemma {:induction false} LoggedWordsEffect(store: map<string, WordRecord>, entries: seq<WordEntry>, language: string, now: int, id: string)
    ensures id in LoggedWords(store, entries, language, now) <==> id in store || Occurrences(entries, language, id) > 0
    ensures id in store ==>
              LoggedWords(store, entries, language, now)[id]
              == store[id].(encounters := store[id].encounters + Occurrences(entries, language, id),
                            lastSeen := if Occurrences(entries, language, id) > 0 then now else store[id].lastSeen)
    ensures id !in store && Occurrences(entries, language, id) > 0 ==>
              var w := LoggedWords(store, entries, language, now)[id];
              w.id == id && w.language == language && WordId(language, w.word) == id
              && w.encounters == Occurrences(entries, language, id)
              && w.firstSeen == now && w.lastSeen == now
              && w.masteryLevel == 0 && !w.excluded && !w.learned
  {
    if entries != [] {
      var init, last := entries[..|entries| - 1], entries[|entries| - 1];
      LoggedWordsEffect(store, init, language, now, id);
      UpsertAt(LoggedWords(store, init, language, now), language, last.word, now, id);
    }
  }

  /** What one upsert does to the record under `id`. */
  lemma UpsertAt(store: map<string, WordRecord>, language: string, word: string, now: int, id: string)
    ensures id in Upsert(store, language, word, now) <==> id in store || WordId(language, word) == id
    ensures id != WordId(language, word) && id in store ==> Upsert(store, language, word, now)[id] == store[id]
    ensures id == WordId(language, word) && id in store ==>
              Upsert(store, language, word, now)[id] == store[id].(encounters := store[id].encounters + 1, lastSeen := now)
    ensures id == WordId(language, word) && id !in store ==>
              Upsert(store, language, word, now)[id] == NewWord(id, word, language, now)
  {
  }

  /** Every created record adds a key: the store grows by exactly the reported number of new words. */
  lemma {:induction false} CreatedCountIsGrowth(store: map<string, WordRecord>, entries: seq<WordEntry>, language: string, now: int)
    ensures |LoggedWords(store, entries, language, now)| == |store| + CreatedCount(store, entries, language, now)
  {
    if entries != [] {
      CreatedCountIsGrowth(store, entries[..|entries| - 1], language, now);
    }
  }

  lemma {:induction false} LoggedWordsOk(store: map<string, WordRecord>, entries: seq<WordEntry>, language: string, now: int)
    requires WordsOk(store)
    ensures WordsOk(LoggedWords(store, entries, language, now))
  {
    if entries != [] {
      LoggedWordsOk(store, entries[..|entries| - 1], language, now);
      UpsertOk(LoggedWords(store, entries[..|entries| - 1], language, now), language, entries[|entries| - 1].word, now);
    }
  }

  /** `Math.max(0, Math.min(2, level))`. */
  function ClampMastery(level: int): (r: int)
    ensures 0 <= r <= 2
    ensures 0 <= level <= 2 ==> r == level
    ensures level < 0 ==> r == 0
    ensures level > 2 ==> r == 2
  {
    if level < 0 then 0 else if level > 2 then 2 else level
  }

  /** The allowed updates of `UPDATE_WORD`: a clamped mastery level and the excluded flag, each if present. */
  function Updated(w: WordRecord, masteryLevel: Option<int>, excluded: Option<bool>): (r: WordRecord)
    ensures r.(masteryLevel := w.masteryLevel, excluded := w.excluded) == w
    ensures r.masteryLevel == if masteryLevel.Some? then ClampMastery(masteryLevel.value) else w.masteryLevel
    ensures r.excluded == excluded.GetOr(w.excluded)
  {
    var w1 := if masteryLevel.Some? then w.(masteryLevel := ClampMastery(masteryLevel.value)) else w;
    if excluded.Some? then w1.(excluded := excluded.value) else w1
  }

  // ---------------------------------------------------------------------------
  // Contexts

  /** The context record stored for an entry with a sentence. */
  function ContextOf(id: nat, e: WordEntry, language: string, videoId: string, videoTitle: string, now: int): ContextRecord {
    ContextRecord(id, WordId(language, e.word), e.sentence, videoId, videoTitle, e.timestampMs.OrZero(), now)
  }

  /** The entries whose sentence is truthy (non-empty), in order. */
  function WithSentence(entries: seq<WordEntry>): seq<WordEntry> {
    if entries == [] then []
    else WithSentence(entries[..|entries| - 1])
         + (if entries[|entries| - 1].sentence != "" then [entries[|entries| - 1]] else [])
  }

  /** The context records a batch adds, keyed from `firstId` on. */
  function NewContexts(entries: seq<WordEntry>, firstId: nat, language: string, videoId: string, videoTitle: string, now: int): seq<ContextRecord> {
    if entries == [] then []
    else
      var prev := NewContexts(entries[..|entries| - 1], firstId, language, videoId, videoTitle, now);
      var e := entries[|entries| - 1];
      prev + (if e.sentence != "" then [ContextOf(firstId + |prev|, e, language, videoId, videoTitle, now)] else [])
  }

  /**
   * One context per entry with a sentence, in order, with consecutive keys: the k-th added
   * record belongs to the k-th such entry.
   */
  lemma {:induction false} NewContextsShape(entries: seq<WordEntry>, firstId: nat, language: string, videoId: string, videoTitle: string, now: int)
    ensures |NewContexts(entries, firstId, language, videoId, videoTitle, now)| == |WithSentence(entries)|
    ensures forall k :: 0 <= k < |WithSentence(entries)| ==>
              NewContexts(entries, firstId, language, videoId, videoTitle, now)[k]
              == ContextOf(firstId + k, WithSentence(entries)[k], language, videoId, videoTitle, now)
  {
    if entries != [] {
      NewContextsShape(entries[..|entries| - 1], firstId, language, videoId, videoTitle, now);
    }
  }

  /** Keys of the context list: strictly increasing in list order, and all below the key generator. */
  predicate ContextsOk(cs: seq<ContextRecord>, nextId: nat) {
    (forall k :: 0 <= k < |cs| ==> cs[k].id < nextId)
    && (forall j, k :: 0 <= j < k < |cs| ==> cs[j].id < cs[k].id)
  }

  lemma ContextsOkAppend(cs: seq<ContextRecord>, nextId: nat, c: ContextRecord)
    requires ContextsOk(cs, nextId) && c.id == nextId
    ensures ContextsOk(cs + [c], nextId + 1)
  {
  }

  /** `getAllByIndex('by_wordId', wordId)`: the word's contexts, in key order. */
  function ContextsFor(cs: seq<ContextRecord>, wordId: string): seq<ContextRecord> {
    if cs == [] then []
    else (if cs[0].wordId == wordId then [cs[0]] else []) + ContextsFor(cs[1..], wordId)
  }

  /** The context list without the word's contexts. */
  function WithoutWord(cs: seq<ContextRecord>, wordId: string): seq<ContextRecord> {
    if cs == [] then []
    else (if cs[0].wordId == wordId then [] else [cs[0]]) + WithoutWord(cs[1..], wordId)
  }

  /** `store.delete(key)` on the context list. */
  function DeleteKey(cs: seq<ContextRecord>, key: nat): seq<ContextRecord> {
    if cs == [] then []
    else (if cs[0].id == key then [] else [cs[0]]) + DeleteKey(cs[1..], key)
  }

  /** The context list after deleting the keys of `ms`, one after the other. */
  function DeleteAll(cs: seq<ContextRecord>, ms: seq<ContextRecord>): seq<ContextRecord> {
    if ms == [] then cs else DeleteKey(DeleteAll(cs, ms[..|ms| - 1]), ms[|ms| - 1].id)
  }

  /** A record of `ms` has key `id`. */
  predicate HasId(ms: seq<ContextRecord>, id: nat) {
    exists k :: 0 <= k < |ms| && ms[k].id == id
  }

  /** The records of `cs` whose key no record of `ms` has. */
  function KeepNotIn(cs: seq<ContextRecord>, ms: seq<ContextRecord>): seq<ContextRecord> {
    if cs == [] then []
    else (if HasId(ms, cs[0].id) then [] else [cs[0]]) + KeepNotIn(cs[1..], ms)
  }

  lemma {:induction false} DeleteKeyOfKept(cs: seq<ContextRecord>, ms: seq<ContextRecord>, m: ContextRecord)
    ensures DeleteKey(KeepNotIn(cs, ms), m.id) == KeepNotIn(cs, ms + [m])
  {
    if cs != [] {
      DeleteKeyOfKept(cs[1..], ms, m);
      var c := cs[0];
      assert HasId(ms + [m], c.id) <==> HasId(ms, c.id) || m.id == c.id by {
        if HasId(ms, c.id) {
          var k :| 0 <= k < |ms| && ms[k].id == c.id;
          assert (ms + [m])[k] == ms[k];
        }
        if m.id == c.id {
          assert (ms + [m])[|ms|] == m;
        }
        if HasId(ms + [m], c.id) {
          var k :| 0 <= k < |ms + [m]| && (ms + [m])[k].id == c.id;
          if k < |ms| { assert ms[k] == (ms + [m])[k]; }
        }
      }
      if HasId(ms, c.id) {
        assert KeepNotIn(cs, ms) == KeepNotIn(cs[1..], ms);
      } else {
        assert KeepNotIn(cs, ms) == [c] + KeepNotIn(cs[1..], ms);
        assert DeleteKey([c] + KeepNotIn(cs[1..], ms), m.id)
               == (if c.id == m.id then [] else [c]) + DeleteKey(KeepNotIn(cs[1..], ms), m.id);
      }
    }
  }

  lemma {:induction false} KeepNotInNone(cs: seq<ContextRecord>)
    ensures KeepNotIn(cs, []) == cs
  {
    if cs != [] {
      KeepNotInNone(cs[1..]);
    }
  }

  /** Deleting keys one by one is filtering by the set of keys. */
  lemma {:induction false} DeleteAllIsKeepNotIn(cs: seq<ContextRecord>, ms: seq<ContextRecord>)
    ensures DeleteAll(cs, ms) == KeepNotIn(cs, ms)
  {
    if ms == [] {
      KeepNotInNone(cs);
    } else {
      var init := ms[..|ms| - 1];
      DeleteAllIsKeepNotIn(cs, init);
      DeleteKeyOfKept(cs, init, ms[|ms| - 1]);
      assert init + [ms[|ms| - 1]] == ms;
    }
  }

  /** A key belongs to one of the word's contexts iff a context of the word has it. */
  /** The word's contexts are exactly the records of that word. */
  lemma {:induction false} InContextsFor(cs: seq<ContextRecord>, wordId: string, c: ContextRecord)
    ensures c in ContextsFor(cs, wordId) <==> c in cs && c.wordId == wordId
  {
    if cs != [] {
      InContextsFor(cs[1..], wordId, c);
      assert cs == [cs[0]] + cs[1..];
    }
  }

  /** A list has a record with key `id` exactly when one of its records has that key. */
  lemma HasIdIff(ms: seq<ContextRecord>, id: nat)
    ensures HasId(ms, id) <==> exists c :: c in ms && c.id == id
  {
    if exists c :: c in ms && c.id == id {
      var c :| c in ms && c.id == id;
      var k :| 0 <= k < |ms| && ms[k] == c;
    }
  }

  lemma HasIdOfContextsFor(cs: seq<ContextRecord>, wordId: string, id: nat)
    ensures HasId(ContextsFor(cs, wordId), id) <==> exists k :: 0 <= k < |cs| && cs[k].id == id && cs[k].wordId == wordId
  {
    var mine := ContextsFor(cs, wordId);
    HasIdIff(mine, id);
    if HasId(mine, id) {
      var c :| c in mine && c.id == id;
      InContextsFor(cs, wordId, c);
      var k :| 0 <= k < |cs| && cs[k] == c;
    }
    if exists k :: 0 <= k < |cs| && cs[k].id == id && cs[k].wordId == wordId {
      var k :| 0 <= k < |cs| && cs[k].id == id && cs[k].wordId == wordId;
      InContextsFor(cs, wordId, cs[k]);
    }
  }


  lemma {:induction false} KeepNotInIsWithoutWord(cs: seq<ContextRecord>, ms: seq<ContextRecord>, wordId: string)
    requires forall k :: 0 <= k < |cs| ==> (HasId(ms, cs[k].id) <==> cs[k].wordId == wordId)
    ensures KeepNotIn(cs, ms) == WithoutWord(cs, wordId)
  {
    if cs != [] {
      assert forall k :: 0 <= k < |cs[1..]| ==> cs[1..][k] == cs[k + 1];
      KeepNotInIsWithoutWord(cs[1..], ms, wordId);
    }
  }

  /** With unique keys, deleting the word's contexts by key removes exactly the word's contexts. */
  lemma DeleteContextsOfWord(cs: seq<ContextRecord>, nextId: nat, wordId: string)
    requires ContextsOk(cs, nextId)
    ensures DeleteAll(cs, ContextsFor(cs, wordId)) == WithoutWord(cs, wordId)
  {
    var ms := ContextsFor(cs, wordId);
    forall k | 0 <= k < |cs|
      ensures HasId(ms, cs[k].id) <==> cs[k].wordId == wordId
    {
      HasIdOfContextsFor(cs, wordId, cs[k].id);
    }
    KeepNotInIsWithoutWord(cs, ms, wordId);
    DeleteAllIsKeepNotIn(cs, ms);
  }

  /** The records left are the others, each kept. */
  lemma {:induction false} InWithoutWord(cs: seq<ContextRecord>, wordId: string, c: ContextRecord)
    ensures c in WithoutWord(cs, wordId) <==> c in cs && c.wordId != wordId
  {
    if cs != [] {
      InWithoutWord(cs[1..], wordId, c);
      assert cs == [cs[0]] + cs[1..];
    }
  }

  lemma {:induction false} WithoutWordOk(cs: seq<ContextRecord>, nextId: nat, wordId: string)
    requires ContextsOk(cs, nextId)
    ensures ContextsOk(WithoutWord(cs, wordId), nextId)
  {
    if cs != [] {
      var tail := cs[1..];
      var rest := WithoutWord(tail, wordId);
      ContextsOkTail(cs, nextId);
      WithoutWordOk(tail, nextId, wordId);
      if cs[0].wordId != wordId {
        forall k | 0 <= k < |rest|
          ensures cs[0].id < rest[k].id
        {
          InWithoutWord(tail, wordId, rest[k]);
          var j :| 0 <= j < |tail| && tail[j] == rest[k];
          assert cs[j + 1] == tail[j];
        }
        ContextsOkCons(cs[0], rest, nextId);
      }
    }
  }

  /** Dropping the first record keeps the list well formed. */
  lemma ContextsOkTail(cs: seq<ContextRecord>, nextId: nat)
    requires cs != [] && ContextsOk(cs, nextId)
    ensures ContextsOk(cs[1..], nextId) && cs[0].id < nextId
  {
    forall j, k | 0 <= j < k < |cs| - 1
      ensures cs[1..][j].id < cs[1..][k].id
    {
      assert cs[1..][j] == cs[j + 1] && cs[1..][k] == cs[k + 1];
    }
  }

  /** A record with a key below every key of a well-formed list may go in front of it. */
  lemma ContextsOkCons(c: ContextRecord, rest: seq<ContextRecord>, nextId: nat)
    requires ContextsOk(rest, nextId) && c.id < nextId
    requires forall k :: 0 <= k < |rest| ==> c.id < rest[k].id
    ensures ContextsOk([c] + rest, nextId)
  {
    var cs := [c] + rest;
    forall j, k | 0 <= j < k < |cs|
      ensures cs[j].id < cs[k].id
    {
      assert cs[k] == rest[k - 1];
      if j > 0 {
        assert cs[j] == rest[j - 1];
      }
    }
  }

  // ---------------------------------------------------------------------------
  // Sessions

  predicate NoDup(xs: seq<string>) {
    forall j, k :: 0 <= j < k < |xs| ==> xs[j] != xs[k]
  }

  /** The running session after a batch of `total` words of which `created` were new. */
  function Accumulate(s: Session, total: nat, created: nat, videoId: string, now: int): (r: Session)
    ensures NoDup(s.videoIds) ==> NoDup(r.videoIds)
    ensures r.wordsEncountered == s.wordsEncountered + total && r.newWords == s.newWords + created
    ensures r.rewinds == s.rewinds + 1 && r.endTime == now
    ensures r.date == s.date && r.startTime == s.startTime
    ensures videoId != "" ==> videoId in r.videoIds
    ensures forall v :: v in r.videoIds <==> v in s.videoIds || (v == videoId && videoId != "")
    ensures s.videoIds <= r.videoIds
  {
    var ids := if videoId != "" && videoId !in s.videoIds then s.videoIds + [videoId] else s.videoIds;
    s.(wordsEncountered := s.wordsEncountered + total, newWords := s.newWords + created,
       rewinds := s.rewinds + 1, videoIds := ids, endTime := now)
  }

  /** Session keys are positive and below the key generator, and no session lists a video twice. */
  predicate SessionsOk(sessions: map<nat, Session>, nextId: nat) {
    forall k :: k in sessions ==> 1 <= k < nextId && NoDup(sessions[k].videoIds)
  }

  // ---------------------------------------------------------------------------
  // The background page

  /** The background page's state: the three stores, their key generators and the active-session pointer. */
  class Background {
    var words: map<string, WordRecord>
    var contexts: seq<ContextRecord>
    var nextContextId: nat
    var sessions: map<nat, Session>
    var nextSessionId: nat
    var activeSessionId: Option<nat>

    ghost predicate Valid()
      reads this
    {
      WordsOk(words) && ContextsOk(contexts, nextContextId) && SessionsOk(sessions, nextSessionId)
      && nextSessionId >= 1 && activeSessionId != Some(0)
    }

    /**
     * Start-up on empty stores: the active-session pointer is the one kept in extension
     * storage, if it is truthy.
     */
    constructor (restored: Option<nat>)
      ensures Valid()
      ensures words == map[] && contexts == [] && sessions == map[]
      ensures nextContextId == 1 && nextSessionId == 1
      ensures activeSessionId == if restored.Some? && restored.value != 0 then restored else None
    {
      words := map[];
      contexts := [];
      nextContextId := 1;
      sessions := map[];
      nextSessionId := 1;
      activeSessionId := if restored.Some? && restored.value != 0 then restored else None;
    }

    /**
     * `handleLogWords`: upsert every entry's word, add a context for every entry with a
     * sentence, then add the batch to the active session if there is one.
     */
    method HandleLogWords(entries: seq<WordEntry>, videoId: string, videoTitle: string, language: string, now: int)
      returns (result: LogResult)
      requires Valid()
      modifies this
      ensures Valid()
      ensures words == LoggedWords(old(words), entries, language, now)
      ensures contexts == old(contexts) + NewContexts(entries, old(nextContextId), language, videoId, videoTitle, now)
      ensures nextContextId == old(nextContextId) + |NewContexts(entries, old(nextContextId), language, videoId, videoTitle, now)|
      ensures result.newWords == CreatedCount(old(words), entries, language, now)
      ensures result.newWords + result.updatedWords == result.totalLogged == |entries|
      ensures sessions == if old(activeSessionId).Some? && old(activeSessionId).value in old(sessions)
                          then old(sessions)[old(activeSessionId).value :=
                                 Accumulate(old(sessions)[old(activeSessionId).value], |entries|, result.newWords, videoId, now)]
                          else old(sessions)
      ensures activeSessionId == old(activeSessionId) && nextSessionId == old(nextSessionId)
    {
      var newWords, updatedWords := LogEntries(entries, videoId, videoTitle, language, now);
      AccumulateActive(|entries|, newWords, videoId, now);
      result := LogResult(newWords, updatedWords, |entries|);
    }

    /** The loop of `handleLogWords` over the entries. */
    method LogEntries(entries: seq<WordEntry>, videoId: string, videoTitle: string, language: string, now: int)
      returns (newWords: nat, updatedWords: nat)
      requires WordsOk(words) && ContextsOk(contexts, nextContextId)
      modifies this
      ensures WordsOk(words) && ContextsOk(contexts, nextContextId)
      ensures words == LoggedWords(old(words), entries, language, now)
      ensures contexts == old(contexts) + NewContexts(entries, old(nextContextId), language, videoId, videoTitle, now)
      ensures nextContextId == old(nextContextId) + |NewContexts(entries, old(nextContextId), language, videoId, videoTitle, now)|
      ensures newWords == CreatedCount(old(words), entries, language, now) && newWords + updatedWords == |entries|
      ensures sessions == old(sessions) && nextSessionId == old(nextSessionId) && activeSessionId == old(activeSessionId)
    {
      newWords, updatedWords := 0, 0;
      ghost var w0, c0, n0 := words, contexts, nextContextId;
      for i := 0 to |entries|
        invariant WordsOk(words) && ContextsOk(contexts, nextContextId)
        invariant words == LoggedWords(w0, entries[..i], language, now)
        invariant contexts == c0 + NewContexts(entries[..i], n0, language, videoId, videoTitle, now)
        invariant nextContextId == n0 + |NewContexts(entries[..i], n0, language, videoId, videoTitle, now)|
        invariant newWords == CreatedCount(w0, entries[..i], language, now) && newWords + updatedWords == i
        invariant sessions == old(sessions) && nextSessionId == old(nextSessionId) && activeSessionId == old(activeSessionId)
      {
        var created := LogNext(w0, c0, n0, entries, i, videoId, videoTitle, language, now);
        if created {
          newWords := newWords + 1;
        } else {
          updatedWords := updatedWords + 1;
        }
      }
      assert entries[..|entries|] == entries;
    }

    /** One pass of the entry loop: the state for the first `i` entries becomes that for `i + 1`. */
    method LogNext(ghost w0: map<string, WordRecord>, ghost c0: seq<ContextRecord>, ghost n0: nat, entries: seq<WordEntry>, i: nat,
                   videoId: string, videoTitle: string, language: string, now: int)
      returns (created: bool)
      requires i < |entries|
      requires WordsOk(words) && ContextsOk(contexts, nextContextId)
      requires words == LoggedWords(w0, entries[..i], language, now)
      requires contexts == c0 + NewContexts(entries[..i], n0, language, videoId, videoTitle, now)
      requires nextContextId == n0 + |NewContexts(entries[..i], n0, language, videoId, videoTitle, now)|
      modifies this
      ensures WordsOk(words) && ContextsOk(contexts, nextContextId)
      ensures words == LoggedWords(w0, entries[..i + 1], language, now)
      ensures contexts == c0 + NewContexts(entries[..i + 1], n0, language, videoId, videoTitle, now)
      ensures nextContextId == n0 + |NewContexts(entries[..i + 1], n0, language, videoId, videoTitle, now)|
      ensures CreatedCount(w0, entries[..i + 1], language, now)
              == CreatedCount(w0, entries[..i], language, now) + (if created then 1 else 0)
      ensures sessions == old(sessions) && nextSessionId == old(nextSessionId) && activeSessionId == old(activeSessionId)
    {
      LogStep(w0, entries, i, n0, language, videoId, videoTitle, now);
      created := LogEntry(entries[i], videoId, videoTitle, language, now);
    }

    /** One entry: upsert its word, and add its context when it has a sentence. */
    method LogEntry(e: WordEntry, videoId: string, videoTitle: string, language: string, now: int)
      returns (created: bool)
      requires WordsOk(words) && ContextsOk(contexts, nextContextId)
      modifies this
      ensures WordsOk(words) && ContextsOk(contexts, nextContextId)
      ensures created <==> WordId(language, e.word) !in old(words)
      ensures words == Upsert(old(words), language, e.word, now)
      ensures contexts == old(contexts) + (if e.sentence != "" then [ContextOf(old(nextContextId), e, language, videoId, videoTitle, now)] else [])
      ensures nextContextId == old(nextContextId) + (if e.sentence != "" then 1 else 0)
      ensures sessions == old(sessions) && nextSessionId == old(nextSessionId) && activeSessionId == old(activeSessionId)
    {
      var wordId := WordId(language, e.word);
      UpsertOk(words, language, e.word, now);
      if wordId in words {
        var existing := words[wordId];
        words := words[wordId := existing.(encounters := existing.encounters + 1, lastSeen := now)];
        created := false;
      } else {
        words := words[wordId := NewWord(wordId, e.word, language, now)];
        created := true;
      }
      if e.sentence != "" {
        AddContext(ContextRecord(0, wordId, e.sentence, videoId, videoTitle, e.timestampMs.OrZero(), now));
      }
    }

    /** `store.add` on the context store: the record gets the next key. */
    method AddContext(c: ContextRecord)
      requires ContextsOk(contexts, nextContextId)
      modifies this
      ensures ContextsOk(contexts, nextContextId)
      ensures contexts == old(contexts) + [c.(id := old(nextContextId))] && nextContextId == old(nextContextId) + 1
      ensures words == old(words) && sessions == old(sessions)
      ensures nextSessionId == old(nextSessionId) && activeSessionId == old(activeSessionId)
    {
      ContextsOkAppend(contexts, nextContextId, c.(id := nextContextId));
      contexts := contexts + [c.(id := nextContextId)];
      nextContextId := nextContextId + 1;
    }

    /** The session part of `handleLogWords`: add the batch to the active session, if it exists. */
    method AccumulateActive(total: nat, created: nat, videoId: string, now: int)
      requires SessionsOk(sessions, nextSessionId)
      modifies this
      ensures SessionsOk(sessions, nextSessionId)
      ensures sessions == if activeSessionId.Some? && activeSessionId.value in old(sessions)
                          then old(sessions)[activeSessionId.value := Accumulate(old(sessions)[activeSessionId.value], total, created, videoId, now)]
                          else old(sessions)
      ensures words == old(words) && contexts == old(contexts) && nextContextId == old(nextContextId)
      ensures nextSessionId == old(nextSessionId) && activeSessionId == old(activeSessionId)
    {
      if activeSessionId.Some? {
        var sid := activeSessionId.value;
        if sid in sessions {
          sessions := sessions[sid := Accumulate(sessions[sid], total, created, videoId, now)];
        }
      }
    }

    /**
     * `handleUpdateWord`: an unknown id is an error and writes nothing; otherwise the
     * record gets the clamped mastery level and the excluded flag, if given.
     */
    method HandleUpdateWord(wordId: string, masteryLevel: Option<int>, excluded: Option<bool>)
      returns (r: Result<WordRecord, string>)
      requires Valid()
      modifies this
      ensures Valid()
      ensures wordId !in old(words) ==> r == Err(WordNotFound) && words == old(words)
      ensures wordId in old(words) ==>
                r == Ok(Updated(old(words)[wordId], masteryLevel, excluded)) && words == old(words)[wordId := r.value]
      ensures contexts == old(contexts) && nextContextId == old(nextContextId) && sessions == old(sessions)
      ensures nextSessionId == old(nextSessionId) && activeSessionId == old(activeSessionId)
    {
      if wordId !in words {
        return Err(WordNotFound);
      }
      var word := words[wordId];
      if masteryLevel.Some? {
        word := word.(masteryLevel := ClampMastery(masteryLevel.value));
      }
      if excluded.Some? {
        word := word.(excluded := excluded.value);
      }
      words := words[wordId := word];
      r := Ok(word);
    }

    /** `handleDeleteWord`: remove the word, then every context of it, key by key. */
    method HandleDeleteWord(wordId: string) returns (deleted: bool)
      requires Valid()
      modifies this
      ensures Valid()
      ensures deleted
      ensures words == old(words) - {wordId}
      ensures contexts == WithoutWord(old(contexts), wordId)
      ensures nextContextId == old(nextContextId) && sessions == old(sessions)
      ensures nextSessionId == old(nextSessionId) && activeSessionId == old(activeSessionId)
    {
      words := words - {wordId};
      var matched := ContextsFor(contexts, wordId);
      ghost var c0 := contexts;
      for j := 0 to |matched|
        invariant contexts == DeleteAll(c0, matched[..j])
        invariant words == old(words) - {wordId} && nextContextId == old(nextContextId) && sessions == old(sessions)
        invariant nextSessionId == old(nextSessionId) && activeSessionId == old(activeSessionId)
      {
        assert matched[..j + 1][..j] == matched[..j];
        contexts := DeleteKey(contexts, matched[j].id);
      }
      assert matched[..|matched|] == matched;
      DeleteContextsOfWord(c0, nextContextId, wordId);
      WithoutWordOk(c0, nextContextId, wordId);
      deleted := true;
    }

    /**
     * `handleStartSession`: add a session with zero counters under a fresh key and make it
     * the active one, whether or not another was active.
     */
    method HandleStartSession(date: string, now: int) returns (state: SessionState)
      requires Valid()
      modifies this
      ensures Valid()
      ensures old(nextSessionId) !in old(sessions)
      ensures sessions == old(sessions)[old(nextSessionId) := Session(date, now, now, 0, 0, 0, [])]
      ensures activeSessionId == Some(old(nextSessionId)) && nextSessionId == old(nextSessionId) + 1
      ensures state == SessionState(true, activeSessionId)
      ensures words == old(words) && contexts == old(contexts) && nextContextId == old(nextContextId)
    {
      var id := nextSessionId;
      sessions := sessions[id := Session(date, now, now, 0, 0, 0, [])];
      nextSessionId := nextSessionId + 1;
      activeSessionId := Some(id);
      state := SessionState(true, Some(id));
    }

    /** `handleStopSession`: stamp the active session's end time if it exists, and clear the pointer. */
    method HandleStopSession(now: int) returns (state: SessionState)
      requires Valid()
      modifies this
      ensures Valid()
      ensures activeSessionId == None && state == SessionState(false, None)
      ensures sessions == if old(activeSessionId).Some? && old(activeSessionId).value in old(sessions)
                          then old(sessions)[old(activeSessionId).value := old(sessions)[old(activeSessionId).value].(endTime := now)]
                          else old(sessions)
      ensures words == old(words) && contexts == old(contexts) && nextContextId == old(nextContextId)
      ensures nextSessionId == old(nextSessionId)
    {
      if activeSessionId.Some? {
        var sid := activeSessionId.value;
        if sid in sessions {
          sessions := sessions[sid := sessions[sid].(endTime := now)];
        }
      }
      activeSessionId := None;
      state := SessionState(false, None);
    }

    /** The `GET_SESSION_STATE` reply: active iff there is an active-session pointer. */
    method GetSessionState() returns (state: SessionState)
      ensures state.active <==> activeSessionId.Some?
      ensures state.sessionId == activeSessionId
    {
      state := SessionState(activeSessionId.Some?, activeSessionId);
    }
  }

  /** One more entry extends the three loop specifications by one step. */
  lemma LogStep(store: map<string, WordRecord>, entries: seq<WordEntry>, i: nat, firstId: nat,
                language: string, videoId: string, videoTitle: string, now: int)
    requires i < |entries|
    ensures LoggedWords(store, entries[..i + 1], language, now)
            == Upsert(LoggedWords(store, entries[..i], language, now), language, entries[i].word, now)
    ensures CreatedCount(store, entries[..i + 1], language, now)
            == CreatedCount(store, entries[..i], language, now)
               + (if WordId(language, entries[i].word) in LoggedWords(store, entries[..i], language, now) then 0 else 1)
    ensures NewContexts(entries[..i + 1], firstId, language, videoId, videoTitle, now)
            == NewContexts(entries[..i], firstId, language, videoId, videoTitle, now)
               + (if entries[i].sentence != ""
                  then [ContextOf(firstId + |NewContexts(entries[..i], firstId, language, videoId, videoTitle, now)|,
                                  entries[i], language, videoId, videoTitle, now)]
                  else [])
  {
    assert entries[..i + 1][..i] == entries[..i];
  }
}
