/**
 * `LedgerQueries`: the read-only message handlers of the background page — the word list
 * with its filter, search and sort, a word's newest contexts, the Anki export and the
 * statistics. Each reads a listing of a store, as `getAll` returns it (in key order).
 */
module LedgerQueries {
  import opened Wrappers
  import opened Strings
  import opened Sorting
  import opened Ledger

  // ---------------------------------------------------------------------------
  // GET_WORDS

  /** Whether a word passes the `filter` of a word query; an absent filter is the empty string. */
  predicate PassesFilter(filter: string, w: WordRecord) {
    if filter == "known" then w.masteryLevel == 2 && !w.excluded
    else if filter == "learning" then w.masteryLevel == 1 && !w.excluded
    else if filter == "new" then w.masteryLevel == 0 && !w.excluded
    else if filter == "excluded" then w.excluded
    else if filter == "all" then true
    else !w.excluded && w.masteryLevel < 2
  }

  /**
   * For a word with mastery in 0..2, the filters `known`, `learning`, `new` and `excluded`
   * each take it or not so that exactly one does; `all` takes every word; and any other
   * filter takes exactly the words `learning` or `new` takes.
   */
  lemma FiltersPartition(w: WordRecord, other: string)
    requires 0 <= w.masteryLevel <= 2
    requires other !in {"known", "learning", "new", "excluded", "all"}
    ensures PassesFilter("known", w) || PassesFilter("learning", w) || PassesFilter("new", w) || PassesFilter("excluded", w)
    ensures !(PassesFilter("known", w) && PassesFilter("learning", w))
    ensures !(PassesFilter("known", w) && PassesFilter("new", w))
    ensures !(PassesFilter("learning", w) && PassesFilter("new", w))
    ensures PassesFilter("excluded", w) ==> !PassesFilter("known", w) && !PassesFilter("learning", w) && !PassesFilter("new", w)
    ensures PassesFilter("all", w)
    ensures PassesFilter(other, w) <==> PassesFilter("learning", w) || PassesFilter("new", w)
  {
  }

  /** The words that pass the filter, in order. */
  function FilterWords(filter: string, ws: seq<WordRecord>): (r: seq<WordRecord>)
    ensures |r| <= |ws|
  {
    if ws == [] then []
    else (if PassesFilter(filter, ws[0]) then [ws[0]] else []) + FilterWords(filter, ws[1..])
  }

  /** `search`: an empty query keeps every word; otherwise the word must contain the lower-cased query. */
  predicate MatchesSearch(search: string, w: WordRecord) {
    search == "" || Contains(w.word, Lower(search))
  }

  function SearchWords(search: string, ws: seq<WordRecord>): (r: seq<WordRecord>)
    ensures |r| <= |ws|
  {
    if ws == [] then []
    else (if MatchesSearch(search, ws[0]) then [ws[0]] else []) + SearchWords(search, ws[1..])
  }

  lemma {:induction false} InFilterWords(filter: string, ws: seq<WordRecord>, w: WordRecord)
    ensures w in FilterWords(filter, ws) <==> w in ws && PassesFilter(filter, w)
  {
    if ws != [] {
      InFilterWords(filter, ws[1..], w);
      assert ws == [ws[0]] + ws[1..];
    }
  }

  lemma {:induction false} InSearchWords(search: string, ws: seq<WordRecord>, w: WordRecord)
    ensures w in SearchWords(search, ws) <==> w in ws && MatchesSearch(search, w)
  {
    if ws != [] {
      InSearchWords(search, ws[1..], w);
      assert ws == [ws[0]] + ws[1..];
    }
  }

  /** The orders of the word list: by `sort`, frequency when absent or unknown. */
  datatype WordOrder = Alpha | Recent | ByMastery | Frequency

  function OrderOf(sort: string): WordOrder {
    if sort == "alpha" then Alpha
    else if sort == "recent" then Recent
    else if sort == "mastery" then ByMastery
    else Frequency
  }

  /** Code-unit lexicographic order of strings, standing in for `localeCompare`. */
  predicate LexLe(a: string, b: string) {
    a == [] || (b != [] && (a[0] < b[0] || (a[0] == b[0] && LexLe(a[1..], b[1..]))))
  }

  lemma {:induction false} LexLeTotal(a: string, b: string)
    ensures LexLe(a, b) || LexLe(b, a)
  {
    if a != [] && b != [] && a[0] == b[0] {
      LexLeTotal(a[1..], b[1..]);
    }
  }

  lemma {:induction false} LexLeTransitive(a: string, b: string, c: string)
    requires LexLe(a, b) && LexLe(b, c)
    ensures LexLe(a, c)
  {
    if a != [] && b != [] && c != [] && a[0] == b[0] && b[0] == c[0] {
      LexLeTransitive(a[1..], b[1..], c[1..]);
    }
  }

  /** `a` may come before `b`: the comparator of the chosen sort is not positive. */
  predicate Precedes(o: WordOrder, a: WordRecord, b: WordRecord) {
    match o
    case Alpha => LexLe(a.word, b.word)
    case Recent => a.lastSeen >= b.lastSeen
    case ByMastery => a.masteryLevel > b.masteryLevel || (a.masteryLevel == b.masteryLevel && a.encounters >= b.encounters)
    case Frequency => a.encounters >= b.encounters
  }

  function Before(o: WordOrder): (WordRecord, WordRecord) -> bool {
    (a, b) => Precedes(o, a, b)
  }

  lemma BeforeIsOrder(o: WordOrder)
    ensures Total(Before(o)) && Transitive(Before(o))
  {
    forall a, b
      ensures Before(o)(a, b) || Before(o)(b, a)
    {
      if o.Alpha? { LexLeTotal(a.word, b.word); }
    }
    forall a, b, c | Before(o)(a, b) && Before(o)(b, c)
      ensures Before(o)(a, c)
    {
      if o.Alpha? { LexLeTransitive(a.word, b.word, c.word); }
    }
  }

  /** `handleGetWords`: filter, then search, then sort the listing of the `words` store. */
  function GetWords(all: seq<WordRecord>, filter: string, search: string, sort: string): seq<WordRecord> {
    SortBy(SearchWords(search, FilterWords(filter, all)), Before(OrderOf(sort)))
  }

  /**
   * The word list holds exactly the stored words that pass the filter and the search, each
   * as often as in the listing, ordered by the chosen sort (by default: most encounters first).
   */
  lemma GetWordsSpec(all: seq<WordRecord>, filter: string, search: string, sort: string)
    ensures multiset(GetWords(all, filter, search, sort)) == multiset(SearchWords(search, FilterWords(filter, all)))
    ensures forall w :: w in GetWords(all, filter, search, sort) <==> w in all && PassesFilter(filter, w) && MatchesSearch(search, w)
    ensures SortedBy(GetWords(all, filter, search, sort), Before(OrderOf(sort)))
    ensures sort !in {"alpha", "recent", "mastery"} ==>
              forall i, j :: 0 <= i < j < |GetWords(all, filter, search, sort)| ==>
                GetWords(all, filter, search, sort)[i].encounters >= GetWords(all, filter, search, sort)[j].encounters
  {
    var kept := SearchWords(search, FilterWords(filter, all));
    var r := GetWords(all, filter, search, sort);
    forall w
      ensures w in r <==> w in all && PassesFilter(filter, w) && MatchesSearch(search, w)
    {
      assert w in r <==> w in multiset(r);
      InSearchWords(search, FilterWords(filter, all), w);
      InFilterWords(filter, all, w);
    }
    BeforeIsOrder(OrderOf(sort));
    SortBySorted(kept, Before(OrderOf(sort)));
  }

  // ---------------------------------------------------------------------------
  // GET_CONTEXTS

  /** The most recently captured first. */
  function Newer(): (ContextRecord, ContextRecord) -> bool {
    (a: ContextRecord, b: ContextRecord) => a.capturedAt >= b.capturedAt
  }

  /** How many contexts a context query returns at most. */
  const MaxContexts: nat := 10

  /** `handleGetContexts`: the word's contexts, newest first, at most ten. */
  function GetContexts(cs: seq<ContextRecord>, wordId: string): (r: seq<ContextRecord>)
    ensures |r| == if |ContextsFor(cs, wordId)| <= MaxContexts then |ContextsFor(cs, wordId)| else MaxContexts
    ensures |ContextsFor(cs, wordId)| <= MaxContexts ==> multiset(r) == multiset(ContextsFor(cs, wordId))
  {
    var sorted := SortBy(ContextsFor(cs, wordId), Newer());
    if |sorted| <= MaxContexts then sorted else sorted[..MaxContexts]
  }

  /** A context query returns the first entries of the word's contexts sorted newest first. */
  lemma GetContextsIsPrefix(cs: seq<ContextRecord>, wordId: string)
    ensures var sorted := SortBy(ContextsFor(cs, wordId), Newer());
            GetContexts(cs, wordId) == sorted[..|GetContexts(cs, wordId)|]
  {
  }

  /** A context query returns only contexts of the word asked about. */
  lemma GetContextsOfWord(cs: seq<ContextRecord>, wordId: string)
    ensures forall c :: c in GetContexts(cs, wordId) ==> c in cs && c.wordId == wordId
  {
    var sorted := SortBy(ContextsFor(cs, wordId), Newer());
    var r := GetContexts(cs, wordId);
    GetContextsIsPrefix(cs, wordId);
    forall c | c in r
      ensures c in cs && c.wordId == wordId
    {
      var k :| 0 <= k < |r| && r[k] == c;
      assert sorted[k] == c;
      assert c in multiset(sorted);
      InContextsFor(cs, wordId, c);
    }
  }

  /** A context query lists the newest first. */
  lemma GetContextsNewestFirst(cs: seq<ContextRecord>, wordId: string)
    ensures var r := GetContexts(cs, wordId);
            forall i, j :: 0 <= i < j < |r| ==> r[i].capturedAt >= r[j].capturedAt
  {
    var mine := ContextsFor(cs, wordId);
    assert Total(Newer()) && Transitive(Newer());
    SortBySorted(mine, Newer());
    GetContextsIsPrefix(cs, wordId);
  }

  /** No context of the word that a query leaves out is newer than one it returns. */
  lemma GetContextsNewest(cs: seq<ContextRecord>, wordId: string, c: ContextRecord)
    requires c in cs && c.wordId == wordId && c !in GetContexts(cs, wordId)
    ensures forall k :: 0 <= k < |GetContexts(cs, wordId)| ==> GetContexts(cs, wordId)[k].capturedAt >= c.capturedAt
  {
    var sorted := SortBy(ContextsFor(cs, wordId), Newer());
    GetContextsIsPrefix(cs, wordId);
    assert Total(Newer()) && Transitive(Newer());
    SortBySorted(ContextsFor(cs, wordId), Newer());
    InContextsFor(cs, wordId, c);
    assert c in multiset(sorted);
    NotInPrefixIsOlder(sorted, |GetContexts(cs, wordId)|, c);
  }

  /** In a list sorted newest first, an element past the first `n` is no newer than any of them. */
  lemma NotInPrefixIsOlder(sorted: seq<ContextRecord>, n: nat, c: ContextRecord)
    requires n <= |sorted| && SortedBy(sorted, Newer())
    requires c in sorted && c !in sorted[..n]
    ensures forall k :: 0 <= k < n ==> sorted[k].capturedAt >= c.capturedAt
  {
    var m :| 0 <= m < |sorted| && sorted[m] == c;
    forall k | 0 <= k < n
      ensures sorted[k] != c
    {
      assert sorted[k] == sorted[..n][k];
    }
    assert n <= m;
  }

  // ---------------------------------------------------------------------------
  // formatTimestamp

  /** `formatTimestamp(ms)`: whole seconds split into minutes and a two-digit seconds field. */
  function FormatTimestamp(ms: real): string {
    var totalSec := (ms / 1000.0).Floor;
    IntToString(FloorDiv(totalSec, 60)) + ":" + PadStart2(IntToString(JsRem(totalSec, 60)))
  }

  /**
   * For a non-negative time the text is minutes, a colon and exactly two second digits; the
   * fields read back as `m` and `s` with `s < 60` and `60 * m + s` the whole seconds.
   */
  lemma FormatTimestampFields(ms: real)
    requires ms >= 0.0
    ensures var t := FormatTimestamp(ms);
            exists m: nat, s: nat ::
              s < 60 && 60 * m + s == (ms / 1000.0).Floor
              && t == NatToString(m) + ":" + PadStart2(NatToString(s))
              && |PadStart2(NatToString(s))| == 2
              && IsDigits(PadStart2(NatToString(s))) && DigitsValue(PadStart2(NatToString(s))) == s
  {
    var totalSec := (ms / 1000.0).Floor;
    assert totalSec >= 0;
    var m := FloorDiv(totalSec, 60);
    var s := JsRem(totalSec, 60);
    assert 0 <= m;
    TwoDigitSeconds(s);
  }

  /** A seconds value below 60 pads to two digits that read back as itself. */
  lemma TwoDigitSeconds(s: nat)
    requires s < 60
    ensures |PadStart2(NatToString(s))| == 2
    ensures IsDigits(PadStart2(NatToString(s))) && DigitsValue(PadStart2(NatToString(s))) == s
  {
    if s < 10 {
      assert NatToString(s) == [DigitChar(s)];
      assert PadStart2(NatToString(s)) == ['0', DigitChar(s)];
    } else {
      assert NatToString(s) == NatToString(s / 10) + [DigitChar(s % 10)];
      assert NatToString(s / 10) == [DigitChar(s / 10)];
    }
  }

  // ---------------------------------------------------------------------------
  // EXPORT_ANKI

  /** The four header lines of the export file. */
  const ExportHeader: seq<string> := ["#separator:tab", "#html:false", "#deck:YT Rewind Logger - Spanish", "#tags column:3"]

  /** The export's own mastery labels, one per level 0..4. */
  const ExportLabels: seq<string> := ["new", "seen", "familiar", "learned", "mastered"]

  /** `masteryLabels[level] || 'new'`. */
  function ExportLabel(level: int): (r: string)
    ensures 0 <= level < |ExportLabels| ==> r == ExportLabels[level]
    ensures !(0 <= level < |ExportLabels|) ==> r == "new"
  {
    if 0 <= level < |ExportLabels| then ExportLabels[level] else "new"
  }

  /** The back of a card: the newest context as quoted sentence, title and time, or `(no context)`. */
  function CardBack(best: Option<ContextRecord>): string {
    match best
    case None => "(no context)"
    case Some(c) =>
      var title := if c.videoTitle != "" then c.videoTitle else "Unknown video";
      "\"" + c.sentence + "\" (" + title + ", " + FormatTimestamp(c.timestampMs) + ")"
  }

  /** The newest context of a word, if it has any. */
  function BestContext(cs: seq<ContextRecord>, wordId: string): Option<ContextRecord> {
    var sorted := SortBy(ContextsFor(cs, wordId), Newer());
    if sorted == [] then None else Some(sorted[0])
  }

  /** One export line: front, back and tags, separated by tabs. */
  function CardLine(w: WordRecord, cs: seq<ContextRecord>): string {
    w.word + "\t" + CardBack(BestContext(cs, w.id)) + "\t"
    + "mastery::" + ExportLabel(w.masteryLevel) + " encounters::" + IntToString(w.encounters)
  }

  /** Excluded and learned words get no card. */
  predicate Exported(w: WordRecord) {
    !w.excluded && !w.learned
  }

  /** The exported words, in listing order. */
  function ExportedWords(all: seq<WordRecord>): seq<WordRecord> {
    if all == [] then []
    else (if Exported(all[0]) then [all[0]] else []) + ExportedWords(all[1..])
  }

  /** One card line per word, in order. */
  function CardLines(ws: seq<WordRecord>, cs: seq<ContextRecord>): (r: seq<string>)
    ensures |r| == |ws|
    ensures forall k :: 0 <= k < |ws| ==> r[k] == CardLine(ws[k], cs)
  {
    if ws == [] then [] else [CardLine(ws[0], cs)] + CardLines(ws[1..], cs)
  }

  datatype Export = Export(tsv: string, wordCount: int)

  /** `handleExportAnki`: the header and one line per word that is neither excluded nor learned, joined by newlines. */
  function ExportAnki(all: seq<WordRecord>, cs: seq<ContextRecord>): (r: Export)
    ensures r.wordCount == |ExportedWords(all)| >= 0
    ensures r.tsv == Join(ExportHeader + CardLines(ExportedWords(all), cs), "\n")
  {
    var lines := ExportHeader + CardLines(ExportedWords(all), cs);
    Export(Join(lines, "\n"), |lines| - 4)
  }

  /** The exported words are exactly the listed words that are neither excluded nor learned, in listing order. */
  lemma {:induction false} InExportedWords(all: seq<WordRecord>, w: WordRecord)
    ensures w in ExportedWords(all) <==> w in all && Exported(w)
  {
    if all != [] {
      InExportedWords(all[1..], w);
      assert all == [all[0]] + all[1..];
    }
  }

  /** A word without contexts gets the back `(no context)`; one with contexts gets its newest. */
  lemma CardBackOfContexts(cs: seq<ContextRecord>, wordId: string)
    ensures BestContext(cs, wordId).None? <==> ContextsFor(cs, wordId) == []
    ensures BestContext(cs, wordId).None? ==> CardBack(BestContext(cs, wordId)) == "(no context)"
    ensures BestContext(cs, wordId).Some? ==>
              var c := BestContext(cs, wordId).value;
              c in cs && c.wordId == wordId
              && forall d :: d in cs && d.wordId == wordId ==> c.capturedAt >= d.capturedAt
  {
    var mine := ContextsFor(cs, wordId);
    var sorted := SortBy(mine, Newer());
    assert |sorted| == |mine| by { assert |multiset(sorted)| == |multiset(mine)|; }
    if sorted != [] {
      assert Total(Newer()) && Transitive(Newer());
      SortBySorted(mine, Newer());
      assert sorted[0] in multiset(mine);
      InContextsFor(cs, wordId, sorted[0]);
      forall d | d in cs && d.wordId == wordId
        ensures sorted[0].capturedAt >= d.capturedAt
      {
        InContextsFor(cs, wordId, d);
        assert d in multiset(sorted);
        var m :| 0 <= m < |sorted| && sorted[m] == d;
        if m > 0 { assert Newer()(sorted[0], sorted[m]); }
      }
    }
  }

  // ---------------------------------------------------------------------------
  // GET_STATS

  datatype Stats = Stats(totalWords: nat, learnedWords: nat, totalEncounters: int, totalSessions: nat, currentSession: Option<Session>)

  /** The words not excluded, in listing order. */
  function ActiveWords(all: seq<WordRecord>): (r: seq<WordRecord>)
    ensures |r| <= |all|
    ensures forall k :: 0 <= k < |r| ==> !r[k].excluded
  {
    if all == [] then []
    else (if !all[0].excluded then [all[0]] else []) + ActiveWords(all[1..])
  }

  /** Whether `getStats` counts a word as learned. */
  predicate IsLearned(w: WordRecord) {
    w.learned || w.masteryLevel >= 3
  }

  /** How many of the words are learned or have mastery at least 3. */
  function LearnedCount(ws: seq<WordRecord>): (n: nat)
    ensures n <= |ws|
  {
    if ws == [] then 0
    else (if IsLearned(ws[0]) then 1 else 0) + LearnedCount(ws[1..])
  }

  function EncounterSum(ws: seq<WordRecord>): int {
    if ws == [] then 0 else ws[0].encounters + EncounterSum(ws[1..])
  }

  /** The encounters of the records not excluded, summed over the whole listing. */
  function ActiveEncounters(all: seq<WordRecord>): int {
    if all == [] then 0
    else (if all[0].excluded then 0 else all[0].encounters) + ActiveEncounters(all[1..])
  }

  /**
   * `handleGetStats`, given the listings of the word and session stores and the active
   * session's record: the count, learned count and encounter total of the words not excluded,
   * the number of sessions and the active session.
   */
  function GetStats(all: seq<WordRecord>, sessionCount: nat, current: Option<Session>): (r: Stats)
    ensures r.learnedWords <= r.totalWords <= |all|
    ensures r.totalWords == |ActiveWords(all)| && r.learnedWords == LearnedCount(ActiveWords(all))
    ensures r.totalEncounters == ActiveEncounters(all)
    ensures r.totalSessions == sessionCount && r.currentSession == current
  {
    var active := ActiveWords(all);
    ActiveEncountersSum(all);
    Stats(|active|, LearnedCount(active), EncounterSum(active), sessionCount, current)
  }

  /** A record is listed among the active words exactly as often as in the listing, or never if excluded. */
  lemma {:induction false} ActiveWordsCount(all: seq<WordRecord>, w: WordRecord)
    ensures multiset(ActiveWords(all))[w] == if w.excluded then 0 else multiset(all)[w]
  {
    if all != [] {
      ActiveWordsCount(all[1..], w);
      assert all == [all[0]] + all[1..];
    }
  }

  /** Membership in the active words: exactly the listed records not excluded. */
  lemma InActiveWords(all: seq<WordRecord>, w: WordRecord)
    ensures w in ActiveWords(all) <==> w in all && !w.excluded
  {
    ActiveWordsCount(all, w);
  }

  /** Summing the encounters of the active words is summing those of the records not excluded. */
  lemma {:induction false} ActiveEncountersSum(all: seq<WordRecord>)
    ensures EncounterSum(ActiveWords(all)) == ActiveEncounters(all)
  {
    if all != [] {
      ActiveEncountersSum(all[1..]);
      var head := if !all[0].excluded then [all[0]] else [];
      EncounterSumAppend(head, ActiveWords(all[1..]));
    }
  }

  lemma {:induction false} EncounterSumAppend(a: seq<WordRecord>, b: seq<WordRecord>)
    ensures EncounterSum(a + b) == EncounterSum(a) + EncounterSum(b)
  {
    if a != [] {
      EncounterSumAppend(a[1..], b);
      assert (a + b)[1..] == a[1..] + b;
    } else {
      assert a + b == b;
    }
  }

  /**
   * The learned count is additive over concatenation and counts one per learned word, which
   * determines it on every list.
   */
  lemma {:induction false} LearnedCountAppend(a: seq<WordRecord>, b: seq<WordRecord>)
    ensures LearnedCount(a + b) == LearnedCount(a) + LearnedCount(b)
    ensures forall w :: LearnedCount([w]) == if IsLearned(w) then 1 else 0
  {
    if a != [] {
      LearnedCountAppend(a[1..], b);
      assert (a + b)[1..] == a[1..] + b;
    } else {
      assert a + b == b;
    }
  }

  /** None of the words is learned iff the count is 0; all are iff it is the length. */
  lemma {:induction false} LearnedCountExtremes(ws: seq<WordRecord>)
    ensures LearnedCount(ws) == 0 <==> forall k :: 0 <= k < |ws| ==> !IsLearned(ws[k])
    ensures LearnedCount(ws) == |ws| <==> forall k :: 0 <= k < |ws| ==> IsLearned(ws[k])
  {
    if ws != [] {
      LearnedCountExtremes(ws[1..]);
      assert forall k :: 1 <= k < |ws| ==> ws[k] == ws[1..][k - 1];
    }
  }

  /** With at least one encounter per word, the encounter total is at least the word count. */
  lemma {:induction false} EncountersAtLeastWords(ws: seq<WordRecord>)
    requires forall k :: 0 <= k < |ws| ==> ws[k].encounters >= 1
    ensures EncounterSum(ws) >= |ws|
  {
    if ws != [] {
      EncountersAtLeastWords(ws[1..]);
    }
  }

  /**
   * No handler sets `learned` and mastery is kept within 0..2, so over a store the handlers
   * built the statistics report no learned words.
   */
  lemma LearnedWordsAlwaysZero(all: seq<WordRecord>, sessionCount: nat, current: Option<Session>)
    requires forall k :: 0 <= k < |all| ==> WordOk(all[k].id, all[k])
    ensures GetStats(all, sessionCount, current).learnedWords == 0
  {
    var active := ActiveWords(all);
    forall k | 0 <= k < |active|
      ensures !IsLearned(active[k])
    {
      InActiveWords(all, active[k]);
    }
    LearnedCountExtremes(active);
  }

  /** Over such a store the default export skips exactly the excluded words. */
  lemma {:induction false} ExportSkipsOnlyExcluded(all: seq<WordRecord>)
    requires forall k :: 0 <= k < |all| ==> WordOk(all[k].id, all[k])
    ensures ExportedWords(all) == ActiveWords(all)
  {
    if all != [] {
      ExportSkipsOnlyExcluded(all[1..]);
    }
  }

  // ---------------------------------------------------------------------------
  // Listings of the word store

  /** `all` is a listing of `store`, as `getAll` returns it: each listed record is the store's record under its id, and every key is listed. */
  predicate ListsStore(all: seq<WordRecord>, store: map<string, WordRecord>) {
    (forall k :: 0 <= k < |all| ==> all[k].id in store && store[all[k].id] == all[k])
    && (forall id :: id in store ==> exists k :: 0 <= k < |all| && all[k].id == id)
  }

  /** Every record of a listing of a well-formed store is well formed under its own id. */
  lemma ListedWordsOk(all: seq<WordRecord>, store: map<string, WordRecord>)
    requires WordsOk(store) && ListsStore(all, store)
    ensures forall k :: 0 <= k < |all| ==> WordOk(all[k].id, all[k])
  {
  }

  /** The record under the active-session pointer, or nothing when no session is active or it is missing. */
  function CurrentSession(sessions: map<nat, Session>, activeSessionId: Option<nat>): (r: Option<Session>)
    ensures r.Some? <==> activeSessionId.Some? && activeSessionId.value in sessions
    ensures r.Some? ==> r.value == sessions[activeSessionId.value]
  {
    if activeSessionId.Some? && activeSessionId.value in sessions then Some(sessions[activeSessionId.value]) else None
  }

  /**
   * The statistics of the background page: over a listing of its word store they report no
   * learned words and at least as many encounters as words, count its sessions and carry the
   * active session's record; and the default export skips exactly the excluded words.
   */
  lemma StatsOfStore(b: Background, all: seq<WordRecord>)
    requires b.Valid() && ListsStore(all, b.words)
    ensures var r := GetStats(all, |b.sessions|, CurrentSession(b.sessions, b.activeSessionId));
            r.learnedWords == 0 && r.totalEncounters >= r.totalWords
            && r.totalSessions == |b.sessions|
            && (r.currentSession.Some? <==> b.activeSessionId.Some? && b.activeSessionId.value in b.sessions)
            && (r.currentSession.Some? ==> r.currentSession.value == b.sessions[b.activeSessionId.value])
    ensures ExportedWords(all) == ActiveWords(all)
  {
    var sessionCount := |b.sessions|;
    var current := CurrentSession(b.sessions, b.activeSessionId);
    ListedWordsOk(all, b.words);
    LearnedWordsAlwaysZero(all, sessionCount, current);
    ExportSkipsOnlyExcluded(all);
    var active := ActiveWords(all);
    forall k | 0 <= k < |active|
      ensures active[k].encounters >= 1
    {
      InActiveWords(all, active[k]);
    }
    EncountersAtLeastWords(active);
    ActiveEncountersSum(all);
  }
}
