/**
 * `Content`: the content script's rewind callback. It takes the transcript's words for the
 * replayed segment (or, without transcript data, the tokens of the caption on screen),
 * normalises them, drops empty and (if the setting is on) stop words, and hands what is left
 * to the background page as a `LOG_WORDS` message; it also throttles the subtitle warning.
 * The transcript, the site adapter and the clock are read by the caller and passed in.
 */
module Content {
  import opened Wrappers
  import opened Strings
  import opened Media
  import WordProcessor

  /** The language every logged batch is filed under. */
  const Language: string := "es"

  /** The shortest gap between two subtitle warnings, in milliseconds. */
  const WarningIntervalMs: int := 30000

  /** The adapter's subtitle check: `enabled`, and the warning to show when they are not. */
  datatype SubtitleStatus = SubtitleStatus(enabled: bool, message: string)

  /** The `LOG_WORDS` payload. */
  datatype LogWords = LogWords(words: seq<WordEntry>, videoId: string, videoTitle: string, language: string)

  // ---------------------------------------------------------------------------
  // The entry pipeline

  /** The transcript branch: replace each word by its normal form and drop the entries left empty. */
  function NormalizeEntries(es: seq<WordEntry>): seq<WordEntry> {
    if es == [] then [] else NormalizedEntry(es[0]) + NormalizeEntries(es[1..])
  }

  /** One entry with its word normalised, or nothing when that leaves the word empty. */
  function NormalizedEntry(e: WordEntry): seq<WordEntry> {
    var n := WordProcessor.Normalize(e.word);
    if n != [] then [e.(word := n)] else []
  }

  /** The pipeline works entry by entry: normalising a concatenation concatenates the results, so order is kept. */
  lemma {:induction false} NormalizeEntriesAppend(a: seq<WordEntry>, b: seq<WordEntry>)
    ensures NormalizeEntries(a + b) == NormalizeEntries(a) + NormalizeEntries(b)
  {
    if a == [] {
      assert a + b == b;
    } else {
      var rest := a[1..];
      assert a == [a[0]] + rest;
      assert a + b == [a[0]] + (rest + b);
      calc {
        NormalizeEntries(a + b);
        { NormalizeEntriesCons(a[0], rest + b); }
        NormalizedEntry(a[0]) + NormalizeEntries(rest + b);
        { NormalizeEntriesAppend(rest, b); }
        NormalizedEntry(a[0]) + (NormalizeEntries(rest) + NormalizeEntries(b));
        (NormalizedEntry(a[0]) + NormalizeEntries(rest)) + NormalizeEntries(b);
        { NormalizeEntriesCons(a[0], rest); }
        NormalizeEntries(a) + NormalizeEntries(b);
      }
    }
  }

  lemma NormalizeEntriesCons(e: WordEntry, rest: seq<WordEntry>)
    ensures NormalizeEntries([e] + rest) == NormalizedEntry(e) + NormalizeEntries(rest)
  {
    assert ([e] + rest)[1..] == rest;
  }

  /** `e` is what normalising `x` keeps: `x` with its word replaced by a non-empty normal form. */
  predicate NormalizesTo(x: WordEntry, e: WordEntry) {
    e == x.(word := WordProcessor.Normalize(x.word)) && e.word != []
  }

  lemma InNormalizedEntry(x: WordEntry, e: WordEntry)
    ensures e in NormalizedEntry(x) <==> NormalizesTo(x, e)
  {
  }

  /**
   * An entry survives iff its normal form is non-empty, and then only its word changes,
   * to that normal form.
   */
  lemma {:induction false} InNormalizeEntries(es: seq<WordEntry>, e: WordEntry)
    ensures e in NormalizeEntries(es) <==> exists i :: 0 <= i < |es| && NormalizesTo(es[i], e)
  {
    if es != [] {
      var rest := es[1..];
      InNormalizeEntries(rest, e);
      InNormalizedEntry(es[0], e);
      assert NormalizeEntries(es) == NormalizedEntry(es[0]) + NormalizeEntries(rest);
      if e in NormalizeEntries(rest) {
        var i :| 0 <= i < |rest| && NormalizesTo(rest[i], e);
        assert es[i + 1] == rest[i];
      }
      if exists i :: 0 <= i < |es| && NormalizesTo(es[i], e) {
        var i :| 0 <= i < |es| && NormalizesTo(es[i], e);
        if i > 0 {
          assert rest[i - 1] == es[i];
        }
      }
    }
  }

  /** The fallback branch: one entry per token, each with the whole caption as sentence and the segment start as time. */
  function TokenEntries(tokens: seq<string>, visibleText: string, startSec: real): (r: seq<WordEntry>)
    ensures |r| == |tokens|
    ensures forall k :: 0 <= k < |tokens| ==> r[k] == WordEntry(tokens[k], visibleText, Real(startSec * 1000.0))
  {
    if tokens == [] then []
    else [WordEntry(tokens[0], visibleText, Real(startSec * 1000.0))] + TokenEntries(tokens[1..], visibleText, startSec)
  }

  /** The stop-word filter: keep the entries whose word is not a stop word. */
  function DropStopWords(es: seq<WordEntry>): seq<WordEntry> {
    if es == [] then []
    else (if WordProcessor.IsStopWord(es[0].word) then [] else [es[0]]) + DropStopWords(es[1..])
  }

  lemma {:induction false} InDropStopWords(es: seq<WordEntry>, e: WordEntry)
    ensures e in DropStopWords(es) <==> e in es && !WordProcessor.IsStopWord(e.word)
  {
    if es != [] {
      InDropStopWords(es[1..], e);
      assert es == [es[0]] + es[1..];
    }
  }

  /**
   * The entries a rewind logs, or `None` when nothing is logged: no transcript data and no
   * caption text, or nothing left after filtering.
   */
  function PrepareEntries(inRange: Option<seq<WordEntry>>, visibleText: string, startSec: real, filterStopWords: bool)
    : Option<seq<WordEntry>>
  {
    if inRange.None? && visibleText == "" then None
    else
      var entries :=
        if inRange.None? then TokenEntries(WordProcessor.Tokenize(visibleText), visibleText, startSec)
        else NormalizeEntries(inRange.value);
      var kept := if filterStopWords then DropStopWords(entries) else entries;
      if kept == [] then None else Some(kept)
  }

  /** What the transcript or caption contributes before the stop-word filter. */
  function Candidates(inRange: Option<seq<WordEntry>>, visibleText: string, startSec: real): seq<WordEntry> {
    if inRange.None? then TokenEntries(WordProcessor.Tokenize(visibleText), visibleText, startSec)
    else NormalizeEntries(inRange.value)
  }

  /**
   * `e` is an entry a rewind logs, stated from the inputs alone: with transcript data, the
   * normal form of one of its entries; without, one caption token stamped with the whole
   * caption and the segment start; and with the setting on, never a stop word.
   */
  predicate Logged(inRange: Option<seq<WordEntry>>, visibleText: string, startSec: real, filterStopWords: bool, e: WordEntry) {
    (filterStopWords ==> !WordProcessor.IsStopWord(e.word))
    && if inRange.Some? then exists i :: 0 <= i < |inRange.value| && NormalizesTo(inRange.value[i], e)
       else
         var tokens := WordProcessor.Tokenize(visibleText);
         exists k :: 0 <= k < |tokens| && e == WordEntry(tokens[k], visibleText, Real(startSec * 1000.0))
  }

  /**
   * What a rewind logs: a non-empty list holding exactly the `Logged` entries, or `None`
   * when there is no such entry (in particular with no transcript data and no caption text).
   */
  lemma {:induction false} InPrepareEntries(inRange: Option<seq<WordEntry>>, visibleText: string, startSec: real,
                                            filterStopWords: bool, e: WordEntry)
    ensures PrepareEntries(inRange, visibleText, startSec, filterStopWords).Some? ==>
              PrepareEntries(inRange, visibleText, startSec, filterStopWords).value != []
              && (e in PrepareEntries(inRange, visibleText, startSec, filterStopWords).value
                  <==> Logged(inRange, visibleText, startSec, filterStopWords, e))
    ensures PrepareEntries(inRange, visibleText, startSec, filterStopWords).None? ==>
              !Logged(inRange, visibleText, startSec, filterStopWords, e)
  {
    var c := Candidates(inRange, visibleText, startSec);
    var kept := if filterStopWords then DropStopWords(c) else c;
    var tokens := WordProcessor.Tokenize(visibleText);
    InCandidates(inRange, visibleText, startSec, e);
    if filterStopWords {
      InDropStopWords(c, e);
    }
    assert e in kept <==> Logged(inRange, visibleText, startSec, filterStopWords, e);
    if inRange.None? && visibleText == "" {
      EmptyTextHasNoTokens();
      assert c == [];
    }
  }

  /** Membership in the candidates, before the filter. */
  lemma InCandidates(inRange: Option<seq<WordEntry>>, visibleText: string, startSec: real, e: WordEntry)
    ensures e in Candidates(inRange, visibleText, startSec) <==>
              if inRange.Some? then exists i :: 0 <= i < |inRange.value| && NormalizesTo(inRange.value[i], e)
              else
                var tokens := WordProcessor.Tokenize(visibleText);
                exists k :: 0 <= k < |tokens| && e == WordEntry(tokens[k], visibleText, Real(startSec * 1000.0))
  {
    if inRange.Some? {
      InNormalizeEntries(inRange.value, e);
    } else {
      var tokens := WordProcessor.Tokenize(visibleText);
      var r := TokenEntries(tokens, visibleText, startSec);
      if e in r {
        var k :| 0 <= k < |r| && r[k] == e;
      }
    }
  }

  lemma EmptyTextHasNoTokens()
    ensures WordProcessor.Tokenize("") == []
  {
    assert Strings.SplitWs("") == [""];
    WordProcessor.NormalizePunctuationOnly("");
  }

  /**
   * Every logged word is non-empty and in normal form (so a fixed point of `normalize`),
   * and with the setting on none is a stop word.
   */
  lemma LoggedWordsAreNormal(inRange: Option<seq<WordEntry>>, visibleText: string, startSec: real, filterStopWords: bool)
    ensures PrepareEntries(inRange, visibleText, startSec, filterStopWords).Some? ==>
              forall e :: e in PrepareEntries(inRange, visibleText, startSec, filterStopWords).value ==>
                e.word != [] && WordProcessor.IsNormalForm(e.word) && WordProcessor.Normalize(e.word) == e.word
                && (filterStopWords ==> !WordProcessor.IsStopWord(e.word))
  {
    var r := PrepareEntries(inRange, visibleText, startSec, filterStopWords);
    if r.Some? {
      var c := Candidates(inRange, visibleText, startSec);
      forall e | e in r.value
        ensures e.word != [] && WordProcessor.IsNormalForm(e.word) && WordProcessor.Normalize(e.word) == e.word
                && (filterStopWords ==> !WordProcessor.IsStopWord(e.word))
      {
        if filterStopWords {
          InDropStopWords(c, e);
        }
        assert e in c;
        CandidateIsNormal(inRange, visibleText, startSec, e);
      }
    }
  }

  lemma CandidateIsNormal(inRange: Option<seq<WordEntry>>, visibleText: string, startSec: real, e: WordEntry)
    requires e in Candidates(inRange, visibleText, startSec)
    ensures e.word != [] && WordProcessor.IsNormalForm(e.word) && WordProcessor.Normalize(e.word) == e.word
  {
    if inRange.None? {
      var tokens := WordProcessor.Tokenize(visibleText);
      var k :| 0 <= k < |tokens| && TokenEntries(tokens, visibleText, startSec)[k] == e;
      WordProcessor.TokensAreNormal(visibleText);
    } else {
      InNormalizeEntries(inRange.value, e);
      WordProcessor.NormalizeFixesNormalForm(e.word);
    }
  }

  /** Without transcript data, the words logged are the caption's tokens, in order, when no filter applies. */
  lemma FallbackLogsTokens(visibleText: string, startSec: real)
    requires visibleText != "" && WordProcessor.Tokenize(visibleText) != []
    ensures var r := PrepareEntries(None, visibleText, startSec, false);
            r.Some? && |r.value| == |WordProcessor.Tokenize(visibleText)|
            && forall k :: 0 <= k < |r.value| ==>
                 r.value[k] == WordEntry(WordProcessor.Tokenize(visibleText)[k], visibleText, Real(startSec * 1000.0))
  {
  }

  // ---------------------------------------------------------------------------
  // The content script's state

  /** The closure state of the content script: the stop-word setting and the time of the last subtitle warning. */
  class ContentScript {
    const filterStopWords: bool
    var lastSubtitleWarningTime: int

    /** Start-up: the setting as stored, no warning shown yet. */
    constructor (filterStopWords: bool)
      ensures this.filterStopWords == filterStopWords && lastSubtitleWarningTime == 0
    {
      this.filterStopWords := filterStopWords;
      lastSubtitleWarningTime := 0;
    }

    /**
     * `checkAndWarnSubtitles`: warn when the site reports subtitles off, unless a warning was
     * shown less than 30 s ago; a warning records its time.
     */
    method CheckAndWarnSubtitles(check: Option<SubtitleStatus>, now: int) returns (warning: Option<string>)
      modifies this
      ensures warning.Some? <==> check.Some? && !check.value.enabled && now - old(lastSubtitleWarningTime) >= WarningIntervalMs
      ensures warning.Some? ==> warning.value == check.value.message && lastSubtitleWarningTime == now
      ensures warning.None? ==> lastSubtitleWarningTime == old(lastSubtitleWarningTime)
    {
      if check.None? {
        return None;
      }
      if !check.value.enabled {
        if now - lastSubtitleWarningTime < WarningIntervalMs {
          return None;
        }
        lastSubtitleWarningTime := now;
        return Some(check.value.message);
      }
      warning := None;
    }

    /**
     * The rewind callback: check subtitles, then build the batch from the transcript's words
     * in range (`inRange`, read for the segment) or the caption on screen, and send it unless empty.
     */
    method OnRewind(startSec: real, inRange: Option<seq<WordEntry>>, visibleText: string,
                    check: Option<SubtitleStatus>, videoId: string, videoTitle: string, now: int)
      returns (warning: Option<string>, message: Option<LogWords>)
      modifies this
      ensures warning.Some? <==> check.Some? && !check.value.enabled && now - old(lastSubtitleWarningTime) >= WarningIntervalMs
      ensures warning.Some? ==> lastSubtitleWarningTime == now
      ensures warning.None? ==> lastSubtitleWarningTime == old(lastSubtitleWarningTime)
      ensures message.None? <==> PrepareEntries(inRange, visibleText, startSec, filterStopWords).None?
      ensures message.Some? ==>
                message.value == LogWords(PrepareEntries(inRange, visibleText, startSec, filterStopWords).value, videoId, videoTitle, Language)
    {
      warning := CheckAndWarnSubtitles(check, now);
      var entries := PrepareEntries(inRange, visibleText, startSec, filterStopWords);
      if entries.None? {
        return warning, None;
      }
      message := Some(LogWords(entries.value, videoId, videoTitle, Language));
    }
  }
}
