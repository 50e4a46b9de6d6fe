/**
 * `Popup`: the computations behind the popup's word list and its context panel: the
 * mastery dots and their click cycle, the time label and the link back into the video at
 * a context's moment, how many contexts the panel shows, and which word a key names.
 */
module Popup {
  import opened Wrappers
  import opened Strings
  import opened Media
  import opened WordProcessor
  import Ledger
  import LedgerQueries

  // ---------------------------------------------------------------------------
  // Mastery dots

  /** The number of dots drawn for a word. */
  const DotCount: nat := 3

  /** The fill colour of the dots for levels 0, 1 and 2: red, amber, green. */
  const DotColors: seq<string> := ["#e57373", "#ffc107", "#4CAF50"]

  /**
   * `renderMasteryDots`: clamp the level into 0..2 and pick its colour, then build the dots
   * one by one; dot `i` is filled exactly when `i` is at most the clamped level.
   */
  method RenderMasteryDots(level: int) returns (clamped: int, fillColor: string, filled: seq<bool>)
    ensures clamped == Ledger.ClampMastery(level)
    ensures fillColor == DotColors[clamped]
    ensures |filled| == DotCount
    ensures forall i :: 0 <= i < |filled| ==> (filled[i] <==> i <= clamped)
  {
    var capped := if level < 2 then level else 2;
    clamped := if capped > 0 then capped else 0;
    fillColor := DotColors[clamped];
    filled := [];
    for i := 0 to DotCount
      invariant |filled| == i
      invariant forall k :: 0 <= k < i ==> (filled[k] <==> k <= clamped)
    {
      filled := filled + [i <= clamped];
    }
  }

  /** How many dots are filled. */
  function FilledCount(filled: seq<bool>): (n: nat)
    ensures n <= |filled|
  {
    if filled == [] then 0 else (if filled[0] then 1 else 0) + FilledCount(filled[1..])
  }

  /** Dots drawn for a clamped level show that level: the first `level + 1` of them are filled. */
  lemma {:induction false} DotsShowLevel(clamped: int, filled: seq<bool>)
    requires 0 <= clamped <= 2 && |filled| == DotCount
    requires forall i :: 0 <= i < |filled| ==> (filled[i] <==> i <= clamped)
    ensures FilledCount(filled) == clamped + 1
    ensures filled[0]
  {
    var last := filled[2..];
    assert last == [filled[2]] && last[1..] == [];
    assert FilledCount(last) == if 2 <= clamped then 1 else 0;
    assert filled[1..][1..] == last;
    assert FilledCount(filled[1..]) == (if 1 <= clamped then 1 else 0) + FilledCount(last);
  }

  /** The dots' click handler: the next level after the one shown, wrapping from 2 to 0. */
  function NextMasteryLevel(current: int): (next: int)
    ensures 0 <= current <= 2 ==> 0 <= next <= 2 && next != current
  {
    JsRem(current + 1, 3)
  }

  /**
   * Clicking cycles through all three levels and back, and the level it sends is one the
   * background's clamp keeps as it is.
   */
  lemma MasteryCycle(level: int)
    requires 0 <= level <= 2
    ensures NextMasteryLevel(NextMasteryLevel(NextMasteryLevel(level))) == level
    ensures Ledger.ClampMastery(NextMasteryLevel(level)) == NextMasteryLevel(level)
    ensures NextMasteryLevel(level) == if level == 2 then 0 else level + 1
  {
    assert NextMasteryLevel(0) == 1 && NextMasteryLevel(1) == 2 && NextMasteryLevel(2) == 0;
  }

  // ---------------------------------------------------------------------------
  // Time labels

  /**
   * `formatTimestamp` in the popup: a zero time is written "0:00" at once, otherwise as
   * whole minutes, a colon and two-digit seconds. It writes every time exactly as the
   * background's export does.
   */
  function FormatTimestamp(ms: real): (t: string)
    ensures t == LedgerQueries.FormatTimestamp(ms)
  {
    if ms == 0.0 then
      assert IntToString(0) == "0" by { assert NatToString(0) == [DigitChar(0)]; }
      "0:00"
    else
      var totalSec := (ms / 1000.0).Floor;
      IntToString(FloorDiv(totalSec, 60)) + ":" + PadStart2(IntToString(JsRem(totalSec, 60)))
  }

  // ---------------------------------------------------------------------------
  // Links back into the video

  /** A character of a YouTube video id: an ASCII letter, a digit, `_` or `-`. */
  predicate IsYouTubeIdChar(c: char) {
    'A' <= c <= 'Z' || 'a' <= c <= 'z' || '0' <= c <= '9' || c == '_' || c == '-'
  }

  /** A YouTube video id: eleven id characters. */
  predicate IsYouTubeId(id: string) {
    |id| == 11 && forall k :: 0 <= k < |id| ==> IsYouTubeIdChar(id[k])
  }

  /** A Dreaming Spanish video id: twenty-four lower-case hex digits. */
  predicate IsDreamingId(id: string) {
    |id| == 24 && forall k :: 0 <= k < |id| ==> ('0' <= id[k] <= '9' || 'a' <= id[k] <= 'f')
  }

  /** No id is of both kinds. */
  lemma IdKindsDisjoint(id: string)
    ensures !(IsYouTubeId(id) && IsDreamingId(id))
  {
  }

  /**
   * Where a context's link points: a YouTube watch page at whole `seconds`, or a Dreaming
   * Spanish watch page at `positionMs`.
   */
  datatype VideoLink = YouTubeLink(videoId: string, seconds: int) | DreamingLink(videoId: string, positionMs: real)

  /** The YouTube watch page address for a link. */
  function YouTubeUrl(videoId: string, seconds: int): string {
    "https://www.youtube.com/watch?v=" + videoId + "&t=" + IntToString(seconds)
  }

  /**
   * `buildVideoUrl`: no link without a video id; a YouTube id opens YouTube at the whole
   * second, a Dreaming Spanish id opens that site at the millisecond position, and an id of
   * neither shape is taken to be YouTube's.
   */
  function BuildVideoUrl(videoId: string, timestampMs: real): (r: Option<VideoLink>)
    ensures r.None? <==> videoId == ""
    ensures r.Some? ==> r.value.videoId == videoId
    ensures r.Some? ==> (r.value.DreamingLink? <==> IsDreamingId(videoId))
    ensures r.Some? && r.value.DreamingLink? ==> r.value.positionMs == timestampMs
    ensures r.Some? && r.value.YouTubeLink? ==>
              (r.value.seconds as real) * 1000.0 <= timestampMs < (r.value.seconds as real) * 1000.0 + 1000.0
  {
    if videoId == "" then None
    else if IsYouTubeId(videoId) then Some(YouTubeLink(videoId, (timestampMs / 1000.0).Floor))
    else if IsDreamingId(videoId) then Some(DreamingLink(videoId, timestampMs))
    else Some(YouTubeLink(videoId, (timestampMs / 1000.0).Floor))
  }

  /** A YouTube link's seconds are the context's time label read as a count of seconds. */
  lemma YouTubeLinkMatchesLabel(videoId: string, ms: real)
    requires videoId != "" && !IsDreamingId(videoId) && ms >= 0.0
    ensures var link := BuildVideoUrl(videoId, ms).value;
            exists m: nat, s: nat ::
              s < 60 && 60 * m + s == link.seconds
              && FormatTimestamp(ms) == NatToString(m) + ":" + PadStart2(NatToString(s))
  {
    LedgerQueries.FormatTimestampFields(ms);
  }

  // ---------------------------------------------------------------------------
  // The context panel

  /** How many contexts the panel shows at most. */
  const ShownMax: nat := 5

  /** `contexts.slice(0, 5)`: the first five contexts of the reply. */
  function ShownContexts(contexts: seq<Ledger.ContextRecord>): (r: seq<Ledger.ContextRecord>)
    ensures |r| == if |contexts| <= ShownMax then |contexts| else ShownMax
    ensures r == contexts[..|r|]
  {
    if |contexts| <= ShownMax then contexts else contexts[..ShownMax]
  }


  /** Shown on the background's reply, the panel holds contexts of the word only. */
  lemma ShownAreOfWord(cs: seq<Ledger.ContextRecord>, wordId: string)
    ensures forall c :: c in ShownContexts(LedgerQueries.GetContexts(cs, wordId)) ==> c in cs && c.wordId == wordId
  {
    var reply := LedgerQueries.GetContexts(cs, wordId);
    var shown := ShownContexts(reply);
    LedgerQueries.GetContextsOfWord(cs, wordId);
    forall c | c in shown
      ensures c in reply
    {
      var k :| 0 <= k < |shown| && shown[k] == c;
      assert reply[k] == c;
    }
  }

  /** The panel lists the contexts newest first. */
  lemma ShownNewestFirst(cs: seq<Ledger.ContextRecord>, wordId: string)
    ensures var shown := ShownContexts(LedgerQueries.GetContexts(cs, wordId));
            forall i, j :: 0 <= i < j < |shown| ==> shown[i].capturedAt >= shown[j].capturedAt
  {
    var reply := LedgerQueries.GetContexts(cs, wordId);
    var shown := ShownContexts(reply);
    LedgerQueries.GetContextsNewestFirst(cs, wordId);
    forall i, j | 0 <= i < j < |shown|
      ensures shown[i].capturedAt >= shown[j].capturedAt
    {
      assert shown[i] == reply[i] && shown[j] == reply[j];
    }
  }

  /** None of the word's contexts the panel leaves out is newer than one it shows. */
  lemma ShownAreNewest(cs: seq<Ledger.ContextRecord>, wordId: string, c: Ledger.ContextRecord)
    requires c in cs && c.wordId == wordId
    requires c !in ShownContexts(LedgerQueries.GetContexts(cs, wordId))
    ensures var shown := ShownContexts(LedgerQueries.GetContexts(cs, wordId));
            forall k :: 0 <= k < |shown| ==> shown[k].capturedAt >= c.capturedAt
  {
    var reply := LedgerQueries.GetContexts(cs, wordId);
    if c in reply {
      LedgerQueries.GetContextsNewestFirst(cs, wordId);
      LedgerQueries.NotInPrefixIsOlder(reply, |ShownContexts(reply)|, c);
    } else {
      LedgerQueries.GetContextsNewest(cs, wordId, c);
    }
  }

  // ---------------------------------------------------------------------------
  // The word a key names

  /** The word the context panel highlights, as written: the second `:`-separated piece of the key. */
  function WordOfIdAsWritten(wordId: string): (r: Option<string>)
    ensures r.Some? <==> Contains(wordId, ":")
  {
    var pieces := SplitOn(wordId, ":");
    if |pieces| >= 2 then Some(pieces[1]) else None
  }

  /** A caption token such as a clock time keeps its inner colon when normalised. */
  lemma ClockTimeIsNormal()
    ensures IsNormalForm("10:30")
  {
    assert IsLetterOrDigit('1') && IsLetterOrDigit('0');
    assert Lower("10:30") == "10:30";
  }

  /** A key whose word holds a colon loses the rest of the word. */
  lemma WordOfIdAsWrittenCutsWord()
    ensures Ledger.WordId("es", "10:30") == "es:10:30"
    ensures WordOfIdAsWritten("es:10:30") == Some("10")
  {
    assert "es" + ":" + "10:30" == "es:10:30";
    ClockKeyPieces();
  }

  /** The pieces of the key `es:10:30`. */
  lemma ClockKeyPieces()
    ensures SplitOn("es:10:30", ":") == ["es", "10", "30"]
  {
    var word := "10:30";
    assert "es:10:30" == "es" + ":" + word;
    SplitAtColon("es", word);
    ClockTimePieces();
  }

  /** The pieces of the clock time `10:30`. */
  lemma ClockTimePieces()
    ensures SplitOn("10:30", ":") == ["10", "30"]
  {
    assert "10:30" == "10" + ":" + "30";
    SplitAtColon("10", "30");
    OccursAtChar("30", ':', 0);
    OccursAtChar("30", ':', 1);
    SplitOnAbsent("30", ":");
  }

  /** The word of a key: everything after its first colon. */
  function WordOfId(wordId: string): (r: Option<string>)
    ensures r.Some? <==> Contains(wordId, ":")
    ensures r.Some? ==> |r.value| < |wordId|
  {
    var i := IndexOf(wordId, ":", 0);
    if i < 0 then None else Some(wordId[i + 1..])
  }

  /** For a language code without a colon, the word read back from a key is the word it was made from. */
  lemma WordOfIdInvertsWordId(language: string, word: string)
    requires forall k :: 0 <= k < |language| ==> language[k] != ':'
    ensures WordOfId(Ledger.WordId(language, word)) == Some(word)
  {
    var id := Ledger.WordId(language, word);
    OccursAtChar(id, ':', |language|);
    forall k | 0 <= k < |language|
      ensures !OccursAt(id, ":", k)
    {
      OccursAtChar(id, ':', k);
    }
    assert IndexOf(id, ":", 0) == |language|;
  }
}
