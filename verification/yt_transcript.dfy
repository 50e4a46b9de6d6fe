/**
 * The YouTube `TranscriptManager`: it obtains the video's caption tracks (from the
 * page bridge's cache or reply, else by cutting the player-response JSON out of the
 * page HTML with a brace-matching scanner), picks the Spanish track, keeps the
 * transcript's timed events, and answers which words were spoken in a time range.
 *
 * `fetch`, `URL` and `JSON.parse` are not modelled: their outcomes are parameters.
 */
module YtTranscript {
  import opened Wrappers
  import opened Strings
  import opened Media

  /** The language whose captions are wanted. */
  const TargetLanguage: string := "es"

  /** The page variable whose JSON literal holds the caption tracks. */
  const Marker: string := "ytInitialPlayerResponse"

  /** The message type the page bridge posts its caption tracks with. */
  const CaptionTracksMessage: string := "YT_REWIND_CAPTION_TRACKS"

  /** A caption track of the player response; a missing `kind` reads as `""`. */
  datatype CaptionTrack = CaptionTrack(languageCode: string, kind: string, vssId: Option<string>, baseUrl: string)

  /** A segment of a timed event; a missing `utf8` reads as `""` and a missing `tOffsetMs` as 0. */
  datatype Seg = Seg(utf8: string, tOffsetMs: int)

  /** A timed event of the `json3` transcript; missing times read as 0 and missing `segs` as none. */
  datatype TimedEvent = TimedEvent(tStartMs: int, dDurationMs: int, segs: seq<Seg>)

  /** What `JSON.parse` makes of a text: it throws, it gives `null`, or it gives a value. */
  datatype Json<+T> = Invalid | Null | Value(v: T)

  /** What a `fetch` settles to: a rejection, or a response with its status and body. */
  datatype FetchOutcome = NetworkError | Response(ok: bool, status: int, body: string)

  /** The errors the loading steps throw. */
  datatype LoadError =
    | PageUnavailable
    | MarkerMissing
    | JsonStartMissing
    | JsonEndMissing
    | PlayerJsonInvalid
    | TranscriptUnavailable
    | TranscriptFetchFailed(status: int)
    | EmptyResponse
    | TranscriptJsonInvalid
    | TranscriptJsonNull

  // ---------------------------------------------------------------------------
  // The brace scanner of `_getTracksFromHTML`

  /** The scanner's variables: brace depth, inside a string literal, after a backslash in one. */
  datatype ScanState = ScanState(depth: int, inString: bool, escape: bool)

  const Start := ScanState(0, false, false)

  /** One character of the scan: an escaped character is skipped, quotes toggle strings, braces count outside them. */
  function Step(st: ScanState, ch: char): ScanState {
    if st.escape then st.(escape := false)
    else if ch == '\\' && st.inString then st.(escape := true)
    else if ch == '"' then st.(inString := !st.inString)
    else if st.inString then st
    else if ch == '{' then st.(depth := st.depth + 1)
    else if ch == '}' then st.(depth := st.depth - 1)
    else st
  }

  /** `ch` is a counted `}` that brings the depth back to 0, where the scan stops. */
  predicate Closes(st: ScanState, ch: char) {
    !st.escape && !st.inString && ch == '}' && st.depth == 1
  }

  /** The state after scanning all of `t` from `st`. */
  function Run(st: ScanState, t: string): ScanState
    decreases |t|
  {
    if t == [] then st else Run(Step(st, t[0]), t[1..])
  }

  /** Scanning from index `i` in state `st`: one past the closing brace, or -1 when the text ends first. */
  function BraceEndFrom(s: string, i: nat, st: ScanState): (r: int)
    requires i <= |s|
    ensures r == -1 || i < r <= |s|
    decreases |s| - i
  {
    if i == |s| then -1
    else if Closes(st, s[i]) then i + 1
    else BraceEndFrom(s, i + 1, Step(st, s[i]))
  }

  /**
   * A brace-balanced JSON text: the scan ends outside any string with depth 0, and every
   * non-empty proper prefix leaves at least one brace open.
   */
  predicate Balanced(t: string) {
    Run(Start, t) == Start && forall k :: 0 < k < |t| ==> Run(Start, t[..k]).depth >= 1
  }

  /** The `for` loop of the scanner, from the opening brace. */
  method FindBraceEnd(html: string, braceStart: nat) returns (braceEnd: int)
    requires braceStart <= |html|
    ensures braceEnd == BraceEndFrom(html, braceStart, Start)
  {
    var depth := 0;
    var inString := false;
    var escape := false;
    braceEnd := -1;
    var i := braceStart;
    while i < |html|
      invariant braceStart <= i <= |html|
      invariant BraceEndFrom(html, i, ScanState(depth, inString, escape)) == BraceEndFrom(html, braceStart, Start)
    {
      var ch := html[i];
      if escape {
        escape := false;
      } else if ch == '\\' && inString {
        escape := true;
      } else if ch == '"' {
        inString := !inString;
      } else if !inString {
        if ch == '{' {
          depth := depth + 1;
        } else if ch == '}' {
          depth := depth - 1;
          if depth == 0 {
            braceEnd := i + 1;
            return;
          }
        }
      }
      i := i + 1;
    }
  }

  /** Scanning `c` then `t` is scanning `[c] + t`. */
  lemma RunCons(st: ScanState, t: string, i: nat, k: nat)
    requires i < k <= |t|
    ensures Run(st, t[i..k]) == Run(Step(st, t[i]), t[i + 1..k])
  {
    assert t[i..k][1..] == t[i + 1..k];
  }

  /**
   * While a brace is open, the scan from `i` stops right after a `}` that leaves the depth
   * at 0 outside strings, and keeps a brace open at every earlier index.
   */
  lemma {:induction false} BraceEndFromFacts(s: string, i: nat, st: ScanState, base: nat)
    requires base <= i <= |s| && st.depth >= 1
    requires st == Run(Start, s[base..i])
    requires BraceEndFrom(s, i, st) >= 0
    ensures s[BraceEndFrom(s, i, st) - 1] == '}'
    ensures Run(Start, s[base..BraceEndFrom(s, i, st)]) == Start
    ensures forall k :: i <= k < BraceEndFrom(s, i, st) ==> Run(Start, s[base..k]).depth >= 1
    decreases |s| - i
  {
    var r := BraceEndFrom(s, i, st);
    RunSnoc(Start, s, base, i);
    if Closes(st, s[i]) {
      ClosingStep(st, s[i]);
      assert r == i + 1;
    } else {
      var next := Step(st, s[i]);
      StepKeepsOpen(st, s[i]);
      assert r == BraceEndFrom(s, i + 1, next);
      BraceEndFromFacts(s, i + 1, next, base);
    }
  }

  /** A closing brace brings the scan back to its starting state. */
  lemma ClosingStep(st: ScanState, ch: char)
    requires Closes(st, ch)
    ensures Step(st, ch) == Start
  {
  }

  /** Any other character leaves a brace open. */
  lemma StepKeepsOpen(st: ScanState, ch: char)
    requires st.depth >= 1 && !Closes(st, ch)
    ensures Step(st, ch).depth >= 1
  {
  }

  /** Scanning one more character. */
  lemma {:induction false} RunSnoc(st: ScanState, s: string, base: nat, i: nat)
    requires base <= i < |s|
    ensures Run(st, s[base..i + 1]) == Step(Run(st, s[base..i]), s[i])
    decreases i - base
  {
    if base < i {
      RunCons(st, s, base, i + 1);
      RunCons(st, s, base, i);
      RunSnoc(Step(st, s[base]), s, base + 1, i);
    } else {
      assert s[base..i + 1][1..] == [];
    }
  }

  /**
   * From an opening brace the scanner finds the end of a balanced JSON text: the text it
   * delimits starts with `{`, ends with `}`, and is brace-balanced outside strings, with
   * no shorter balanced prefix.
   */
  lemma ScannedTextBalanced(html: string, braceStart: nat)
    requires braceStart < |html| && html[braceStart] == '{'
    requires BraceEndFrom(html, braceStart, Start) >= 0
    ensures var e := BraceEndFrom(html, braceStart, Start);
            braceStart < e && html[e - 1] == '}' && Balanced(html[braceStart..e])
  {
    var e := BraceEndFrom(html, braceStart, Start);
    var one := Step(Start, '{');
    assert html[braceStart..braceStart + 1] == ['{'];
    assert Run(Start, html[braceStart..braceStart + 1]) == one by {
      assert html[braceStart..braceStart + 1][1..] == [];
    }
    assert BraceEndFrom(html, braceStart, Start) == BraceEndFrom(html, braceStart + 1, one);
    BraceEndFromFacts(html, braceStart + 1, one, braceStart);
    var t := html[braceStart..e];
    forall k | 0 < k < |t|
      ensures Run(Start, t[..k]).depth >= 1
    {
      assert t[..k] == html[braceStart..braceStart + k];
    }
    assert t[..|t|] == t;
  }

  /** A `}` inside a string literal is not counted: `{"}"}` is one whole object. */
  lemma QuotedBraceSkipped()
    ensures BraceEndFrom("{\"}\"}", 0, Start) == 5
  {
  }

  /** An escaped quote does not end the string: the brace after it is still quoted. */
  lemma EscapedQuoteSkipped()
    ensures BraceEndFrom("{\"\\\"}\"}", 0, Start) == 7
  {
  }

  /** The text from the first `{` after the marker up to its matching `}`, or why there is none. */
  function ExtractJson(html: string): (r: Result<string, LoadError>)
    ensures r == Err(MarkerMissing) <==> !Contains(html, Marker)
    ensures r == Err(JsonStartMissing) <==> Contains(html, Marker) && IndexOf(html, "{", IndexOf(html, Marker, 0)) == -1
    ensures r.Ok? ==> |r.value| >= 2 && r.value[0] == '{' && r.value[|r.value| - 1] == '}' && Balanced(r.value)
    ensures r.Err? ==> r.error in {MarkerMissing, JsonStartMissing, JsonEndMissing}
  {
    var markerIdx := IndexOf(html, Marker, 0);
    if markerIdx == -1 then Err(MarkerMissing)
    else
      var braceStart := IndexOf(html, "{", markerIdx);
      if braceStart == -1 then Err(JsonStartMissing)
      else
        var braceEnd := BraceEndFrom(html, braceStart, Start);
        if braceEnd == -1 then Err(JsonEndMissing)
        else
          ExtractedText(html, braceStart);
          Ok(html[braceStart..braceEnd])
  }

  /** The text cut out from a found opening brace is brace-delimited and balanced. */
  lemma ExtractedText(html: string, braceStart: nat)
    requires braceStart <= |html| && OccursAt(html, "{", braceStart)
    requires BraceEndFrom(html, braceStart, Start) != -1
    ensures var t := html[braceStart..BraceEndFrom(html, braceStart, Start)];
            |t| >= 2 && t[0] == '{' && t[|t| - 1] == '}' && Balanced(t)
  {
    OccursAtChar(html, '{', braceStart);
    ScannedTextBalanced(html, braceStart);
    var t := html[braceStart..BraceEndFrom(html, braceStart, Start)];
    assert Run(Start, t).depth == 0;
  }

  /**
   * `_getTracksFromHTML` on the page's text: the caption tracks of the player response
   * (`None` when the path to them is missing), or the error it throws.
   */
  function TracksFromHtml(html: string, parse: string -> Json<Option<seq<CaptionTrack>>>)
    : Result<Option<seq<CaptionTrack>>, LoadError>
  {
    match ExtractJson(html)
    case Err(e) => Err(e)
    case Ok(json) =>
      match parse(json)
      case Invalid => Err(PlayerJsonInvalid)
      case Null => Ok(None)
      case Value(tracks) => Ok(tracks)
  }

  /** The page text only yields tracks when it holds the marker followed by a balanced JSON text. */
  lemma TracksNeedBalancedJson(html: string, parse: string -> Json<Option<seq<CaptionTrack>>>)
    requires TracksFromHtml(html, parse).Ok?
    ensures Contains(html, Marker)
    ensures ExtractJson(html).Ok? && Balanced(ExtractJson(html).value)
    ensures parse(ExtractJson(html).value) != Invalid
  {
  }

  /** `_getTracksFromHTML`: cut out the player-response JSON with the scanner and read its caption tracks. */
  method GetTracksFromHtml(html: string, parse: string -> Json<Option<seq<CaptionTrack>>>)
    returns (r: Result<Option<seq<CaptionTrack>>, LoadError>)
    ensures r == TracksFromHtml(html, parse)
  {
    var markerIdx := IndexOf(html, Marker, 0);
    if markerIdx == -1 {
      return Err(MarkerMissing);
    }
    var braceStart := IndexOf(html, "{", markerIdx);
    if braceStart == -1 {
      return Err(JsonStartMissing);
    }
    var braceEnd := FindBraceEnd(html, braceStart);
    if braceEnd == -1 {
      return Err(JsonEndMissing);
    }
    var jsonStr := html[braceStart..braceEnd];
    match parse(jsonStr)
    case Invalid =>
      r := Err(PlayerJsonInvalid);
    case Null =>
      r := Ok(None);
    case Value(tracks) =>
      r := Ok(tracks);
  }

  // ---------------------------------------------------------------------------
  // Track selection

  /** The three `find` tests of `_fetchTranscript`, in priority order. */
  datatype Rule = ManualInTarget | InTarget | VssIdHasTarget

  predicate Matches(t: CaptionTrack, rule: Rule) {
    match rule
    case ManualInTarget => t.languageCode == TargetLanguage && t.kind != "asr"
    case InTarget => t.languageCode == TargetLanguage
    case VssIdHasTarget => t.vssId.Some? && Contains(t.vssId.value, "." + TargetLanguage)
  }

  /** `tracks.find(rule)`: the index of the first track passing the test. */
  function FindTrack(tracks: seq<CaptionTrack>, rule: Rule): (r: Option<nat>)
    ensures r.Some? ==> r.value < |tracks| && Matches(tracks[r.value], rule)
    ensures forall j :: 0 <= j < (if r.Some? then r.value else |tracks|) ==> !Matches(tracks[j], rule)
  {
    if tracks == [] then None
    else if Matches(tracks[0], rule) then Some(0)
    else
      match FindTrack(tracks[1..], rule)
      case None => None
      case Some(k) => Some(k + 1)
  }

  /** The target track: the first manual Spanish track, else the first Spanish one, else the first whose `vssId` names Spanish. */
  function SelectTrack(tracks: seq<CaptionTrack>): Option<CaptionTrack> {
    match FindTrack(tracks, ManualInTarget)
    case Some(k) => Some(tracks[k])
    case None =>
      match FindTrack(tracks, InTarget)
      case Some(k) => Some(tracks[k])
      case None =>
        match FindTrack(tracks, VssIdHasTarget)
        case Some(k) => Some(tracks[k])
        case None => None
  }

  /**
   * The selection priority: a track is picked iff some track passes one of the tests; a
   * manual Spanish track wins whenever there is one, and a track outside the target
   * language is picked only when no track is in it.
   */
  lemma SelectTrackPriority(tracks: seq<CaptionTrack>)
    ensures SelectTrack(tracks).Some? <==>
              exists j :: 0 <= j < |tracks| && (Matches(tracks[j], InTarget) || Matches(tracks[j], VssIdHasTarget))
    ensures SelectTrack(tracks).Some? ==> SelectTrack(tracks).value in tracks
    ensures (exists j :: 0 <= j < |tracks| && Matches(tracks[j], ManualInTarget)) ==>
              SelectTrack(tracks).Some? && Matches(SelectTrack(tracks).value, ManualInTarget)
    ensures SelectTrack(tracks).Some? && SelectTrack(tracks).value.languageCode != TargetLanguage ==>
              forall j :: 0 <= j < |tracks| ==> !Matches(tracks[j], InTarget)
  {
    if exists j :: 0 <= j < |tracks| && Matches(tracks[j], ManualInTarget) {
      var j :| 0 <= j < |tracks| && Matches(tracks[j], ManualInTarget);
      assert Matches(tracks[j], InTarget);
    }
  }

  /** A manual Spanish track listed after an automatic one is still preferred. */
  lemma SelectTrackExample()
    ensures SelectTrack([CaptionTrack("es", "asr", None, "a"), CaptionTrack("es", "", None, "m")])
            == Some(CaptionTrack("es", "", None, "m"))
  {
    var tracks := [CaptionTrack("es", "asr", None, "a"), CaptionTrack("es", "", None, "m")];
    assert !Matches(tracks[0], ManualInTarget);
    assert Matches(tracks[1], ManualInTarget);
  }

  /**
   * `_fetchTranscript` after the track choice: `None` when there is no target track (nothing
   * is stored), the events to store, or the error thrown by the response checks.
   */
  function FetchedEvents(captionTracks: seq<CaptionTrack>, response: FetchOutcome,
                         parse: string -> Json<Option<seq<TimedEvent>>>): (r: Result<Option<seq<TimedEvent>>, LoadError>)
    ensures r == Ok(None) <==> SelectTrack(captionTracks).None?
    ensures r.Ok? && r.value.Some? ==>
              response.Response? && response.ok && Trim(response.body) != [] && parse(response.body).Value?
              && r.value.value == parse(response.body).v.GetOr([])
    ensures response.Response? && !response.ok && SelectTrack(captionTracks).Some? ==>
              r == Err(TranscriptFetchFailed(response.status))
    ensures response.Response? && response.ok && Trim(response.body) == [] && SelectTrack(captionTracks).Some? ==>
              r == Err(EmptyResponse)
  {
    if SelectTrack(captionTracks).None? then Ok(None)
    else
      match response
      case NetworkError => Err(TranscriptUnavailable)
      case Response(ok, status, body) =>
        if !ok then Err(TranscriptFetchFailed(status))
        else if body == [] || Trim(body) == [] then Err(EmptyResponse)
        else
          match parse(body)
          case Invalid => Err(TranscriptJsonInvalid)
          case Null => Err(TranscriptJsonNull)
          case Value(events) => Ok(Some(events.GetOr([])))
  }

  /**
   * `_getCaptionTracks` seen from the manager's bridge state: the cached tracks if the bridge
   * already posted some, else the bridge's reply (`None` after the 2 s timeout) when it holds
   * tracks, else the tracks read from the page.
   */
  function CaptionTracksFor(bridgeReady: bool, cached: Option<seq<CaptionTrack>>,
                            reply: Option<Option<seq<CaptionTrack>>>, page: Option<string>,
                            parse: string -> Json<Option<seq<CaptionTrack>>>): Result<Option<seq<CaptionTrack>>, LoadError>
  {
    var bridgeTracks := if bridgeReady && cached.Some? then cached else if reply.Some? then reply.value else None;
    if bridgeTracks.Some? && bridgeTracks.value != [] then Ok(bridgeTracks)
    else if page.None? then Err(PageUnavailable)
    else TracksFromHtml(page.value, parse)
  }

  /** What `loadTranscript` stores once it has switched video: events only when every step succeeded. */
  function LoadedEvents(tracks: Result<Option<seq<CaptionTrack>>, LoadError>, response: FetchOutcome,
                        parse: string -> Json<Option<seq<TimedEvent>>>): Option<seq<TimedEvent>>
  {
    if tracks.Ok? && tracks.value.Some? && tracks.value.value != [] then
      match FetchedEvents(tracks.value.value, response, parse)
      case Ok(Some(events)) => Some(events)
      case _ => None
    else None
  }

  /**
   * A load that stores events found a Spanish track among non-empty caption tracks and got
   * a successful, non-blank response that parses; every failure leaves no events.
   */
  lemma LoadedEventsNeedSuccess(tracks: Result<Option<seq<CaptionTrack>>, LoadError>, response: FetchOutcome,
                                parse: string -> Json<Option<seq<TimedEvent>>>)
    requires LoadedEvents(tracks, response, parse).Some?
    ensures tracks.Ok? && tracks.value.Some? && SelectTrack(tracks.value.value).Some?
    ensures response.Response? && response.ok && Trim(response.body) != [] && parse(response.body).Value?
    ensures LoadedEvents(tracks, response, parse).value == parse(response.body).v.GetOr([])
  {
  }

  // ---------------------------------------------------------------------------
  // Words in a time range

  /** `tStartMs + dDurationMs`, each defaulting to 0. */
  function EventEnd(e: TimedEvent): int {
    e.tStartMs + e.dDurationMs
  }

  /** `eventEnd < startMs || eventStart > endMs` is false: the event overlaps the range. */
  predicate EventOverlaps(e: TimedEvent, startMs: real, endMs: real) {
    !((EventEnd(e) as real) < startMs || (e.tStartMs as real) > endMs)
  }

  /** `s.replace(/\n/g, ' ')`. */
  function NewlinesToSpaces(s: string): (r: string)
    ensures |r| == |s|
    ensures forall k :: 0 <= k < |s| ==> r[k] == (if s[k] == '\n' then ' ' else s[k])
  {
    if s == [] then [] else [if s[0] == '\n' then ' ' else s[0]] + NewlinesToSpaces(s[1..])
  }

  /** `segs.map(seg => seg.utf8 || '')`. */
  function Utf8s(segs: seq<Seg>): (r: seq<string>)
    ensures |r| == |segs|
    ensures forall k :: 0 <= k < |segs| ==> r[k] == segs[k].utf8
  {
    seq(|segs|, k requires 0 <= k < |segs| => segs[k].utf8)
  }

  /** The event's sentence: its segments' texts joined, newlines made spaces, trimmed. */
  function Sentence(e: TimedEvent): string {
    Trim(NewlinesToSpaces(Join(Utf8s(e.segs), "")))
  }

  /**
   * The entries of one segment: its words, each with the event's sentence and the segment's
   * time. The source trims the text and skips it when blank before splitting; neither step
   * changes the words (`Strings.WordsOfTrim`), so the words of the raw text are the same.
   */
  function SegEntries(seg: Seg, sentence: string, eventStart: int): seq<WordEntry> {
    EntriesOf(Words(seg.utf8), sentence, Real((eventStart + seg.tOffsetMs) as real))
  }

  /** The entries of the segments, segment after segment. */
  function SegsEntries(segs: seq<Seg>, sentence: string, eventStart: int): seq<WordEntry> {
    if segs == [] then []
    else SegsEntries(segs[..|segs| - 1], sentence, eventStart) + SegEntries(segs[|segs| - 1], sentence, eventStart)
  }

  /** The entries of one event: none when it misses the range, has no segments or a blank sentence. */
  function EventEntries(e: TimedEvent, startMs: real, endMs: real): seq<WordEntry> {
    if !EventOverlaps(e, startMs, endMs) || e.segs == [] then []
    else
      var sentence := Sentence(e);
      if sentence == [] then [] else SegsEntries(e.segs, sentence, e.tStartMs)
  }

  /** The entries of all events, event after event. */
  function RangeEntries(events: seq<TimedEvent>, startMs: real, endMs: real): seq<WordEntry> {
    if events == [] then []
    else RangeEntries(events[..|events| - 1], startMs, endMs) + EventEntries(events[|events| - 1], startMs, endMs)
  }

  /** An entry is one of the words of a segment, with the given sentence and the segment's time. */
  predicate FromSeg(x: WordEntry, seg: Seg, sentence: string, eventStart: int) {
    x.sentence == sentence
    && x.timestampMs == Real((eventStart + seg.tOffsetMs) as real)
    && x.word in Words(seg.utf8)
  }

  /** An entry comes from segment `j` of event `e`, whose sentence is not blank. */
  predicate EntryOfSeg(x: WordEntry, e: TimedEvent, j: int) {
    0 <= j < |e.segs| && Sentence(e) != [] && FromSeg(x, e.segs[j], Sentence(e), e.tStartMs)
  }

  /** An entry of one segment's words. */
  lemma SegEntryOrigin(seg: Seg, sentence: string, eventStart: int, x: WordEntry)
    requires x in SegEntries(seg, sentence, eventStart)
    ensures FromSeg(x, seg, sentence, eventStart)
  {
    InEntriesOf(Words(seg.utf8), sentence, Real((eventStart + seg.tOffsetMs) as real), x);
  }

  /** An entry of the segments comes from one of them. */
  lemma {:induction false} SegsEntryOrigin(segs: seq<Seg>, sentence: string, eventStart: int, x: WordEntry)
    requires x in SegsEntries(segs, sentence, eventStart)
    ensures exists j :: 0 <= j < |segs| && FromSeg(x, segs[j], sentence, eventStart)
  {
    var init := segs[..|segs| - 1];
    assert SegsEntries(segs, sentence, eventStart)
        == SegsEntries(init, sentence, eventStart) + SegEntries(segs[|segs| - 1], sentence, eventStart);
    if x in SegsEntries(init, sentence, eventStart) {
      SegsEntryOrigin(init, sentence, eventStart, x);
      var j :| 0 <= j < |init| && FromSeg(x, init[j], sentence, eventStart);
      assert init[j] == segs[j];
    } else {
      SegEntryOrigin(segs[|segs| - 1], sentence, eventStart, x);
    }
  }

  /** An entry of one event comes from one of its segments. */
  lemma EventEntryOrigin(e: TimedEvent, startMs: real, endMs: real, x: WordEntry)
    requires x in EventEntries(e, startMs, endMs)
    ensures EventOverlaps(e, startMs, endMs) && exists j :: EntryOfSeg(x, e, j)
  {
    SegsEntryOrigin(e.segs, Sentence(e), e.tStartMs, x);
    var j :| 0 <= j < |e.segs| && FromSeg(x, e.segs[j], Sentence(e), e.tStartMs);
    assert EntryOfSeg(x, e, j);
  }

  /** An entry of the events comes from an overlapping event. */
  lemma {:induction false} EntryOrigin(events: seq<TimedEvent>, startMs: real, endMs: real, x: WordEntry)
    requires x in RangeEntries(events, startMs, endMs)
    ensures exists i, j :: 0 <= i < |events| && EventOverlaps(events[i], startMs, endMs) && EntryOfSeg(x, events[i], j)
  {
    var init := events[..|events| - 1];
    assert RangeEntries(events, startMs, endMs)
        == RangeEntries(init, startMs, endMs) + EventEntries(events[|events| - 1], startMs, endMs);
    if x in RangeEntries(init, startMs, endMs) {
      EntryOrigin(init, startMs, endMs, x);
      var i, j :| 0 <= i < |init| && EventOverlaps(init[i], startMs, endMs) && EntryOfSeg(x, init[i], j);
      assert init[i] == events[i];
    } else {
      EventEntryOrigin(events[|events| - 1], startMs, endMs, x);
    }
  }

  /** Every word of a segment is among the entries of the segments, with the sentence and the segment's time. */
  lemma {:induction false} SegsEntryComplete(segs: seq<Seg>, sentence: string, eventStart: int, j: nat, x: WordEntry)
    requires j < |segs| && FromSeg(x, segs[j], sentence, eventStart)
    ensures x in SegsEntries(segs, sentence, eventStart)
  {
    var init := segs[..|segs| - 1];
    var last := segs[|segs| - 1];
    assert SegsEntries(segs, sentence, eventStart)
        == SegsEntries(init, sentence, eventStart) + SegEntries(last, sentence, eventStart);
    if j < |init| {
      assert init[j] == segs[j];
      SegsEntryComplete(init, sentence, eventStart, j, x);
    } else {
      InEntriesOf(Words(last.utf8), sentence, Real((eventStart + last.tOffsetMs) as real), x);
    }
  }

  /** Every word of every segment of an overlapping event with a non-blank sentence is among the event's entries. */
  lemma EventEntryComplete(e: TimedEvent, startMs: real, endMs: real, j: nat, x: WordEntry)
    requires EventOverlaps(e, startMs, endMs) && EntryOfSeg(x, e, j)
    ensures x in EventEntries(e, startMs, endMs)
  {
    SegsEntryComplete(e.segs, Sentence(e), e.tStartMs, j, x);
  }

  /** Every word of every segment of an overlapping event with a non-blank sentence is collected. */
  lemma {:induction false} EntryComplete(events: seq<TimedEvent>, startMs: real, endMs: real, i: nat, j: nat, x: WordEntry)
    requires i < |events| && EventOverlaps(events[i], startMs, endMs) && EntryOfSeg(x, events[i], j)
    ensures x in RangeEntries(events, startMs, endMs)
  {
    var init := events[..|events| - 1];
    assert RangeEntries(events, startMs, endMs)
        == RangeEntries(init, startMs, endMs) + EventEntries(events[|events| - 1], startMs, endMs);
    if i < |init| {
      assert init[i] == events[i];
      EntryComplete(init, startMs, endMs, i, j, x);
    } else {
      EventEntryComplete(events[i], startMs, endMs, j, x);
    }
  }

  /**
   * The entries collected are exactly the words of the segments of the overlapping events
   * whose sentence is not blank, each with that sentence and its segment's time.
   */
  lemma RangeEntriesExactly(events: seq<TimedEvent>, startMs: real, endMs: real, x: WordEntry)
    ensures x in RangeEntries(events, startMs, endMs) <==>
              exists i, j :: 0 <= i < |events| && EventOverlaps(events[i], startMs, endMs) && EntryOfSeg(x, events[i], j)
  {
    if x in RangeEntries(events, startMs, endMs) {
      EntryOrigin(events, startMs, endMs, x);
    }
    if exists i, j :: 0 <= i < |events| && EventOverlaps(events[i], startMs, endMs) && EntryOfSeg(x, events[i], j) {
      var i, j :| 0 <= i < |events| && EventOverlaps(events[i], startMs, endMs) && EntryOfSeg(x, events[i], j);
      EntryComplete(events, startMs, endMs, i, j, x);
    }
  }

  /** Every entry's word is a non-empty piece of text without whitespace. */
  lemma EntryWordIsWord(events: seq<TimedEvent>, startMs: real, endMs: real, x: WordEntry)
    requires x in RangeEntries(events, startMs, endMs)
    ensures x.word != [] && NoSpace(x.word)
  {
    EntryOrigin(events, startMs, endMs, x);
    var i, j :| 0 <= i < |events| && EventOverlaps(events[i], startMs, endMs) && EntryOfSeg(x, events[i], j);
    var w := Words(events[i].segs[j].utf8);
    assert x.word in w;
    WordsAreWords(events[i].segs[j].utf8);
    var k :| 0 <= k < |w| && w[k] == x.word;
  }

  /** Events that end before the range or start after it contribute nothing. */
  lemma {:induction false} OutsideEventsIgnored(events: seq<TimedEvent>, startMs: real, endMs: real)
    requires forall k :: 0 <= k < |events| ==> !EventOverlaps(events[k], startMs, endMs)
    ensures RangeEntries(events, startMs, endMs) == []
  {
    if events != [] {
      OutsideEventsIgnored(events[..|events| - 1], startMs, endMs);
    }
  }

  /** A segment offset moves its words' time: a word 300 ms into an event at 2 s is stamped 2300 ms. */
  lemma OffsetExample()
    ensures SegEntries(Seg("hola", 300), "hola", 2000) == [WordEntry("hola", "hola", Real(2300.0))]
  {
    WordsOfWord("hola");
  }

  /** The loop of `getWordsInRange` over the events. */
  method CollectEntries(events: seq<TimedEvent>, startMs: real, endMs: real) returns (results: seq<WordEntry>)
    ensures results == RangeEntries(events, startMs, endMs)
  {
    results := [];
    for i := 0 to |events|
      invariant results == RangeEntries(events[..i], startMs, endMs)
    {
      EventsEntriesStep(events, i, startMs, endMs);
      results := AddEventEntries(results, events[i], startMs, endMs);
    }
    assert events[..|events|] == events;
  }

  /** The entries of a prefix of the events grow by those of the next event. */
  lemma EventsEntriesStep(events: seq<TimedEvent>, i: nat, startMs: real, endMs: real)
    requires i < |events|
    ensures RangeEntries(events[..i + 1], startMs, endMs)
         == RangeEntries(events[..i], startMs, endMs) + EventEntries(events[i], startMs, endMs)
  {
    assert events[..i + 1][..i] == events[..i];
  }

  /** The entries of a prefix of the segments grow by those of the next segment. */
  lemma SegsEntriesStep(segs: seq<Seg>, j: nat, sentence: string, eventStart: int)
    requires j < |segs|
    ensures SegsEntries(segs[..j + 1], sentence, eventStart)
         == SegsEntries(segs[..j], sentence, eventStart) + SegEntries(segs[j], sentence, eventStart)
  {
    assert segs[..j + 1][..j] == segs[..j];
  }

  /** One pass of the event loop: skip the event or push the words of its segments. */
  method AddEventEntries(acc: seq<WordEntry>, e: TimedEvent, startMs: real, endMs: real) returns (r: seq<WordEntry>)
    ensures r == acc + EventEntries(e, startMs, endMs)
  {
    r := acc;
    var eventEnd := e.tStartMs + e.dDurationMs;
    if (eventEnd as real) < startMs || (e.tStartMs as real) > endMs {
      return;
    }
    if e.segs == [] {
      return;
    }
    var sentence := Trim(NewlinesToSpaces(Join(Utf8s(e.segs), "")));
    if sentence == [] {
      return;
    }
    r := AppendSegEntries(acc, e.segs, sentence, e.tStartMs);
  }

  /** The loop over an event's segments. */
  method AppendSegEntries(acc: seq<WordEntry>, segs: seq<Seg>, sentence: string, eventStart: int)
    returns (r: seq<WordEntry>)
    ensures r == acc + SegsEntries(segs, sentence, eventStart)
  {
    r := acc;
    for j := 0 to |segs|
      invariant r == acc + SegsEntries(segs[..j], sentence, eventStart)
    {
      r := NextSegEntries(acc, r, segs, j, sentence, eventStart);
    }
    assert segs[..|segs|] == segs;
  }

  /** One pass of the segment loop, stated on the prefix of the segments done so far. */
  method NextSegEntries(acc: seq<WordEntry>, done: seq<WordEntry>, segs: seq<Seg>, j: nat, sentence: string, eventStart: int)
    returns (r: seq<WordEntry>)
    requires j < |segs| && done == acc + SegsEntries(segs[..j], sentence, eventStart)
    ensures r == acc + SegsEntries(segs[..j + 1], sentence, eventStart)
  {
    SegsEntriesStep(segs, j, sentence, eventStart);
    r := AddSegEntries(done, segs[j], sentence, eventStart);
  }

  /** One pass of the segment loop: skip a blank segment or push its words. */
  method AddSegEntries(acc: seq<WordEntry>, seg: Seg, sentence: string, eventStart: int) returns (r: seq<WordEntry>)
    ensures r == acc + SegEntries(seg, sentence, eventStart)
  {
    r := acc;
    var text := Trim(seg.utf8);
    TrimmedSegWords(seg.utf8);
    if text != [] && text != "\n" {
      r := AppendEntries(r, Words(text), sentence, Real((eventStart + seg.tOffsetMs) as real));
    }
  }

  /** The words of a segment's trimmed text are those of its raw text, and a blank text has none. */
  lemma TrimmedSegWords(utf8: string)
    ensures Words(Trim(utf8)) == Words(utf8)
    ensures Trim(utf8) == [] || Trim(utf8) == "\n" ==> Words(utf8) == []
  {
    WordsOfTrim(utf8);
    WordsOfBlank();
  }

  /** `getVisibleCaptionText`: the caption segments' texts joined by spaces and trimmed, if any shows. */
  function VisibleCaptionText(segments: seq<string>): (r: Option<string>)
    ensures r.Some? <==> segments != [] && Trim(Join(segments, " ")) != []
    ensures r.Some? ==> r.value == Trim(Join(segments, " ")) && IsTrimmed(r.value)
  {
    if segments == [] then None
    else
      var text := Trim(Join(segments, " "));
      TrimIsSlice(Join(segments, " "));
      if text == [] then None else Some(text)
  }

  // ---------------------------------------------------------------------------
  // The manager

  class YtTranscriptManager {
    /** The timed events of the current video; `None` until loaded (an empty list counts as loaded). */
    var transcriptData: Option<seq<TimedEvent>>
    /** The video the events belong to; `""` before any video. */
    var currentVideoId: string
    /** The bridge has posted tracks that are not consumed yet. */
    var bridgeReady: bool
    /** The tracks the bridge last posted. */
    var cachedTracks: Option<seq<CaptionTrack>>

    constructor ()
      ensures transcriptData == None && currentVideoId == ""
      ensures !bridgeReady && cachedTracks == None
    {
      transcriptData := None;
      currentVideoId := "";
      bridgeReady := false;
      cachedTracks := None;
    }

    /** The window message listener: the page bridge's caption tracks are cached. */
    method OnWindowMessage(fromWindow: bool, messageType: string, tracks: Option<seq<CaptionTrack>>)
      modifies this
      ensures fromWindow && messageType == CaptionTracksMessage ==> cachedTracks == tracks && bridgeReady
      ensures !(fromWindow && messageType == CaptionTracksMessage) ==>
                cachedTracks == old(cachedTracks) && bridgeReady == old(bridgeReady)
      ensures transcriptData == old(transcriptData) && currentVideoId == old(currentVideoId)
    {
      if !fromWindow || messageType != CaptionTracksMessage {
        return;
      }
      cachedTracks := tracks;
      bridgeReady := true;
    }

    /**
     * The bridge flag and cached tracks after one request to the bridge: a cache that was
     * ready is consumed; otherwise a reply is cached with the flag set, and a timeout leaves both.
     */
    static function BridgeStateAfter(bridgeReady: bool, cached: Option<seq<CaptionTrack>>,
                                     reply: Option<Option<seq<CaptionTrack>>>): (bool, Option<seq<CaptionTrack>>)
    {
      if bridgeReady && cached.Some? then (false, None)
      else if reply.Some? then (true, reply.value)
      else (bridgeReady, cached)
    }

    /**
     * `_requestTracksFromBridge`: hand out the cached tracks once, clearing the cache; else
     * ask the bridge, whose reply (`None` on the 2 s timeout) is cached by the listener too.
     */
    method RequestTracksFromBridge(reply: Option<Option<seq<CaptionTrack>>>) returns (tracks: Option<seq<CaptionTrack>>)
      modifies this
      ensures old(bridgeReady && cachedTracks.Some?) ==>
                tracks == old(cachedTracks) && cachedTracks == None && !bridgeReady
      ensures !old(bridgeReady && cachedTracks.Some?) && reply.None? ==>
                tracks == None && cachedTracks == old(cachedTracks) && bridgeReady == old(bridgeReady)
      ensures !old(bridgeReady && cachedTracks.Some?) && reply.Some? ==>
                tracks == reply.value && cachedTracks == reply.value && bridgeReady
      ensures (bridgeReady, cachedTracks) == BridgeStateAfter(old(bridgeReady), old(cachedTracks), reply)
      ensures transcriptData == old(transcriptData) && currentVideoId == old(currentVideoId)
    {
      if bridgeReady && cachedTracks.Some? {
        tracks := cachedTracks;
        cachedTracks := None;
        bridgeReady := false;
        return;
      }
      match reply
      case None =>
        tracks := None;
      case Some(posted) =>
        OnWindowMessage(true, CaptionTracksMessage, posted);
        tracks := posted;
    }

    /** `_getCaptionTracks`: the bridge's tracks when there are some, else those of the page. */
    method GetCaptionTracks(reply: Option<Option<seq<CaptionTrack>>>, page: Option<string>,
                            parse: string -> Json<Option<seq<CaptionTrack>>>)
      returns (r: Result<Option<seq<CaptionTrack>>, LoadError>)
      modifies this
      ensures r == CaptionTracksFor(old(bridgeReady), old(cachedTracks), reply, page, parse)
      ensures (bridgeReady, cachedTracks) == BridgeStateAfter(old(bridgeReady), old(cachedTracks), reply)
      ensures transcriptData == old(transcriptData) && currentVideoId == old(currentVideoId)
    {
      var bridgeTracks := RequestTracksFromBridge(reply);
      if bridgeTracks.Some? && bridgeTracks.value != [] {
        return Ok(bridgeTracks);
      }
      if page.None? {
        return Err(PageUnavailable);
      }
      r := GetTracksFromHtml(page.value, parse);
    }

    /** `_fetchTranscript`: store the events of the Spanish track, or throw. */
    method FetchTranscript(captionTracks: seq<CaptionTrack>, response: FetchOutcome,
                           parse: string -> Json<Option<seq<TimedEvent>>>) returns (thrown: Option<LoadError>)
      modifies this
      ensures FetchedEvents(captionTracks, response, parse).Err? ==>
                thrown == Some(FetchedEvents(captionTracks, response, parse).error)
      ensures FetchedEvents(captionTracks, response, parse).Ok? ==> thrown == None
      ensures transcriptData == (match FetchedEvents(captionTracks, response, parse)
                                 case Ok(Some(events)) => Some(events)
                                 case _ => old(transcriptData))
      ensures currentVideoId == old(currentVideoId) && bridgeReady == old(bridgeReady)
      ensures cachedTracks == old(cachedTracks)
    {
      var targetTrack := SelectTrack(captionTracks);
      if targetTrack.None? {
        return None;
      }
      if response.NetworkError? {
        return Some(TranscriptUnavailable);
      }
      if !response.ok {
        return Some(TranscriptFetchFailed(response.status));
      }
      var responseText := response.body;
      if responseText == [] || Trim(responseText) == [] {
        return Some(EmptyResponse);
      }
      match parse(responseText)
      case Invalid =>
        thrown := Some(TranscriptJsonInvalid);
      case Null =>
        thrown := Some(TranscriptJsonNull);
      case Value(events) =>
        transcriptData := Some(events.GetOr([]));
        thrown := None;
    }

    /**
     * `loadTranscript`: nothing to do without a video id or when that video's events are
     * loaded; otherwise switch to the video and store its events if every step succeeds.
     */
    method LoadTranscript(videoId: string, reply: Option<Option<seq<CaptionTrack>>>, page: Option<string>,
                          parsePage: string -> Json<Option<seq<CaptionTrack>>>, response: FetchOutcome,
                          parseTranscript: string -> Json<Option<seq<TimedEvent>>>)
      modifies this
      ensures videoId == [] || (videoId == old(currentVideoId) && old(transcriptData).Some?) ==>
                transcriptData == old(transcriptData) && currentVideoId == old(currentVideoId)
                && bridgeReady == old(bridgeReady) && cachedTracks == old(cachedTracks)
      ensures !(videoId == [] || (videoId == old(currentVideoId) && old(transcriptData).Some?)) ==>
                currentVideoId == videoId
                && transcriptData == LoadedEvents(CaptionTracksFor(old(bridgeReady), old(cachedTracks), reply, page, parsePage),
                                                  response, parseTranscript)
                && (bridgeReady, cachedTracks) == BridgeStateAfter(old(bridgeReady), old(cachedTracks), reply)
    {
      if videoId == [] {
        return;
      }
      if videoId == currentVideoId && transcriptData.Some? {
        return;
      }
      currentVideoId := videoId;
      transcriptData := None;
      var captionTracks := GetCaptionTracks(reply, page, parsePage);
      if captionTracks.Ok? && captionTracks.value.Some? && captionTracks.value.value != [] {
        var thrown := FetchTranscript(captionTracks.value.value, response, parseTranscript);
        if thrown.Some? {
          transcriptData := None;
        }
      } else if captionTracks.Err? {
        transcriptData := None;
      }
    }

    /**
     * `getWordsInRange`: the word entries of the events overlapping `[startSec, endSec]`,
     * or `None` when no events are loaded or no entry results.
     */
    method GetWordsInRange(startSec: real, endSec: real) returns (r: Option<seq<WordEntry>>)
      ensures transcriptData.None? ==> r.None?
      ensures transcriptData.Some? ==>
                r == NonEmpty(RangeEntries(transcriptData.value, startSec * 1000.0, endSec * 1000.0))
    {
      if transcriptData.None? {
        return None;
      }
      var results := CollectEntries(transcriptData.value, startSec * 1000.0, endSec * 1000.0);
      r := NonEmpty(results);
    }
  }
}
