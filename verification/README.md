# YT Rewind Logger — a verified model of its core

YT Rewind Logger is a browser extension for Spanish learners. When the viewer rewinds a
YouTube or Dreaming Spanish video, it finds the words spoken in the replayed stretch. It
normalises them and records each word in a vocabulary ledger, together with the sentence it
appeared in. This project models, in Dafny, the chain from a rewind to those records:

- **`Constants`** (`constants.dfy`): the Spanish stop-word set, the five mastery labels and
  thresholds, and `calculateMastery`.
- **`WordProcessor`** (`word_processor.dfy`): `normalize` (lower-case, strip punctuation at
  both ends), `tokenize` and `isStopWord`.
- **`DsTranscript`** (`ds_transcript.dfy`): the Dreaming Spanish transcript manager.
  - A class with the cue cache.
  - The WebVTT reader as nested loops, proved against a recursive specification.
  - `parseInt`/`parseFloat`-based timestamp parsing, including its NaN results.
  - The closed-interval overlap query.
- **`YtTranscript`** (`yt_transcript.dfy`): the YouTube transcript manager.
  - A class with the per-video cache and the bridge's one-shot track cache.
  - The brace scanner that cuts the player-response JSON out of the page.
  - The caption-track priority and the transcript response checks.
  - The timed-event overlap query.
- **`DsRewind`**, **`YtRewind`** (`ds_rewind.dfy`, `yt_rewind.dfy`): the two rewind
  detectors. One emits on a backward seek; the other emits on the left-arrow key.
- **`Ledger`** (`ledger.dfy`): the background handlers that change the stores, as a class.
  - The `words`, `contexts` and `sessions` stores are its fields: a map, a sequence and a map.
  - The active-session pointer is a field too.
  - Handlers: word upsert with context append and session accumulation, update, cascading
    delete, and session start/stop/state.
- **`LedgerQueries`** (`ledger_queries.dfy`): the read-only handlers. These are word
  filter/search/sort, the newest-ten context query, the Anki export, `formatTimestamp` and
  the statistics.
- **`Content`** (`content.dfy`): the content script's rewind callback pipeline and the
  throttled subtitle warning.
- **`Popup`** (`popup.dfy`): the popup helpers. These are the mastery dots and click cycle,
  `formatTimestamp`, video-link classification and the five-context cap.
- **Support modules**: `Wrappers` (Option/Result), `Strings` (the JavaScript string
  operations the code relies on), `Sorting` (the stable comparator sort) and `Media` (word
  entries and the video element).

JavaScript numbers are modelled as follows:
- Positions and millisecond times are `real`.
- A `Num` datatype adds NaN where `_parseVTTTimestamp` can produce it.
- Counters and ids are `int`/`nat`.
- `%` and `Math.floor` of a division are written out (`Strings.JsRem`, `Strings.FloorDiv`).

Outside inputs are parameters of the operations:
- `Date.now()` and the session date;
- the result of `fetch`;
- the result of `JSON.parse`;
- the bridge's reply;
- the video element;
- the DOM text of the caption elements;
- the order in which the stores list their records.

The code keeps two mastery scales side by side, and so does the model. One is the 0..2
user scale that the ledger clamps to. The other is the five-level encounter-threshold scale
of `calculateMastery` and the export labels. The model does not reconcile them. It proves
what follows from the code as written: no handler ever sets `learned` or a level above 2, so
the statistics' `learnedWords` is always 0 (`LedgerQueries.LearnedWordsAlwaysZero`).

## Model

| member | source | states |
|---|---|---|
| Constants.CalculateMastery | src/shared/constants.js:38-44 | A user mark gives level 4 (Mastered), and only a mark does. Otherwise the level is one whose threshold the count reaches while the next level's threshold is not reached. A negative count gives New. |
| Constants.CalculateMasteryMonotone | src/shared/constants.js:40-43 | More encounters never give a lower level. |
| Constants.CalculateMasteryIsLargestReached | src/shared/constants.js:36-43 | Without a mark, every level below Mastered whose threshold is reached is at most the computed level. |
| Constants.MasteryLabelsPerLevel | src/shared/constants.js:26-34 | There are exactly five labels, one per level 0..4, all distinct. |
| Strings.LowerIdempotent | src/content/word-processor.js:8 | The lower-casing used by `normalize` is idempotent. |
| Strings.WordsOfTrim | src/content/youtube/transcript.js:216-219 | Trimming a text before `split(/\s+/).filter(Boolean)` does not change its words. |
| Strings.WordsAreWords | src/content/dreaming-spanish/transcript.js:166 | `split(/\s+/).filter(Boolean)` yields only non-empty, whitespace-free words. |
| Strings.TrimIsSlice | src/content/dreaming-spanish/transcript.js:106 | `trim()` returns a contiguous slice with no whitespace at either end. Everything it removes is whitespace. |
| Strings.TrimOfTrimmed | src/content/dreaming-spanish/transcript.js:123 | Trimming a trimmed text changes nothing. |
| Strings.IndexOf | src/content/youtube/transcript.js:94-99 | `indexOf(pat, from)` is the first position at or after `from` where the pattern occurs, or -1 when there is none. |
| Strings.ContainsIff | src/content/dreaming-spanish/transcript.js:101 | `includes` holds iff the pattern occurs at some position. |
| Strings.SplitOn | src/content/dreaming-spanish/transcript.js:141 | `split` gives at least one piece, and at least two when the separator occurs. |
| Strings.SplitOnFirst | src/content/dreaming-spanish/transcript.js:141 | When the separator first occurs after `x`, splitting gives `x` followed by the pieces of the rest. |
| Strings.SplitAtColon | src/popup/popup.js:252 | Splitting on `:` after a colon-free prefix gives that prefix first. |
| Strings.NatToString | src/background/background.js:266 | The decimal text of a number is digits denoting that number, with no leading zero. |
| Strings.PadStart2 | src/background/background.js:266 | `padStart(2, '0')` keeps the text as its suffix, only adds zeros, and reaches length 2. |
| Strings.ContainsTrim | src/content/dreaming-spanish/transcript.js:106-107 | A whitespace-free pattern occurs in a trimmed line exactly when it occurs in the line. |
| Strings.JsRem | src/popup/popup.js:167 | JavaScript `%`: the result has the dividend's sign and is smaller in size than the divisor. |
| Strings.FloorDiv | src/background/background.js:263-264 | `Math.floor(a / b)` on integers: the largest `q` with `q * b <= a`. |
| Sorting.InsertBy | src/background/background.js:155-164 | Inserting adds exactly the one element: the result holds the old elements plus it. |
| Sorting.SortBy | src/background/background.js:155-164 | The sort keeps exactly the elements it was given. |
| Sorting.InsertBySorted | src/background/background.js:155-164 | Inserting into a sorted list keeps it sorted. |
| Sorting.SortBySorted | src/background/background.js:155-164 | The comparator sort returns a permutation of its input, sorted by the comparator. |
| Sorting.SortByOfSorted | src/background/background.js:215 | An input already in order comes back unchanged. |
| Sorting.InsertByStable | src/background/background.js:155-164 | Inserting into a sorted list puts the new element before every element level with it; the level elements keep their order. |
| Sorting.SortByStable | src/background/background.js:155-164 | The sort is stable: for every element, the elements the comparator calls equal to it come out in their input order. |
| WordProcessor.Normalize | src/content/word-processor.js:7-16 | The result is lower-case and is empty or starts and ends with a letter or number. |
| WordProcessor.NormalizeIdempotent | src/content/word-processor.js:7-16 | `normalize(normalize(x)) == normalize(x)`. |
| WordProcessor.NormalizeFixesNormalForm | src/content/word-processor.js:7-16 | A word already in normal form is returned unchanged. |
| WordProcessor.NormalizeTrimsEnds | src/content/word-processor.js:10-13 | The result is a contiguous slice of the lower-cased token. Everything cut off at either end is punctuation. |
| WordProcessor.NormalizePunctuationOnly | src/content/word-processor.js:11-13 | A token made only of non-letters and non-numbers normalises to "". |
| WordProcessor.NormalizeOfWordish | src/content/word-processor.js:7-16 | A token that starts and ends with a letter or number only loses its capitals. |
| WordProcessor.NormalizeAll | src/content/word-processor.js:24 | The `map` step keeps the length, and element `k` is the normal form of input `k`. |
| WordProcessor.TokensAreNormal | src/content/word-processor.js:21-26 | Every token is non-empty, in normal form, and a fixed point of `normalize`. |
| WordProcessor.TokenizeOfWord | src/content/word-processor.js:21-26 | A single whitespace-free word tokenizes to its normal form, or to nothing when that is empty. |
| WordProcessor.StopWordsAreLetters | src/shared/constants.js:17-23 | Every stop word is a non-empty string of small Spanish letters. |
| WordProcessor.StopWordsAreNormalized | src/shared/constants.js:17-23 | Every stop word is non-empty and a fixed point of `normalize`, so stop-word filtering on normalised words can match it. |
| Media.InEntriesOf | src/content/dreaming-spanish/transcript.js:167-173 | The pushed entries are exactly the words, each with the given sentence and timestamp. |
| Media.NonEmpty | src/content/dreaming-spanish/transcript.js:176 | `null` exactly for the empty list; otherwise the list itself. |
| Media.VideoElement.constructor | src/content/dreaming-spanish/rewind-detector.js:40-48 | A video element at the given position. |
| Media.AppendEntries | src/content/youtube/transcript.js:220-226 | The push loop appends one entry per word, in order, to what was there. |
| DsTranscript.IntPrefix | src/content/dreaming-spanish/transcript.js:144-148 | `parseInt` gives NaN exactly when no digit follows the optional sign. |
| DsTranscript.DigitRun | src/content/dreaming-spanish/transcript.js:144-148 | The leading digits: all of them are digits and the next character, if any, is not. |
| DsTranscript.Fraction | src/content/dreaming-spanish/transcript.js:146-149 | A fraction's digits denote a value in [0, 1). |
| DsTranscript.DecimalOfDigits | src/content/dreaming-spanish/transcript.js:146-149 | `parseFloat` of `w.f` with digit parts is the whole part plus the fraction. |
| DsTranscript.HmsFields | src/content/dreaming-spanish/transcript.js:141-146 | `HH:MM:SS.mmm` splits into its three fields, and each field parses to its value. |
| DsTranscript.ParseIntDigits | src/content/dreaming-spanish/transcript.js:144-148 | A field of decimal digits parses to its value. |
| DsTranscript.ParseFloatDecimal | src/content/dreaming-spanish/transcript.js:146-149 | A seconds field `w.f` parses to `w + f / 10^len(f)`: the fraction is the value of `f` divided by ten `len(f)` times. |
| DsTranscript.FractionIsRatio | src/content/dreaming-spanish/transcript.js:146-149 | The digits after the point are worth their decimal value divided by ten once per digit. |
| DsTranscript.DigitsValueCons | src/content/dreaming-spanish/transcript.js:146-149 | A digit string's value is its first digit times ten to the number of digits after it, plus the value of the rest. |
| DsTranscript.ShiftedOfScaled | src/content/dreaming-spanish/transcript.js:146-149 | Dividing by ten `n` times undoes multiplying by ten `n` times. |
| DsTranscript.ParseTimestampHms | src/content/dreaming-spanish/transcript.js:138-153 | `HH:MM:SS.mmm` with digit fields gives `(h*3600 + m*60 + s) * 1000`. |
| DsTranscript.ParseTimestampMs | src/content/dreaming-spanish/transcript.js:138-153 | `MM:SS.mmm` with digit fields gives `(m*60 + s) * 1000`. |
| DsTranscript.ThreeFields | src/content/dreaming-spanish/transcript.js:143-146 | With three colon-separated fields, they are read as hours, minutes and seconds. |
| DsTranscript.TwoFields | src/content/dreaming-spanish/transcript.js:147-150 | With two fields, they are read as minutes and seconds, with hours 0. |
| DsTranscript.ParseTimestampNoColon | src/content/dreaming-spanish/transcript.js:141-152 | A text with no colon matches neither shape and reads as 0. |
| DsTranscript.ParseTimestampMalformed | src/content/dreaming-spanish/transcript.js:147-152 | A minutes field with no digit makes the whole timestamp NaN. |
| DsTranscript.StripTags | src/content/dreaming-spanish/transcript.js:123 | After `replace(/<[^>]*>/g, '')` no `<` is followed by a `>`. |
| DsTranscript.StripTagsOfPlain | src/content/dreaming-spanish/transcript.js:123 | Text without `<` passes through unchanged. |
| DsTranscript.StripTagsOfTag | src/content/dreaming-spanish/transcript.js:123 | A tag at the front disappears together with its brackets. |
| DsTranscript.NoTagTrim | src/content/dreaming-spanish/transcript.js:123 | Trimming a tag-free text keeps it tag-free. |
| DsTranscript.CueText | src/content/dreaming-spanish/transcript.js:123 | The joined, tag-stripped, trimmed text is empty, or trimmed, non-empty and tag-free. |
| DsTranscript.BlankIffTrimsToEmpty | src/content/dreaming-spanish/transcript.js:115 | `lines[i].trim() !== ''` fails exactly on lines made only of whitespace. |
| DsTranscript.BlockEnd | src/content/dreaming-spanish/transcript.js:115 | The text block ends at the first line from the start that is blank or holds `-->`, or at the end of the file. |
| DsTranscript.FirstArrow | src/content/dreaming-spanish/transcript.js:101-103 | The header ends at the first line from the start that holds `-->`, or at the end of the file. |
| DsTranscript.CueOf | src/content/dreaming-spanish/transcript.js:123-126 | A timing line gives at most one cue, and only one whose text is non-empty, trimmed and tag-free. |
| DsTranscript.ParsedFileWellFormed | src/content/dreaming-spanish/transcript.js:95-136 | Every cue parsed from a file has non-empty, trimmed text free of tags. |
| DsTranscript.ParsedCuesWellFormed | src/content/dreaming-spanish/transcript.js:105-130 | Every cue read from any line on is well formed. |
| DsTranscript.HeaderSkipIsShortcut | src/content/dreaming-spanish/transcript.js:101-103 | Skipping the header up to the first `-->` line yields the same cues as reading from that line. Every line before it is ignored. |
| DsTranscript.ParseVttFromStart | src/content/dreaming-spanish/transcript.js:95-130 | Parsing a file is reading cues from its first line. |
| DsTranscript.NoArrowNoCues | src/content/dreaming-spanish/transcript.js:101-130 | Lines with no `-->` yield no cue. |
| DsTranscript.ArrowTimesIgnoresSettings | src/content/dreaming-spanish/transcript.js:108 | For `a --> b settings`, the times are those of `a` and `b`: positional settings are ignored. |
| DsTranscript.CueTextLinesStep | src/content/dreaming-spanish/transcript.js:115-121 | Each text line is kept trimmed, unless it is made only of digits (a cue id). |
| DsTranscript.BlockEndStep | src/content/dreaming-spanish/transcript.js:115 | A line that does not end the text block leaves the block's end unchanged, so the block extends past it. |
| DsTranscript.ReadVttLines | src/content/dreaming-spanish/transcript.js:95-131 | The loops of `_parseVTT` return exactly the cues of the recursive reading `ParseVttLines`. |
| DsTranscript.SkipHeader | src/content/dreaming-spanish/transcript.js:101-103 | The header loop stops at the first line holding `-->`, or at the end. |
| DsTranscript.ReadCue | src/content/dreaming-spanish/transcript.js:106-129 | One pass of the outer loop advances and yields the specification's cues for the lines it consumed. |
| DsTranscript.ReadTextBlock | src/content/dreaming-spanish/transcript.js:113-121 | The inner loop stops at the block end and collects the block's text lines without cue ids. |
| DsTranscript.AddTextLine | src/content/dreaming-spanish/transcript.js:117-119 | One pass of the inner loop keeps the trimmed line unless it is only digits. |
| DsTranscript.RangeEntriesExactly | src/content/dreaming-spanish/transcript.js:162-174 | An entry is returned iff it comes from a cue with text that overlaps the range. It is one of the cue's words, with the cue's text and start. |
| DsTranscript.EntryOrigin | src/content/dreaming-spanish/transcript.js:162-174 | Every entry's word is a non-empty, whitespace-free word of an overlapping cue. The entry's sentence and time are that cue's. |
| DsTranscript.OutsideCuesIgnored | src/content/dreaming-spanish/transcript.js:163 | Cues that end before the range or start after it contribute nothing. |
| DsTranscript.OverlapExample | src/content/dreaming-spanish/transcript.js:163 | A 10–12 s cue is found by [9 s, 11 s] and not by [13 s, 15 s]. A cue with NaN times is always found. |
| DsTranscript.CollectEntries | src/content/dreaming-spanish/transcript.js:160-174 | The loop over the cues returns exactly `RangeEntries`. |
| DsTranscript.FirstLoadedTrack | src/content/dreaming-spanish/transcript.js:42-66 | The chosen track is the first candidate track (Spanish, subtitles or captions) that has cues. |
| DsTranscript.TrackCues | src/content/dreaming-spanish/transcript.js:59-63 | Each text-track cue becomes a cue in milliseconds with tags removed and trimmed text, in order. |
| DsTranscript.VisibleCaption | src/content/dreaming-spanish/transcript.js:179-200 | The caption is the trimmed joined text of the first selector whose text is not blank. It is non-empty. When none is returned, every selector's joined text trims to empty. |
| DsTranscript.DsTranscriptManager.constructor | src/content/dreaming-spanish/transcript.js:6-8 | No cues and no video at first. |
| DsTranscript.DsTranscriptManager.LoadTranscript | src/content/dreaming-spanish/transcript.js:18-35 | No id, or the same id with cues, changes nothing. Otherwise the id is recorded and the cues are those of the first loaded text track, or none. |
| DsTranscript.DsTranscriptManager.TryTextTrackApi | src/content/dreaming-spanish/transcript.js:37-68 | The first loaded candidate track's cues replace the cues. Without one, the cues are kept. |
| DsTranscript.DsTranscriptManager.OnMessage | src/content/dreaming-spanish/transcript.js:11-15 | Only intercepted WebVTT posted by the page itself can change the cues. |
| DsTranscript.DsTranscriptManager.ParseVtt | src/content/dreaming-spanish/transcript.js:132-135 | The cues are replaced only when the file yields at least one cue; otherwise the old cues stay. |
| DsTranscript.DsTranscriptManager.GetWordsInRange | src/content/dreaming-spanish/transcript.js:155-177 | `null` without cues. Otherwise the range's entries, or `null` instead of an empty list. |
| DsTranscript.DsTranscriptManager.GetVisibleCaptionText | src/content/dreaming-spanish/transcript.js:179-200 | The loop over the selectors returns `VisibleCaption`. |
| YtTranscript.FindBraceEnd | src/content/youtube/transcript.js:105-121 | The scanner loop returns one past the `}` that brings the depth back to 0, or -1. |
| YtTranscript.BraceEndFrom | src/content/youtube/transcript.js:105-125 | The scan's end is -1 or lies past the opening brace and within the page. |
| YtTranscript.BraceEndFromFacts | src/content/youtube/transcript.js:110-121 | Where the scan stops, the last character is `}`, the scanned text is balanced, and the depth stayed positive on the way. |
| YtTranscript.ScannedTextBalanced | src/content/youtube/transcript.js:99-127 | From an opening brace, the cut-out text ends with `}` and is balanced outside strings. |
| YtTranscript.QuotedBraceSkipped | src/content/youtube/transcript.js:114-115 | A `}` inside a string literal is not counted. |
| YtTranscript.EscapedQuoteSkipped | src/content/youtube/transcript.js:112-113 | A backslash-escaped quote does not end the string. |
| YtTranscript.ExtractJson | src/content/youtube/transcript.js:93-127 | A missing marker and a missing `{` each give their own error. Any text returned starts with `{`, ends with `}` and is balanced. |
| YtTranscript.ExtractedText | src/content/youtube/transcript.js:123-127 | The substring cut at the scan's end is at least `{}`, starts with `{`, ends with `}` and is balanced. |
| YtTranscript.TracksNeedBalancedJson | src/content/youtube/transcript.js:89-139 | Tracks come back only from a page with the marker and a balanced JSON text that parses. |
| YtTranscript.GetTracksFromHtml | src/content/youtube/transcript.js:89-139 | The method returns `TracksFromHtml`: each of the three errors, the JSON error, or the tracks (null when the path is missing). |
| YtTranscript.FindTrack | src/content/youtube/transcript.js:144-152 | `find` returns the first track passing the test; none before it does. |
| YtTranscript.SelectTrackPriority | src/content/youtube/transcript.js:143-152 | A track is picked iff one is Spanish or has a Spanish `vssId`. A manual Spanish track wins whenever there is one. A non-Spanish pick happens only when no track is Spanish. |
| YtTranscript.SelectTrackExample | src/content/youtube/transcript.js:143-149 | A manual track listed after an automatic one is still chosen. |
| YtTranscript.FetchedEvents | src/content/youtube/transcript.js:141-184 | No target track stores nothing. A failed status and a blank body raise their errors. Stored events come from a good, non-blank, parsable response, with missing `events` read as []. |
| YtTranscript.LoadedEventsNeedSuccess | src/content/youtube/transcript.js:30-48 | A load stores events only when every step succeeded; any failure leaves none. |
| YtTranscript.NewlinesToSpaces | src/content/youtube/transcript.js:210 | Every newline becomes a space and nothing else changes. |
| YtTranscript.Utf8s | src/content/youtube/transcript.js:207-208 | The segments' texts, in order. |
| YtTranscript.SegEntryOrigin | src/content/youtube/transcript.js:216-226 | Every entry of a segment is one of its words, with the event's sentence and start plus the offset. |
| YtTranscript.SegsEntryOrigin | src/content/youtube/transcript.js:215-227 | Every entry of an event is a word of one of its segments, with the event's sentence and the segment's time. |
| YtTranscript.EventEntryOrigin | src/content/youtube/transcript.js:199-227 | An event with entries overlaps the range. |
| YtTranscript.EntryOrigin | src/content/youtube/transcript.js:199-228 | Every returned entry comes from a segment of an overlapping event whose sentence is not blank. |
| YtTranscript.SegsEntryComplete | src/content/youtube/transcript.js:215-227 | Every word of every segment is an entry of the event, with the sentence and the segment's time. |
| YtTranscript.EventEntryComplete | src/content/youtube/transcript.js:199-227 | Every word of a segment of an overlapping event with a non-blank sentence is an entry of that event. |
| YtTranscript.EntryComplete | src/content/youtube/transcript.js:199-228 | Every word of every segment of every overlapping event with a non-blank sentence is returned. |
| YtTranscript.RangeEntriesExactly | src/content/youtube/transcript.js:199-228 | An entry is returned iff it is a word of a segment of an overlapping event whose sentence is not blank, with that sentence and the segment's time. |
| YtTranscript.EntryWordIsWord | src/content/youtube/transcript.js:219 | Every returned word is non-empty and has no whitespace. |
| YtTranscript.OutsideEventsIgnored | src/content/youtube/transcript.js:200-204 | Events that end before the range or start after it contribute nothing. |
| YtTranscript.OffsetExample | src/content/youtube/transcript.js:224 | A segment's time is the event start plus its offset (2000 + 300). |
| YtTranscript.CollectEntries | src/content/youtube/transcript.js:197-228 | The event loop returns exactly `RangeEntries`. |
| YtTranscript.AddEventEntries | src/content/youtube/transcript.js:200-227 | One event appends its entries: none when it misses the range, has no segments or a blank sentence. |
| YtTranscript.AppendSegEntries | src/content/youtube/transcript.js:215-227 | The segment loop appends the entries of every segment, in order. |
| YtTranscript.AddSegEntries | src/content/youtube/transcript.js:216-226 | One segment appends its words. A blank or newline-only text appends none. |
| YtTranscript.TrimmedSegWords | src/content/youtube/transcript.js:216-217 | Trimming and the blank check do not change a segment's words. |
| YtTranscript.VisibleCaptionText | src/content/youtube/transcript.js:233-243 | A caption exists iff there are segments whose joined text is not blank. It is that text, trimmed. |
| YtTranscript.YtTranscriptManager.constructor | src/content/youtube/transcript.js:6-12 | No data, no video, no cached tracks at first. |
| YtTranscript.YtTranscriptManager.OnWindowMessage | src/content/youtube/transcript.js:15-27 | Only the bridge's caption-track message caches tracks and sets the ready flag. |
| YtTranscript.YtTranscriptManager.RequestTracksFromBridge | src/content/youtube/transcript.js:64-87 | Cached tracks are handed out once, which clears both the cache and the flag. Otherwise the reply is returned and cached, or nothing on timeout. |
| YtTranscript.YtTranscriptManager.GetCaptionTracks | src/content/youtube/transcript.js:51-62 | Non-empty bridge tracks win; otherwise the tracks read from the page. The bridge flag and cache end as `BridgeStateAfter` says: cleared after handing out the cache, set and caching the reply, or unchanged on timeout. |
| YtTranscript.YtTranscriptManager.FetchTranscript | src/content/youtube/transcript.js:141-190 | It throws exactly the errors of `FetchedEvents` and stores events only on success. The data is left alone when no track matches. |
| YtTranscript.YtTranscriptManager.LoadTranscript | src/content/youtube/transcript.js:30-49 | No id, or the same id with data, changes nothing. Otherwise the id is set and the data is the loaded events, or null after any failure. The bridge flag and cache end as `BridgeStateAfter` says. |
| YtTranscript.YtTranscriptManager.GetWordsInRange | src/content/youtube/transcript.js:192-231 | `null` without data. Otherwise the range's entries, or `null` instead of an empty list. |
| DsRewind.SeekSegment | src/content/dreaming-spanish/rewind-detector.js:72-84 | A segment is emitted iff enabled, an element is attached and the jump back exceeds 1 s. It is (current, previous), with `start + 1 < end`. |
| DsRewind.RewindDetector.constructor | src/content/dreaming-spanish/rewind-detector.js:4-8 | Disabled, last time 0, no element. |
| DsRewind.RewindDetector.Attach | src/content/dreaming-spanish/rewind-detector.js:40-50 | The element is taken over and the last time becomes its position. `enabled` is untouched. |
| DsRewind.RewindDetector.FindAndAttach | src/content/dreaming-spanish/rewind-detector.js:19-38 | A found element is attached; otherwise nothing changes. |
| DsRewind.RewindDetector.OnVideoRemoved | src/content/dreaming-spanish/rewind-detector.js:53-59 | The removed element is dropped and a replacement, if any, is attached. |
| DsRewind.RewindDetector.OnTimeUpdate | src/content/dreaming-spanish/rewind-detector.js:66-70 | With an element, the last time becomes its position unconditionally. |
| DsRewind.RewindDetector.OnSeeking | src/content/dreaming-spanish/rewind-detector.js:72-84 | It emits `SeekSegment` of the state and changes nothing. |
| DsRewind.RewindDetector.SetEnabled | src/content/dreaming-spanish/rewind-detector.js:86-88 | Only the switch changes. |
| YtRewind.KeySegment | src/content/youtube/rewind-detector.js:23-25 | `[max(0, t-5), t]`: the start is ≥ 0, the length is ≤ 5, the length is exactly 5 when `t ≥ 5`, and the start is 0 when `t ≤ 5`. |
| YtRewind.RewindDetector.constructor | src/content/youtube/rewind-detector.js:3-6 | A new detector is disabled. |
| YtRewind.RewindDetector.OnKeyDown | src/content/youtube/rewind-detector.js:9-27 | It emits iff enabled, the key is `ArrowLeft`, a video exists and focus is not in a text field. It emits `KeySegment` of the position. |
| YtRewind.RewindDetector.SetEnabled | src/content/youtube/rewind-detector.js:31-33 | Only the switch changes. |
| Ledger.WordId | src/background/background.js:67 | The key is the language, a colon, then the word, recoverably. |
| Ledger.WordIdInjective | src/background/background.js:67 | Within a language, different words have different keys. |
| Ledger.UpsertOk | src/background/background.js:67-88 | An upsert keeps every record valid: stored under its id, seen at least once, mastery 0..2, not learned. |
| Ledger.UpsertAt | src/background/background.js:67-88 | After an upsert, other keys keep their record. The word's own record gains one encounter and `lastSeen`, or is created new. |
| Ledger.LoggedWordsEffect | src/background/background.js:66-88 | After a batch, the keys are the old ones plus those of the entries. Each old record gained one encounter per entry with its key, and `lastSeen = now` when it had one. New records have encounters = occurrences, mastery 0, not excluded, not learned. |
| Ledger.CreatedCountIsGrowth | src/background/background.js:63-88 | The store grows by exactly the reported number of new words. |
| Ledger.LoggedWordsOk | src/background/background.js:66-101 | A batch keeps every word record valid. |
| Ledger.LogStep | src/background/background.js:66-101 | Logging one more entry is one more upsert. It creates a word iff the key was absent and adds a context iff the entry has a sentence. |
| Ledger.ClampMastery | src/background/background.js:181 | `max(0, min(2, level))`: in 0..2, the identity there, 0 below and 2 above. |
| Ledger.Updated | src/background/background.js:179-185 | Only `masteryLevel` (clamped) and `excluded` can change, each only when given. |
| Ledger.NewContextsShape | src/background/background.js:91-100 | One context per entry with a sentence, in order, with consecutive keys. |
| Ledger.ContextsOkAppend | src/background/background.js:92 | Appending under the next key keeps the context keys increasing and below the next key. |
| Ledger.InContextsFor | src/background/background.js:200 | The `by_wordId` lookup returns exactly the word's contexts. |
| Ledger.HasIdOfContextsFor | src/background/background.js:200-203 | The keys deleted are exactly the keys of contexts with that word. |
| Ledger.HasIdIff | src/background/background.js:200-203 | A key is among the listed contexts' keys iff a listed context carries it. |
| Ledger.DeleteContextsOfWord | src/background/background.js:199-203 | Deleting those contexts one by one leaves exactly the contexts of other words, in order. |
| Ledger.InWithoutWord | src/background/background.js:199-203 | A context survives iff it belongs to another word. |
| Ledger.WithoutWordOk | src/background/background.js:199-203 | The cascade keeps the context keys valid. |
| Ledger.Accumulate | src/background/background.js:107-115 | The words, new words and rewinds counters grow by the batch size, the new count and 1. A non-empty id is added only when absent, so the video list stays duplicate-free and only grows. |
| Ledger.Background.constructor | src/background/background.js:4-12 | Empty stores, and both auto-increment keys at 1. The active session is the restored id when it is set and non-zero. |
| Ledger.Background.HandleLogWords | src/background/background.js:56-123 | The words become `LoggedWords` and the contexts gain `NewContexts`. `newWords` is the created count and `newWords + updatedWords == totalLogged == len`. Only the active session is accumulated. The context id counter advances by the number of new contexts. |
| Ledger.Background.LogEntries | src/background/background.js:66-101 | The entry loop reaches the same stores and counts as the batch specification. The context id counter advances by the number of new contexts. |
| Ledger.Background.LogNext | src/background/background.js:66-101 | One pass of the loop moves the stores from the first `i` entries' effect to the first `i + 1` entries'. It counts a creation exactly when one happened. |
| Ledger.Background.LogEntry | src/background/background.js:67-100 | One entry upserts its word and reports creation iff its key was absent. A context is appended iff it has a sentence. |
| Ledger.Background.AddContext | src/background/background.js:92-99 | The record is added under the next auto-increment key. |
| Ledger.Background.AccumulateActive | src/background/background.js:104-120 | Only an existing active session is updated; all other state is unchanged. |
| Ledger.Background.HandleUpdateWord | src/background/background.js:171-189 | A missing id gives the error and writes nothing. Otherwise the record is `Updated` and stored. |
| Ledger.Background.HandleDeleteWord | src/background/background.js:193-206 | The word and all of its contexts are removed. Other contexts stay, in order. |
| Ledger.Background.HandleStartSession | src/background/background.js:271-295 | A fresh zero-counter session is always added and made active, even when one already was. |
| Ledger.Background.HandleStopSession | src/background/background.js:297-315 | The active session, if stored, gets `endTime = now`. The pointer is always cleared. |
| Ledger.Background.GetSessionState | src/background/background.js:48 | Active iff the pointer is set; the id is the pointer. |
| LedgerQueries.FiltersPartition | src/background/background.js:135-146 | `known`/`learning`/`new` are disjoint and, with `excluded`, cover every word. `all` keeps everything. Any other filter means not excluded and mastery < 2. |
| LedgerQueries.FilterWords | src/background/background.js:135-146 | The filter never adds words. Which words it keeps is given by `InFilterWords`. |
| LedgerQueries.SearchWords | src/background/background.js:149-152 | The search never adds words. Which words it keeps is given by `InSearchWords`. |
| LedgerQueries.InFilterWords | src/background/background.js:135-146 | A word survives the filter iff it is listed and passes the test. |
| LedgerQueries.InSearchWords | src/background/background.js:149-152 | A word survives the search iff its text contains the lower-cased query. |
| LedgerQueries.LexLeTotal | src/background/background.js:156 | The alphabetical order compares every two words. |
| LedgerQueries.LexLeTransitive | src/background/background.js:156 | The alphabetical order is transitive. |
| LedgerQueries.BeforeIsOrder | src/background/background.js:155-164 | Every sort key is a total, transitive "may come first" relation. |
| LedgerQueries.GetWordsSpec | src/background/background.js:127-167 | The result is a permutation of the filtered, searched words, sorted by the chosen key. By default it is encounters descending. |
| LedgerQueries.GetContexts | src/background/background.js:210-217 | At most 10 contexts, and all of them when there are at most 10. |
| LedgerQueries.GetContextsIsPrefix | src/background/background.js:215-216 | The result is a prefix of the word's contexts sorted newest first. |
| LedgerQueries.GetContextsOfWord | src/background/background.js:213 | Every returned context belongs to the word. |
| LedgerQueries.GetContextsNewestFirst | src/background/background.js:215 | The result is ordered by `capturedAt`, descending. |
| LedgerQueries.GetContextsNewest | src/background/background.js:215-216 | A context of the word that was left out is no newer than any returned one. |
| LedgerQueries.NotInPrefixIsOlder | src/background/background.js:215-216 | In a newest-first list, anything beyond a prefix is no newer than the prefix. |
| LedgerQueries.FormatTimestampFields | src/background/background.js:262-267 | For `ms ≥ 0` the text is `m:ss`, with `60m + s = floor(ms/1000)` and `s < 60` written in two digits. |
| LedgerQueries.TwoDigitSeconds | src/background/background.js:265-266 | Seconds below 60, padded, are exactly two digits denoting them. |
| LedgerQueries.ExportLabel | src/background/background.js:253 | The label of a level 0..4, and `new` for any other level. |
| LedgerQueries.CardBackOfContexts | src/background/background.js:241-251 | `(no context)` iff the word has no context. Otherwise the back uses one of the word's newest contexts. |
| LedgerQueries.CardLines | src/background/background.js:236-257 | One line per exported word, in order. |
| LedgerQueries.InExportedWords | src/background/background.js:238 | A word is exported iff it is neither excluded nor learned. |
| LedgerQueries.ExportAnki | src/background/background.js:221-260 | The TSV is the 4 header lines plus one card line per exported word. `wordCount` is the number of card lines. |
| LedgerQueries.ExportSkipsOnlyExcluded | src/background/background.js:238 | On reachable stores (no word is learned), export skips exactly the excluded words. |
| LedgerQueries.ActiveWords | src/background/background.js:324 | No more words than the listing, none of them excluded. |
| LedgerQueries.ActiveWordsCount | src/background/background.js:324 | A record occurs among the active words as often as in the listing, or never if it is excluded. |
| LedgerQueries.InActiveWords | src/background/background.js:324 | A record is an active word iff it is listed and not excluded. |
| LedgerQueries.LearnedCount | src/background/background.js:326 | The learned count never exceeds the words counted. |
| LedgerQueries.LearnedCountAppend | src/background/background.js:326 | The count adds up over concatenation and is 1 for a learned word and 0 otherwise, which fixes it on every list. |
| LedgerQueries.LearnedCountExtremes | src/background/background.js:326 | The count is 0 iff no word is learned, and the length iff every word is. |
| LedgerQueries.GetStats | src/background/background.js:319-343 | `totalWords` counts the non-excluded words and `learnedWords` the learned ones among them, so `learnedWords <= totalWords <= ` the listing's length. `totalEncounters` sums the encounters of the non-excluded records. The session count and current session are passed through. |
| LedgerQueries.ActiveEncountersSum | src/background/background.js:327 | Summing the active words' encounters equals summing the encounters of the records not excluded. |
| LedgerQueries.EncounterSumAppend | src/background/background.js:327 | The encounter sum adds up over concatenation. |
| LedgerQueries.EncountersAtLeastWords | src/background/background.js:327 | With at least one encounter per word, the sum is at least the number of words. |
| LedgerQueries.LearnedWordsAlwaysZero | src/background/background.js:326 | On reachable stores (mastery ≤ 2, never learned), `learnedWords` is 0. |
| LedgerQueries.ListedWordsOk | src/background/background.js:321 | Every record in a listing of a well-formed word store is well formed under its own id. |
| LedgerQueries.CurrentSession | src/background/background.js:330-334 | The current session is the record under the active-session pointer, and there is none when no session is active or its record is missing. |
| LedgerQueries.StatsOfStore | src/background/background.js:319-343 | Over a listing of the background page's word store, with its own session count and active session, `learnedWords` is 0 and `totalEncounters >= totalWords`. `totalSessions` is the number of stored sessions, and `currentSession` is the active session's record when there is one. The default export skips exactly the excluded words. |
| Content.NormalizeEntriesAppend | src/content/content.js:79-84 | Normalising works entry by entry, so order is kept. |
| Content.NormalizeEntriesCons | src/content/content.js:79-84 | Normalising a list is normalising its first entry, then the rest. |
| Content.InNormalizedEntry | src/content/content.js:79-84 | One entry is kept iff its normal form is non-empty, and it is kept with that word. |
| Content.InNormalizeEntries | src/content/content.js:79-84 | An entry survives iff its word's normal form is non-empty. Only its word changes, to that normal form. |
| Content.TokenEntries | src/content/content.js:72-76 | One entry per token, each with the whole caption and `startSec * 1000`. |
| Content.InDropStopWords | src/content/content.js:88-90 | The filter keeps exactly the entries whose word is not a stop word. |
| Content.InPrepareEntries | src/content/content.js:62-95 | What a rewind logs is non-empty and holds exactly the `Logged` entries: with transcript data, the normal forms of its entries; without, the caption's tokens stamped with the caption and the segment start; with the setting on, no stop word. Nothing is logged iff no entry qualifies. |
| Content.InCandidates | src/content/content.js:62-85 | Before the filter, an entry is a normalised transcript entry, or without transcript data a caption token with the caption and the segment start. |
| Content.EmptyTextHasNoTokens | src/content/content.js:66-71 | An empty caption has no tokens. |
| Content.LoggedWordsAreNormal | src/content/content.js:62-95 | Every logged word is non-empty and in normal form. With the filter on, it is not a stop word. |
| Content.CandidateIsNormal | src/content/content.js:65-85 | Every candidate from either branch has a non-empty word in normal form. |
| Content.FallbackLogsTokens | src/content/content.js:65-76 | Without transcript data and with the filter off, the caption's tokens are logged in order. |
| Content.ContentScript.constructor | src/content/content.js:8-10 | The setting as stored, and no warning shown yet. |
| Content.ContentScript.CheckAndWarnSubtitles | src/content/content.js:129-141 | A warning is shown iff the adapter reports subtitles off and 30000 ms have passed since the last one. The time is updated only then. |
| Content.ContentScript.OnRewind | src/content/content.js:58-120 | It checks subtitles first. It sends `LOG_WORDS` iff entries remain, with exactly those entries, the video and language `es`. |
| Popup.RenderMasteryDots | src/popup/popup.js:190-208 | The level is clamped to 0..2 and colored by it. Dot `i` of 3 is filled iff `i <= clamped`. |
| Popup.FilledCount | src/popup/popup.js:200-204 | At most as many filled dots as dots. |
| Popup.DotsShowLevel | src/popup/popup.js:200-204 | Exactly `clamped + 1` dots are filled, and the first always is. |
| Popup.NextMasteryLevel | src/popup/popup.js:166-167 | From 0..2, the next level is in 0..2 and different. |
| Popup.MasteryCycle | src/popup/popup.js:166-169 | The click cycles 0 → 1 → 2 → 0 and stays within what the ledger's clamp keeps. |
| Popup.FormatTimestamp | src/popup/popup.js:349-355 | The popup's copy, with its `!ms` shortcut to `0:00`, gives the same `m:ss` text as the export's `formatTimestamp` for every position. |
| Popup.IdKindsDisjoint | src/popup/popup.js:384-385 | No id is both an 11-character YouTube id and a 24-character hex id. |
| Popup.BuildVideoUrl | src/popup/popup.js:378-397 | No link iff the id is empty. A hex-24 id gives a Dreaming link at `ms`. Any other id gives a YouTube link whose seconds are `floor(ms/1000)`. |
| Popup.YouTubeLinkMatchesLabel | src/popup/popup.js:256-258 | The YouTube link's seconds and the `m:ss` label shown beside it denote the same second. |
| Popup.ShownContexts | src/popup/popup.js:254 | At most 5 contexts are shown: the first ones received. |
| Popup.ShownAreOfWord | src/popup/popup.js:241-254 | Every shown context belongs to the word. |
| Popup.ShownNewestFirst | src/popup/popup.js:241-254 | The shown contexts are newest first. |
| Popup.ShownAreNewest | src/popup/popup.js:241-254 | Every context of the word that is not shown is no newer than any shown one. |
| Popup.WordOfIdAsWritten | src/popup/popup.js:252 | `split(':')[1]` yields a value iff the key contains a colon. |
| Popup.ClockTimeIsNormal | src/content/word-processor.js:7-16 | `10:30` is in normal form, so it can be logged as a word. |
| Popup.ClockKeyPieces | src/popup/popup.js:252 | `es:10:30` splits on `:` into `es`, `10`, `30`. |
| Popup.ClockTimePieces | src/popup/popup.js:252 | `10:30` splits on `:` into `10`, `30`. |
| Popup.WordOfIdAsWrittenCutsWord | src/popup/popup.js:252 | For the word `10:30`, stored as `es:10:30`, the popup extracts `10`. |
| Popup.WordOfId | src/popup/popup.js:252 | The text after the first colon: present iff there is a colon, and shorter than the key. |
| Popup.WordOfIdInvertsWordId | src/popup/popup.js:252 | For a language without a colon, it gives back exactly the word of a key built by `WordId`. |

## Left out

- **Browser plumbing.** All `chrome.*` messaging and storage, the badge and the tab
  broadcast are not modelled. This covers `handleMessage`'s dispatch, the content script's
  session-state listener and `sessionActive`, and the `activeSessionId` persistence. The
  restored id is a constructor parameter.
- **Rendering.** DOM rendering and toasts are left out. This covers the dots' HTML markup,
  `escapeHtml`, `highlightWord`, `formatDate` and `debounce` in the popup, and the two toasts
  of the content script. Only the values they are built from are modelled.
- **Adapters, interceptors and the bridge.** Their results enter as parameters: the video id
  and title, the subtitle check, the caption elements' text, the bridge's reply and
  intercepted WebVTT text.
- **Timers and observers.** `MutationObserver` re-attachment and the element search appear
  only as `FindAndAttach` and `OnVideoRemoved` with the found element as a parameter.
  `_waitForVideo` is left out. The 500 ms, 2000 ms and 3000 ms timeouts are left out. The
  bridge timeout is a reply of `None`.
- **Concurrency.** Overlapping `loadTranscript` calls, the pending-bridge promise and
  IndexedDB transactions are left out. Each handler is one sequential step.
- **The `try/catch` around the session update** is not modelled. No failure can occur in the
  model.
- **Foreign library calls.** `fetch`, `URL` and `JSON.parse` are not modelled; their outcomes
  are parameters. Setting `fmt=json3` on the URL is left out.
- **Record listing order.** The stores' `getAll` order is a parameter sequence listing the
  word store.
- **Time.** `Date.now()` and the session's date string are parameters.
- Strings.IsLetterOrDigit: `\p{L}\p{N}` is restricted to the Latin blocks. It accepts:
  - the ASCII letters and digits;
  - the Latin-1 letters, including `ª`, `µ` and `º`;
  - the Latin-1 numerals `²`, `³`, `¹` and `¼`-`¾`;
  - all of U+00F8-U+024F, which holds the Latin-1 small letters and Latin Extended-A/B.

  Letters and numbers of every other script count as punctuation here, so `Normalize` strips
  them at a word's ends.
- Strings.LowerChar: `toLowerCase` is modelled only on `A`-`Z` and on the Latin-1 capitals
  U+00C0-U+00DE other than `×`. JavaScript also lowers the Latin Extended-A/B capitals: `Ā`
  becomes `ā` and `Ÿ` becomes `ÿ`. It also maps `İ` to two code points. So `Normalize` keeps
  capitals that the extension lowers, and a word spelt with them gets a different key from
  its lower-case form. The proofs rely only on lower-casing being idempotent and keeping a
  character's class.
- **`localeCompare`.** It is modelled as code-unit lexicographic order. Locale collation is
  left out.
- **`parseInt`/`parseFloat`.** Only decimal digit runs with optional whitespace, sign and
  fraction are modelled. Exponents, `Infinity` and other prefixes are left out.
- **Floating point.** Numbers are exact reals, so rounding of `startSec * 1000` and similar
  conversions is not captured.
- **`textTracks` modes.** Switching a disabled text track to `hidden` is left out.
- **Video links.** `Popup.BuildVideoUrl` returns the link's parts (kind, id, seconds or
  position) rather than the URL text. JavaScript's number-to-string of a fractional position
  is not modelled.
- Popup.FormatTimestamp: the `!ms` shortcut is modelled for 0 only. Timestamps reaching the
  popup are always numbers, because the ledger stores `timestampMs || 0`.
- **`calculateMastery`** is modelled and proved, but no handler calls it, as in the code.

## Findings

| source | as written | input that shows it | evidently intended | confidence | as-written member | corrected member |
|---|---|---|---|---|---|---|
| src/popup/popup.js:252 | `wordId.split(':')[1]` takes only the text between the first and second colon of the key | The word `10:30` (a normal-form token, since `:` inside a word is kept) is stored as `es:10:30`, and the popup highlights `10` | The text after the first colon, which is the word the key was built from | not executed | Popup.WordOfIdAsWrittenCutsWord | Popup.WordOfIdInvertsWordId |
