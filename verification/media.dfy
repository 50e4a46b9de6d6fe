/**
 * Values that flow between the content-script components: JavaScript numbers that
 * may be NaN, replay segments, word occurrences, and the page's video element.
 */
module Media {
  import opened Wrappers

  /** A JavaScript number as the transcripts produce it: a finite value, or NaN. */
  datatype Num = Real(v: real) | NaN {
    /** `x || 0`: NaN (and 0) read as 0. */
    function OrZero(): real {
      if NaN? then 0.0 else v
    }

    /** `x < y` for a number `x`; every comparison with NaN is false. */
    predicate Below(y: real) {
      Real? && v < y
    }

    /** `x > y` for a number `x`; every comparison with NaN is false. */
    predicate Above(y: real) {
      Real? && v > y
    }
  }

  /** A replay segment `[startSec, endSec]` in seconds of play position. */
  datatype Segment = Segment(startSec: real, endSec: real)

  /** One word occurrence: the token, the sentence it came from, and its time in the video in milliseconds. */
  datatype WordEntry = WordEntry(word: string, sentence: string, timestampMs: Num)

  /** The page's `<video>` element; the model reads only its play position in seconds. */
  class VideoElement {
    var currentTime: real

    constructor (position: real)
      ensures currentTime == position
    {
      currentTime := position;
    }
  }

  /** One entry per word, each with the given sentence and time, in word order. */
  function EntriesOf(words: seq<string>, sentence: string, timestampMs: Num): seq<WordEntry> {
    if words == [] then []
    else EntriesOf(words[..|words| - 1], sentence, timestampMs) + [WordEntry(words[|words| - 1], sentence, timestampMs)]
  }

  /** The entries are exactly the words, each paired with the sentence and the time. */
  lemma {:induction false} InEntriesOf(words: seq<string>, sentence: string, timestampMs: Num, e: WordEntry)
    ensures e in EntriesOf(words, sentence, timestampMs) <==>
              e.word in words && e.sentence == sentence && e.timestampMs == timestampMs
  {
    if words != [] {
      var init := words[..|words| - 1];
      InEntriesOf(init, sentence, timestampMs, e);
      assert words == init + [words[|words| - 1]];
    }
  }

  /** `list.length > 0 ? list : null`. */
  function NonEmpty<T>(list: seq<T>): (r: Option<seq<T>>)
    ensures r.Some? <==> list != []
    ensures r.Some? ==> r.value == list
  {
    if list == [] then None else Some(list)
  }

  /** The innermost loop of both `getWordsInRange`s: push one entry per word onto `acc`. */
  method AppendEntries(acc: seq<WordEntry>, words: seq<string>, sentence: string, timestampMs: Num)
    returns (r: seq<WordEntry>)
    ensures r == acc + EntriesOf(words, sentence, timestampMs)
  {
    r := acc;
    for j := 0 to |words|
      invariant r == acc + EntriesOf(words[..j], sentence, timestampMs)
    {
      assert words[..j + 1][..j] == words[..j];
      r := r + [WordEntry(words[j], sentence, timestampMs)];
    }
    assert words[..|words|] == words;
  }
}
