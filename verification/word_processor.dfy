/**
 * `WordProcessor`: turns raw caption tokens into the normalised word forms the
 * vocabulary is keyed by, and tests them against the stop-word set.
 */
module WordProcessor {
  import opened Strings
  import Constants

  /** A character that `[^\p{L}\p{N}]` matches: neither a letter nor a number. */
  predicate IsPunct(c: char) {
    !IsLetterOrDigit(c)
  }

  /** The shape of a normalised word: lower-case, and empty or starting and ending with a letter or number. */
  predicate IsNormalForm(w: string) {
    IsLower(w) && (w == [] || (IsLetterOrDigit(w[0]) && IsLetterOrDigit(w[|w| - 1])))
  }

  /**
   * `normalize`: lower-case the token, then strip the leading and then the trailing
   * runs of characters that are neither letters nor numbers.
   */
  function Normalize(raw: string): (w: string)
    ensures IsNormalForm(w)
  {
    var lowered := Lower(raw);
    StripBothIsSlice(lowered, NonAlnum);
    StripEnd(StripStart(lowered, NonAlnum), NonAlnum)
  }

  /** A word already in normal form is left unchanged. */
  lemma NormalizeFixesNormalForm(w: string)
    requires IsNormalForm(w)
    ensures Normalize(w) == w
  {
    assert Lower(w) == w;
    StripBothOfStripped(w, NonAlnum);
  }

  /** `normalize` is idempotent. */
  lemma NormalizeIdempotent(raw: string)
    ensures Normalize(Normalize(raw)) == Normalize(raw)
  {
    NormalizeFixesNormalForm(Normalize(raw));
  }

  /**
   * `normalize` only trims the ends: its result is a contiguous slice of the
   * lower-cased token, everything cut off is punctuation, and punctuation inside
   * the slice is kept.
   */
  lemma NormalizeTrimsEnds(raw: string)
    ensures exists i, j :: 0 <= i <= j <= |raw| && Normalize(raw) == Lower(raw)[i..j]
                           && (forall k :: 0 <= k < i ==> IsPunct(Lower(raw)[k]))
                           && (forall k :: j <= k < |raw| ==> IsPunct(Lower(raw)[k]))
  {
    StripBothIsSlice(Lower(raw), NonAlnum);
  }

  /** A token made only of punctuation normalises to the empty string. */
  lemma NormalizePunctuationOnly(raw: string)
    requires forall k :: 0 <= k < |raw| ==> IsPunct(raw[k])
    ensures Normalize(raw) == []
  {
    StripAll(Lower(raw), NonAlnum);
  }

  /** A token that starts and ends with a letter or number only loses its capitals. */
  lemma NormalizeOfWordish(raw: string)
    requires raw != [] && IsLetterOrDigit(raw[0]) && IsLetterOrDigit(raw[|raw| - 1])
    ensures Normalize(raw) == Lower(raw)
  {
    StripBothOfStripped(Lower(raw), NonAlnum);
  }

  /** `normalize` applied to each string. */
  function NormalizeAll(ss: seq<string>): (r: seq<string>)
    ensures |r| == |ss|
    ensures forall k :: 0 <= k < |ss| ==> r[k] == Normalize(ss[k])
  {
    if ss == [] then [] else [Normalize(ss[0])] + NormalizeAll(ss[1..])
  }

  /** `tokenize`: split on whitespace runs, normalise every piece, drop the empty results. */
  function Tokenize(text: string): seq<string> {
    DropEmpty(NormalizeAll(SplitWs(text)))
  }

  /** Every token is non-empty, in normal form, and a fixed point of `normalize`. */
  lemma TokensAreNormal(text: string)
    ensures forall k :: 0 <= k < |Tokenize(text)| ==>
              Tokenize(text)[k] != [] && IsNormalForm(Tokenize(text)[k])
              && Normalize(Tokenize(text)[k]) == Tokenize(text)[k]
  {
    var pieces := NormalizeAll(SplitWs(text));
    forall k | 0 <= k < |Tokenize(text)|
      ensures Tokenize(text)[k] != [] && IsNormalForm(Tokenize(text)[k])
              && Normalize(Tokenize(text)[k]) == Tokenize(text)[k]
    {
      var t := Tokenize(text)[k];
      assert t in pieces;
      var i :| 0 <= i < |pieces| && pieces[i] == t;
      NormalizeFixesNormalForm(t);
    }
  }

  /** A single word with no whitespace tokenizes to its normal form, or to nothing when that is empty. */
  lemma TokenizeOfWord(w: string)
    requires NoSpace(w)
    ensures Tokenize(w) == if Normalize(w) == [] then [] else [Normalize(w)]
  {
    SplitWsOfWord(w);
    assert NormalizeAll([w]) == [Normalize(w)];
  }

  /** `isStopWord`: membership in the Spanish stop-word set. */
  predicate IsStopWord(word: string) {
    word in Constants.StopWordsEs
  }

  /** The letters the stop words are spelled with: `a`-`z` and the acute-accented vowels. */
  predicate IsSpanishSmallLetter(c: char) {
    'a' <= c <= 'z' || c == 'á' || c == 'é' || c == 'í' || c == 'ó' || c == 'ú'
  }

  /** A non-empty word spelled only with small Spanish letters. */
  predicate IsSpanishSmallWord(w: string) {
    w != [] && forall k :: 0 <= k < |w| ==> IsSpanishSmallLetter(w[k])
  }

  /** Every stop word is a non-empty string of small Spanish letters. */
  lemma StopWordsAreLetters(w: string)
    requires w in Constants.StopWordsEs
    ensures IsSpanishSmallWord(w)
  {
    if w in Constants.StopWordsRow1 { Row1Letters(w); }
    else if w in Constants.StopWordsRow2 { Row2Letters(w); }
    else if w in Constants.StopWordsRow3 { Row3Letters(w); }
    else if w in Constants.StopWordsRow4 { Row4Letters(w); }
    else if w in Constants.StopWordsRow5 { Row5Letters(w); }
    else { Row6Letters(w); }
  }

  // One row of the stop-word set at a time.

  lemma Row1Letters(w: string)
    requires w in Constants.StopWordsRow1
    ensures IsSpanishSmallWord(w)
  {
  }

  lemma Row2Letters(w: string)
    requires w in Constants.StopWordsRow2
    ensures IsSpanishSmallWord(w)
  {
  }

  lemma Row3Letters(w: string)
    requires w in Constants.StopWordsRow3
    ensures IsSpanishSmallWord(w)
  {
  }

  lemma Row4Letters(w: string)
    requires w in Constants.StopWordsRow4
    ensures IsSpanishSmallWord(w)
  {
  }

  lemma Row5Letters(w: string)
    requires w in Constants.StopWordsRow5
    ensures IsSpanishSmallWord(w)
  {
  }

  lemma Row6Letters(w: string)
    requires w in Constants.StopWordsRow6
    ensures IsSpanishSmallWord(w)
  {
  }

  /**
   * Every stop word is a fixed point of `normalize`, so filtering normalised tokens
   * against the set can match each entry; and only normal-form words are stop words.
   */
  lemma StopWordsAreNormalized(w: string)
    requires IsStopWord(w)
    ensures IsNormalForm(w) && w != []
    ensures Normalize(w) == w
  {
    StopWordsAreLetters(w);
    assert forall k :: 0 <= k < |w| ==> IsSpanishSmallLetter(w[k]);
    NormalizeFixesNormalForm(w);
  }
}
