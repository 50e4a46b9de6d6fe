/**
 * The JavaScript string operations the extension relies on, stated over `seq<char>`:
 * the `\s` class, `trim`, `split(/\s+/)`, `includes`/`indexOf`, `join`, `padStart`,
 * number-to-decimal conversion and the truncating `%` operator, plus the Unicode
 * letter/number classes and `toLowerCase` that the word normaliser uses.
 */
module Strings {

  // ---------------------------------------------------------------------------
  // Character classes

  /** JavaScript's `\s`: the WhiteSpace and LineTerminator code points (also what `trim` removes). */
  predicate IsSpace(c: char) {
    c == ' ' || c == '\t' || c == '\n' || c == '\r' || c == '\U{B}' || c == '\U{C}'
    || c == '\U{A0}' || c == '\U{1680}' || ('\U{2000}' <= c <= '\U{200A}')
    || c == '\U{2028}' || c == '\U{2029}' || c == '\U{202F}' || c == '\U{205F}'
    || c == '\U{3000}' || c == '\U{FEFF}'
  }

  /**
   * The union of the Unicode classes `\p{L}` and `\p{N}`, restricted to the Latin
   * blocks: ASCII letters and digits, the Latin-1 letters (accented vowels, `ñ`, `ü`, ...),
   * the Latin-1 numerals and ordinal indicators, and Latin Extended-A/B.
   * Everything else, including `¿`, `¡`, `«` and `»`, counts as punctuation.
   */
  predicate IsLetterOrDigit(c: char) {
    ('a' <= c <= 'z') || ('A' <= c <= 'Z') || ('0' <= c <= '9')
    || c == '\U{AA}' || c == '\U{B2}' || c == '\U{B3}' || c == '\U{B5}' || c == '\U{B9}'
    || c == '\U{BA}' || ('\U{BC}' <= c <= '\U{BE}')
    || ('\U{C0}' <= c <= '\U{D6}') || ('\U{D8}' <= c <= '\U{F6}') || ('\U{F8}' <= c <= '\U{24F}')
  }

  /** `toLowerCase` on one code point: ASCII and Latin-1 capitals map to their small letters. */
  function LowerChar(c: char): (r: char)
    ensures IsLetterOrDigit(r) == IsLetterOrDigit(c)
    ensures r == c || IsLetterOrDigit(c)
  {
    if 'A' <= c <= 'Z' || ('\U{C0}' <= c <= '\U{DE}' && c != '\U{D7}') then
      (c as int + 32) as char
    else
      c
  }

  /** `toLowerCase` on a string, code point by code point. */
  function Lower(s: string): (r: string)
    ensures |r| == |s|
    ensures forall k :: 0 <= k < |s| ==> r[k] == LowerChar(s[k])
  {
    seq(|s|, k requires 0 <= k < |s| => LowerChar(s[k]))
  }

  /** Lowering a character twice is lowering it once. */
  lemma LowerCharIdempotent(c: char)
    ensures LowerChar(LowerChar(c)) == LowerChar(c)
  {
  }

  /** Lowering a string twice is lowering it once. */
  lemma LowerIdempotent(s: string)
    ensures Lower(Lower(s)) == Lower(s)
  {
    forall k | 0 <= k < |s| ensures Lower(Lower(s))[k] == Lower(s)[k] {
      LowerCharIdempotent(s[k]);
    }
  }

  /** A string is lower-case when `toLowerCase` leaves it unchanged. */
  predicate IsLower(s: string) {
    forall k :: 0 <= k < |s| ==> LowerChar(s[k]) == s[k]
  }

  // ---------------------------------------------------------------------------
  // Runs at the ends of a string

  /** The classes of characters stripped from the ends of strings: `\s`, and anything that is neither a letter nor a number. */
  datatype CharClass = Space | NonAlnum

  predicate InClass(c: char, cls: CharClass) {
    match cls
    case Space => IsSpace(c)
    case NonAlnum => !IsLetterOrDigit(c)
  }

  /** Length of the longest prefix of `s` made of `cls`-characters. */
  function LeadingRun(s: string, cls: CharClass): (r: nat)
    ensures r <= |s|
  {
    if s == [] || !InClass(s[0], cls) then 0 else 1 + LeadingRun(s[1..], cls)
  }

  /** Length of the longest suffix of `s` made of `cls`-characters. */
  function TrailingRun(s: string, cls: CharClass): (r: nat)
    ensures r <= |s|
  {
    if s == [] || !InClass(s[|s| - 1], cls) then 0 else 1 + TrailingRun(s[..|s| - 1], cls)
  }

  /** The leading run is all `cls`-characters, and the character after it is not one. */
  lemma {:induction false} LeadingRunFacts(s: string, cls: CharClass)
    ensures forall k :: 0 <= k < LeadingRun(s, cls) ==> InClass(s[k], cls)
    ensures LeadingRun(s, cls) < |s| ==> !InClass(s[LeadingRun(s, cls)], cls)
  {
    if s != [] && InClass(s[0], cls) {
      LeadingRunFacts(s[1..], cls);
      forall k | 1 <= k < LeadingRun(s, cls)
        ensures InClass(s[k], cls)
      {
        assert s[k] == s[1..][k - 1];
      }
    }
  }

  /** The trailing run is all `cls`-characters, and the character before it is not one. */
  lemma {:induction false} TrailingRunFacts(s: string, cls: CharClass)
    ensures forall k :: |s| - TrailingRun(s, cls) <= k < |s| ==> InClass(s[k], cls)
    ensures TrailingRun(s, cls) < |s| ==> !InClass(s[|s| - TrailingRun(s, cls) - 1], cls)
  {
    if s != [] && InClass(s[|s| - 1], cls) {
      var init := s[..|s| - 1];
      TrailingRunFacts(init, cls);
      forall k | |s| - TrailingRun(s, cls) <= k < |s| - 1
        ensures InClass(s[k], cls)
      {
        assert s[k] == init[k];
      }
    }
  }

  /** `s` with the longest prefix of `cls`-characters removed. */
  function StripStart(s: string, cls: CharClass): string {
    s[LeadingRun(s, cls)..]
  }

  /** `s` with the longest suffix of `cls`-characters removed. */
  function StripEnd(s: string, cls: CharClass): string {
    s[..|s| - TrailingRun(s, cls)]
  }

  /** `String.prototype.trim`: whitespace removed from both ends. */
  function Trim(s: string): string {
    StripEnd(StripStart(s, Space), Space)
  }

  /** A string with no whitespace character at either end. */
  predicate IsTrimmed(s: string) {
    s == [] || (!IsSpace(s[0]) && !IsSpace(s[|s| - 1]))
  }

  /**
   * Stripping `cls`-characters from both ends keeps a middle slice of the input: only
   * `cls`-characters are removed, the slice neither starts nor ends with one, and what
   * lies inside it is kept as it was.
   */
  lemma StripBothIsSlice(s: string, cls: CharClass)
    ensures var r := StripEnd(StripStart(s, cls), cls);
      && (r == [] || (!InClass(r[0], cls) && !InClass(r[|r| - 1], cls)))
      && exists i, j :: 0 <= i <= j <= |s| && r == s[i..j]
                        && (forall k :: 0 <= k < i ==> InClass(s[k], cls))
                        && (forall k :: j <= k < |s| ==> InClass(s[k], cls))
  {
    var r := StripEnd(StripStart(s, cls), cls);
    var i := LeadingRun(s, cls);
    var t := s[i..];
    LeadingRunFacts(s, cls);
    TrailingRunFacts(t, cls);
    var j := i + |t| - TrailingRun(t, cls);
    assert r == s[i..j];
    if r != [] {
      assert r[0] == t[0];
    }
  }

  /** A string whose ends are not `cls`-characters is unchanged by stripping them. */
  lemma StripBothOfStripped(s: string, cls: CharClass)
    requires s == [] || (!InClass(s[0], cls) && !InClass(s[|s| - 1], cls))
    ensures StripEnd(StripStart(s, cls), cls) == s
  {
    assert LeadingRun(s, cls) == 0;
    assert TrailingRun(s, cls) == 0;
  }

  /** A string made only of `cls`-characters is stripped to nothing. */
  lemma {:induction false} StripAll(s: string, cls: CharClass)
    requires forall k :: 0 <= k < |s| ==> InClass(s[k], cls)
    ensures StripStart(s, cls) == []
  {
    if s != [] {
      StripAll(s[1..], cls);
    }
  }

  /** `trim` returns a middle slice of its input with no whitespace at its ends, and only whitespace around it. */
  lemma TrimIsSlice(s: string)
    ensures IsTrimmed(Trim(s))
    ensures exists i, j :: 0 <= i <= j <= |s| && Trim(s) == s[i..j]
                           && (forall k :: 0 <= k < i ==> IsSpace(s[k]))
                           && (forall k :: j <= k < |s| ==> IsSpace(s[k]))
  {
    StripBothIsSlice(s, Space);
  }

  /** A string already trimmed is its own `trim`. */
  lemma TrimOfTrimmed(s: string)
    requires IsTrimmed(s)
    ensures Trim(s) == s
  {
    StripBothOfStripped(s, Space);
  }

  // ---------------------------------------------------------------------------
  // Splitting on whitespace

  /** A string containing no whitespace. */
  predicate NoSpace(s: string) {
    forall k :: 0 <= k < |s| ==> !IsSpace(s[k])
  }

  /**
   * `s.split(/\s+/)`: the pieces between maximal whitespace runs, including the empty
   * pieces JavaScript yields before leading and after trailing whitespace.
   */
  function SplitWs(s: string): (r: seq<string>)
    ensures |r| >= 1
    ensures forall k :: 0 <= k < |r| ==> NoSpace(r[k])
    decreases |s|
  {
    if s == [] then [""]
    else if IsSpace(s[0]) then [""] + SplitWs(s[LeadingRun(s, Space)..])
    else
      var rest := SplitWs(s[1..]);
      [[s[0]] + rest[0]] + rest[1..]
  }

  /** `ss.filter(Boolean)` on strings: the non-empty strings, in order. */
  function DropEmpty(ss: seq<string>): (r: seq<string>)
    ensures |r| <= |ss|
    ensures forall k :: 0 <= k < |r| ==> r[k] != [] && r[k] in ss
  {
    if ss == [] then []
    else if ss[0] == [] then DropEmpty(ss[1..])
    else [ss[0]] + DropEmpty(ss[1..])
  }

  /** `s.split(/\s+/).filter(Boolean)`: the whitespace-delimited words of `s`. */
  function Words(s: string): seq<string> {
    DropEmpty(SplitWs(s))
  }

  /** Every word is non-empty and free of whitespace. */
  lemma WordsAreWords(s: string)
    ensures forall k :: 0 <= k < |Words(s)| ==> Words(s)[k] != [] && NoSpace(Words(s)[k])
  {
    var ss := SplitWs(s);
    forall k | 0 <= k < |Words(s)|
      ensures Words(s)[k] != [] && NoSpace(Words(s)[k])
    {
      assert Words(s)[k] in ss;
    }
  }

  /** Text with no whitespace at all splits into itself alone. */
  lemma {:induction false} SplitWsOfWord(w: string)
    requires NoSpace(w)
    ensures SplitWs(w) == [w]
  {
    if w != [] {
      SplitWsOfWord(w[1..]);
      assert [w[0]] + w[1..] == w;
    }
  }

  /** Splitting a single non-empty word yields that word: nothing is lost or added. */
  lemma WordsOfWord(w: string)
    requires w != [] && NoSpace(w)
    ensures Words(w) == [w]
  {
    SplitWsOfWord(w);
  }

  /** A leading run that stops inside `t` is not lengthened by what follows `t`. */
  lemma {:induction false} LeadingRunAppend(t: string, w: string, cls: CharClass)
    requires LeadingRun(t, cls) < |t|
    ensures LeadingRun(t + w, cls) == LeadingRun(t, cls)
  {
    assert (t + w)[0] == t[0];
    if InClass(t[0], cls) {
      assert (t + w)[1..] == t[1..] + w;
      LeadingRunAppend(t[1..], w, cls);
    }
  }

  /** A string made only of `cls`-characters is one leading run. */
  lemma {:induction false} LeadingRunAll(s: string, cls: CharClass)
    requires forall k :: 0 <= k < |s| ==> InClass(s[k], cls)
    ensures LeadingRun(s, cls) == |s|
  {
    if s != [] {
      LeadingRunAll(s[1..], cls);
    }
  }

  /** `filter(Boolean)` ignores an empty string at the end. */
  lemma {:induction false} DropEmptyTrailingEmpty(ss: seq<string>)
    ensures DropEmpty(ss + [""]) == DropEmpty(ss)
  {
    if ss == [] {
      assert DropEmpty([""]) == DropEmpty([]);
    } else {
      assert (ss + [""])[1..] == ss[1..] + [""];
      DropEmptyTrailingEmpty(ss[1..]);
    }
  }

  /** Non-empty whitespace splits into two empty pieces. */
  lemma SplitWsOfSpaces(w: string)
    requires w != [] && forall k :: 0 <= k < |w| ==> IsSpace(w[k])
    ensures SplitWs(w) == ["", ""]
  {
    LeadingRunAll(w, Space);
    assert w[|w|..] == [];
  }

  /** `t + w` is all whitespace when both parts are. */
  lemma AllSpacesAppend(t: string, w: string)
    requires forall k :: 0 <= k < |t| ==> IsSpace(t[k])
    requires forall k :: 0 <= k < |w| ==> IsSpace(w[k])
    ensures forall k :: 0 <= k < |t + w| ==> IsSpace((t + w)[k])
  {
    forall k | 0 <= k < |t + w|
      ensures IsSpace((t + w)[k])
    {
      if k >= |t| {
        assert (t + w)[k] == w[k - |t|];
      } else {
        assert (t + w)[k] == t[k];
      }
    }
  }

  /** The split of `t + w` when `t` opens with whitespace: drop the leading run of `t` first. */
  lemma SplitWsAppendAfterRun(t: string, w: string)
    requires t != [] && IsSpace(t[0]) && LeadingRun(t, Space) < |t|
    ensures SplitWs(t) == [""] + SplitWs(t[LeadingRun(t, Space)..])
    ensures SplitWs(t + w) == [""] + SplitWs(t[LeadingRun(t, Space)..] + w)
  {
    var a := LeadingRun(t, Space);
    LeadingRunAppend(t, w, Space);
    assert (t + w)[0] == t[0];
    assert (t + w)[a..] == t[a..] + w;
  }

  /** The split of `[c] + rest` for a non-space `c`: `c` joins the first piece. */
  lemma SplitWsCons(c: char, rest: string)
    requires !IsSpace(c)
    ensures SplitWs([c] + rest) == [[c] + SplitWs(rest)[0]] + SplitWs(rest)[1..]
  {
    assert ([c] + rest)[0] == c;
    assert ([c] + rest)[1..] == rest;
  }

  /** Adding a piece at the end of the rest of a split adds it at the end of the whole. */
  lemma ConsPieceAppend(c: char, rest: seq<string>, extra: seq<string>)
    requires |rest| >= 1
    ensures [[c] + (rest + extra)[0]] + (rest + extra)[1..] == [[c] + rest[0]] + rest[1..] + extra
  {
    assert (rest + extra)[0] == rest[0];
    assert (rest + extra)[1..] == rest[1..] + extra;
  }

  /** Whether `t` ends with whitespace. */
  predicate EndsWithSpace(t: string) {
    t != [] && IsSpace(t[|t| - 1])
  }

  /**
   * Appending whitespace to `t` adds one empty piece to its split, unless `t` already ends
   * with whitespace, when the split does not change.
   */
  lemma {:induction false} SplitWsAppendSpaces(t: string, w: string)
    requires w != [] && forall k :: 0 <= k < |w| ==> IsSpace(w[k])
    ensures SplitWs(t + w) == if EndsWithSpace(t) then SplitWs(t) else SplitWs(t) + [""]
    decreases |t|
  {
    if t == [] {
      assert t + w == w;
      SplitWsOfSpaces(w);
    } else if IsSpace(t[0]) {
      var a := LeadingRun(t, Space);
      LeadingRunFacts(t, Space);
      if a == |t| {
        AllSpacesAppend(t, w);
        SplitWsOfSpaces(t + w);
        SplitWsOfSpaces(t);
      } else {
        SplitWsAppendSpaces(t[a..], w);
        AppendSpacesAfterRun(t, w);
      }
    } else {
      SplitWsAppendSpaces(t[1..], w);
      AppendSpacesAfterChar(t, w);
    }
  }

  /** The step of `SplitWsAppendSpaces` past a leading whitespace run that stops inside `t`. */
  lemma AppendSpacesAfterRun(t: string, w: string)
    requires t != [] && IsSpace(t[0]) && LeadingRun(t, Space) < |t|
    requires var r := t[LeadingRun(t, Space)..];
             SplitWs(r + w) == if EndsWithSpace(r) then SplitWs(r) else SplitWs(r) + [""]
    ensures SplitWs(t + w) == if EndsWithSpace(t) then SplitWs(t) else SplitWs(t) + [""]
  {
    var r := t[LeadingRun(t, Space)..];
    SplitWsAppendAfterRun(t, w);
    assert r[|r| - 1] == t[|t| - 1];
    assert EndsWithSpace(r) == EndsWithSpace(t);
    if !EndsWithSpace(t) {
      assert [""] + (SplitWs(r) + [""]) == ([""] + SplitWs(r)) + [""];
    }
  }

  /** The step of `SplitWsAppendSpaces` past a leading non-space character. */
  lemma AppendSpacesAfterChar(t: string, w: string)
    requires t != [] && !IsSpace(t[0])
    requires var r := t[1..];
             SplitWs(r + w) == if EndsWithSpace(r) then SplitWs(r) else SplitWs(r) + [""]
    ensures SplitWs(t + w) == if EndsWithSpace(t) then SplitWs(t) else SplitWs(t) + [""]
  {
    var rest := t[1..];
    assert t == [t[0]] + rest;
    assert t + w == [t[0]] + (rest + w);
    if rest != [] {
      assert rest[|rest| - 1] == t[|t| - 1];
    }
    SplitWsCons(t[0], rest);
    SplitWsCons(t[0], rest + w);
    if !EndsWithSpace(t) {
      ConsPieceAppend(t[0], SplitWs(rest), [""]);
    }
  }

  /** The words of a string do not depend on whitespace around it: `trim` keeps them. */
  lemma WordsOfTrim(s: string)
    ensures Words(Trim(s)) == Words(s)
  {
    var u := StripStart(s, Space);
    WordsOfStripStart(s);
    var t := StripEnd(u, Space);
    var w := u[|t|..];
    StripEndParts(u);
    if w != [] {
      WordsOfTrailingSpaces(t, w);
    } else {
      assert u == t;
    }
  }

  /** `u` is its whitespace-stripped end followed by the whitespace stripped off. */
  lemma StripEndParts(u: string)
    ensures var t := StripEnd(u, Space);
            && u == t + u[|t|..]
            && (forall k :: |t| <= k < |u| ==> IsSpace(u[k]))
            && (|t| < |u| ==> !EndsWithSpace(t))
  {
    var t := StripEnd(u, Space);
    TrailingRunFacts(u, Space);
    assert u == t + u[|t|..];
  }

  /** Whitespace after a string that does not end with any adds no word. */
  lemma WordsOfTrailingSpaces(t: string, w: string)
    requires w != [] && forall k :: 0 <= k < |w| ==> IsSpace(w[k])
    requires !EndsWithSpace(t)
    ensures Words(t + w) == Words(t)
  {
    SplitWsAppendSpaces(t, w);
    DropEmptyTrailingEmpty(SplitWs(t));
  }


  /** The empty text and a lone newline have no words. */
  lemma WordsOfBlank()
    ensures Words("") == [] && Words("\n") == []
  {
    SplitWsOfSpaces("\n");
  }

  /** Leading whitespace only adds an empty first piece to the split, which `filter(Boolean)` drops. */
  lemma WordsOfStripStart(s: string)
    ensures Words(StripStart(s, Space)) == Words(s)
  {
    var a := LeadingRun(s, Space);
    if a > 0 {
      assert SplitWs(s) == [""] + SplitWs(s[a..]);
      assert ([""] + SplitWs(s[a..]))[1..] == SplitWs(s[a..]);
    } else {
      assert s[a..] == s;
    }
  }


  // ---------------------------------------------------------------------------
  // Searching

  /** `pat` occurs in `s` starting at index `i`. */
  predicate OccursAt(s: string, pat: string, i: int) {
    0 <= i && i + |pat| <= |s| && s[i..i + |pat|] == pat
  }

  /** `s.indexOf(pat, from)`: the first occurrence at or after `from`, or -1. */
  function IndexOf(s: string, pat: string, from: nat): (r: int)
    ensures r == -1 || (from <= r && OccursAt(s, pat, r))
    ensures forall k :: from <= k < (if r == -1 then |s| + 1 else r) ==> !OccursAt(s, pat, k)
    decreases |s| + 1 - from
  {
    if from + |pat| > |s| then -1
    else if s[from..from + |pat|] == pat then from
    else IndexOf(s, pat, from + 1)
  }

  /** A one-character pattern occurs exactly where that character is. */
  lemma OccursAtChar(s: string, c: char, k: int)
    ensures OccursAt(s, [c], k) <==> 0 <= k < |s| && s[k] == c
  {
    if 0 <= k < |s| {
      assert s[k..k + 1] == [s[k]];
    }
  }

  /** `s.includes(pat)`. */
  predicate Contains(s: string, pat: string) {
    IndexOf(s, pat, 0) >= 0
  }

  /** `includes` holds exactly when the pattern occurs somewhere. */
  lemma ContainsIff(s: string, pat: string)
    ensures Contains(s, pat) <==> exists i :: OccursAt(s, pat, i)
  {
    if !Contains(s, pat) {
      forall i | OccursAt(s, pat, i) ensures false {
      }
    }
  }

  /** `includes` holds exactly when the pattern is a contiguous slice. */
  lemma ContainsSlice(s: string, i: int, j: int)
    requires 0 <= i <= j <= |s|
    ensures Contains(s, s[i..j])
  {
    assert OccursAt(s, s[i..j], i);
    ContainsIff(s, s[i..j]);
  }

  /** A pattern without whitespace occurs in a string exactly when it occurs in its `trim`. */
  lemma ContainsTrim(s: string, pat: string)
    requires pat != [] && NoSpace(pat)
    ensures Contains(Trim(s), pat) <==> Contains(s, pat)
  {
    TrimIsSlice(s);
    var i, j :| 0 <= i <= j <= |s| && Trim(s) == s[i..j]
                && (forall k :: 0 <= k < i ==> IsSpace(s[k]))
                && (forall k :: j <= k < |s| ==> IsSpace(s[k]));
    ContainsInSpacedSlice(s, i, j, pat);
  }

  /** Occurrences of a whitespace-free pattern lie inside the part between two whitespace margins. */
  lemma ContainsInSpacedSlice(s: string, i: int, j: int, pat: string)
    requires 0 <= i <= j <= |s| && pat != [] && NoSpace(pat)
    requires forall k :: 0 <= k < i ==> IsSpace(s[k])
    requires forall k :: j <= k < |s| ==> IsSpace(s[k])
    ensures Contains(s[i..j], pat) <==> Contains(s, pat)
  {
    ContainsIff(s[i..j], pat);
    ContainsIff(s, pat);
    if Contains(s, pat) {
      var p :| OccursAt(s, pat, p);
      OccursInSpacedSlice(s, i, j, pat, p);
    }
    if Contains(s[i..j], pat) {
      var p :| OccursAt(s[i..j], pat, p);
      OccursOfSlice(s, i, j, pat, p);
    }
  }

  /** An occurrence inside a slice is one in the whole text, shifted by the slice's start. */
  lemma OccursOfSlice(s: string, i: int, j: int, pat: string, p: int)
    requires 0 <= i <= j <= |s| && OccursAt(s[i..j], pat, p)
    ensures OccursAt(s, pat, p + i)
  {
    SliceOfSlice(s, i, j, p, p + |pat|);
  }

  lemma OccursInSpacedSlice(s: string, i: int, j: int, pat: string, p: int)
    requires 0 <= i <= j <= |s| && pat != [] && NoSpace(pat)
    requires forall k :: 0 <= k < i ==> IsSpace(s[k])
    requires forall k :: j <= k < |s| ==> IsSpace(s[k])
    requires OccursAt(s, pat, p)
    ensures OccursAt(s[i..j], pat, p - i)
  {
    assert s[p] == pat[0] && !IsSpace(pat[0]);
    assert s[p + |pat| - 1] == pat[|pat| - 1] && !IsSpace(pat[|pat| - 1]);
    SliceOfSlice(s, i, j, p - i, p - i + |pat|);
  }

  /** A slice of a slice is a slice of the whole. */
  lemma SliceOfSlice(s: string, i: int, j: int, a: int, b: int)
    requires 0 <= i <= j <= |s| && 0 <= a <= b <= j - i
    ensures s[i..j][a..b] == s[i + a..i + b]
  {
    forall k | 0 <= k < b - a
      ensures s[i..j][a..b][k] == s[i + a..i + b][k]
    {
    }
  }

  /** `s.split(sep)` for a non-empty separator: the pieces between successive occurrences. */
  function SplitOn(s: string, sep: string): (r: seq<string>)
    requires sep != []
    ensures |r| >= 1
    ensures IndexOf(s, sep, 0) >= 0 ==> |r| >= 2
    decreases |s|
  {
    var i := IndexOf(s, sep, 0);
    if i < 0 then [s] else [s[..i]] + SplitOn(s[i + |sep|..], sep)
  }

  /** A string in which the separator does not occur splits into itself alone. */
  lemma SplitOnAbsent(s: string, sep: string)
    requires sep != []
    requires forall k :: 0 <= k < |s| ==> !OccursAt(s, sep, k)
    ensures SplitOn(s, sep) == [s]
  {
  }

  /** The first piece of a split is the text before the separator's first occurrence. */
  lemma SplitOnFirst(x: string, sep: string, y: string)
    requires sep != []
    requires forall k :: 0 <= k < |x| ==> !OccursAt(x + sep + y, sep, k)
    ensures SplitOn(x + sep + y, sep) == [x] + SplitOn(y, sep)
  {
    var s := x + sep + y;
    assert OccursAt(s, sep, |x|) by { assert s[|x|..|x| + |sep|] == sep; }
    assert IndexOf(s, sep, 0) == |x|;
    assert s[..|x|] == x;
    assert s[|x| + |sep|..] == y;
  }

  /** `x + ":" + y` splits at its first colon when `x` has none. */
  lemma SplitAtColon(x: string, y: string)
    requires forall k :: 0 <= k < |x| ==> x[k] != ':'
    ensures SplitOn(x + ":" + y, ":") == [x] + SplitOn(y, ":")
  {
    forall k | 0 <= k < |x|
      ensures !OccursAt(x + ":" + y, ":", k)
    {
      assert (x + ":" + y)[k..k + 1][0] == x[k];
    }
    SplitOnFirst(x, ":", y);
  }

  // ---------------------------------------------------------------------------
  // Joining and number formatting

  /** `ss.join(sep)`. */
  function Join(ss: seq<string>, sep: string): string {
    if ss == [] then ""
    else if |ss| == 1 then ss[0]
    else ss[0] + sep + Join(ss[1..], sep)
  }

  /** The decimal digit character of `d`. */
  function DigitChar(d: nat): (c: char)
    requires d < 10
    ensures '0' <= c <= '9'
  {
    ('0' as int + d) as char
  }

  /** The value of a decimal digit character. */
  function DigitValue(c: char): (d: nat)
    requires '0' <= c <= '9'
    ensures d < 10 && DigitChar(d) == c
  {
    c as int - '0' as int
  }

  /** A non-empty string of ASCII decimal digits (`/^\d+$/`). */
  predicate IsDigits(s: string) {
    |s| > 0 && forall k :: 0 <= k < |s| ==> '0' <= s[k] <= '9'
  }

  /** The number denoted by a string of decimal digits. */
  function DigitsValue(s: string): (n: nat)
    requires forall k :: 0 <= k < |s| ==> '0' <= s[k] <= '9'
  {
    if s == [] then 0 else 10 * DigitsValue(s[..|s| - 1]) + DigitValue(s[|s| - 1])
  }

  /** `String(n)` for a natural number: its shortest decimal representation. */
  function NatToString(n: nat): (s: string)
    ensures IsDigits(s)
    ensures DigitsValue(s) == n
    ensures |s| == 1 || s[0] != '0'
  {
    if n < 10 then [DigitChar(n)]
    else
      var hi := NatToString(n / 10);
      assert (hi + [DigitChar(n % 10)])[..|hi|] == hi;
      hi + [DigitChar(n % 10)]
  }

  /** `String(n)` for an integer. */
  function IntToString(n: int): string {
    if n < 0 then "-" + NatToString(-n) else NatToString(n)
  }

  /** `s.padStart(2, '0')`. */
  function PadStart2(s: string): (r: string)
    ensures |r| == if |s| >= 2 then |s| else 2
    ensures r[|r| - |s|..] == s
    ensures forall k :: 0 <= k < |r| - |s| ==> r[k] == '0'
  {
    if |s| >= 2 then s else if |s| == 1 then "0" + s else "00"
  }

  /** JavaScript's `%`: the remainder takes the sign of the dividend. */
  function JsRem(a: int, b: int): (r: int)
    requires b > 0
    ensures a >= 0 ==> 0 <= r < b && r == a % b
    ensures a < 0 ==> -b < r <= 0 && r == -((-a) % b)
  {
    if a >= 0 then a % b else -((-a) % b)
  }

  /** `Math.floor(a / b)` on integers. */
  function FloorDiv(a: int, b: int): (q: int)
    requires b > 0
    ensures q * b <= a < q * b + b
  {
    a / b
  }
}
