/**
 * The Dreaming Spanish transcript manager: it holds the cues of the current video,
 * loaded either from the video element's text tracks or from an intercepted WebVTT
 * file, parses WebVTT text into cues, and lists the words of the cues that overlap
 * a replay segment.
 */
module DsTranscript {
  import opened Wrappers
  import opened Strings
  import opened Media

  /** One caption cue: start and end in milliseconds (NaN when a timestamp is malformed) and its text. */
  datatype Cue = Cue(startMs: Num, endMs: Num, text: string)

  // ---------------------------------------------------------------------------
  // Number parsing

  predicate IsAsciiDigit(c: char) {
    '0' <= c <= '9'
  }

  /** Length of the longest prefix of ASCII digits. */
  function DigitRun(s: string): (n: nat)
    ensures n <= |s|
    ensures forall k :: 0 <= k < n ==> IsAsciiDigit(s[k])
    ensures n < |s| ==> !IsAsciiDigit(s[n])
  {
    if s == [] || !IsAsciiDigit(s[0]) then 0 else 1 + DigitRun(s[1..])
  }

  /** The text after its leading whitespace. */
  function SkipSpace(s: string): (r: string)
    ensures r == [] || !IsSpace(r[0])
    ensures |r| <= |s| && r == s[|s| - |r|..]
  {
    if s != [] && IsSpace(s[0]) then SkipSpace(s[1..]) else s
  }

  /** The text after an optional leading `+` or `-`. */
  function SignedBody(t: string): string {
    if t != [] && (t[0] == '-' || t[0] == '+') then t[1..] else t
  }

  /** Whether the literal starts with a minus sign. */
  predicate IsNegative(t: string) {
    t != [] && t[0] == '-'
  }

  /** `x` or `-x`, as the sign says. */
  function Signed(negative: bool, x: real): real {
    if negative then -x else x
  }

  /**
   * `parseInt(f, 10)`: skip leading whitespace, take an optional sign and the longest
   * run of decimal digits; NaN when there is no digit.
   */
  function ParseInt(f: string): Num {
    IntPrefix(SkipSpace(f))
  }

  /** `parseInt` on a string that does not start with whitespace. */
  function IntPrefix(t: string): (r: Num)
    ensures r.NaN? <==> DigitRun(SignedBody(t)) == 0
  {
    var body := SignedBody(t);
    var n := DigitRun(body);
    if n == 0 then NaN else Real(Signed(IsNegative(t), DigitsValue(body[..n]) as real))
  }

  /**
   * `parseFloat(f)` on decimal literals: skip leading whitespace, take an optional
   * sign, the longest run of digits and an optional fraction `.digits`; NaN when
   * neither part has a digit.
   */
  function ParseFloat(f: string): Num {
    var t := SkipSpace(f);
    Decimal(IsNegative(t), SignedBody(t))
  }

  /** The value of the digits after a decimal point: `0.f`, built digit by digit from the right. */
  function Fraction(f: string): (r: real)
    requires forall k :: 0 <= k < |f| ==> '0' <= f[k] <= '9'
    ensures 0.0 <= r < 1.0
  {
    if f == [] then 0.0 else (DigitValue(f[0]) as real + Fraction(f[1..])) / 10.0
  }

  /** `v / 10^n`, dividing by ten `n` times. */
  function Shifted(v: real, n: nat): real {
    if n == 0 then v else Shifted(v, n - 1) / 10.0
  }

  /** `v * 10^n`, multiplying by ten `n` times. */
  function Scaled(v: real, n: nat): real {
    if n == 0 then v else 10.0 * Scaled(v, n - 1)
  }

  lemma {:induction false} ShiftedAdds(a: real, b: real, n: nat)
    ensures Shifted(a + b, n) == Shifted(a, n) + Shifted(b, n)
  {
    if n > 0 {
      ShiftedAdds(a, b, n - 1);
    }
  }

  lemma {:induction false} ShiftedOfTen(v: real, n: nat)
    ensures Shifted(10.0 * v, n) == 10.0 * Shifted(v, n)
  {
    if n > 0 {
      ShiftedOfTen(v, n - 1);
    }
  }

  /** Dividing by ten `n` times undoes multiplying by ten `n` times. */
  lemma {:induction false} ShiftedOfScaled(v: real, n: nat)
    ensures Shifted(Scaled(v, n), n) == v
  {
    if n > 0 {
      ShiftedOfTen(Scaled(v, n - 1), n - 1);
      ShiftedOfScaled(v, n - 1);
    }
  }

  /** Reading a digit string from the left: the first digit weighs `10^` the number of digits after it. */
  lemma {:induction false} DigitsValueCons(c: char, rest: string)
    requires '0' <= c <= '9' && forall k :: 0 <= k < |rest| ==> '0' <= rest[k] <= '9'
    ensures DigitsValue([c] + rest) as real == Scaled(DigitValue(c) as real, |rest|) + DigitsValue(rest) as real
  {
    if rest != [] {
      var init := rest[..|rest| - 1];
      assert ([c] + rest)[..|rest|] == [c] + init;
      DigitsValueCons(c, init);
    }
  }

  /** The fraction of the digits `f` is `f`'s value over `10^|f|`. */
  lemma {:induction false} FractionIsRatio(f: string)
    requires forall k :: 0 <= k < |f| ==> '0' <= f[k] <= '9'
    ensures Fraction(f) == Shifted(DigitsValue(f) as real, |f|)
  {
    if f != [] {
      var rest := f[1..];
      var d := DigitValue(f[0]) as real;
      var n := |rest|;
      FractionIsRatio(rest);
      assert f == [f[0]] + rest;
      DigitsValueCons(f[0], rest);
      ShiftedAdds(Scaled(d, n), DigitsValue(rest) as real, n);
      ShiftedOfScaled(d, n);
    }
  }

  /** The number of fraction digits at the start of `rest`: a dot and a run of digits. */
  function FractionRun(rest: string): (m: nat)
    ensures m > 0 ==> 1 + m <= |rest|
  {
    if rest != [] && rest[0] == '.' then DigitRun(rest[1..]) else 0
  }

  /** An unsigned decimal literal at the start of `body`, with the given sign. */
  function Decimal(negative: bool, body: string): Num {
    var n := DigitRun(body);
    var rest := body[n..];
    var m := FractionRun(rest);
    if n == 0 && m == 0 then NaN
    else
      var frac := if m == 0 then 0.0 else Fraction(rest[1..1 + m]);
      Real(Signed(negative, DigitsValue(body[..n]) as real + frac))
  }

  /** `(hours * 3600 + minutes * 60 + seconds) * 1000`, NaN as soon as one part is NaN. */
  function TimestampMs(hours: Num, minutes: Num, seconds: Num): Num {
    if hours.NaN? || minutes.NaN? || seconds.NaN? then NaN
    else Real((hours.v * 3600.0 + minutes.v * 60.0 + seconds.v) * 1000.0)
  }

  /**
   * `_parseVTTTimestamp`: `HH:MM:SS.mmm` or `MM:SS.mmm` to milliseconds; any other
   * number of colon-separated parts reads as 0.
   */
  function ParseTimestamp(str: string): Num {
    var parts := SplitOn(str, ":");
    if |parts| == 3 then TimestampMs(ParseInt(parts[0]), ParseInt(parts[1]), ParseFloat(parts[2]))
    else if |parts| == 2 then TimestampMs(Real(0.0), ParseInt(parts[0]), ParseFloat(parts[1]))
    else Real(0.0)
  }

  /** Digits followed by anything: the digit run covers the digits and continues into the rest. */
  lemma {:induction false} DigitRunAppend(w: string, rest: string)
    requires forall k :: 0 <= k < |w| ==> IsAsciiDigit(w[k])
    ensures DigitRun(w + rest) == |w| + DigitRun(rest)
  {
    if w != [] {
      assert (w + rest)[0] == w[0];
      assert (w + rest)[1..] == w[1..] + rest;
      DigitRunAppend(w[1..], rest);
    } else {
      assert w + rest == rest;
    }
  }

  /** A string of digits is one digit run. */
  lemma {:induction false} DigitRunAll(w: string)
    requires forall k :: 0 <= k < |w| ==> IsAsciiDigit(w[k])
    ensures DigitRun(w) == |w|
  {
    if w != [] {
      DigitRunAll(w[1..]);
    }
  }

  /** A string that does not start with whitespace is left alone by the whitespace skip. */
  lemma SkipSpaceNoSpace(s: string)
    requires s == [] || !IsSpace(s[0])
    ensures SkipSpace(s) == s
  {
  }

  /** A string of digits parses to its decimal value. */
  lemma ParseIntDigits(d: string, v: nat)
    requires IsDigits(d) && v == DigitsValue(d)
    ensures ParseInt(d) == Real(v as real)
  {
    SkipSpaceNoSpace(d);
    DigitRunAll(d);
    assert d[..|d|] == d;
  }

  /** The unsigned literal `w.f` has the value `w + f / 10^|f|`. */
  lemma DecimalOfDigits(w: string, f: string, v: nat, frac: real)
    requires IsDigits(w) && IsDigits(f) && v == DigitsValue(w) && frac == Fraction(f)
    ensures Decimal(false, w + "." + f) == Real(v as real + frac)
  {
    var body := w + "." + f;
    DigitRunAppend(w, "." + f);
    assert body == w + ("." + f);
    assert DigitRun(body) == |w|;
    assert body[|w|..] == "." + f;
    assert body[..|w|] == w;
    DigitRunAll(f);
    assert ("." + f)[1..] == f;
    assert FractionRun("." + f) == |f|;
    assert ("." + f)[1..1 + |f|] == f;
    DecimalFromParts(w, f, body, v, frac);
  }

  /** The last step of `DecimalOfDigits`, once the digit runs are known. */
  lemma DecimalFromParts(w: string, f: string, body: string, v: nat, frac: real)
    requires IsDigits(w) && IsDigits(f)
    requires body == w + "." + f
    requires DigitRun(body) == |w|
    requires body[|w|..] == "." + f && body[..|w|] == w
    requires FractionRun("." + f) == |f|
    requires ("." + f)[1..1 + |f|] == f
    requires v == DigitsValue(w) && frac == Fraction(f)
    ensures Decimal(false, body) == Real(v as real + frac)
  {
  }

  /** `w.f` with digit strings `w` and `f` parses to `w + f / 10^|f|`. */
  lemma ParseFloatDecimal(w: string, f: string, v: nat, frac: real)
    requires IsDigits(w) && IsDigits(f) && v == DigitsValue(w) && frac == Fraction(f)
    ensures ParseFloat(w + "." + f) == Real(v as real + frac)
    ensures frac == Shifted(DigitsValue(f) as real, |f|)
  {
    FractionIsRatio(f);
    var s := w + "." + f;
    assert s[0] == w[0];
    SkipSpaceNoSpace(s);
    assert SignedBody(s) == s && !IsNegative(s);
    DecimalOfDigits(w, f, v, frac);
  }

  /** A seconds field `ss.fff` holds no colon. */
  lemma NoColonInDecimal(w: string, f: string)
    requires IsDigits(w) && IsDigits(f)
    ensures SplitOn(w + "." + f, ":") == [w + "." + f]
  {
    var s := w + "." + f;
    forall k | 0 <= k < |s|
      ensures !OccursAt(s, ":", k)
    {
      assert s[k..k + 1][0] == s[k];
      if k < |w| { assert s[k] == w[k]; }
      else if k > |w| { assert s[k] == f[k - |w| - 1]; }
    }
    SplitOnAbsent(s, ":");
  }

  /** `HH:MM:SS.mmm` with digit fields reads as the number of milliseconds it denotes. */
  lemma ParseTimestampHms(hh: string, mm: string, ss: string, fff: string, h: nat, m: nat, sec: nat, frac: real)
    requires IsDigits(hh) && IsDigits(mm) && IsDigits(ss) && IsDigits(fff)
    requires h == DigitsValue(hh) && m == DigitsValue(mm) && sec == DigitsValue(ss) && frac == Fraction(fff)
    ensures ParseTimestamp(hh + ":" + mm + ":" + ss + "." + fff) == Real(((h * 3600 + m * 60 + sec) as real + frac) * 1000.0)
  {
    HmsFields(hh, mm, ss, fff, h, m, sec, frac);
    HmsCombine(hh + ":" + mm + ":" + ss + "." + fff, hh, mm, ss + "." + fff, h, m, sec, frac);
  }

  /** The fields of `HH:MM:SS.mmm`, and what each of them parses to. */
  lemma HmsFields(hh: string, mm: string, ss: string, fff: string, h: nat, m: nat, sec: nat, frac: real)
    requires IsDigits(hh) && IsDigits(mm) && IsDigits(ss) && IsDigits(fff)
    requires h == DigitsValue(hh) && m == DigitsValue(mm) && sec == DigitsValue(ss) && frac == Fraction(fff)
    ensures SplitOn(hh + ":" + mm + ":" + ss + "." + fff, ":") == [hh, mm, ss + "." + fff]
    ensures ParseInt(hh) == Real(h as real) && ParseInt(mm) == Real(m as real)
    ensures ParseFloat(ss + "." + fff) == Real(sec as real + frac)
  {
    HmsSplit(hh, mm, ss, fff);
    ParseIntDigits(hh, h);
    ParseIntDigits(mm, m);
    ParseFloatDecimal(ss, fff, sec, frac);
  }

  /** `ParseTimestampHms` once its fields are split and parsed. */
  lemma HmsCombine(str: string, a: string, b: string, c: string, h: nat, m: nat, sec: nat, frac: real)
    requires SplitOn(str, ":") == [a, b, c]
    requires ParseInt(a) == Real(h as real) && ParseInt(b) == Real(m as real)
    requires ParseFloat(c) == Real(sec as real + frac)
    ensures ParseTimestamp(str) == Real(((h * 3600 + m * 60 + sec) as real + frac) * 1000.0)
  {
    ThreeFields(str, a, b, c);
    ThreeFieldsValue(ParseInt(a), ParseInt(b), ParseFloat(c), h, m, sec, frac);
  }

  /** The three colon-separated fields of `HH:MM:SS.mmm`. */
  lemma HmsSplit(hh: string, mm: string, ss: string, fff: string)
    requires IsDigits(hh) && IsDigits(mm) && IsDigits(ss) && IsDigits(fff)
    ensures SplitOn(hh + ":" + mm + ":" + ss + "." + fff, ":") == [hh, mm, ss + "." + fff]
  {
    var tail := mm + ":" + ss + "." + fff;
    assert hh + ":" + mm + ":" + ss + "." + fff == hh + ":" + tail;
    SplitAtColon(hh, tail);
    MsSplit(mm, ss, fff);
  }

  /** `MM:SS.mmm` with digit fields reads as the number of milliseconds it denotes. */
  lemma ParseTimestampMs(mm: string, ss: string, fff: string, m: nat, sec: nat, frac: real)
    requires IsDigits(mm) && IsDigits(ss) && IsDigits(fff)
    requires m == DigitsValue(mm) && sec == DigitsValue(ss) && frac == Fraction(fff)
    ensures ParseTimestamp(mm + ":" + ss + "." + fff) == Real(((m * 60 + sec) as real + frac) * 1000.0)
  {
    MsSplit(mm, ss, fff);
    ParseIntDigits(mm, m);
    ParseFloatDecimal(ss, fff, sec, frac);
    MsCombine(mm + ":" + ss + "." + fff, mm, ss + "." + fff, m, sec, frac);
  }

  /** `ParseTimestampMs` once its fields are split and parsed. */
  lemma MsCombine(str: string, b: string, c: string, m: nat, sec: nat, frac: real)
    requires SplitOn(str, ":") == [b, c]
    requires ParseInt(b) == Real(m as real) && ParseFloat(c) == Real(sec as real + frac)
    ensures ParseTimestamp(str) == Real(((m * 60 + sec) as real + frac) * 1000.0)
  {
    TwoFields(str, b, c);
    TwoFieldsValue(ParseInt(b), ParseFloat(c), m, sec, frac);
  }

  /** The two colon-separated fields of `MM:SS.mmm`. */
  lemma MsSplit(mm: string, ss: string, fff: string)
    requires forall k :: 0 <= k < |mm| ==> mm[k] != ':'
    requires IsDigits(ss) && IsDigits(fff)
    ensures SplitOn(mm + ":" + ss + "." + fff, ":") == [mm, ss + "." + fff]
  {
    var sec := ss + "." + fff;
    assert mm + ":" + ss + "." + fff == mm + ":" + sec;
    SplitAtColon(mm, sec);
    NoColonInDecimal(ss, fff);
  }

  /** A timestamp with three colon-separated fields reads them as hours, minutes and seconds. */
  lemma ThreeFields(str: string, a: string, b: string, c: string)
    requires SplitOn(str, ":") == [a, b, c]
    ensures ParseTimestamp(str) == TimestampMs(ParseInt(a), ParseInt(b), ParseFloat(c))
  {
  }

  /** A timestamp with two colon-separated fields reads them as minutes and seconds. */
  lemma TwoFields(str: string, b: string, c: string)
    requires SplitOn(str, ":") == [b, c]
    ensures ParseTimestamp(str) == TimestampMs(Real(0.0), ParseInt(b), ParseFloat(c))
  {
  }

  /** Whole hours, minutes and seconds plus a fraction of a second, in milliseconds. */
  lemma ThreeFieldsValue(h: Num, m: Num, s: Num, hv: nat, mv: nat, sv: nat, frac: real)
    requires h == Real(hv as real) && m == Real(mv as real) && s == Real(sv as real + frac)
    ensures TimestampMs(h, m, s) == Real(((hv * 3600 + mv * 60 + sv) as real + frac) * 1000.0)
  {
  }

  /** Whole minutes and seconds plus a fraction of a second, in milliseconds. */
  lemma TwoFieldsValue(m: Num, s: Num, mv: nat, sv: nat, frac: real)
    requires m == Real(mv as real) && s == Real(sv as real + frac)
    ensures TimestampMs(Real(0.0), m, s) == Real(((mv * 60 + sv) as real + frac) * 1000.0)
  {
  }

  /** A timestamp whose minutes field holds no digit, sign or whitespace reads as NaN. */
  lemma ParseTimestampMalformed(x: string, ss: string, fff: string)
    requires IsDigits(ss) && IsDigits(fff)
    requires forall k :: 0 <= k < |x| ==> x[k] != ':' && !IsAsciiDigit(x[k]) && !IsSpace(x[k]) && x[k] != '-' && x[k] != '+'
    ensures ParseTimestamp(x + ":" + ss + "." + fff) == NaN
  {
    MsSplit(x, ss, fff);
    SkipSpaceNoSpace(x);
    assert SignedBody(x) == x;
    assert ParseInt(x) == NaN;
  }

  /** A timestamp without any colon has one field, neither of the two shapes, and reads as 0. */
  lemma ParseTimestampNoColon(str: string)
    requires forall k :: 0 <= k < |str| ==> str[k] != ':'
    ensures ParseTimestamp(str) == Real(0.0)
  {
    forall k | 0 <= k < |str|
      ensures !OccursAt(str, ":", k)
    {
      OccursAtChar(str, ':', k);
    }
    SplitOnAbsent(str, ":");
  }

  // ---------------------------------------------------------------------------
  // Tags and cue text

  /** No `<` is followed, anywhere later, by a `>`: nothing left for `/<[^>]*>/` to match. */
  predicate NoTag(s: string) {
    forall i, j :: 0 <= i < j < |s| && s[i] == '<' ==> s[j] != '>'
  }

  /** No `>` anywhere. */
  predicate NoClose(s: string) {
    forall k :: 0 <= k < |s| ==> s[k] != '>'
  }

  /**
   * `s.replace(/<[^>]*>/g, '')`: scanning left to right, each `<` that has a `>` after
   * it is removed together with everything up to and including the first such `>`;
   * a `<` with no `>` after it ends the scan, since no tag can follow.
   */
  function StripTags(s: string): (r: string)
    ensures NoTag(r)
    decreases |s|
  {
    if s == [] then []
    else
      var close := IndexOf(s, ">", 1);
      if s[0] == '<' && close >= 0 then StripTags(s[close + 1..])
      else if s[0] == '<' then
        NoCloseAfter(s);
        s
      else
        KeepFirst(s[0], StripTags(s[1..]));
        [s[0]] + StripTags(s[1..])
  }

  /** A `<` without a later `>` leaves no tag in the text. */
  lemma NoCloseAfter(s: string)
    requires s != [] && s[0] == '<' && IndexOf(s, ">", 1) < 0
    ensures NoTag(s)
  {
    forall k | 1 <= k < |s|
      ensures s[k] != '>'
    {
      OccursAtChar(s, '>', k);
    }
  }

  /** Putting a character other than `<` in front of tag-free text keeps it tag-free. */
  lemma KeepFirst(c: char, rest: string)
    requires NoTag(rest) && c != '<'
    ensures NoTag([c] + rest)
  {
    var t := [c] + rest;
    forall i, j | 0 <= i < j < |t| && t[i] == '<'
      ensures t[j] != '>'
    {
      assert t[i] == rest[i - 1] && t[j] == rest[j - 1];
    }
  }

  /** Text without `<` passes through the tag stripper unchanged. */
  lemma {:induction false} StripTagsOfPlain(s: string)
    requires forall k :: 0 <= k < |s| ==> s[k] != '<'
    ensures StripTags(s) == s
  {
    if s != [] {
      StripTagsOfPlain(s[1..]);
      assert [s[0]] + s[1..] == s;
    }
  }

  /** A tag at the front disappears with its brackets. */
  lemma StripTagsOfTag(name: string, s: string)
    requires NoClose(name)
    ensures StripTags("<" + name + ">" + s) == StripTags(s)
  {
    var t := "<" + name + ">" + s;
    OccursAtChar(t, '>', |name| + 1);
    forall k | 1 <= k < |name| + 1
      ensures !OccursAt(t, ">", k)
    {
      assert t[k] == name[k - 1];
      OccursAtChar(t, '>', k);
    }
    assert IndexOf(t, ">", 1) == |name| + 1;
    assert t[|name| + 2..] == s;
  }

  /** Slices keep the absence of tags. */
  lemma NoTagSlice(s: string, i: int, j: int)
    requires NoTag(s) && 0 <= i <= j <= |s|
    ensures NoTag(s[i..j])
  {
    var t := s[i..j];
    forall a, b | 0 <= a < b < |t| && t[a] == '<'
      ensures t[b] != '>'
    {
      assert s[i + a] == '<';
    }
  }

  /** `trim` keeps the absence of tags. */
  lemma NoTagTrim(s: string)
    requires NoTag(s)
    ensures NoTag(Trim(s))
  {
    TrimIsSlice(s);
    var i, j :| 0 <= i <= j <= |s| && Trim(s) == s[i..j];
    NoTagSlice(s, i, j);
  }

  /** What a stored cue text looks like: non-empty, trimmed, and free of tags. */
  predicate IsCueText(t: string) {
    t != [] && IsTrimmed(t) && NoTag(t)
  }

  /** The text of a cue: its text lines joined by spaces, tags removed, trimmed. */
  function CueText(textLines: seq<string>): (t: string)
    ensures t == [] || IsCueText(t)
  {
    var s := StripTags(Join(textLines, " "));
    TrimIsSlice(s);
    NoTagTrim(s);
    Trim(s)
  }

  // ---------------------------------------------------------------------------
  // WebVTT structure

  const Arrow: string := "-->"

  /** A line made of whitespace only: it trims to the empty string. */
  predicate IsBlank(line: string) {
    forall k :: 0 <= k < |line| ==> IsSpace(line[k])
  }

  /** A line is blank exactly when `trim` leaves nothing of it. */
  lemma BlankIffTrimsToEmpty(line: string)
    ensures IsBlank(line) <==> Trim(line) == []
  {
    TrimIsSlice(line);
    if IsBlank(line) {
      LeadingRunFacts(line, Space);
    }
  }

  /** A line that ends the text block of a cue: blank, or another timing line. */
  predicate EndsBlock(line: string) {
    IsBlank(line) || Contains(line, Arrow)
  }

  /** Index of the first line at or after `k` that ends a text block, or the line count. */
  function BlockEnd(lines: seq<string>, k: nat): (e: nat)
    requires k <= |lines|
    ensures k <= e <= |lines|
    ensures e < |lines| ==> EndsBlock(lines[e])
    ensures forall j :: k <= j < e ==> !EndsBlock(lines[j])
    decreases |lines| - k
  {
    if k == |lines| || EndsBlock(lines[k]) then k else BlockEnd(lines, k + 1)
  }

  /** Index of the first line at or after `k` holding `-->`, or the line count. */
  function FirstArrow(lines: seq<string>, k: nat): (e: nat)
    requires k <= |lines|
    ensures k <= e <= |lines|
    ensures e < |lines| ==> Contains(lines[e], Arrow)
    ensures forall j :: k <= j < e ==> !Contains(lines[j], Arrow)
    decreases |lines| - k
  {
    if k == |lines| || Contains(lines[k], Arrow) then k else FirstArrow(lines, k + 1)
  }

  /** The trimmed lines of a text block, without the cue-identifier lines made only of digits. */
  function CueTextLines(block: seq<string>): seq<string> {
    if block == [] then []
    else
      var l := Trim(block[|block| - 1]);
      CueTextLines(block[..|block| - 1]) + (if IsDigits(l) then [] else [l])
  }

  /** `s.trim().split(' ')[0]`: the part of a timing half before any positional setting. */
  function FirstField(s: string): string {
    SplitOn(Trim(s), " ")[0]
  }

  /** The start and end timestamps of a timing line (one that contains `-->`). */
  function ArrowTimes(line: string): (Num, Num)
    requires Contains(line, Arrow)
  {
    var parts := SplitOn(line, Arrow);
    (ParseTimestamp(FirstField(parts[0])), ParseTimestamp(FirstField(parts[1])))
  }

  /**
   * The cues read from line `i` on: each trimmed line containing `-->` starts a cue whose
   * text is the following lines up to a block end; cues with empty text are dropped and
   * every other line is skipped.
   */
  function ParseCuesFrom(lines: seq<string>, i: nat): seq<Cue>
    requires i <= |lines|
    decreases |lines| - i
  {
    if i == |lines| then []
    else if !Contains(Trim(lines[i]), Arrow) then ParseCuesFrom(lines, i + 1)
    else
      var e := BlockEnd(lines, i + 1);
      CueOf(Trim(lines[i]), CueTextLines(lines[i + 1..e])) + ParseCuesFrom(lines, e)
  }

  /** The cue a timing line and its text lines yield: none when the text comes out empty. */
  function CueOf(timingLine: string, textLines: seq<string>): (r: seq<Cue>)
    requires Contains(timingLine, Arrow)
    ensures |r| <= 1 && AllCueText(r)
  {
    var times := ArrowTimes(timingLine);
    var text := CueText(textLines);
    if text == [] then [] else [Cue(times.0, times.1, text)]
  }

  /** `_parseVTT` on the lines of a file: skip the header up to the first line with `-->`, then read cues. */
  function ParseVttLines(lines: seq<string>): seq<Cue> {
    ParseCuesFrom(lines, FirstArrow(lines, 0))
  }

  /** `_parseVTT` on a file's text, split at newlines. */
  function ParseVttText(vttText: string): seq<Cue> {
    ParseVttLines(SplitOn(vttText, "\n"))
  }

  /** Every parsed cue has non-empty, trimmed text free of tags. */
  lemma {:induction false} ParsedCuesWellFormed(lines: seq<string>, i: nat)
    requires i <= |lines|
    ensures AllCueText(ParseCuesFrom(lines, i))
    decreases |lines| - i
  {
    if i < |lines| {
      if !Contains(Trim(lines[i]), Arrow) {
        ParsedCuesWellFormed(lines, i + 1);
      } else {
        var e := BlockEnd(lines, i + 1);
        ParsedCuesWellFormed(lines, e);
        AllCueTextAppend(CueOf(Trim(lines[i]), CueTextLines(lines[i + 1..e])), ParseCuesFrom(lines, e));
      }
    }
  }

  /** Every cue's text is well formed. */
  predicate AllCueText(cues: seq<Cue>) {
    forall k :: 0 <= k < |cues| ==> IsCueText(cues[k].text)
  }

  lemma AllCueTextAppend(a: seq<Cue>, b: seq<Cue>)
    requires AllCueText(a) && AllCueText(b)
    ensures AllCueText(a + b)
  {
    forall k | 0 <= k < |a + b|
      ensures IsCueText((a + b)[k].text)
    {
      if k < |a| {
        assert (a + b)[k] == a[k];
      } else {
        assert (a + b)[k] == b[k - |a|];
      }
    }
  }

  /** Every cue parsed from a file has non-empty, trimmed text free of tags. */
  lemma ParsedFileWellFormed(vttText: string)
    ensures forall k :: 0 <= k < |ParseVttText(vttText)| ==> IsCueText(ParseVttText(vttText)[k].text)
  {
    var lines := SplitOn(vttText, "\n");
    ParsedCuesWellFormed(lines, FirstArrow(lines, 0));
  }


  /**
   * Skipping the header is only a shortcut: the main loop would skip the same lines,
   * because a line contains `-->` exactly when its trimmed form does.
   */
  lemma {:induction false} HeaderSkipIsShortcut(lines: seq<string>, k: nat)
    requires k <= |lines|
    ensures ParseCuesFrom(lines, k) == ParseCuesFrom(lines, FirstArrow(lines, k))
    decreases |lines| - k
  {
    if k < |lines| && !Contains(lines[k], Arrow) {
      ContainsTrim(lines[k], Arrow);
      HeaderSkipIsShortcut(lines, k + 1);
    }
  }

  /** Hence parsing a file is reading cues from its first line. */
  lemma ParseVttFromStart(lines: seq<string>)
    ensures ParseVttLines(lines) == ParseCuesFrom(lines, 0)
  {
    HeaderSkipIsShortcut(lines, 0);
  }

  /** A text without `-->` yields no cue. */
  lemma {:induction false} NoArrowNoCues(lines: seq<string>, k: nat)
    requires k <= |lines|
    requires forall m :: k <= m < |lines| ==> !Contains(lines[m], Arrow)
    ensures ParseCuesFrom(lines, k) == []
    decreases |lines| - k
  {
    if k < |lines| {
      ContainsTrim(lines[k], Arrow);
      NoArrowNoCues(lines, k + 1);
    }
  }

  // ---------------------------------------------------------------------------
  // Timing lines with positional settings

  /** The first space-separated field of a string that starts with `b` followed by a space or nothing. */
  lemma FirstPieceBeforeSpace(y: string, b: string)
    requires |b| <= |y| && y[..|b|] == b && NoSpace(b)
    requires |y| == |b| || y[|b|] == ' '
    ensures SplitOn(y, " ")[0] == b
  {
    forall k | 0 <= k < |b|
      ensures !OccursAt(y, " ", k)
    {
      OccursAtChar(y, ' ', k);
      assert y[k] == b[k];
    }
    if |y| == |b| {
      assert y == b;
      SplitOnAbsent(y, " ");
    } else {
      OccursAtChar(y, ' ', |b|);
      assert IndexOf(y, " ", 0) == |b|;
    }
  }

  /** `trim` of `b + tail`, with `b` a non-empty word, keeps `b` in front followed by a space or nothing. */
  lemma TrimKeepsWord(b: string, tail: string)
    requires b != [] && NoSpace(b)
    requires tail == [] || tail[0] == ' '
    ensures |b| <= |Trim(b + tail)| && Trim(b + tail)[..|b|] == b
    ensures |Trim(b + tail)| == |b| || Trim(b + tail)[|b|] == ' '
  {
    var z := b + tail;
    assert LeadingRun(z, Space) == 0 by { assert z[0] == b[0]; }
    assert StripStart(z, Space) == z;
    assert !IsSpace(z[|b| - 1]) by { assert z[|b| - 1] == b[|b| - 1]; }
    TrailingRunFacts(z, Space);
    assert TrailingRun(z, Space) <= |tail|;
  }

  /** The timing half in front of `-->`: a word followed by one space. */
  lemma FirstFieldOfStart(a: string)
    requires a != [] && NoSpace(a)
    ensures FirstField(a + " ") == a
  {
    TrimKeepsWord(a, " ");
    FirstPieceBeforeSpace(Trim(a + " "), a);
  }

  /** The timing half after `-->`: a space, a word, then nothing or a space and settings. */
  lemma FirstFieldOfEnd(b: string, tail: string)
    requires b != [] && NoSpace(b)
    requires tail == [] || tail[0] == ' '
    ensures FirstField(" " + b + tail) == b
  {
    var x := " " + b + tail;
    assert LeadingRun(x, Space) == 1 by {
      assert x[1] == b[0];
      assert LeadingRun(x[1..], Space) == 0;
    }
    assert x[1..] == b + tail;
    TrimKeepsWord(b, tail);
    FirstPieceBeforeSpace(Trim(x), b);
  }

  /** No `-->` starts inside a string without `-`. */
  predicate NoDash(s: string) {
    forall k :: 0 <= k < |s| ==> s[k] != '-'
  }

  /** `-->` can only start at a `-`. */
  lemma ArrowStartsWithDash(s: string, k: int)
    ensures OccursAt(s, Arrow, k) ==> s[k] == '-'
  {
    if OccursAt(s, Arrow, k) {
      assert s[k..k + 3][0] == s[k];
    }
  }

  /** An occurrence past a prefix is an occurrence in the rest. */
  lemma OccursAfterPrefix(p: string, s: string, pat: string, k: int)
    requires |p| <= k
    ensures OccursAt(p + s, pat, k) ==> OccursAt(s, pat, k - |p|)
  {
    if OccursAt(p + s, pat, k) {
      assert (p + s)[k..k + |pat|] == s[k - |p|..k - |p| + |pat|];
    }
  }

  /** The end half ` b settings` of a timing line holds no `-->`. */
  lemma NoArrowInEnd(b: string, tail: string)
    requires NoDash(b) && !Contains(tail, Arrow)
    ensures forall k :: 0 <= k < |" " + b + tail| ==> !OccursAt(" " + b + tail, Arrow, k)
  {
    var y := " " + b + tail;
    ContainsIff(tail, Arrow);
    forall k | 0 <= k < |y|
      ensures !OccursAt(y, Arrow, k)
    {
      ArrowStartsWithDash(y, k);
      if k <= |b| {
        assert y[k] == (" " + b)[k];
      } else {
        assert y == (" " + b) + tail;
        OccursAfterPrefix(" " + b, tail, Arrow, k);
      }
    }
  }

  /** A timing line `a --> b settings` splits at its arrow into `a ` and ` b settings`. */
  lemma ArrowSplit(a: string, b: string, tail: string)
    requires NoDash(a) && NoDash(b) && !Contains(tail, Arrow)
    ensures Contains(a + " --> " + b + tail, Arrow)
    ensures SplitOn(a + " --> " + b + tail, Arrow) == [a + " ", " " + b + tail]
  {
    var x := a + " ";
    var y := " " + b + tail;
    var line := a + " --> " + b + tail;
    assert line == x + Arrow + y;
    forall k | 0 <= k < |x|
      ensures !OccursAt(line, Arrow, k)
    {
      ArrowStartsWithDash(line, k);
      assert line[k] == x[k];
    }
    SplitOnFirst(x, Arrow, y);
    assert OccursAt(line, Arrow, |x|) by { assert line[|x|..|x| + 3] == Arrow; }
    ContainsIff(line, Arrow);
    NoArrowInEnd(b, tail);
    SplitOnAbsent(y, Arrow);
  }

  /**
   * A timing line `a --> b settings` yields the timestamps `a` and `b`: the positional
   * settings after the end timestamp are ignored.
   */
  lemma ArrowTimesIgnoresSettings(a: string, b: string, tail: string)
    requires a != [] && NoSpace(a) && NoDash(a)
    requires b != [] && NoSpace(b) && NoDash(b)
    requires tail == [] || tail[0] == ' '
    requires !Contains(tail, Arrow)
    ensures Contains(a + " --> " + b + tail, Arrow)
    ensures ArrowTimes(a + " --> " + b + tail) == (ParseTimestamp(a), ParseTimestamp(b))
  {
    ArrowSplit(a, b, tail);
    FirstFieldOfStart(a);
    FirstFieldOfEnd(b, tail);
  }

  // ---------------------------------------------------------------------------
  // Words in a replay segment

  /**
   * `cue.endMs < startMs || cue.startMs > endMs` is false: the cue overlaps the range.
   * A NaN bound never compares, so a cue with a NaN time always counts as overlapping.
   */
  predicate Overlaps(c: Cue, startMs: real, endMs: real) {
    !(c.endMs.Below(startMs) || c.startMs.Above(endMs))
  }

  /** The word entries of one cue: each whitespace-separated word with the cue's text and start. */
  function CueEntries(c: Cue): seq<WordEntry> {
    EntriesOf(Words(c.text), c.text, c.startMs)
  }

  /** The entries of all cues that overlap the range and have text, cue after cue. */
  function RangeEntries(cues: seq<Cue>, startMs: real, endMs: real): seq<WordEntry> {
    if cues == [] then []
    else
      var c := cues[|cues| - 1];
      RangeEntries(cues[..|cues| - 1], startMs, endMs) + OwnEntries(c, startMs, endMs)
  }

  /** A cue contributes an entry. */
  predicate EntryOfCue(e: WordEntry, c: Cue, startMs: real, endMs: real) {
    Overlaps(c, startMs, endMs) && c.text != [] && e in CueEntries(c)
  }

  /** The entries of a prefix grow by the entries of the next cue. */
  lemma RangeEntriesStep(all: seq<Cue>, i: nat, startMs: real, endMs: real)
    requires i < |all|
    ensures RangeEntries(all[..i + 1], startMs, endMs) == RangeEntries(all[..i], startMs, endMs) + OwnEntries(all[i], startMs, endMs)
  {
    assert all[..i + 1][..i] == all[..i];
  }

  /** The entries a single cue contributes to a range. */
  function OwnEntries(c: Cue, startMs: real, endMs: real): seq<WordEntry> {
    if Overlaps(c, startMs, endMs) && c.text != [] then CueEntries(c) else []
  }

  /**
   * An entry is returned exactly when it comes from an overlapping cue with text:
   * its word is one of the cue's words, its sentence the cue's text and its time the cue's start.
   */
  lemma {:induction false} RangeEntriesExactly(cues: seq<Cue>, startMs: real, endMs: real, e: WordEntry)
    ensures e in RangeEntries(cues, startMs, endMs) <==> exists c :: c in cues && EntryOfCue(e, c, startMs, endMs)
  {
    if cues != [] {
      var init := cues[..|cues| - 1];
      var c := cues[|cues| - 1];
      RangeEntriesExactly(init, startMs, endMs, e);
      assert cues == init + [c];
      assert RangeEntries(cues, startMs, endMs) == RangeEntries(init, startMs, endMs) + OwnEntries(c, startMs, endMs);
      EntryStep(init, c, RangeEntries(init, startMs, endMs), startMs, endMs, e);
    }
  }

  /** One more cue: an entry of the longer list comes from the shorter list or from the new cue. */
  lemma EntryStep(init: seq<Cue>, c: Cue, before: seq<WordEntry>, startMs: real, endMs: real, e: WordEntry)
    requires e in before <==> exists d :: d in init && EntryOfCue(e, d, startMs, endMs)
    ensures e in before + OwnEntries(c, startMs, endMs)
            <==> exists d :: d in init + [c] && EntryOfCue(e, d, startMs, endMs)
  {
    if e in before + OwnEntries(c, startMs, endMs) {
      if e !in before {
        assert EntryOfCue(e, c, startMs, endMs);
        assert c in init + [c];
      } else {
        var d :| d in init && EntryOfCue(e, d, startMs, endMs);
        assert d in init + [c];
      }
    }
    if exists d :: d in init + [c] && EntryOfCue(e, d, startMs, endMs) {
      var d :| d in init + [c] && EntryOfCue(e, d, startMs, endMs);
      if d != c {
        assert d in init;
      }
    }
  }

  /** What an entry says: its word is a whitespace-free word of its sentence, which is the text of a cue it overlaps. */
  lemma EntryOrigin(cues: seq<Cue>, startMs: real, endMs: real, e: WordEntry)
    requires e in RangeEntries(cues, startMs, endMs)
    ensures exists c :: c in cues && Overlaps(c, startMs, endMs) && c.text == e.sentence
                        && c.startMs == e.timestampMs && e.word in Words(c.text)
    ensures e.word != [] && NoSpace(e.word)
  {
    RangeEntriesExactly(cues, startMs, endMs, e);
    var c :| c in cues && EntryOfCue(e, c, startMs, endMs);
    InEntriesOf(Words(c.text), c.text, c.startMs, e);
    var k :| 0 <= k < |Words(c.text)| && Words(c.text)[k] == e.word;
    WordsAreWords(c.text);
  }

  /** A cue that ends before the range or starts after it contributes nothing. */
  lemma {:induction false} OutsideCuesIgnored(cues: seq<Cue>, startMs: real, endMs: real)
    requires forall k :: 0 <= k < |cues| ==> !Overlaps(cues[k], startMs, endMs)
    ensures RangeEntries(cues, startMs, endMs) == []
  {
    if cues != [] {
      OutsideCuesIgnored(cues[..|cues| - 1], startMs, endMs);
    }
  }

  /** A cue starting at 10 s and ending at 12 s is found by the segment [9 s, 11 s] but not by [13 s, 15 s]. */
  lemma OverlapExample()
    ensures Overlaps(Cue(Real(10000.0), Real(12000.0), "hola"), 9.0 * 1000.0, 11.0 * 1000.0)
    ensures !Overlaps(Cue(Real(10000.0), Real(12000.0), "hola"), 13.0 * 1000.0, 15.0 * 1000.0)
    ensures Overlaps(Cue(NaN, NaN, "hola"), 13.0 * 1000.0, 15.0 * 1000.0)
  {
  }

  // ---------------------------------------------------------------------------
  // Text tracks of the video element

  /** A cue of a browser text track: times in seconds and raw text. */
  datatype TextTrackCue = TextTrackCue(startTime: real, endTime: real, text: string)

  /** A text track of the video element, with the cues it holds once loaded. */
  datatype TextTrack = TextTrack(language: string, kind: string, cues: seq<TextTrackCue>)

  /** A Spanish track, or any subtitle or caption track. */
  predicate IsCandidateTrack(t: TextTrack) {
    t.language == "es" || t.language == "spa" || t.kind == "subtitles" || t.kind == "captions"
  }

  /** A candidate track whose cues are available. */
  predicate IsLoadedTrack(t: TextTrack) {
    IsCandidateTrack(t) && t.cues != []
  }

  /** Index of the first loaded candidate track, if any. */
  function FirstLoadedTrack(tracks: seq<TextTrack>, from: nat): (r: Option<nat>)
    requires from <= |tracks|
    ensures r.Some? ==> from <= r.value < |tracks| && IsLoadedTrack(tracks[r.value])
    ensures forall k :: from <= k < (if r.Some? then r.value else |tracks|) ==> !IsLoadedTrack(tracks[k])
    decreases |tracks| - from
  {
    if from == |tracks| then None
    else if IsLoadedTrack(tracks[from]) then Some(from)
    else FirstLoadedTrack(tracks, from + 1)
  }

  /** A text-track cue in the manager's form: milliseconds, tags removed, trimmed. */
  function TrackCue(c: TextTrackCue): Cue {
    Cue(Real(c.startTime * 1000.0), Real(c.endTime * 1000.0), Trim(StripTags(c.text)))
  }

  function TrackCues(cs: seq<TextTrackCue>): (r: seq<Cue>)
    ensures |r| == |cs|
    ensures forall k :: 0 <= k < |cs| ==> r[k] == TrackCue(cs[k])
  {
    seq(|cs|, k requires 0 <= k < |cs| => TrackCue(cs[k]))
  }

  /** The text of the first caption source that shows any: the elements' texts joined by spaces and trimmed. */
  function VisibleCaption(matches: seq<seq<string>>): (r: Option<string>)
    ensures r.Some? ==> r.value != [] && IsTrimmed(r.value)
    ensures r.None? ==> forall k :: 0 <= k < |matches| ==> Trim(Join(matches[k], " ")) == []
    ensures r.Some? ==> exists k :: 0 <= k < |matches| && r.value == Trim(Join(matches[k], " "))
                                    && forall j :: 0 <= j < k ==> Trim(Join(matches[j], " ")) == []
  {
    if matches == [] then None
    else
      var text := Trim(Join(matches[0], " "));
      TrimIsSlice(Join(matches[0], " "));
      if matches[0] != [] && text != [] then Some(text)
      else
        var rest := VisibleCaption(matches[1..]);
        assert forall k :: 1 <= k < |matches| ==> matches[k] == matches[1..][k - 1];
        if matches[0] == [] then
          assert Join(matches[0], " ") == [];
          rest
        else rest
  }

  /** The loop of `getWordsInRange` over the cues: skip those outside the range or without text, push the words of the others. */
  method CollectEntries(all: seq<Cue>, startMs: real, endMs: real) returns (results: seq<WordEntry>)
    ensures results == RangeEntries(all, startMs, endMs)
  {
    results := [];
    for i := 0 to |all|
      invariant results == RangeEntries(all[..i], startMs, endMs)
    {
      var c := all[i];
      RangeEntriesStep(all, i, startMs, endMs);
      if c.endMs.Below(startMs) || c.startMs.Above(endMs) {
        continue;
      }
      if c.text == [] {
        continue;
      }
      results := AppendEntries(results, Words(c.text), c.text, c.startMs);
    }
    assert all[..|all|] == all;
  }

  /**
   * The loops of `_parseVTT` over the lines of a file: skip the header, then read each
   * timing line and the text block after it.
   */
  method ReadVttLines(lines: seq<string>) returns (parsed: seq<Cue>)
    ensures parsed == ParseVttLines(lines)
  {
    parsed := [];
    var i := SkipHeader(lines);
    while i < |lines|
      invariant 0 <= i <= |lines|
      invariant parsed + ParseCuesFrom(lines, i) == ParseVttLines(lines)
      decreases |lines| - i
    {
      var found, next := ReadCue(lines, i);
      parsed := parsed + found;
      i := next;
    }
  }

  /** The header loop of `_parseVTT`: the index of the first line holding `-->`, or the line count. */
  method SkipHeader(lines: seq<string>) returns (i: nat)
    ensures i == FirstArrow(lines, 0)
  {
    i := 0;
    while i < |lines| && !Contains(lines[i], Arrow)
      invariant 0 <= i <= |lines|
      invariant FirstArrow(lines, i) == FirstArrow(lines, 0)
    {
      i := i + 1;
    }
  }

  /**
   * One pass of the main loop of `_parseVTT` at line `i`: a trimmed timing line reads the
   * text block after it and yields its cue unless the text is empty; any other line is skipped.
   */
  method ReadCue(lines: seq<string>, i: nat) returns (found: seq<Cue>, next: nat)
    requires i < |lines|
    ensures i < next <= |lines|
    ensures ParseCuesFrom(lines, i) == found + ParseCuesFrom(lines, next)
  {
    var line := Trim(lines[i]);
    if Contains(line, Arrow) {
      var textLines;
      next, textLines := ReadTextBlock(lines, i + 1);
      found := CueOf(line, textLines);
    } else {
      found := [];
      next := i + 1;
    }
  }

  /**
   * The inner loop of `_parseVTT`: the trimmed text lines from `from` up to the next blank
   * or timing line, without the lines made only of digits.
   */
  method ReadTextBlock(lines: seq<string>, from: nat) returns (i: nat, textLines: seq<string>)
    requires from <= |lines|
    ensures i == BlockEnd(lines, from)
    ensures textLines == CueTextLines(lines[from..i])
  {
    i := from;
    textLines := [];
    while i < |lines| && !EndsBlock(lines[i])
      invariant from <= i <= |lines|
      invariant BlockEnd(lines, i) == BlockEnd(lines, from)
      invariant textLines == CueTextLines(lines[from..i])
    {
      textLines := AddTextLine(lines, from, i, textLines);
      BlockEndStep(lines, i);
      i := i + 1;
    }
  }

  /** A line that does not end the block leaves the block's end where it was. */
  lemma BlockEndStep(lines: seq<string>, i: nat)
    requires i < |lines| && !EndsBlock(lines[i])
    ensures BlockEnd(lines, i + 1) == BlockEnd(lines, i)
  {
  }

  /** One pass of the inner loop: keep the trimmed line unless it is made only of digits. */
  method AddTextLine(lines: seq<string>, from: nat, i: nat, textLines: seq<string>) returns (r: seq<string>)
    requires from <= i < |lines|
    requires textLines == CueTextLines(lines[from..i])
    ensures r == CueTextLines(lines[from..i + 1])
  {
    var l := Trim(lines[i]);
    CueTextLinesStep(lines, from, i);
    r := textLines;
    if !IsDigits(l) {
      r := r + [l];
    }
  }

  /** One more line of a text block. */
  lemma CueTextLinesStep(lines: seq<string>, from: nat, i: nat)
    requires from <= i < |lines|
    ensures CueTextLines(lines[from..i + 1])
         == CueTextLines(lines[from..i]) + (if IsDigits(Trim(lines[i])) then [] else [Trim(lines[i])])
  {
    assert lines[from..i + 1][..i - from] == lines[from..i];
  }

  // ---------------------------------------------------------------------------
  // The manager

  class DsTranscriptManager {
    /** The cues of the current video, `None` until some are loaded. */
    var cues: Option<seq<Cue>>
    /** The video the cues belong to; `""` before any video. */
    var currentVideoId: string

    /** Loaded cues are never an empty list. */
    ghost predicate Valid()
      reads this
    {
      cues.Some? ==> cues.value != []
    }

    constructor ()
      ensures Valid()
      ensures cues == None && currentVideoId == ""
    {
      cues := None;
      currentVideoId := "";
    }

    /**
     * `loadTranscript`: nothing to do without a video id or when the cues of that
     * video are already loaded; otherwise switch to the video, drop the old cues and
     * take those of the first loaded candidate text track, if any.
     */
    method LoadTranscript(videoId: string, tracks: seq<TextTrack>)
      requires Valid()
      modifies this
      ensures Valid()
      ensures videoId == [] || (videoId == old(currentVideoId) && old(cues).Some?) ==>
                cues == old(cues) && currentVideoId == old(currentVideoId)
      ensures !(videoId == [] || (videoId == old(currentVideoId) && old(cues).Some?)) ==>
                currentVideoId == videoId
                && cues == (match FirstLoadedTrack(tracks, 0)
                            case Some(k) => Some(TrackCues(tracks[k].cues))
                            case None => None)
    {
      if videoId == [] {
        return;
      }
      if videoId == currentVideoId && cues.Some? {
        return;
      }
      currentVideoId := videoId;
      cues := None;
      TryTextTrackApi(tracks);
    }

    /** `_tryTextTrackAPI`: the cues of the first candidate track that has cues, or no change. */
    method TryTextTrackApi(tracks: seq<TextTrack>)
      requires Valid()
      modifies this
      ensures Valid()
      ensures currentVideoId == old(currentVideoId)
      ensures cues == (match FirstLoadedTrack(tracks, 0)
                       case Some(k) => Some(TrackCues(tracks[k].cues))
                       case None => old(cues))
    {
      var i := 0;
      while i < |tracks|
        invariant 0 <= i <= |tracks|
        invariant FirstLoadedTrack(tracks, 0) == FirstLoadedTrack(tracks, i)
        invariant cues == old(cues) && currentVideoId == old(currentVideoId)
      {
        var track := tracks[i];
        if IsCandidateTrack(track) && track.cues != [] {
          cues := Some(TrackCues(track.cues));
          return;
        }
        i := i + 1;
      }
    }

    /** The page's message listener: only intercepted WebVTT files posted by the page itself are parsed. */
    method OnMessage(fromPage: bool, messageType: string, vttText: string)
      requires Valid()
      modifies this
      ensures Valid()
      ensures currentVideoId == old(currentVideoId)
      ensures fromPage && messageType == "DS_REWIND_VTT_DATA" && ParseVttText(vttText) != [] ==>
                cues == Some(ParseVttText(vttText))
      ensures !(fromPage && messageType == "DS_REWIND_VTT_DATA" && ParseVttText(vttText) != []) ==>
                cues == old(cues)
    {
      if !fromPage || messageType != "DS_REWIND_VTT_DATA" {
        return;
      }
      ParseVtt(vttText);
    }

    /** `_parseVTT`: replace the cues by those of the file, unless it yields none. */
    method ParseVtt(vttText: string)
      requires Valid()
      modifies this
      ensures Valid()
      ensures currentVideoId == old(currentVideoId)
      ensures cues == if ParseVttText(vttText) == [] then old(cues) else Some(ParseVttText(vttText))
    {
      var parsed := ReadVttLines(SplitOn(vttText, "\n"));
      if parsed != [] {
        cues := Some(parsed);
      }
    }

    /**
     * `getWordsInRange`: the word entries of the cues overlapping `[startSec, endSec]`,
     * or `None` when no cues are loaded or no entry results.
     */
    method GetWordsInRange(startSec: real, endSec: real) returns (r: Option<seq<WordEntry>>)
      ensures cues.None? ==> r.None?
      ensures cues.Some? ==> r == NonEmpty(RangeEntries(cues.value, startSec * 1000.0, endSec * 1000.0))
    {
      if cues.None? {
        return None;
      }
      var results := CollectEntries(cues.value, startSec * 1000.0, endSec * 1000.0);
      if results == [] {
        r := None;
      } else {
        r := Some(results);
      }
    }

    /** `getVisibleCaptionText`: given the texts of the elements each caption selector matches, in selector order. */
    method GetVisibleCaptionText(matches: seq<seq<string>>) returns (r: Option<string>)
      ensures r == VisibleCaption(matches)
    {
      for i := 0 to |matches|
        invariant VisibleCaption(matches) == VisibleCaption(matches[i..])
      {
        assert matches[i..][1..] == matches[i + 1..];
        if |matches[i]| > 0 {
          var text := Trim(Join(matches[i], " "));
          if text != [] {
            return Some(text);
          }
        }
      }
      return None;
    }
  }
}
