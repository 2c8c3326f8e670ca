/**
 * The heading test of `extract_questions`: the regular expression
 * `^(\d+)[\.．、]|^[(（](\d+)[)）]|^[一二三四五六七八九十]+[、．.]`, tried
 * alternative by alternative from the left, and the question number taken
 * from whichever alternative matched.
 */
module Headings {
  import opened Text
  import opened Options

  predicate IsOpenParen(c: char) {
    c == '(' || c == '（'
  }

  predicate IsCloseParen(c: char) {
    c == ')' || c == '）'
  }

  /** The character class `[一二三四五六七八九十]`. */
  predicate IsChineseNumeral(c: char) {
    c == '一' || c == '二' || c == '三' || c == '四' || c == '五' ||
    c == '六' || c == '七' || c == '八' || c == '九' || c == '十'
  }

  /** `num_map.get(c, 0)` with the map 一:1 … 十:10. */
  function ChineseValue(c: char): (v: nat)
    ensures v <= 10
    ensures v == 0 <==> !IsChineseNumeral(c)
  {
    if c == '一' then 1 else if c == '二' then 2 else if c == '三' then 3
    else if c == '四' then 4 else if c == '五' then 5 else if c == '六' then 6
    else if c == '七' then 7 else if c == '八' then 8 else if c == '九' then 9
    else if c == '十' then 10 else 0
  }

  predicate AllChineseNumerals(s: string) {
    forall i :: 0 <= i < |s| ==> IsChineseNumeral(s[i])
  }

  /** Number of leading characters of `s` in `[一二三四五六七八九十]`. */
  function ChineseRun(s: string): (k: nat)
    ensures k <= |s| && AllChineseNumerals(s[..k])
    ensures k < |s| ==> !IsChineseNumeral(s[k])
  {
    if s != [] && IsChineseNumeral(s[0]) then
      var k := 1 + ChineseRun(s[1..]);
      assert s[..k] == [s[0]] + s[1..][..k - 1];
      k
    else 0
  }

  /** Which alternative of the heading expression matched, with what it
      captured: the digits of group 1, the digits of group 2, or the first
      character of a Chinese-numeral heading. */
  datatype HeadingKind = Digit(n: nat) | Paren(n: nat) | Chinese(c: char) | NoMatch

  /** `re.match` of the heading expression. `\d+` and `[一…十]+` are
      greedy, and a separator or a closing parenthesis is never a digit or a
      numeral, so an alternative matches exactly when its maximal run is
      followed by the character it needs (see `MatchHeadingMeansRegex`). */
  function MatchHeading(t: string): (h: HeadingKind)
  {
    var d := DigitRun(t);
    if 0 < d < |t| && IsSeparator(t[d]) then Digit(ParseNat(t[..d]))
    else if |t| > 0 && IsOpenParen(t[0]) && ParenDigitsClosed(t) then
      var e := DigitRun(t[1..]);
      assert t[1..][..e] == t[1..1 + e];
      Paren(ParseNat(t[1..1 + e]))
    else
      var c := ChineseRun(t);
      if 0 < c < |t| && IsSeparator(t[c]) then Chinese(t[0]) else NoMatch
  }

  predicate ParenDigitsClosed(t: string)
    requires |t| > 0
  {
    var e := DigitRun(t[1..]);
    0 < e && 1 + e < |t| && IsCloseParen(t[1 + e])
  }

  predicate IsHeading(t: string) {
    MatchHeading(t) != NoMatch
  }

  /** The number the source assigns for a heading (lines 152-160). */
  function HeadingNumber(h: HeadingKind): nat
  {
    match h
    case Digit(n) => n
    case Paren(n) => n
    case Chinese(c) => ChineseValue(c)
    case NoMatch => 0
  }

  /** The first alternative, `^(\d+)[\.．、]`, matching with `\d+` on `t[..k]`. */
  predicate DigitAlt(t: string, k: int) {
    0 < k < |t| && AllDigits(t[..k]) && IsSeparator(t[k])
  }

  /** The second alternative, `^[(（](\d+)[)）]`, with `\d+` on `t[1..k]`. */
  predicate ParenAlt(t: string, k: int) {
    1 < k < |t| && IsOpenParen(t[0]) && AllDigits(t[1..k]) && IsCloseParen(t[k])
  }

  /** The third alternative, `^[一…十]+[、．.]`, with the run on `t[..k]`. */
  predicate ChineseAlt(t: string, k: int) {
    0 < k < |t| && AllChineseNumerals(t[..k]) && IsSeparator(t[k])
  }

  lemma {:induction false} DigitRunCovers(s: string, n: nat)
    requires n <= |s| && AllDigits(s[..n])
    ensures DigitRun(s) >= n
  {
    if n > 0 {
      assert IsDigit(s[..n][0]);
      assert s[1..][..n - 1] == s[..n][1..];
      DigitRunCovers(s[1..], n - 1);
    }
  }

  lemma {:induction false} ChineseRunCovers(s: string, n: nat)
    requires n <= |s| && AllChineseNumerals(s[..n])
    ensures ChineseRun(s) >= n
  {
    if n > 0 {
      assert IsChineseNumeral(s[..n][0]);
      assert s[1..][..n - 1] == s[..n][1..];
      ChineseRunCovers(s[1..], n - 1);
    }
  }

  /** A digit alternative can only match at the end of the maximal run. */
  lemma DigitAltUnique(t: string, k: int)
    requires DigitAlt(t, k)
    ensures k == DigitRun(t)
  {
    DigitRunCovers(t, k);
  }

  lemma ParenAltUnique(t: string, k: int)
    requires ParenAlt(t, k)
    ensures k == 1 + DigitRun(t[1..])
  {
    assert t[1..][..k - 1] == t[1..k];
    DigitRunCovers(t[1..], k - 1);
  }

  lemma ChineseAltUnique(t: string, k: int)
    requires ChineseAlt(t, k)
    ensures k == ChineseRun(t)
  {
    ChineseRunCovers(t, k);
  }

  /** The matcher agrees with the regular expression read as a choice among
      three alternatives tried from the left, and with the group each one
      captures. */
  lemma MatchHeadingMeansRegex(t: string)
    ensures MatchHeading(t).Digit? <==> exists k :: DigitAlt(t, k)
    ensures forall k :: DigitAlt(t, k) ==> MatchHeading(t) == Digit(ParseNat(t[..k]))
    ensures MatchHeading(t).Paren? <==>
      (!exists k :: DigitAlt(t, k)) && (exists k :: ParenAlt(t, k))
    ensures forall k :: ParenAlt(t, k) && !MatchHeading(t).Digit? ==>
      MatchHeading(t) == Paren(ParseNat(t[1..k]))
    ensures MatchHeading(t).Chinese? <==>
      (!exists k :: DigitAlt(t, k)) && (!exists k :: ParenAlt(t, k)) && (exists k :: ChineseAlt(t, k))
    ensures MatchHeading(t).Chinese? ==> MatchHeading(t).c == t[0]
  {
    var d := DigitRun(t);
    forall k | DigitAlt(t, k) ensures MatchHeading(t) == Digit(ParseNat(t[..k])) {
      DigitAltUnique(t, k);
    }
    if 0 < d < |t| && IsSeparator(t[d]) {
      assert DigitAlt(t, d);
    }
    forall k | ParenAlt(t, k) ensures ParenDigitsClosed(t) && k == 1 + DigitRun(t[1..]) {
      ParenAltUnique(t, k);
    }
    if |t| > 0 && IsOpenParen(t[0]) && ParenDigitsClosed(t) {
      var e := DigitRun(t[1..]);
      assert t[1..][..e] == t[1..1 + e];
      assert ParenAlt(t, 1 + e);
    }
    var c := ChineseRun(t);
    forall k | ChineseAlt(t, k) ensures k == c {
      ChineseAltUnique(t, k);
    }
    if 0 < c < |t| && IsSeparator(t[c]) {
      assert ChineseAlt(t, c);
    }
  }

  /** A Chinese-numeral heading is numbered by its first character alone:
      the number is between 1 and 10 whatever follows. */
  lemma ChineseHeadingNumber(t: string)
    requires MatchHeading(t).Chinese?
    ensures HeadingNumber(MatchHeading(t)) == ChineseValue(t[0])
    ensures 1 <= HeadingNumber(MatchHeading(t)) <= 10
  {
    assert IsChineseNumeral(t[..ChineseRun(t)][0]);
  }

  /** `十二、` is numbered 10 and `二十、` is numbered 2. */
  lemma ChineseHeadingExamples()
    ensures HeadingNumber(MatchHeading("十二、")) == 10
    ensures HeadingNumber(MatchHeading("二十、")) == 2
  {
    assert DigitRun("十二、") == 0;
    assert ChineseRun("十二、"[2..]) == 0;
    assert ChineseRun("十二、") == 2;
    assert DigitRun("二十、") == 0;
    assert ChineseRun("二十、"[2..]) == 0;
    assert ChineseRun("二十、") == 2;
  }

  /** A heading starts with a digit, an opening parenthesis or a Chinese
      numeral: never with whitespace, `'\n'` or an option letter. */
  lemma HeadingFirstChar(t: string)
    requires IsHeading(t)
    ensures |t| > 0 && !IsSpace(t[0]) && t[0] != '\n' && !IsOptionLetter(t[0])
    ensures IsDigit(t[0]) || IsOpenParen(t[0]) || IsChineseNumeral(t[0])
  {
    var d := DigitRun(t);
    if 0 < d < |t| && IsSeparator(t[d]) {
      assert IsDigit(t[..d][0]);
    } else if !(|t| > 0 && IsOpenParen(t[0]) && ParenDigitsClosed(t)) {
      assert IsChineseNumeral(t[..ChineseRun(t)][0]);
    }
  }
}
