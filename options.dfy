/**
 * The option stripper (`remove_options`): a question body is split on
 * `'\n'`, every line whose stripped form matches `^[A-E][\.．、]\s*.+$` is
 * dropped, and the remaining lines are joined back with `'\n'`.
 */
module Options {
  import opened Text
  import opened Seqs

  /** The separator class `[\.．、]` shared by option labels and headings. */
  predicate IsSeparator(c: char) {
    c == '.' || c == '．' || c == '、'
  }

  predicate IsOptionLetter(c: char) {
    'A' <= c <= 'E'
  }

  /** `re.match(r'^[A-E][\.．、]\s*.+$', line.strip())`, computed the way the
      regular-expression engine settles it on a stripped line: after the label
      and the separator, `\s*` takes the whole whitespace run and `.+` must
      take a non-empty rest that holds no `'\n'`. */
  predicate IsOptionLine(line: string) {
    IsOptionText(Strip(line))
  }

  /** The test on an already stripped line. */
  predicate IsOptionText(t: string) {
    |t| >= 3 && IsOptionLetter(t[0]) && IsSeparator(t[1]) &&
    var rest := t[2..];
    var u := rest[SpaceRun(rest)..];
    u != [] && '\n' !in u
  }

  /** The regular expression's own meaning on a string `t`: a label, a
      separator, a whitespace run `t[2..k]`, a non-empty newline-free run
      `t[k..m]` for `.+`, and `$` at the end or before a final `'\n'`. */
  predicate OptionRegexMatches(t: string) {
    |t| >= 2 && IsOptionLetter(t[0]) && IsSeparator(t[1]) &&
    exists k, m :: 2 <= k < m <= |t| && AllSpace(t[2..k]) && '\n' !in t[k..m] &&
      (m == |t| || (m == |t| - 1 && t[m] == '\n'))
  }

  /** The stripper's test is exactly the regular expression applied to the
      stripped line. */
  lemma OptionLineMeansRegex(line: string)
    ensures IsOptionLine(line) <==> OptionRegexMatches(Strip(line))
  {
    if IsOptionLine(line) {
      OptionLineMatches(Strip(line));
    }
    if OptionRegexMatches(Strip(line)) {
      StripSpec(line);
      RegexMatchIsOptionLine(Strip(line));
    }
  }

  lemma OptionLineMatches(t: string)
    requires |t| >= 3 && IsOptionLetter(t[0]) && IsSeparator(t[1])
    requires var rest := t[2..]; var u := rest[SpaceRun(rest)..]; u != [] && '\n' !in u
    ensures OptionRegexMatches(t)
  {
    var rest := t[2..];
    var k := 2 + SpaceRun(rest);
    assert t[2..k] == rest[..SpaceRun(rest)];
    assert t[k..|t|] == rest[SpaceRun(rest)..];
  }

  lemma RegexMatchIsOptionLine(t: string)
    requires t != [] ==> !IsSpace(t[|t| - 1])
    requires OptionRegexMatches(t)
    ensures |t| >= 3
    ensures var rest := t[2..]; var u := rest[SpaceRun(rest)..]; u != [] && '\n' !in u
  {
    var k, m :| 2 <= k < m <= |t| && AllSpace(t[2..k]) && '\n' !in t[k..m] &&
      (m == |t| || (m == |t| - 1 && t[m] == '\n'));
    assert m == |t|;
    var rest := t[2..];
    RestAfterRun(t, k, rest, SpaceRun(rest));
  }

  /** With the label's whitespace run `t[2..k]` and a newline-free rest
      `t[k..]`, the leading run of `t[2..]` leaves a non-empty newline-free
      rest. */
  lemma RestAfterRun(t: string, k: nat, rest: string, j: nat)
    requires 2 <= k < |t| && !IsSpace(t[|t| - 1])
    requires AllSpace(t[2..k]) && '\n' !in t[k..]
    requires rest == t[2..] && j == SpaceRun(rest)
    ensures rest[j..] != [] && '\n' !in rest[j..]
  {
    assert rest[..k - 2] == t[2..k];
    SpaceRunCovers(rest, k - 2);
    assert rest[|rest| - 1] == t[|t| - 1];
    RunBeforeLast(rest, j);
    assert rest[j..] == t[k..][j + 2 - k..];
    NewlineFreeSuffix(t[k..], j + 2 - k);
  }

  /** A whitespace run cannot reach a last character that is not whitespace. */
  lemma RunBeforeLast(s: string, j: nat)
    requires j <= |s| && AllSpace(s[..j]) && s != []
    ensures j == |s| ==> IsSpace(s[|s| - 1])
  {
    if j == |s| {
      assert s[..j][|s| - 1] == s[|s| - 1];
    }
  }

  lemma NewlineFreeSuffix(s: string, p: nat)
    requires p <= |s| && '\n' !in s
    ensures '\n' !in s[p..]
  {
    assert forall i :: 0 <= i < |s| - p ==> s[p..][i] == s[p + i];
  }

  /** A line that `remove_options` keeps. */
  predicate IsKeptLine(line: string) {
    !IsOptionLine(line)
  }

  /** The lines that survive the filter, in their original order. */
  function KeptLines(lines: seq<string>): (kept: seq<string>)
  {
    Filter(lines, IsKeptLine)
  }

  /** Exactly the non-option lines are kept: each kept line is a non-option
      line of the input, and each non-option line of the input is kept. */
  lemma KeptLinesMembers(lines: seq<string>)
    ensures forall x :: x in KeptLines(lines) <==> x in lines && !IsOptionLine(x)
  {
    FilterMembers(lines, IsKeptLine);
  }

  /** Each line is kept or dropped on its own and order is preserved: the
      kept lines of `a + b` are those of `a` followed by those of `b`. */
  lemma KeptLinesAppend(a: seq<string>, b: seq<string>)
    ensures KeptLines(a + b) == KeptLines(a) + KeptLines(b)
  {
    FilterAppend(a, b, IsKeptLine);
  }

  lemma KeptLinesOne(line: string)
    ensures KeptLines([line]) == if IsOptionLine(line) then [] else [line]
  {
    assert [line][1..] == [];
  }

  /** `remove_options` as a value: split, filter, join. */
  function StripOptions(body: string): (r: string)
  {
    JoinLines(KeptLines(SplitLines(body)))
  }

  /** Every line of the result is a line of the body that is not an option
      line, and every non-option line of the body is in the result. */
  lemma StripOptionsLines(body: string)
    ensures var out := SplitLines(StripOptions(body));
      (forall i :: 0 <= i < |out| ==> !IsOptionLine(out[i]) && (out[i] in SplitLines(body) || out[i] == ""))
    ensures forall i :: 0 <= i < |SplitLines(body)| && !IsOptionLine(SplitLines(body)[i]) ==>
      SplitLines(body)[i] in SplitLines(StripOptions(body))
  {
    var kept := KeptLines(SplitLines(body));
    KeptLinesMembers(SplitLines(body));
    if kept == [] {
      assert SplitLines(StripOptions(body)) == [""];
      assert !IsOptionLine("");
    } else {
      forall i | 0 <= i < |kept| ensures '\n' !in kept[i] {
        assert kept[i] in SplitLines(body);
      }
      SplitJoin(kept);
    }
  }

  /** `remove_options` is idempotent. */
  lemma StripOptionsIdempotent(body: string)
    ensures StripOptions(StripOptions(body)) == StripOptions(body)
  {
    var kept := KeptLines(SplitLines(body));
    KeptLinesMembers(SplitLines(body));
    if kept == [] {
      assert SplitLines("") == [""];
      assert !IsOptionLine("");
      assert KeptLines([""]) == [""];
    } else {
      forall i | 0 <= i < |kept| ensures '\n' !in kept[i] {
        assert kept[i] in SplitLines(body);
      }
      SplitJoin(kept);
      FilterIdempotent(SplitLines(body), IsKeptLine);
    }
  }

  /** A bare label such as `A.` has nothing for `.+` to match, and a letter
      outside `A`-`E` is not a label: both lines are kept. */
  lemma OptionLineNeedsLetterAndText(line: string)
    ensures |Strip(line)| <= 2 ==> !IsOptionLine(line)
    ensures |Strip(line)| >= 1 && !IsOptionLetter(Strip(line)[0]) ==> !IsOptionLine(line)
  {
  }

  /** The source's loop: split the body, append every non-option line to
      `cleaned`, join. */
  method RemoveOptions(questionText: string) returns (r: string)
    ensures r == StripOptions(questionText)
  {
    var lines := SplitLines(questionText);
    var cleaned: seq<string> := [];
    for i := 0 to |lines|
      invariant cleaned == KeptLines(lines[..i])
    {
      KeptLinesAppend(lines[..i], [lines[i]]);
      KeptLinesOne(lines[i]);
      assert lines[..i + 1] == lines[..i] + [lines[i]];
      if !IsOptionLine(lines[i]) {
        cleaned := cleaned + [lines[i]];
      }
    }
    assert lines[..|lines|] == lines;
    r := JoinLines(cleaned);
  }
}
