/**
 * Character classes and the few string primitives the comparator relies on:
 * Python's `str.strip()`, `str.split('\n')`, `'\n'.join(...)`, the digit class
 * `\d` with `int(...)` on a digit run, and `str(n)` for a natural number.
 */
module Text {

  /** Python's `str.isspace()`; the regular-expression class `\s` and
      `str.strip()` with no argument use this same set of code points. */
  predicate IsSpace(c: char) {
    var n := c as int;
    (9 <= n <= 13) || (28 <= n <= 32) || n == 0x85 || n == 0xA0 || n == 0x1680 ||
    (0x2000 <= n <= 0x200A) || n == 0x2028 || n == 0x2029 || n == 0x202F ||
    n == 0x205F || n == 0x3000
  }

  /** A decimal digit: ASCII `0`-`9` or full-width `０`-`９`. */
  predicate IsDigit(c: char) {
    ('0' <= c <= '9') || ('０' <= c <= '９')
  }

  function DigitValue(c: char): (d: nat)
    requires IsDigit(c)
    ensures d < 10
  {
    if '0' <= c <= '9' then (c as int) - ('0' as int) else (c as int) - ('０' as int)
  }

  predicate AllDigits(s: string) {
    forall i :: 0 <= i < |s| ==> IsDigit(s[i])
  }

  predicate AllSpace(s: string) {
    forall i :: 0 <= i < |s| ==> IsSpace(s[i])
  }

  /** `int(s)` for a non-empty run of decimal digits. */
  function ParseNat(s: string): (n: nat)
    requires AllDigits(s)
    decreases |s|
  {
    if s == [] then 0 else 10 * ParseNat(s[..|s| - 1]) + DigitValue(s[|s| - 1])
  }

  /** `str(n)`: the decimal rendering of `n`. */
  function NatToString(n: nat): string {
    var last := [('0' as int + n % 10) as char];
    if n < 10 then last else NatToString(n / 10) + last
  }

  /** `str(n)` is a non-empty run of ASCII digits, without a leading zero
      unless it is `0`, and `int(str(n)) == n`. */
  lemma {:induction false} ParseNatToString(n: nat)
    ensures |NatToString(n)| >= 1 && (|NatToString(n)| > 1 ==> NatToString(n)[0] != '0')
    ensures forall i :: 0 <= i < |NatToString(n)| ==> '0' <= NatToString(n)[i] <= '9'
    ensures AllDigits(NatToString(n)) && ParseNat(NatToString(n)) == n
  {
    var s := NatToString(n);
    if n >= 10 {
      ParseNatToString(n / 10);
      var front := NatToString(n / 10);
      assert s == front + [('0' as int + n % 10) as char];
      assert s[..|s| - 1] == front;
      assert s[0] == front[0];
    }
  }

  /** Number of leading characters of `s` that satisfy `IsDigit`. */
  function DigitRun(s: string): (k: nat)
    ensures k <= |s| && AllDigits(s[..k])
    ensures k < |s| ==> !IsDigit(s[k])
  {
    if s != [] && IsDigit(s[0]) then
      var k := 1 + DigitRun(s[1..]);
      assert s[..k] == [s[0]] + s[1..][..k - 1];
      k
    else 0
  }

  /** Number of leading whitespace characters of `s`. */
  function SpaceRun(s: string): (k: nat)
    ensures k <= |s| && AllSpace(s[..k])
    ensures k < |s| ==> !IsSpace(s[k])
  {
    if s != [] && IsSpace(s[0]) then
      var k := 1 + SpaceRun(s[1..]);
      assert s[..k] == [s[0]] + s[1..][..k - 1];
      k
    else 0
  }

  /** A whitespace prefix of length `n` is covered by the leading run. */
  lemma {:induction false} SpaceRunCovers(s: string, n: nat)
    requires n <= |s| && AllSpace(s[..n])
    ensures SpaceRun(s) >= n
  {
    if n > 0 {
      assert IsSpace(s[..n][0]);
      assert s[1..][..n - 1] == s[..n][1..];
      SpaceRunCovers(s[1..], n - 1);
    }
  }

  /** Each character of the leading whitespace run is whitespace. */
  lemma SpaceRunAll(s: string)
    ensures forall i :: 0 <= i < SpaceRun(s) ==> IsSpace(s[i])
  {
    var k := SpaceRun(s);
    forall i | 0 <= i < k ensures IsSpace(s[i]) {
      assert s[..k][i] == s[i];
    }
  }

  /** Number of trailing whitespace characters of `s`. */
  function TrailingSpaceRun(s: string): (k: nat)
    ensures k <= |s| && AllSpace(s[|s| - k..])
    ensures k < |s| ==> !IsSpace(s[|s| - k - 1])
  {
    if s != [] && IsSpace(s[|s| - 1]) then
      var k := 1 + TrailingSpaceRun(s[..|s| - 1]);
      assert s[|s| - k..] == s[..|s| - 1][|s| - k..] + [s[|s| - 1]];
      k
    else 0
  }

  /** Python's `s.strip()`. */
  function Strip(s: string): (t: string)
  {
    var a := SpaceRun(s);
    var rest := s[a..];
    rest[..|rest| - TrailingSpaceRun(rest)]
  }

  /** What `strip()` promises: the result is `s` with a whitespace prefix and
      a whitespace suffix removed, and it neither starts nor ends with one. */
  lemma StripSpec(s: string)
    ensures var t := Strip(s);
      exists a, b :: 0 <= a <= b <= |s| && t == s[a..b] && AllSpace(s[..a]) && AllSpace(s[b..])
    ensures var t := Strip(s); t != [] ==> !IsSpace(t[0]) && !IsSpace(t[|t| - 1])
    ensures AllSpace(s) <==> Strip(s) == []
  {
    var a := SpaceRun(s);
    var rest := s[a..];
    var e := TrailingSpaceRun(rest);
    var t := Strip(s);
    assert t == s[a..|s| - e];
    assert s[|s| - e..] == rest[|rest| - e..];
    if t != [] {
      assert t[0] == s[a];
      assert t[|t| - 1] == rest[|rest| - e - 1];
      assert !AllSpace(s) by { assert !IsSpace(s[a]); }
    } else {
      assert |rest| == e;
      assert a == |s|;
      forall i | 0 <= i < |s| ensures IsSpace(s[i]) {
        assert s[..a][i] == s[i];
      }
    }
  }

  /** A string that neither starts nor ends with whitespace is its own strip. */
  lemma StripFixed(s: string)
    requires s != [] ==> !IsSpace(s[0]) && !IsSpace(s[|s| - 1])
    ensures Strip(s) == s
  {
    if s != [] {
      assert SpaceRun(s) == 0;
      assert s[0..] == s;
      assert TrailingSpaceRun(s) == 0;
    }
  }

  /** The length of the first line of `s`: the index of its first `'\n'`,
      or `|s|` when there is none. */
  function LineEnd(s: string): (k: nat)
    ensures k <= |s| && '\n' !in s[..k]
    ensures k < |s| ==> s[k] == '\n'
  {
    if s == [] || s[0] == '\n' then 0
    else
      var k := 1 + LineEnd(s[1..]);
      assert s[..k] == [s[0]] + s[1..][..k - 1];
      k
  }

  /** Python's `s.split('\n')`: never empty; `"".split('\n') == [""]`. */
  function SplitLines(s: string): (lines: seq<string>)
    ensures |lines| >= 1
    ensures forall i :: 0 <= i < |lines| ==> '\n' !in lines[i]
    decreases |s|
  {
    var k := LineEnd(s);
    if k == |s| then [s] else [s[..k]] + SplitLines(s[k + 1..])
  }

  /** Python's `'\n'.join(lines)`. */
  function JoinLines(lines: seq<string>): (s: string)
  {
    if |lines| == 0 then ""
    else if |lines| == 1 then lines[0]
    else lines[0] + "\n" + JoinLines(lines[1..])
  }

  /** Joining the pieces of a split gives the original text back. */
  lemma {:induction false} JoinSplit(s: string)
    ensures JoinLines(SplitLines(s)) == s
    decreases |s|
  {
    var k := LineEnd(s);
    if k < |s| {
      var rest := s[k + 1..];
      JoinSplit(rest);
      var tail := SplitLines(rest);
      var lines := [s[..k]] + tail;
      assert SplitLines(s) == lines;
      assert lines[0] == s[..k] && lines[1..] == tail;
      assert s == s[..k] + "\n" + rest;
    }
  }

  /** Splitting a join of newline-free lines gives those lines back. */
  lemma {:induction false} SplitJoin(lines: seq<string>)
    requires |lines| >= 1
    requires forall i :: 0 <= i < |lines| ==> '\n' !in lines[i]
    ensures SplitLines(JoinLines(lines)) == lines
  {
    var s := JoinLines(lines);
    var head := lines[0];
    if |lines| == 1 {
      NoNewlineLineEnd(head);
    } else {
      SplitJoin(lines[1..]);
      var rest := JoinLines(lines[1..]);
      assert s == head + "\n" + rest;
      LineEndOfJoin(head, rest);
      assert s[..|head|] == head;
      assert s[|head| + 1..] == rest;
    }
  }

  lemma {:induction false} NoNewlineLineEnd(s: string)
    requires '\n' !in s
    ensures LineEnd(s) == |s|
  {
    if s != [] {
      assert s[0] != '\n' by { assert s[0] in s; }
      assert forall c :: c in s[1..] ==> c in s;
      NoNewlineLineEnd(s[1..]);
    }
  }

  lemma {:induction false} LineEndOfJoin(head: string, rest: string)
    requires '\n' !in head
    ensures LineEnd(head + "\n" + rest) == |head|
  {
    var s := head + "\n" + rest;
    if head != [] {
      assert head[0] in head;
      assert s[0] == head[0];
      assert forall c :: c in head[1..] ==> c in head;
      LineEndOfJoin(head[1..], rest);
      assert s[1..] == head[1..] + "\n" + rest;
    }
  }

  /** Appending one line to a non-empty join is `+ "\n" + line`. */
  lemma {:induction false} JoinLinesSnoc(lines: seq<string>, line: string)
    requires |lines| >= 1
    ensures JoinLines(lines + [line]) == JoinLines(lines) + "\n" + line
  {
    if |lines| > 1 {
      JoinLinesSnoc(lines[1..], line);
      assert (lines + [line])[1..] == lines[1..] + [line];
    }
  }
}
