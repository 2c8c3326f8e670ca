/**
 * The similarity score (`calculate_similarity`): both texts are stripped,
 * every whitespace run is replaced by one space, and the two normalised
 * texts are handed to `difflib.SequenceMatcher(None, a, b).ratio()`. The
 * ratio is not modelled; it is a parameter of the score.
 */
module Similarity {
  import opened Text

  /** `re.sub(r'\s+', ' ', s)`: every maximal whitespace run becomes one
      space; every other character is kept. */
  function Collapse(s: string): (r: string)
    ensures |r| <= |s|
    decreases |s|
  {
    if s == [] then []
    else if IsSpace(s[0]) then [' '] + Collapse(s[SpaceRun(s)..])
    else [s[0]] + Collapse(s[1..])
  }

  /** The text the ratio sees: `re.sub(r'\s+', ' ', s.strip())`. */
  function Normalize(s: string): string {
    Collapse(Strip(s))
  }

  /** The only whitespace character is `' '`, and no two whitespace
      characters are adjacent. */
  predicate SingleSpaced(s: string) {
    && (forall i :: 0 <= i < |s| && IsSpace(s[i]) ==> s[i] == ' ')
    && (forall i :: 0 <= i < |s| - 1 && IsSpace(s[i]) ==> !IsSpace(s[i + 1]))
  }

  /** No leading and no trailing whitespace. */
  predicate Trimmed(s: string) {
    s != [] ==> !IsSpace(s[0]) && !IsSpace(s[|s| - 1])
  }

  /** The result of `Collapse` is single-spaced, empty exactly when its input
      is, and starts (ends) with a space exactly when its input starts (ends)
      with whitespace. */
  lemma {:induction false} CollapseShape(s: string)
    ensures SingleSpaced(Collapse(s))
    ensures Collapse(s) == [] <==> s == []
    ensures s != [] ==> (IsSpace(Collapse(s)[0]) <==> IsSpace(s[0]))
    ensures s != [] ==> (IsSpace(Collapse(s)[|Collapse(s)| - 1]) <==> IsSpace(s[|s| - 1]))
    decreases |s|
  {
    if s != [] {
      var r := Collapse(s);
      if IsSpace(s[0]) {
        var a := SpaceRun(s);
        var t := s[a..];
        CollapseShape(t);
        var ct := Collapse(t);
        assert r == [' '] + ct;
        if t != [] {
          assert !IsSpace(t[0]);
          assert t[|t| - 1] == s[|s| - 1];
        } else {
          assert AllSpace(s[..a]) && s[..a] == s;
          assert IsSpace(s[..a][|s| - 1]);
        }
        forall i | 0 <= i < |r| - 1 && IsSpace(r[i]) ensures !IsSpace(r[i + 1]) {
          if i > 0 {
            assert r[i] == ct[i - 1] && r[i + 1] == ct[i];
          }
        }
        forall i | 0 <= i < |r| && IsSpace(r[i]) ensures r[i] == ' ' {
          if i > 0 {
            assert r[i] == ct[i - 1];
          }
        }
      } else {
        var t := s[1..];
        CollapseShape(t);
        var ct := Collapse(t);
        assert r == [s[0]] + ct;
        if t != [] {
          assert t[|t| - 1] == s[|s| - 1];
        }
        forall i | 0 <= i < |r| - 1 && IsSpace(r[i]) ensures !IsSpace(r[i + 1]) {
          assert r[i] == ct[i - 1];
          assert r[i + 1] == ct[i];
        }
        forall i | 0 <= i < |r| && IsSpace(r[i]) ensures r[i] == ' ' {
          assert r[i] == ct[i - 1];
        }
      }
    }
  }

  /** A single-spaced text is left alone by `Collapse`. */
  lemma {:induction false} CollapseFixed(s: string)
    requires SingleSpaced(s)
    ensures Collapse(s) == s
    decreases |s|
  {
    if s != [] {
      var t := s[1..];
      assert SingleSpaced(t) by {
        forall i | 0 <= i < |t| - 1 && IsSpace(t[i]) ensures !IsSpace(t[i + 1]) {
          assert t[i] == s[i + 1] && t[i + 1] == s[i + 2];
        }
      }
      if IsSpace(s[0]) {
        assert SpaceRun(s) == 1 by {
          if |s| > 1 {
            assert !IsSpace(s[1]);
            assert SpaceRun(s[1..]) == 0;
          }
        }
      }
      CollapseFixed(t);
    }
  }

  /** What the normalisation promises: no leading or trailing whitespace, no
      whitespace other than single spaces, and the text is empty exactly when
      the input is all whitespace. */
  lemma NormalizeShape(s: string)
    ensures SingleSpaced(Normalize(s)) && Trimmed(Normalize(s))
    ensures Normalize(s) == [] <==> AllSpace(s)
  {
    StripSpec(s);
    CollapseShape(Strip(s));
  }

  /** Normalising twice is normalising once. */
  lemma NormalizeIdempotent(s: string)
    ensures Normalize(Normalize(s)) == Normalize(s)
  {
    NormalizeShape(s);
    StripFixed(Normalize(s));
    CollapseFixed(Normalize(s));
  }

  /** Number of leading characters of `s` that are not whitespace. */
  function WordRun(s: string): (k: nat)
    ensures k <= |s|
    ensures k < |s| ==> IsSpace(s[k])
  {
    if s != [] && !IsSpace(s[0]) then 1 + WordRun(s[1..]) else 0
  }

  /** No character of the leading word is whitespace. */
  lemma {:induction false} WordRunAll(s: string)
    ensures forall i :: 0 <= i < WordRun(s) ==> !IsSpace(s[i])
  {
    if s != [] && !IsSpace(s[0]) {
      WordRunAll(s[1..]);
      assert forall i :: 1 <= i < WordRun(s) ==> s[i] == s[1..][i - 1];
    }
  }

  /** Python's `s.split()`: the maximal runs of non-whitespace characters. */
  function Words(s: string): (ws: seq<string>)
    decreases |s|
  {
    var a := SpaceRun(s);
    if a == |s| then []
    else
      var r := s[a..];
      assert r[0] == s[a];
      var k := WordRun(r);
      [r[..k]] + Words(r[k..])
  }

  /** `' '.join(ws)`. */
  function JoinWords(ws: seq<string>): string {
    if |ws| == 0 then ""
    else if |ws| == 1 then ws[0]
    else ws[0] + " " + JoinWords(ws[1..])
  }

  /** `Collapse` keeps the leading word as it is. */
  lemma {:induction false} CollapseLeadingWord(t: string)
    ensures Collapse(t) == t[..WordRun(t)] + Collapse(t[WordRun(t)..])
  {
    if t != [] && !IsSpace(t[0]) {
      var k := WordRun(t);
      CollapseLeadingWord(t[1..]);
      assert t[..k] == [t[0]] + t[1..][..k - 1];
      assert t[k..] == t[1..][k - 1..];
    } else {
      assert t[..0] == [] && t[0..] == t;
    }
  }

  /** The leading run is exactly `n` long when `s[..n]` is whitespace and
      `s[n]` is not. */
  lemma SpaceRunExact(s: string, n: nat)
    requires n <= |s| && AllSpace(s[..n]) && (n < |s| ==> !IsSpace(s[n]))
    ensures SpaceRun(s) == n
  {
    SpaceRunCovers(s, n);
    SpaceRunAll(s);
  }

  lemma WordsSkipSpaces(s: string, a: nat)
    requires a == SpaceRun(s)
    ensures Words(s) == Words(s[a..])
  {
    var r := s[a..];
    if r != [] {
      SpaceRunExact(r, 0);
      assert r[0..] == r;
    }
  }

  /** On a trimmed text, collapsing is joining its words with single spaces. */
  lemma {:induction false} CollapseTrimmed(t: string)
    requires Trimmed(t)
    ensures Collapse(t) == JoinWords(Words(t))
    decreases |t|, 1
  {
    if t != [] {
      assert SpaceRun(t) == 0;
      assert t[0..] == t;
      var k := WordRun(t);
      if k == |t| {
        CollapseLeadingWord(t);
        assert t[..k] == t && t[k..] == [];
        assert Words(t) == [t];
      } else {
        CollapseTrimmedLater(t);
      }
    }
  }

  /** The step of `CollapseTrimmed` for a text of more than one word. */
  lemma {:induction false} CollapseTrimmedLater(t: string)
    requires Trimmed(t) && t != [] && WordRun(t) < |t|
    ensures Collapse(t) == JoinWords(Words(t))
    decreases |t|, 0
  {
    var k := WordRun(t);
    var j := SpaceRun(t[k..]);
    SplitFirstWord(t, k, j);
    var u := t[k + j..];
    var w := t[..k];
    CollapseTrimmed(u);
    JoinWordsCons(w, Words(u));
    calc {
      Collapse(t);
      w + " " + Collapse(u);
      w + " " + JoinWords(Words(u));
      JoinWords([w] + Words(u));
      JoinWords(Words(t));
    }
  }

  /** A trimmed text of more than one word is its first word `t[..k]`, one
      run of whitespace `t[k..k + j]`, and a shorter trimmed text, both for
      `Collapse` and for `Words`. */
  lemma SplitFirstWord(t: string, k: nat, j: nat)
    requires Trimmed(t) && t != [] && k == WordRun(t) < |t|
    requires j == SpaceRun(t[k..])
    ensures 0 < k && 0 < j && k + j < |t|
    ensures Trimmed(t[k + j..]) && Words(t[k + j..]) != []
    ensures Collapse(t) == t[..k] + " " + Collapse(t[k + j..])
    ensures Words(t) == [t[..k]] + Words(t[k + j..])
  {
    FirstWordBounds(t, k, j);
    CollapseFirstWord(t, k, j);
    WordsFirstWord(t, k, j);
  }

  lemma FirstWordBounds(t: string, k: nat, j: nat)
    requires Trimmed(t) && t != [] && k == WordRun(t) < |t|
    requires j == SpaceRun(t[k..])
    ensures 0 < k && 0 < j && k + j < |t|
    ensures Trimmed(t[k + j..])
  {
    var rest := t[k..];
    assert rest[|rest| - 1] == t[|t| - 1];
    assert rest[0] == t[k];
    SpaceRunAll(rest);
    assert j < |rest|;
    assert t[k + j..][0] == rest[j];
    assert t[k + j..][|t| - k - j - 1] == t[|t| - 1];
  }

  lemma CollapseFirstWord(t: string, k: nat, j: nat)
    requires 0 < k && 0 < j && k + j < |t|
    requires k == WordRun(t) && j == SpaceRun(t[k..])
    ensures Collapse(t) == t[..k] + " " + Collapse(t[k + j..])
  {
    var rest := t[k..];
    CollapseLeadingWord(t);
    CollapseSpaceHead(rest);
    assert rest[j..] == t[k + j..];
  }

  lemma CollapseSpaceHead(s: string)
    requires s != [] && IsSpace(s[0])
    ensures Collapse(s) == " " + Collapse(s[SpaceRun(s)..])
  {
  }

  lemma WordsFirstWord(t: string, k: nat, j: nat)
    requires Trimmed(t) && 0 < k && 0 < j && k + j < |t|
    requires k == WordRun(t) && j == SpaceRun(t[k..]) && Trimmed(t[k + j..])
    ensures Words(t) == [t[..k]] + Words(t[k + j..])
    ensures Words(t[k + j..]) != []
  {
    var u := t[k + j..];
    WordsHead(t, k);
    WordsSkipSpaces(t[k..], j);
    assert t[k..][j..] == u;
    WordsHead(u, WordRun(u));
  }

  /** A text starting with a non-whitespace character: its first word, then
      the words of what follows it. */
  lemma WordsHead(s: string, k: nat)
    requires s != [] && !IsSpace(s[0]) && k == WordRun(s)
    ensures k <= |s| && Words(s) == [s[..k]] + Words(s[k..])
  {
    assert SpaceRun(s) == 0;
    assert s[0..] == s;
  }

  lemma JoinWordsCons(w: string, ws: seq<string>)
    requires ws != []
    ensures JoinWords([w] + ws) == w + " " + JoinWords(ws)
  {
    assert ([w] + ws)[1..] == ws;
  }

  lemma {:induction false} WordRunAppend(y: string, x: string)
    requires WordRun(y) < |y| || x == [] || IsSpace(x[0])
    ensures WordRun(y + x) == WordRun(y)
  {
    if y != [] && !IsSpace(y[0]) {
      assert (y + x)[1..] == y[1..] + x;
      WordRunAppend(y[1..], x);
    } else if y == [] {
      assert y + x == x;
    }
  }

  lemma {:induction false} SpaceRunAppend(y: string, x: string)
    requires SpaceRun(y) < |y|
    ensures SpaceRun(y + x) == SpaceRun(y)
  {
    if IsSpace(y[0]) {
      assert (y + x)[1..] == y[1..] + x;
      SpaceRunAppend(y[1..], x);
    }
  }

  lemma AllSpaceWords(x: string)
    requires AllSpace(x)
    ensures Words(x) == []
  {
    assert x[..|x|] == x;
    SpaceRunCovers(x, |x|);
  }

  /** Trailing whitespace adds no word. */
  lemma {:induction false} WordsDropTrailing(t: string, x: string)
    requires AllSpace(x)
    ensures Words(t + x) == Words(t)
    decreases |t|
  {
    var a := SpaceRun(t);
    if a == |t| {
      AllSpaceAppend(t, x);
    } else {
      var k := WordRun(t[a..]);
      WordsDropStep(t, x, a, k);
      WordsDropTrailing(t[a + k..], x);
    }
  }

  /** The first word of `t + x` is the first word of `t` when `t` has one. */
  lemma WordsDropStep(t: string, x: string, a: nat, k: nat)
    requires AllSpace(x) && a == SpaceRun(t) < |t| && k == WordRun(t[a..])
    ensures a + k <= |t| && |t[a + k..]| < |t|
    ensures Words(t) == [t[a..][..k]] + Words(t[a + k..])
    ensures Words(t + x) == [t[a..][..k]] + Words(t[a + k..] + x)
  {
    var r := t[a..];
    SkipSpacesAppend(t, x, a);
    WordsSkipSpaces(t, a);
    WordsHead(r, k);
    WordsHeadAppend(r, x, k);
    assert r[k..] == t[a + k..];
  }

  lemma SkipSpacesAppend(t: string, x: string, a: nat)
    requires a == SpaceRun(t) < |t|
    ensures Words(t + x) == Words(t[a..] + x)
  {
    SpaceRunAppend(t, x);
    WordsSkipSpaces(t + x, a);
    assert (t + x)[a..] == t[a..] + x;
  }

  lemma WordsHeadAppend(r: string, x: string, k: nat)
    requires AllSpace(x) && r != [] && !IsSpace(r[0]) && k == WordRun(r)
    ensures Words(r + x) == [r[..k]] + Words(r[k..] + x)
  {
    WordRunAppend(r, x);
    assert (r + x)[0] == r[0];
    WordsHead(r + x, k);
    SliceAppend(r, x, k);
  }

  lemma SliceAppend(r: string, x: string, k: nat)
    requires k <= |r|
    ensures (r + x)[..k] == r[..k] && (r + x)[k..] == r[k..] + x
  {
  }

  lemma AllSpaceAppend(t: string, x: string)
    requires SpaceRun(t) == |t| && AllSpace(x)
    ensures Words(t + x) == Words(t) == []
  {
    assert t[..|t|] == t;
    assert AllSpace(t + x);
    AllSpaceWords(t + x);
    AllSpaceWords(t);
  }

  /** A leading whitespace character adds no word. */
  lemma WordsDropSpace(s: string)
    requires s != [] && IsSpace(s[0])
    ensures Words(s) == Words(s[1..])
  {
    var b := SpaceRun(s[1..]);
    assert SpaceRun(s) == 1 + b;
    assert s[1 + b..] == s[1..][b..];
  }

  /** Leading whitespace adds no word. */
  lemma {:induction false} DropLeading(s: string, a: nat)
    requires a <= |s| && AllSpace(s[..a])
    ensures Words(s) == Words(s[a..])
  {
    if a > 0 {
      assert IsSpace(s[..a][0]);
      WordsDropSpace(s);
      assert s[1..][..a - 1] == s[..a][1..];
      DropLeading(s[1..], a - 1);
      assert s[1..][a - 1..] == s[a..];
    } else {
      assert s[a..] == s;
    }
  }

  /** The normalisation is an independent reading of `split` and `join`:
      `re.sub(r'\s+', ' ', s.strip()) == ' '.join(s.split())`. */
  lemma NormalizeIsJoinWords(s: string)
    ensures Normalize(s) == JoinWords(Words(s))
  {
    StripSpec(s);
    var core := Strip(s);
    CollapseTrimmed(core);
    WordsOfStrip(s);
  }

  /** Stripping adds and removes no word. */
  lemma WordsOfStrip(s: string)
    ensures Words(Strip(s)) == Words(s)
  {
    var a := SpaceRun(s);
    var rest := s[a..];
    var e := TrailingSpaceRun(rest);
    DropLeading(s, a);
    WordsOfTrimEnd(rest, rest[..|rest| - e], rest[|rest| - e..]);
  }

  /** Dropping trailing whitespace adds and removes no word. */
  lemma WordsOfTrimEnd(t: string, core: string, tail: string)
    requires core + tail == t && AllSpace(tail)
    ensures Words(core) == Words(t)
  {
    WordsDropTrailing(core, tail);
  }

  /** The score depends on the texts only through their words: changing the
      amount or kind of whitespace between, before or after them changes
      nothing. */
  lemma NormalizeIgnoresSpacing(s: string, t: string)
    requires Words(s) == Words(t)
    ensures Normalize(s) == Normalize(t)
  {
    NormalizeIsJoinWords(s);
    NormalizeIsJoinWords(t);
  }

  /** `calculate_similarity(text1, text2)` with `ratio` standing for
      `difflib.SequenceMatcher(None, a, b).ratio()`. */
  function Score(ratio: (string, string) -> real, text1: string, text2: string): real {
    ratio(Normalize(text1), Normalize(text2))
  }

  /** Texts with the same words get the same score against anything. */
  lemma ScoreIgnoresSpacing(ratio: (string, string) -> real, a1: string, a2: string, b1: string, b2: string)
    requires Words(a1) == Words(a2) && Words(b1) == Words(b2)
    ensures Score(ratio, a1, b1) == Score(ratio, a2, b2)
  {
    NormalizeIgnoresSpacing(a1, a2);
    NormalizeIgnoresSpacing(b1, b2);
  }

  /** Two texts that differ only in whitespace score 1.0 whenever the ratio
      scores their common normal form 1.0 against itself. */
  lemma SameWordsScoreOne(ratio: (string, string) -> real, a: string, b: string)
    requires Words(a) == Words(b)
    requires ratio(Normalize(a), Normalize(a)) == 1.0
    ensures Score(ratio, a, b) == 1.0
  {
    NormalizeIgnoresSpacing(a, b);
  }
}
