/**
 * The question segmenter (`extract_questions`). The paragraphs of a document
 * are stripped, blank ones are skipped, and the rest are cut into records:
 * a record starts at every heading line and takes the non-heading lines that
 * follow it; text before the first heading forms a record numbered 0. Each
 * finished body goes through the option stripper.
 */
module Segmenter {
  import opened Text
  import opened Seqs
  import opened Options
  import opened Headings

  /** A question as the source returns it: `(question_num, body)`. */
  datatype Question = Question(number: nat, body: string)

  /** A stripped non-blank line together with what the heading expression
      made of it (the source's `match`). */
  datatype Line = Line(text: string, heading: HeadingKind)

  /** A record before option stripping: its number and its lines. */
  datatype Record = Record(number: nat, lines: seq<Line>)

  /** The stripped, non-blank paragraphs, in document order. */
  function TrimmedLines(paragraphs: seq<string>): (ls: seq<string>)
    ensures |ls| <= |paragraphs|
  {
    if paragraphs == [] then []
    else
      var t := Strip(paragraphs[|paragraphs| - 1]);
      TrimmedLines(paragraphs[..|paragraphs| - 1]) + (if t == [] then [] else [t])
  }

  /** Every kept line is non-blank and already stripped. */
  lemma {:induction false} TrimmedLinesSpec(paragraphs: seq<string>)
    ensures forall i :: 0 <= i < |TrimmedLines(paragraphs)| ==>
      TrimmedLines(paragraphs)[i] != [] && Strip(TrimmedLines(paragraphs)[i]) == TrimmedLines(paragraphs)[i]
  {
    if paragraphs != [] {
      var front := TrimmedLines(paragraphs[..|paragraphs| - 1]);
      var t := Strip(paragraphs[|paragraphs| - 1]);
      TrimmedLinesSpec(paragraphs[..|paragraphs| - 1]);
      StripIdempotent(paragraphs[|paragraphs| - 1]);
      var ls := front + (if t == [] then [] else [t]);
      assert TrimmedLines(paragraphs) == ls;
      forall i | 0 <= i < |ls| ensures ls[i] != [] && Strip(ls[i]) == ls[i] {
        if i < |front| {
          assert ls[i] == front[i];
          assert front[i] != [] && Strip(front[i]) == front[i];
        } else {
          assert ls[i] == t;
        }
      }
    }
  }

  lemma StripIdempotent(s: string)
    ensures Strip(Strip(s)) == Strip(s)
  {
    StripSpec(s);
    StripFixed(Strip(s));
  }

  /** Each line together with what the heading expression makes of it. */
  function Classify(ls: seq<string>): (cl: seq<Line>)
    ensures |cl| == |ls|
  {
    if ls == [] then [] else Classify(ls[..|ls| - 1]) + [Line(ls[|ls| - 1], MatchHeading(ls[|ls| - 1]))]
  }

  lemma {:induction false} ClassifyAll(ls: seq<string>)
    ensures forall i :: 0 <= i < |ls| ==> Classify(ls)[i] == Line(ls[i], MatchHeading(ls[i]))
  {
    if ls != [] {
      var front := ls[..|ls| - 1];
      ClassifyAll(front);
      assert forall i :: 0 <= i < |front| ==> ls[i] == front[i];
    }
  }

  function Texts(lines: seq<Line>): (ts: seq<string>)
    ensures |ts| == |lines|
    ensures forall i :: 0 <= i < |lines| ==> ts[i] == lines[i].text
  {
    seq(|lines|, i requires 0 <= i < |lines| => lines[i].text)
  }

  predicate IsHead(l: Line) {
    l.heading != NoMatch
  }

  /** The number of leading lines that are not headings. */
  function LeadRun(ls: seq<Line>): (k: nat)
    ensures k <= |ls|
  {
    if ls == [] || IsHead(ls[0]) then 0 else 1 + LeadRun(ls[1..])
  }

  lemma {:induction false} LeadRunSpec(ls: seq<Line>)
    ensures forall j :: 0 <= j < LeadRun(ls) ==> !IsHead(ls[j])
    ensures LeadRun(ls) < |ls| ==> IsHead(ls[LeadRun(ls)])
  {
    if ls != [] && !IsHead(ls[0]) {
      LeadRunSpec(ls[1..]);
      assert forall j :: 1 <= j < |ls| ==> ls[j] == ls[1..][j - 1];
    }
  }

  /** The records of a classified line sequence: each runs from its first
      line up to, and not including, the next heading. Its number is the
      first line's heading number, or the initial `question_num = 0` when it
      does not start at a heading. */
  function Group(ls: seq<Line>): (records: seq<Record>)
    ensures |records| <= |ls|
    ensures ls != [] ==> records != []
    decreases |ls|
  {
    if ls == [] then []
    else
      var k := 1 + LeadRun(ls[1..]);
      [Record(HeadingNumber(ls[0].heading), ls[..k])] + Group(ls[k..])
  }

  function ToQuestion(r: Record): Question {
    Question(r.number, StripOptions(JoinLines(Texts(r.lines))))
  }

  function Finish(records: seq<Record>): (qs: seq<Question>)
    ensures |qs| == |records|
  {
    if records == [] then [] else Finish(records[..|records| - 1]) + [ToQuestion(records[|records| - 1])]
  }

  /** `extract_questions` on the paragraphs of a document. */
  function Segment(paragraphs: seq<string>): seq<Question> {
    Finish(Group(Classify(TrimmedLines(paragraphs))))
  }

  /** All the lines of the records, one record after the other. */
  function Flatten(records: seq<Record>): seq<Line> {
    if records == [] then [] else records[0].lines + Flatten(records[1..])
  }

  lemma {:induction false} LeadRunSnoc(ls: seq<Line>, x: Line)
    ensures LeadRun(ls + [x]) ==
      if LeadRun(ls) < |ls| then LeadRun(ls)
      else if IsHead(x) then |ls| else |ls| + 1
  {
    if ls != [] {
      assert (ls + [x])[0] == ls[0];
      assert (ls + [x])[1..] == ls[1..] + [x];
      if !IsHead(ls[0]) {
        LeadRunSnoc(ls[1..], x);
      }
    } else {
      assert [] + [x] == [x];
      assert [x][1..] == [];
    }
  }

  /** The last record of `g` with one more line. */
  function Extend(g: seq<Record>, x: Line): (r: seq<Record>)
    requires g != []
  {
    g[..|g| - 1] + [Record(g[|g| - 1].number, g[|g| - 1].lines + [x])]
  }

  lemma GroupOne(x: Line)
    ensures Group([x]) == [Record(HeadingNumber(x.heading), [x])]
  {
    assert [x][1..] == [];
    assert [x][..1] == [x];
  }

  /** The steps the loop takes: one more line opens a new record when it is
      a heading or the very first line (`GroupSnocNew`), and otherwise
      extends the last record (`GroupSnocExtend`). */
  lemma {:induction false} GroupSnocNew(ls: seq<Line>, x: Line)
    requires ls == [] || IsHead(x)
    ensures Group(ls + [x]) == Group(ls) + [Record(HeadingNumber(x.heading), [x])]
    decreases |ls|
  {
    if ls == [] {
      GroupOne(x);
      assert ls + [x] == [x];
    } else {
      var k := 1 + LeadRun(ls[1..]);
      var lx := ls + [x];
      assert lx[1..] == ls[1..] + [x];
      LeadRunSnoc(ls[1..], x);
      assert lx[..k] == ls[..k];
      assert lx[k..] == ls[k..] + [x];
      GroupUnfold(ls, k);
      GroupUnfold(lx, k);
      GroupSnocNew(ls[k..], x);
      var head := Record(HeadingNumber(ls[0].heading), ls[..k]);
      var last := Record(HeadingNumber(x.heading), [x]);
      AppendAssoc([head], Group(ls[k..]), [last]);
    }
  }

  lemma {:induction false} GroupSnocExtend(ls: seq<Line>, x: Line)
    requires ls != [] && !IsHead(x)
    ensures Group(ls + [x]) == Extend(Group(ls), x)
    decreases |ls|
  {
    var k := 1 + LeadRun(ls[1..]);
    if k < |ls| {
      GroupSnocExtendLater(ls, x);
    } else {
      var lx := ls + [x];
      assert lx[1..] == ls[1..] + [x];
      LeadRunSnoc(ls[1..], x);
      assert 1 + LeadRun(lx[1..]) == k + 1;
      assert lx[..k + 1] == ls + [x];
      assert lx[k + 1..] == [];
      assert ls[..k] == ls && ls[k..] == [];
    }
  }

  lemma {:induction false} GroupSnocExtendLater(ls: seq<Line>, x: Line)
    requires ls != [] && !IsHead(x) && 1 + LeadRun(ls[1..]) < |ls|
    ensures Group(ls + [x]) == Extend(Group(ls), x)
    decreases |ls|, 0
  {
    var k := 1 + LeadRun(ls[1..]);
    var lx := ls + [x];
    assert lx[1..] == ls[1..] + [x];
    LeadRunSnoc(ls[1..], x);
    assert lx[..k] == ls[..k];
    assert lx[k..] == ls[k..] + [x];
    GroupUnfold(ls, k);
    GroupUnfold(lx, k);
    GroupSnocExtend(ls[k..], x);
    ExtendCons(Record(HeadingNumber(ls[0].heading), ls[..k]), Group(ls[k..]), x);
  }

  /** One step of `Group`: the first record, then the records of the rest. */
  lemma GroupUnfold(ls: seq<Line>, k: nat)
    requires ls != [] && k == 1 + LeadRun(ls[1..])
    ensures Group(ls) == [Record(HeadingNumber(ls[0].heading), ls[..k])] + Group(ls[k..])
  {
  }

  lemma ExtendCons(head: Record, rest: seq<Record>, x: Line)
    requires rest != []
    ensures Extend([head] + rest, x) == [head] + Extend(rest, x)
  {
    assert ([head] + rest)[..|rest|] == [head] + rest[..|rest| - 1];
  }

  /** Segmentation partitions the lines: concatenating the records' lines
      gives back every non-blank line exactly once, in order. */
  lemma {:induction false} GroupPartition(ls: seq<Line>)
    ensures Flatten(Group(ls)) == ls
    decreases |ls|
  {
    if ls != [] {
      var k := 1 + LeadRun(ls[1..]);
      GroupPartition(ls[k..]);
      assert ls == ls[..k] + ls[k..];
    }
  }

  /** Shape of a record at position `i`: non-empty; it starts at a heading
      unless it is the first record; no line after its first is a heading;
      and its number is its first line's heading number (0 for no heading). */
  predicate WellShaped(r: Record, i: nat) {
    && r.lines != []
    && (i > 0 ==> IsHead(r.lines[0]))
    && (forall j :: 1 <= j < |r.lines| ==> !IsHead(r.lines[j]))
    && r.number == HeadingNumber(r.lines[0].heading)
  }

  /** A new record begins exactly at each heading line. */
  lemma {:induction false} GroupShape(ls: seq<Line>)
    ensures forall i :: 0 <= i < |Group(ls)| ==> WellShaped(Group(ls)[i], i)
    ensures ls != [] ==> Group(ls)[0].lines[0] == ls[0]
    decreases |ls|
  {
    if ls != [] {
      var k := 1 + LeadRun(ls[1..]);
      var g := Group(ls);
      GroupShape(ls[k..]);
      LeadRunSpec(ls[1..]);
      assert g == [g[0]] + Group(ls[k..]);
      assert forall j :: 1 <= j < k ==> ls[..k][j] == ls[1..][j - 1];
      assert WellShaped(g[0], 0);
      if k < |ls| {
        assert IsHead(ls[k..][0]) by { assert ls[1..][k - 1] == ls[k]; }
      }
      forall i | 1 <= i < |g| ensures WellShaped(g[i], i) {
        assert g[i] == Group(ls[k..])[i - 1];
      }
    }
  }

  lemma {:induction false} JoinLinesPrefix(ls: seq<string>)
    requires |ls| >= 1
    ensures |JoinLines(ls)| >= |ls[0]| && JoinLines(ls)[..|ls[0]|] == ls[0]
  {
    if |ls| > 1 {
      assert JoinLines(ls) == ls[0] + ("\n" + JoinLines(ls[1..]));
    }
  }

  lemma {:induction false} SplitLinesFirst(s: string)
    ensures SplitLines(s)[0] == s[..LineEnd(s)]
  {
  }

  /** A body whose first line is a heading keeps that line through the option
      stripper, so it is never empty. */
  lemma HeadingBodyNonEmpty(lines: seq<string>)
    requires |lines| >= 1 && IsHeading(lines[0])
    ensures StripOptions(JoinLines(lines)) != ""
  {
    var h := lines[0];
    var s := JoinLines(lines);
    HeadingFirstChar(h);
    JoinLinesPrefix(lines);
    assert s[0] == h[0];
    var p := SplitLines(s)[0];
    SplitLinesFirst(s);
    assert |p| >= 1 && p[0] == h[0];
    assert SpaceRun(p) == 0;
    assert p[0..] == p;
    assert Strip(p)[0] == p[0];
    assert !IsOptionLine(p);
    var pieces := SplitLines(s);
    assert pieces == [p] + pieces[1..];
    FilterAppend([p], pieces[1..], IsKeptLine);
    assert [p][1..] == [];
    var kept := KeptLines(pieces);
    assert kept[0] == p;
    JoinLinesPrefix(kept);
  }

  /** Every line of every record is one of the input lines. */
  lemma {:induction false} GroupMembers(ls: seq<Line>)
    ensures forall i, j :: 0 <= i < |Group(ls)| && 0 <= j < |Group(ls)[i].lines| ==>
      Group(ls)[i].lines[j] in ls
    decreases |ls|
  {
    if ls != [] {
      var k := 1 + LeadRun(ls[1..]);
      var g := Group(ls);
      GroupMembers(ls[k..]);
      assert g == [g[0]] + Group(ls[k..]);
      forall i, j | 0 <= i < |g| && 0 <= j < |g[i].lines| ensures g[i].lines[j] in ls {
        if i == 0 {
          assert g[0].lines[j] == ls[j];
        } else {
          assert g[i] == Group(ls[k..])[i - 1];
          assert forall y :: y in ls[k..] ==> y in ls;
        }
      }
    }
  }

  /** Every record after the first has a non-empty body, and so has the
      first when the document starts with a heading; only text before the
      first heading that consists of option lines alone can give an empty
      body (`LeadingOptionsGiveEmptyBody`). */
  lemma SegmentBodies(paragraphs: seq<string>)
    ensures var ls := TrimmedLines(paragraphs); var qs := Segment(paragraphs);
      forall i :: 0 <= i < |qs| && (i > 0 || IsHeading(ls[0])) ==> qs[i].body != ""
  {
    var ls := TrimmedLines(paragraphs);
    var cl := Classify(ls);
    var g := Group(cl);
    ClassifyAll(ls);
    GroupShape(cl);
    GroupMembers(cl);
    forall i | 0 <= i < |g| && (i > 0 || IsHeading(ls[0]))
      ensures Segment(paragraphs)[i].body != ""
    {
      var first := g[i].lines[0];
      assert first in cl;
      assert first.heading == MatchHeading(first.text);
      assert IsHead(first);
      HeadingBodyNonEmpty(Texts(g[i].lines));
      FinishIndex(g, i);
    }
  }

  /** When the document does not start with a heading, the first question
      is numbered 0 and its body is the option-stripped text of the lines
      before the first heading (`ls[..j]`). */
  lemma LeadingRecord(paragraphs: seq<string>, j: nat)
    requires TrimmedLines(paragraphs) != [] && !IsHeading(TrimmedLines(paragraphs)[0])
    requires j <= |TrimmedLines(paragraphs)|
    requires forall i :: 0 <= i < j ==> !IsHeading(TrimmedLines(paragraphs)[i])
    requires j < |TrimmedLines(paragraphs)| ==> IsHeading(TrimmedLines(paragraphs)[j])
    ensures Segment(paragraphs) != []
    ensures Segment(paragraphs)[0] == Question(0, StripOptions(JoinLines(TrimmedLines(paragraphs)[..j])))
  {
    var ls := TrimmedLines(paragraphs);
    var cl := Classify(ls);
    LeadingLines(ls, cl, j);
    var g := Group(cl);
    GroupUnfold(cl, j);
    assert g[0] == Record(0, cl[..j]);
    FinishIndex(g, 0);
  }

  /** The first record of classified lines that do not start with a heading
      runs up to the first heading line `j`, and its texts are `ls[..j]`. */
  lemma LeadingLines(ls: seq<string>, cl: seq<Line>, j: nat)
    requires cl == Classify(ls) && ls != [] && !IsHeading(ls[0])
    requires j <= |ls|
    requires forall i :: 0 <= i < j ==> !IsHeading(ls[i])
    requires j < |ls| ==> IsHeading(ls[j])
    ensures 1 <= j && j == 1 + LeadRun(cl[1..])
    ensures cl[0].heading == NoMatch
    ensures Texts(cl[..j]) == ls[..j]
  {
    ClassifyAll(ls);
    TextsOfClassified(ls, cl, j);
    var rest := cl[1..];
    forall i | 0 <= i < j - 1 ensures !IsHead(rest[i]) {
      assert rest[i] == cl[i + 1];
    }
    if j < |ls| {
      assert rest[j - 1] == cl[j];
    }
    LeadRunIs(rest, j - 1);
  }

  lemma TextsOfClassified(ls: seq<string>, cl: seq<Line>, j: nat)
    requires cl == Classify(ls) && j <= |ls|
    ensures Texts(cl[..j]) == ls[..j]
  {
    ClassifyAll(ls);
    var ts := Texts(cl[..j]);
    forall i | 0 <= i < j ensures ts[i] == ls[..j][i] {
      assert cl[..j][i] == cl[i];
    }
  }

  /** The leading run of non-heading lines ends at the first heading. */
  lemma {:induction false} LeadRunIs(xs: seq<Line>, n: nat)
    requires n <= |xs|
    requires forall i :: 0 <= i < n ==> !IsHead(xs[i])
    requires n < |xs| ==> IsHead(xs[n])
    ensures LeadRun(xs) == n
  {
    if n > 0 {
      var rest := xs[1..];
      forall i | 0 <= i < n - 1 ensures !IsHead(rest[i]) {
        assert rest[i] == xs[i + 1];
      }
      if n < |xs| {
        assert rest[n - 1] == xs[n];
      }
      LeadRunIs(rest, n - 1);
    }
  }

  /** Text before the first heading made only of option lines becomes a
      question numbered 0 with an empty body. */
  lemma LeadingOptionsGiveEmptyBody(paragraphs: seq<string>, j: nat)
    requires TrimmedLines(paragraphs) != [] && !IsHeading(TrimmedLines(paragraphs)[0])
    requires j <= |TrimmedLines(paragraphs)|
    requires forall i :: 0 <= i < j ==> !IsHeading(TrimmedLines(paragraphs)[i])
    requires j < |TrimmedLines(paragraphs)| ==> IsHeading(TrimmedLines(paragraphs)[j])
    requires forall l :: l in SplitLines(JoinLines(TrimmedLines(paragraphs)[..j])) ==> IsOptionLine(l)
    ensures Segment(paragraphs) != [] && Segment(paragraphs)[0] == Question(0, "")
  {
    var lines := SplitLines(JoinLines(TrimmedLines(paragraphs)[..j]));
    LeadingRecord(paragraphs, j);
    FilterNone(lines, IsKeptLine);
  }

  lemma FinishSnoc(records: seq<Record>, r: Record)
    ensures Finish(records + [r]) == Finish(records) + [ToQuestion(r)]
  {
    assert (records + [r])[..|records|] == records;
  }

  lemma {:induction false} FinishIndex(records: seq<Record>, i: nat)
    requires i < |records|
    ensures Finish(records)[i] == ToQuestion(records[i])
  {
    if i < |records| - 1 {
      FinishIndex(records[..|records| - 1], i);
    }
  }

  /** What the loop has built after the non-blank lines `ls`: the finished
      records `done`, then the open record numbered `num` with lines `cur`. */
  ghost predicate Accumulated(ls: seq<string>, done: seq<Record>, num: nat, cur: seq<Line>) {
    if ls == [] then done == [] && num == 0 && cur == []
    else cur != [] && cur[0].text != "" && Group(Classify(ls)) == done + [Record(num, cur)]
  }

  lemma ClassifySnoc(ls: seq<string>, text: string)
    ensures Classify(ls + [text]) == Classify(ls) + [Line(text, MatchHeading(text))]
  {
    assert (ls + [text])[..|ls|] == ls;
  }

  lemma TextsSnoc(lines: seq<Line>, x: Line)
    ensures Texts(lines + [x]) == Texts(lines) + [x.text]
  {
  }

  /** A heading line closes the open record (if any) and opens a new one. */
  lemma StepHeading(ls: seq<string>, text: string, done: seq<Record>, num: nat, cur: seq<Line>)
    requires Accumulated(ls, done, num, cur)
    requires text != "" && IsHeading(text)
    ensures Accumulated(ls + [text], if ls == [] then done else done + [Record(num, cur)],
      HeadingNumber(MatchHeading(text)), [Line(text, MatchHeading(text))])
  {
    ClassifySnoc(ls, text);
    GroupSnocNew(Classify(ls), Line(text, MatchHeading(text)));
  }

  /** Any other line extends the open record, or opens the record numbered 0
      when it is the first non-blank line. */
  lemma StepBody(ls: seq<string>, text: string, done: seq<Record>, num: nat, cur: seq<Line>)
    requires Accumulated(ls, done, num, cur)
    requires text != "" && !IsHeading(text)
    ensures Accumulated(ls + [text], done, num, cur + [Line(text, NoMatch)])
  {
    var line := Line(text, NoMatch);
    ClassifySnoc(ls, text);
    assert MatchHeading(text) == NoMatch;
    if ls == [] {
      GroupSnocNew(Classify(ls), line);
      assert Classify(ls) == [];
      assert cur + [line] == [line];
    } else {
      GroupSnocExtend(Classify(ls), line);
      assert (done + [Record(num, cur)])[..|done|] == done;
    }
  }

  /** The stripped, non-blank lines among the first `i` paragraphs: what the
      loop has seen after `i` rounds. */
  function TrimmedPrefix(paragraphs: seq<string>, i: nat): seq<string>
    requires i <= |paragraphs|
  {
    if i == 0 then []
    else
      var t := Strip(paragraphs[i - 1]);
      TrimmedPrefix(paragraphs, i - 1) + (if t == [] then [] else [t])
  }

  lemma {:induction false} TrimmedPrefixLines(paragraphs: seq<string>, i: nat)
    requires i <= |paragraphs|
    ensures TrimmedPrefix(paragraphs, i) == TrimmedLines(paragraphs[..i])
  {
    if i > 0 {
      TrimmedPrefixLines(paragraphs, i - 1);
      assert paragraphs[..i][..i - 1] == paragraphs[..i - 1];
    }
  }

  /** Appending a line to the open record's text, as the loop does with
      `current_question`. */
  lemma BodyAppend(cur: seq<Line>, line: Line, body: string)
    requires body == JoinLines(Texts(cur))
    requires body == "" <==> cur == []
    ensures JoinLines(Texts(cur + [line])) ==
      if body != "" then body + "\n" + line.text else line.text
  {
    TextsSnoc(cur, line);
    if cur != [] {
      JoinLinesSnoc(Texts(cur), line.text);
    } else {
      assert cur + [line] == [line];
    }
  }

  /** The loop's invariant after the non-blank lines `ls`: the questions
      already emitted are the finished records, and `current_question` is
      the text of the open record (empty exactly when there is none). */
  ghost predicate LoopState(ls: seq<string>, questions: seq<Question>, currentQuestion: string,
    questionNum: nat, lastIsQuestion: bool, done: seq<Record>, cur: seq<Line>)
  {
    && questions == Finish(done)
    && Accumulated(ls, done, questionNum, cur)
    && currentQuestion == JoinLines(Texts(cur))
    && (currentQuestion == "" <==> cur == [])
    && (lastIsQuestion ==> currentQuestion != "")
  }

  /** Closing the open record: what the source appends to `questions`. */
  lemma CloseRecord(questions: seq<Question>, done: seq<Record>, num: nat, cur: seq<Line>, body: string)
    requires questions == Finish(done)
    requires body == StripOptions(JoinLines(Texts(cur)))
    ensures questions + [Question(num, body)] == Finish(done + [Record(num, cur)])
  {
    FinishSnoc(done, Record(num, cur));
  }

  /** A heading line: the open record, if any, is emitted with its options
      stripped, and the heading opens the next one. */
  lemma HeadingKeeps(ls: seq<string>, questions: seq<Question>, currentQuestion: string,
    questionNum: nat, lastIsQuestion: bool, done: seq<Record>, cur: seq<Line>, text: string,
    ls': seq<string>, questions': seq<Question>, done': seq<Record>)
    requires LoopState(ls, questions, currentQuestion, questionNum, lastIsQuestion, done, cur)
    requires text != "" && IsHeading(text) && ls' == ls + [text]
    requires questions' == if currentQuestion != "" then
      questions + [Question(questionNum, StripOptions(currentQuestion))] else questions
    requires done' == if currentQuestion != "" then done + [Record(questionNum, cur)] else done
    ensures LoopState(ls', questions', text, HeadingNumber(MatchHeading(text)), true, done',
      [Line(text, MatchHeading(text))])
  {
    StepHeading(ls, text, done, questionNum, cur);
    if currentQuestion != "" {
      CloseRecord(questions, done, questionNum, cur, StripOptions(currentQuestion));
    }
    assert Texts([Line(text, MatchHeading(text))]) == [text];
  }

  /** Any other line is appended to the open record's text. */
  lemma BodyKeeps(ls: seq<string>, questions: seq<Question>, currentQuestion: string,
    questionNum: nat, lastIsQuestion: bool, done: seq<Record>, cur: seq<Line>, text: string,
    ls': seq<string>, currentQuestion': string)
    requires LoopState(ls, questions, currentQuestion, questionNum, lastIsQuestion, done, cur)
    requires text != "" && !IsHeading(text) && ls' == ls + [text]
    requires currentQuestion' == if currentQuestion != "" then currentQuestion + "\n" + text else text
    ensures LoopState(ls', questions, currentQuestion', questionNum, false, done,
      cur + [Line(text, NoMatch)])
  {
    StepBody(ls, text, done, questionNum, cur);
    BodyAppend(cur, Line(text, NoMatch), currentQuestion);
  }

  lemma LoopEnd(ls: seq<string>, questions: seq<Question>, currentQuestion: string,
    questionNum: nat, lastIsQuestion: bool, done: seq<Record>, cur: seq<Line>)
    requires LoopState(ls, questions, currentQuestion, questionNum, lastIsQuestion, done, cur)
    ensures Finish(Group(Classify(ls))) ==
      if currentQuestion != "" then questions + [Question(questionNum, StripOptions(currentQuestion))]
      else questions
  {
    if currentQuestion != "" {
      CloseRecord(questions, done, questionNum, cur, StripOptions(currentQuestion));
    } else {
      assert ls == [];
    }
  }

  /** One more paragraph: the non-blank lines grow by its stripped text,
      unless that is empty. */
  lemma TrimmedPrefixStep(paragraphs: seq<string>, i: nat, ls: seq<string>, text: string)
    requires i < |paragraphs| && ls == TrimmedPrefix(paragraphs, i) && text == Strip(paragraphs[i])
    ensures TrimmedPrefix(paragraphs, i + 1) == if text == "" then ls else ls + [text]
  {
    assert ls + [] == ls;
  }

  /** The body-line branch of the source's loop. The flag only matters when
      it is set while `current_question` is empty, which the loop never
      allows: a heading always leaves `current_question` non-empty. */
  method AppendBodyLine(currentQuestion: string, lastIsQuestion: bool, text: string)
    returns (appended: string)
    ensures !lastIsQuestion || currentQuestion != "" ==>
      appended == if currentQuestion != "" then currentQuestion + "\n" + text else text
    ensures lastIsQuestion && currentQuestion == "" ==> appended == "\n" + text
  {
    if lastIsQuestion {
      appended := currentQuestion + "\n" + text;
    } else {
      if currentQuestion != "" {
        appended := currentQuestion + "\n" + text;
      } else {
        appended := text;
      }
    }
  }

  /** The source's loop over the paragraphs. */
  method ExtractQuestions(paragraphs: seq<string>) returns (questions: seq<Question>)
    ensures questions == Segment(paragraphs)
  {
    questions := [];
    var currentQuestion := "";
    var questionNum: nat := 0;
    var lastIsQuestion := false;
    ghost var done: seq<Record> := [];
    ghost var currentLines: seq<Line> := [];
    ghost var ls: seq<string> := [];

    for i := 0 to |paragraphs|
      invariant ls == TrimmedPrefix(paragraphs, i)
      invariant LoopState(ls, questions, currentQuestion, questionNum, lastIsQuestion, done, currentLines)
    {
      ghost var q0, cq0, n0, last0, d0, c0 :=
        questions, currentQuestion, questionNum, lastIsQuestion, done, currentLines;
      var text := Strip(paragraphs[i]);
      TrimmedPrefixStep(paragraphs, i, ls, text);
      if text == "" {
        continue;
      }
      var m := MatchHeading(text);
      if m != NoMatch {
        if currentQuestion != "" {
          var body := RemoveOptions(currentQuestion);
          questions := questions + [Question(questionNum, body)];
          done := done + [Record(questionNum, currentLines)];
        }
        questionNum := HeadingNumber(m);
        currentQuestion := text;
        currentLines := [Line(text, m)];
        lastIsQuestion := true;
        HeadingKeeps(ls, q0, cq0, n0, last0, d0, c0, text, ls + [text], questions, done);
      } else {
        currentQuestion := AppendBodyLine(currentQuestion, lastIsQuestion, text);
        currentLines := currentLines + [Line(text, m)];
        lastIsQuestion := false;
        BodyKeeps(ls, q0, cq0, n0, last0, d0, c0, text, ls + [text], currentQuestion);
      }
      ls := ls + [text];
    }
    TrimmedPrefixLines(paragraphs, |paragraphs|);
    assert paragraphs[..|paragraphs|] == paragraphs;
    LoopEnd(ls, questions, currentQuestion, questionNum, lastIsQuestion, done, currentLines);
    if currentQuestion != "" {
      var body := RemoveOptions(currentQuestion);
      questions := questions + [Question(questionNum, body)];
    }
  }
}
