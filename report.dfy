/**
 * The text report (`create_report`): a banner, the summary totals, then one
 * numbered section per comparison listing its duplicate and similar pairs,
 * with question texts cut to 120 and 60 characters.
 */
module Report {
  import opened Text
  import opened Seqs
  import opened Comparator

  /** `c * n` for a one-character string `c`. */
  function Repeat(c: char, n: nat): (s: string)
    ensures |s| == n
  {
    if n == 0 then [] else Repeat(c, n - 1) + [c]
  }

  function Min(a: nat, b: nat): nat {
    if a < b then a else b
  }

  /** `f(1, xs[0]) + f(2, xs[1]) + ...`: a text made of one numbered piece
      per item, in order. */
  function Numbered<T>(f: (nat, T) -> string, xs: seq<T>): string {
    if xs == [] then "" else Numbered(f, xs[..|xs| - 1]) + f(|xs|, xs[|xs| - 1])
  }

  lemma NumberedStep<T>(f: (nat, T) -> string, xs: seq<T>, i: nat)
    requires i < |xs|
    ensures Numbered(f, xs[..i + 1]) == Numbered(f, xs[..i]) + f(i + 1, xs[i])
  {
    assert xs[..i + 1][..i] == xs[..i];
  }

  /** The pieces for a prefix of the items open the text for all of them. */
  lemma {:induction false} NumberedPrefix<T>(f: (nat, T) -> string, xs: seq<T>, m: nat)
    requires m <= |xs|
    ensures |Numbered(f, xs[..m])| <= |Numbered(f, xs)|
    ensures Numbered(f, xs)[..|Numbered(f, xs[..m])|] == Numbered(f, xs[..m])
    decreases |xs| - m
  {
    if m < |xs| {
      NumberedPrefix(f, xs, m + 1);
      NumberedStep(f, xs, m);
      var a := Numbered(f, xs[..m]);
      var b := Numbered(f, xs[..m + 1]);
      var all := Numbered(f, xs);
      assert b[..|a|] == a;
      assert all[..|a|] == all[..|b|][..|a|];
    } else {
      assert xs[..m] == xs;
    }
  }

  /** After the pieces for the first `i` items comes the piece for item `i`,
      numbered `i + 1`. */
  lemma NumberedAt<T>(f: (nat, T) -> string, xs: seq<T>, i: nat, before: string, here: string)
    requires i < |xs| && before == Numbered(f, xs[..i]) && here == f(i + 1, xs[i])
    ensures |before| + |here| <= |Numbered(f, xs)|
    ensures Numbered(f, xs)[..|before| + |here|] == before + here
  {
    NumberedPrefix(f, xs, i + 1);
    NumberedStep(f, xs, i);
  }

  /** `s[:n]` followed by `...` when `s` is longer than `n`. */
  function Truncate(s: string, n: nat): string {
    s[..Min(n, |s|)] + (if |s| > n then "..." else "")
  }

  /** A text no longer than the bound is shown whole; a longer one is shown
      as its first `n` characters and an ellipsis. */
  lemma TruncateSpec(s: string, n: nat)
    ensures |s| <= n ==> Truncate(s, n) == s
    ensures |s| > n ==> |Truncate(s, n)| == n + 3 && Truncate(s, n)[..n] == s[..n] && Truncate(s, n)[n..] == "..."
    ensures |Truncate(s, n)| <= n + 3
  {
    if |s| <= n {
      assert s[..|s|] == s;
    } else {
      assert (s[..n] + "...")[..n] == s[..n];
    }
  }

  /** `sum(r['dup_count'] for r in results)`. */
  function TotalDup(results: seq<Comparison>): nat {
    if results == [] then 0 else TotalDup(results[..|results| - 1]) + results[|results| - 1].dupCount
  }

  /** `sum(r['sim_count'] for r in results)`. */
  function TotalSim(results: seq<Comparison>): nat {
    if results == [] then 0 else TotalSim(results[..|results| - 1]) + results[|results| - 1].simCount
  }

  /** The number of duplicate and of similar lines the sections list. */
  function ListedDups(results: seq<Comparison>): nat {
    if results == [] then 0 else ListedDups(results[..|results| - 1]) + |results[|results| - 1].duplicates|
  }

  function ListedSims(results: seq<Comparison>): nat {
    if results == [] then 0 else ListedSims(results[..|results| - 1]) + |results[|results| - 1].similar|
  }

  /** The banner and the summary. */
  function Header(results: seq<Comparison>): string {
    Repeat('=', 80) + "\n" + "试卷题目查重报告\n" + (Repeat('=', 80) + "\n\n")
    + "【汇总统计】\n"
    + ("比较试卷对数: " + NatToString(|results|) + "\n")
    + ("完全重复题目总数: " + NatToString(TotalDup(results)) + "\n")
    + ("高度相似题目总数: " + NatToString(TotalSim(results)) + "\n\n")
  }

  /** The two lines listing one duplicate pair. */
  function DupLine(file1: string, file2: string, d: Duplicate): string {
    ("├─ " + file1 + " 第" + NatToString(d.num1) + "题 ←→ " + file2 + " 第" + NatToString(d.num2) + "题\n")
    + ("│  题目内容: " + Truncate(d.text, 120) + "\n")
  }

  function DupLineFn(file1: string, file2: string): (nat, Duplicate) -> string {
    (k: nat, d: Duplicate) => DupLine(file1, file2, d)
  }

  function DupLines(file1: string, file2: string, ds: seq<Duplicate>): string {
    Numbered(DupLineFn(file1, file2), ds)
  }

  /** The three lines listing one similar pair; `percent` renders a score
      as `:.2%` does. */
  function SimLine(file1: string, file2: string, s: Similar, percent: real -> string): string {
    ("├─ " + file1 + " 第" + NatToString(s.num1) + "题 ←→ " + file2 + " 第" + NatToString(s.num2)
     + "题 (相似度: " + percent(s.score) + ")\n")
    + ("│  " + file1 + "题目: " + Truncate(s.text1, 60) + "\n")
    + ("│  " + file2 + "题目: " + Truncate(s.text2, 60) + "\n")
  }

  function SimLineFn(file1: string, file2: string, percent: real -> string): (nat, Similar) -> string {
    (k: nat, s: Similar) => SimLine(file1, file2, s, percent)
  }

  function SimLines(file1: string, file2: string, ss: seq<Similar>, percent: real -> string): string {
    Numbered(SimLineFn(file1, file2, percent), ss)
  }

  /** The label opening the `k`-th section. */
  function Label(k: nat): string {
    "【比较组 " + NatToString(k) + "】\n"
  }

  /** The fixed lines after the label: files, counts and rates;
      `ratePercent` renders a rate as `:.2%` does. */
  function SectionHead(r: Comparison, ratePercent: Fraction -> string): string {
    ("对比文件1: " + r.file1 + " (共" + NatToString(r.total1) + "题)\n")
    + ("对比文件2: " + r.file2 + " (共" + NatToString(r.total2) + "题)\n")
    + (Repeat('-', 60) + "\n")
    + ("完全重复题目数量: " + NatToString(r.dupCount) + " (重复率: " + ratePercent(r.dupRate) + ")\n")
    + ("高度相似题目数量: " + NatToString(r.simCount) + " (相似率: " + ratePercent(r.simRate) + ")\n")
  }

  function DupPart(r: Comparison): string {
    if r.duplicates != [] then "\n◆ 完全重复题目:\n" + DupLines(r.file1, r.file2, r.duplicates) else ""
  }

  function SimPart(r: Comparison, percent: real -> string): string {
    if r.similar != [] then "\n◆ 高度相似题目(相似度>90%):\n" + SimLines(r.file1, r.file2, r.similar, percent) else ""
  }

  /** Everything of a section after its label. */
  function SectionBody(r: Comparison, ratePercent: Fraction -> string, percent: real -> string): string {
    SectionHead(r, ratePercent) + DupPart(r) + SimPart(r, percent) + ("\n" + Repeat('=', 80) + "\n\n")
  }

  /** The `k`-th section, for the comparison `r`. */
  function Section(k: nat, r: Comparison, ratePercent: Fraction -> string, percent: real -> string): string {
    Label(k) + SectionBody(r, ratePercent, percent)
  }

  function SectionFn(ratePercent: Fraction -> string, percent: real -> string): (nat, Comparison) -> string {
    (k: nat, r: Comparison) => Section(k, r, ratePercent, percent)
  }

  /** The sections for `results`, numbered from 1 in order. */
  function Sections(results: seq<Comparison>, ratePercent: Fraction -> string, percent: real -> string): string {
    Numbered(SectionFn(ratePercent, percent), results)
  }

  /** `create_report(results)`. */
  function ReportText(results: seq<Comparison>, ratePercent: Fraction -> string, percent: real -> string): string {
    Header(results) + Sections(results, ratePercent, percent)
  }

  /** Sections are numbered from 1 in result order: after the first `k`
      sections comes the section labelled `k + 1`, which reports the
      `k`-th result (counting from 0). */
  lemma SectionsNumbered(results: seq<Comparison>, k: nat, before: string, here: string,
    ratePercent: Fraction -> string, percent: real -> string)
    requires k < |results|
    requires before == Sections(results[..k], ratePercent, percent)
    requires here == Section(k + 1, results[k], ratePercent, percent)
    ensures |before| + |here| <= |Sections(results, ratePercent, percent)|
    ensures Sections(results, ratePercent, percent)[..|before| + |here|] == before + here
  {
    var f := SectionFn(ratePercent, percent);
    assert f(k + 1, results[k]) == here;
    NumberedAt(f, results, k, before, here);
  }

  /** The `k`-th section opens with its label, whose number reads back as
      `k`. */
  lemma SectionLabel(k: nat, r: Comparison, ratePercent: Fraction -> string, percent: real -> string)
    ensures Section(k, r, ratePercent, percent)[..|Label(k)|] == Label(k)
    ensures AllDigits(NatToString(k)) && ParseNat(NatToString(k)) == k
  {
    PrefixOfAppend(Label(k), SectionBody(r, ratePercent, percent));
    ParseNatToString(k);
  }

  lemma PrefixOfAppend(a: string, b: string)
    ensures (a + b)[..|a|] == a
  {
  }

  /** The summary totals equal the numbers of pairs the sections list, for
      results where each count is the length of its list, as
      `compare_documents` produces them. */
  lemma {:induction false} TotalsMatchListing(results: seq<Comparison>)
    requires forall t :: 0 <= t < |results| ==>
      results[t].dupCount == |results[t].duplicates| && results[t].simCount == |results[t].similar|
    ensures TotalDup(results) == ListedDups(results)
    ensures TotalSim(results) == ListedSims(results)
  {
    if results != [] {
      TotalsMatchListing(results[..|results| - 1]);
    }
  }

  /** The report on the results of `compare_documents` gives totals that
      equal the numbers of pairs it lists. */
  lemma ComparisonTotals(similarity: (string, string) -> real, docs: seq<Document>)
    ensures TotalDup(Comparisons(similarity, docs)) == ListedDups(Comparisons(similarity, docs))
    ensures TotalSim(Comparisons(similarity, docs)) == ListedSims(Comparisons(similarity, docs))
  {
    var rs := Comparisons(similarity, docs);
    forall t | 0 <= t < |rs|
      ensures rs[t].dupCount == |rs[t].duplicates| && rs[t].simCount == |rs[t].similar|
    {
      ComparisonAt(similarity, docs, KeyOrder(docs), LatestTable(docs), rs, t);
    }
    TotalsMatchListing(rs);
  }

  /** Appending pieces one by one to `before + x` is appending them, joined,
      to `x`. */
  lemma AppendTwo(r: string, before: string, x: string, a: string, b: string)
    requires r == before + x
    ensures r + a + b == before + (x + (a + b))
  {
  }

  /** The same regrouping for the three lines of a similar pair. */
  lemma AppendThree(r: string, before: string, x: string, a: string, b: string, c: string)
    requires r == before + x
    ensures r + a + b + c == before + (x + (a + b + c))
  {
  }

  /** The five fixed lines of a section head, appended one by one, are
      their join appended once. */
  lemma AppendFive(r: string, a: string, b: string, c: string, d: string, e: string)
    ensures r + a + b + c + d + e == r + (a + b + c + d + e)
  {
  }

  /** A whole section appended piece by piece, from its label to its
      closing rule, is the section appended once. */
  lemma AppendGrouped(start: string, labelled: string, headed: string, middle: string, r: string,
    l: string, h: string, d: string, p: string, c: string)
    requires labelled == start + l && headed == labelled + h && middle == headed + d && r == middle + p
    ensures r + c == start + (l + (h + d + p + c))
  {
  }

  /** The listing of a comparison's duplicate pairs, appended to `report`. */
  method WriteDuplicates(report: string, result: Comparison) returns (out: string)
    ensures out == report + DupPart(result)
  {
    out := report;
    if result.duplicates != [] {
      out := out + "\n◆ 完全重复题目:\n";
      ghost var before := out;
      for j := 0 to |result.duplicates|
        invariant out == before + DupLines(result.file1, result.file2, result.duplicates[..j])
      {
        var dup := result.duplicates[j];
        NumberedStep(DupLineFn(result.file1, result.file2), result.duplicates, j);
        AppendTwo(out, before, DupLines(result.file1, result.file2, result.duplicates[..j]),
          "├─ " + result.file1 + " 第" + NatToString(dup.num1) + "题 ←→ " + result.file2 + " 第" + NatToString(dup.num2) + "题\n",
          "│  题目内容: " + Truncate(dup.text, 120) + "\n");
        out := out + ("├─ " + result.file1 + " 第" + NatToString(dup.num1) + "题 ←→ " + result.file2 + " 第" + NatToString(dup.num2) + "题\n");
        out := out + ("│  题目内容: " + Truncate(dup.text, 120) + "\n");
      }
      assert result.duplicates[..|result.duplicates|] == result.duplicates;
    }
  }

  /** The listing of a comparison's similar pairs, appended to `report`. */
  method WriteSimilar(report: string, result: Comparison, percent: real -> string) returns (out: string)
    ensures out == report + SimPart(result, percent)
  {
    out := report;
    if result.similar != [] {
      out := out + "\n◆ 高度相似题目(相似度>90%):\n";
      ghost var before := out;
      for j := 0 to |result.similar|
        invariant out == before + SimLines(result.file1, result.file2, result.similar[..j], percent)
      {
        var sim := result.similar[j];
        NumberedStep(SimLineFn(result.file1, result.file2, percent), result.similar, j);
        AppendThree(out, before, SimLines(result.file1, result.file2, result.similar[..j], percent),
          "├─ " + result.file1 + " 第" + NatToString(sim.num1) + "题 ←→ " + result.file2 + " 第" + NatToString(sim.num2) + "题 (相似度: " + percent(sim.score) + ")\n",
          "│  " + result.file1 + "题目: " + Truncate(sim.text1, 60) + "\n",
          "│  " + result.file2 + "题目: " + Truncate(sim.text2, 60) + "\n");
        out := out + ("├─ " + result.file1 + " 第" + NatToString(sim.num1) + "题 ←→ " + result.file2 + " 第" + NatToString(sim.num2) + "题 (相似度: " + percent(sim.score) + ")\n");
        out := out + ("│  " + result.file1 + "题目: " + Truncate(sim.text1, 60) + "\n");
        out := out + ("│  " + result.file2 + "题目: " + Truncate(sim.text2, 60) + "\n");
      }
      assert result.similar[..|result.similar|] == result.similar;
    }
  }

  /** The report, built line by line as the source does. */
  method CreateReport(results: seq<Comparison>, ratePercent: Fraction -> string, percent: real -> string)
    returns (report: string)
    ensures report == ReportText(results, ratePercent, percent)
  {
    report := Repeat('=', 80) + "\n";
    report := report + "试卷题目查重报告\n";
    report := report + (Repeat('=', 80) + "\n\n");

    var totalComparisons := |results|;
    var totalDup := TotalDup(results);
    var totalSim := TotalSim(results);

    report := report + "【汇总统计】\n";
    report := report + ("比较试卷对数: " + NatToString(totalComparisons) + "\n");
    report := report + ("完全重复题目总数: " + NatToString(totalDup) + "\n");
    report := report + ("高度相似题目总数: " + NatToString(totalSim) + "\n\n");
    assert results[..0] == [];

    for i := 0 to |results|
      invariant report == Header(results) + Sections(results[..i], ratePercent, percent)
    {
      var result := results[i];
      ghost var start := report;
      report := report + ("【比较组 " + NatToString(i + 1) + "】\n");
      ghost var labelled := report;
      ghost var line1 := "对比文件1: " + result.file1 + " (共" + NatToString(result.total1) + "题)\n";
      ghost var line2 := "对比文件2: " + result.file2 + " (共" + NatToString(result.total2) + "题)\n";
      ghost var line3 := Repeat('-', 60) + "\n";
      ghost var line4 := "完全重复题目数量: " + NatToString(result.dupCount) + " (重复率: " + ratePercent(result.dupRate) + ")\n";
      ghost var line5 := "高度相似题目数量: " + NatToString(result.simCount) + " (相似率: " + ratePercent(result.simRate) + ")\n";
      AppendFive(labelled, line1, line2, line3, line4, line5);
      report := report + ("对比文件1: " + result.file1 + " (共" + NatToString(result.total1) + "题)\n");
      report := report + ("对比文件2: " + result.file2 + " (共" + NatToString(result.total2) + "题)\n");
      report := report + (Repeat('-', 60) + "\n");
      report := report + ("完全重复题目数量: " + NatToString(result.dupCount) + " (重复率: " + ratePercent(result.dupRate) + ")\n");
      report := report + ("高度相似题目数量: " + NatToString(result.simCount) + " (相似率: " + ratePercent(result.simRate) + ")\n");
      assert report == labelled + SectionHead(result, ratePercent);

      ghost var headed := report;
      report := WriteDuplicates(report, result);
      ghost var middle := report;
      report := WriteSimilar(report, result, percent);

      AppendGrouped(start, labelled, headed, middle, report, Label(i + 1), SectionHead(result, ratePercent), DupPart(result),
        SimPart(result, percent), "\n" + Repeat('=', 80) + "\n\n");
      report := report + ("\n" + Repeat('=', 80) + "\n\n");
      assert report == start + Section(i + 1, result, ratePercent, percent);
      NumberedStep(SectionFn(ratePercent, percent), results, i);
      assert SectionFn(ratePercent, percent)(i + 1, result) == Section(i + 1, result, ratePercent, percent);
      AppendAssoc(Header(results), Sections(results[..i], ratePercent, percent),
        Section(i + 1, result, ratePercent, percent));
    }
    assert results[..|results|] == results;
  }
}
