# Exam comparator core, modelled in Dafny

`exam_comparator_improved.py` checks exam papers for repeated questions:

1. It splits each paper into numbered questions (`extract_questions`).
2. It removes the multiple-choice option lines from each question (`remove_options`).
3. It scores every question of one paper against every question of another. The scores come from a whitespace-normalised `difflib` ratio (`calculate_similarity`).
4. It collects the duplicates (score 1.0) and the near-duplicates (score above 0.9) of every pair of papers (`compare_documents`).
5. It renders the findings as a text report (`create_report`).

This project models those five static methods. A source function that works by updating variables in a loop becomes a Dafny `method` with the same loop. Each such method is proved equal to a pure specification function, and the promised properties are lemmas about that function.

| module | file | models |
|---|---|---|
| `Text` | text.dfy | `str.isspace`, `strip`, `split('\n')`, `'\n'.join`, `int`/`str` on decimal digits |
| `Seqs` | seqs.dfy | order-preserving filter |
| `Options` | options.dfy | `remove_options` and its regular expression |
| `Headings` | headings.dfy | the heading expression of `extract_questions` and the question number it yields |
| `Segmenter` | segmenter.dfy | `extract_questions` over a list of paragraph strings |
| `Similarity` | similarity.dfy | the normalisation in `calculate_similarity`; the ratio is a parameter |
| `Pairs` | pairs.dfy | the order of the `i < j` double loop over names |
| `Comparator` | comparator.dfy | `compare_documents` |
| `Report` | report.dfy | `create_report` |

Modelling choices:

- **Characters.** Whitespace is the exact set for which Python's `str.isspace` holds. The same set drives `\s` and `strip()`. Digits are ASCII `0`–`9` plus the full-width `０`–`９`.
- **Similarity.** `difflib.SequenceMatcher(None, a, b).ratio()` is an uninterpreted parameter `ratio`. No symmetry or reflexivity is assumed. `Similarity.Score` applies it to the two normalised texts. `Comparator` receives the whole similarity function as its parameter `similarity`; `Comparator.SameWordsListedDuplicate` connects the two.
- **Rates.** A rate is kept as an exact `Fraction(count, over)`, where `over` is the smaller question total. `Comparator.Value` is its real value.
- **Report formatting.** The `:.2%` renderings of rates and scores are parameters of the report.

Three behaviours of the code are easy to miss. The model keeps each of them as the code has it:

- **Chinese headings.** The heading expression accepts `[一二三四五六七八九十]+` before the separator, and the question number comes from the first character only. So `十二、` is question 10 and `二十、` is question 2 (`Headings.ChineseHeadingExamples`).
- **Rates are not capped at 1.** A rate divides by the smaller question total, so one question that matches several questions on the other side pushes a rate above 1 (`Comparator.RateCanExceedOne`).
- **Leading option-only text gives an empty body.** When the text before the first heading is made only of option lines, the code emits a question numbered 0 whose body is empty (`Segmenter.LeadingOptionsGiveEmptyBody`).

## Model

| member | source | states |
|---|---|---|
| Options.RemoveOptions | exam_comparator_improved.py:117-129 | The loop over the `'\n'`-separated lines keeps each line whose stripped form is not an option line, unchanged. It joins the kept lines with `'\n'`. The result equals `StripOptions`. |
| Options.OptionLineMeansRegex | exam_comparator_improved.py:121-126 | A line counts as an option line exactly when `^[A-E][\.．、]\s*.+$` matches its stripped form. Both directions are proved. |
| Options.OptionLineNeedsLetterAndText | exam_comparator_improved.py:121-126 | A stripped line of at most two characters, such as a bare `A.`, is kept. So is a line that does not start with a letter from A to E, such as `F. ...`. |
| Options.KeptLinesMembers | exam_comparator_improved.py:125-127 | A line is kept if and only if it is an input line and not an option line. |
| Options.KeptLinesAppend | exam_comparator_improved.py:125-127 | Each line is decided on its own and order is preserved: the kept lines of `a + b` are those of `a` followed by those of `b`. |
| Options.StripOptionsLines | exam_comparator_improved.py:121-129 | No line of the output is an option line. Each output line is a line of the input, except for the `""` that `"".split('\n')` yields when every line is dropped (the body `A. x` gives `""`). Every non-option input line is in the output. |
| Options.StripOptionsIdempotent | exam_comparator_improved.py:117-129 | Removing options twice is the same as removing them once. |
| Text.JoinSplit | exam_comparator_improved.py:122-129 | `'\n'.join(s.split('\n')) == s`. |
| Text.SplitJoin | exam_comparator_improved.py:122-129 | Splitting a join of newline-free lines gives back those lines. |
| Text.StripSpec | exam_comparator_improved.py:141 | `strip()` returns a slice of the input with whitespace on both sides cut off. The result neither starts nor ends with whitespace, and it is empty exactly when the input is all whitespace. |
| Text.ParseNatToString | exam_comparator_improved.py:255-279 | `str(n)` is a non-empty run of digits with no leading zero, and `int(str(n)) == n`. |
| Headings.MatchHeadingMeansRegex | exam_comparator_improved.py:146-155 | The heading test matches the three alternatives of the expression, tried from the left. A digit heading gets `int` of its digits; a parenthesised heading gets `int` of the digits inside, with ASCII and full-width parentheses mixed freely. |
| Headings.ChineseHeadingNumber | exam_comparator_improved.py:156-160 | A Chinese-numeral heading is numbered by the map value of its first character, which lies between 1 and 10. |
| Headings.ChineseHeadingExamples | exam_comparator_improved.py:156-160 | `十二、` gives 10 and `二十、` gives 2. |
| Headings.HeadingFirstChar | exam_comparator_improved.py:146 | A heading starts with a digit, an opening parenthesis or a Chinese numeral, never with A–E. So a heading line is never an option line. |
| Segmenter.ExtractQuestions | exam_comparator_improved.py:131-179 | The loop's result equals `Segment(paragraphs)`. Its invariant ties the emitted questions, the open `current_question` and `question_num` to the grouping of the non-blank lines seen so far. |
| Segmenter.AppendBodyLine | exam_comparator_improved.py:164-173 | Both branches on `last_is_question` append in the same way unless the flag is set while `current_question` is empty. In that one case the source would append `"\n" + text`. The loop never reaches it: a heading always leaves `current_question` non-empty, and `ExtractQuestions` carries that as an invariant. So the flag never changes the result. |
| Segmenter.TrimmedLinesSpec | exam_comparator_improved.py:140-143 | Blank paragraphs are skipped. Every line kept is non-empty and already stripped. |
| Segmenter.GroupPartition | exam_comparator_improved.py:140-177 | Concatenating the lines of the records gives back every non-blank line exactly once, in input order. |
| Segmenter.GroupShape | exam_comparator_improved.py:137-163 | Every record is non-empty. Every record after the first starts at a heading, and no later line of a record is a heading. A record is numbered by its first line's heading, which gives 0 for text before the first heading. |
| Segmenter.GroupSnocNew | exam_comparator_improved.py:147-163 | A heading, or the very first line, opens a new record after the existing ones. |
| Segmenter.GroupSnocExtend | exam_comparator_improved.py:164-174 | Any other line extends the last record and leaves the earlier ones alone. |
| Segmenter.GroupMembers | exam_comparator_improved.py:140-177 | Every line of every record is one of the input lines. |
| Segmenter.HeadingBodyNonEmpty | exam_comparator_improved.py:147-177 | A body whose first line is a heading is non-empty after option lines are removed. |
| Segmenter.SegmentBodies | exam_comparator_improved.py:131-179 | Every question from a heading-led record has a non-empty body. Only a leading record without a heading can have an empty one. |
| Segmenter.LeadingRecord | exam_comparator_improved.py:137-177 | For every document whose first non-blank line is not a heading, the first question is numbered 0 and its body is the option-stripped join of the lines before the first heading. |
| Segmenter.LeadingOptionsGiveEmptyBody | exam_comparator_improved.py:164-177 | For every document whose lines before the first heading are all option lines, the first question is `(0, "")`. |
| Segmenter.FinishIndex | exam_comparator_improved.py:148-149 | The `i`-th question is the `i`-th record, numbered the same, with its joined text passed through `remove_options`. |
| Similarity.NormalizeShape | exam_comparator_improved.py:185-186 | The normalised text has no leading or trailing whitespace. Its only whitespace is single spaces. It is empty exactly when the input is all whitespace. |
| Similarity.NormalizeIdempotent | exam_comparator_improved.py:185-186 | Normalising twice is the same as normalising once. |
| Similarity.NormalizeIsJoinWords | exam_comparator_improved.py:185-186 | `re.sub(r'\s+', ' ', s.strip())` equals `' '.join(s.split())`: every whitespace run becomes one space. |
| Similarity.WordsOfStrip | exam_comparator_improved.py:185-186 | Stripping does not change the words of a text. |
| Similarity.NormalizeIgnoresSpacing | exam_comparator_improved.py:185-186 | Texts with the same words normalise to the same string. |
| Similarity.ScoreIgnoresSpacing | exam_comparator_improved.py:181-187 | The score depends only on the words of the two texts, not on their spacing. |
| Similarity.SameWordsScoreOne | exam_comparator_improved.py:181-187 | Texts with the same words score 1.0, provided the ratio scores a normalised text against itself as 1.0. |
| Comparator.BuildTable | exam_comparator_improved.py:192-196 | Filling `all_questions` gives the key order `KeyOrder(docs)` and the table `LatestTable(docs)`. |
| Comparator.BuildStep | exam_comparator_improved.py:193-196 | One more file stores its questions under its name. It appends the name to the keys only when the table does not hold it yet. |
| Comparator.KeyOrderSpec | exam_comparator_improved.py:192-201 | The keys are distinct and are exactly the documents' names. They are exactly the table's domain. |
| Comparator.LatestTableValue | exam_comparator_improved.py:193-196 | A name maps to the questions of the last document that carries it: a later file with the same name overwrites the earlier one. |
| Comparator.KeyOrderFirstSeen | exam_comparator_improved.py:192-201 | Keys follow first-insertion order. A name first seen earlier gets an earlier key, and an overwrite keeps the position. |
| Comparator.ClassifyPairs | exam_comparator_improved.py:209-218 | The nested loops over the question lists produce exactly `Dups` and `Sims`. |
| Comparator.DupsMembers | exam_comparator_improved.py:212-216 | An entry is in `duplicates` if and only if it is `(num1, num2, text1)` for a cross pair scoring exactly 1.0. |
| Comparator.SimsMembers | exam_comparator_improved.py:212-218 | An entry is in `similar` if and only if it is `(num1, num2, text1, text2, sim)` for a cross pair scoring above 0.9 but not 1.0. |
| Comparator.DupsInOrder | exam_comparator_improved.py:212-216 | `duplicates` has exactly one entry per position pair `(i, j)` whose questions score 1.0. The entries come in the `(i, j)` order of the two loops, and each is `(num1, num2, text1)` of the questions at its positions. |
| Comparator.SimsInOrder | exam_comparator_improved.py:212-218 | `similar` has exactly one entry per position pair `(i, j)` whose questions score above 0.9 but not 1.0, in the loops' `(i, j)` order, and each carries those questions and their score. |
| Comparator.CountsArePairs | exam_comparator_improved.py:212-223 | `dup_count` is the number of question pairs scoring 1.0, and `sim_count` the number scoring above 0.9 but not 1.0. |
| Comparator.CrossBound | exam_comparator_improved.py:212-223 | Each cross pair is classified at most once, so `dup_count + sim_count <= total_q1 * total_q2`. |
| Comparator.SimilarScoresBetween | exam_comparator_improved.py:214-218 | With scores in [0, 1], every similar entry has `0.9 < sim < 1.0`. |
| Comparator.RateSpec | exam_comparator_improved.py:220-225 | A rate is the count over the smaller total, with rate times total equal to count. Rates are non-negative and grow with the count, so `dup_rate <= sim_rate`. Both are 0 when either side has no question. |
| Comparator.RateCanExceedOne | exam_comparator_improved.py:220-225 | One question matching two on the other side gives `dup_count == 2` and `dup_rate == 2.0`. Rates are not capped at 1. |
| Comparator.CompareSpec | exam_comparator_improved.py:209-238 | For one pair of files, the counts are the list lengths, equal the numbers of qualifying question pairs, and together are at most `total_q1 * total_q2`. The lists hold exactly the duplicates and the similar pairs. `0 <= dup_rate <= sim_rate`, and the rates are 0 for an empty side. |
| Comparator.CompareEntry | exam_comparator_improved.py:209-238 | One results entry: the two lists, the counts, the rates and the totals of the pair. |
| Comparator.CompareRow | exam_comparator_improved.py:203-238 | The inner `for j in range(i + 1, n)` loop appends the comparisons of key `i` with every later key, in order. |
| Comparator.CompareTable | exam_comparator_improved.py:201-238 | The two loops append the comparison of every key pair `i < j`, in lexicographic order. |
| Comparator.CompareDocuments | exam_comparator_improved.py:189-240 | `compare_documents` returns exactly `Comparisons(similarity, docs)`. |
| Comparator.ComparisonsCount | exam_comparator_improved.py:201-203 | `k` distinct names give exactly `k * (k - 1) / 2` results. |
| Comparator.ComparisonsIndex | exam_comparator_improved.py:201-207 | The `t`-th result compares the keys at the two positions of the `t`-th pair `i < j` in lexicographic order. |
| Comparator.ComparisonAt | exam_comparator_improved.py:201-207 | Every result compares two different names, an earlier key with a later one, using the questions the table holds for them. |
| Comparator.ComparisonsCover | exam_comparator_improved.py:201-207 | Every pair of keys `a < b` is compared, with file1 the earlier key. |
| Comparator.ComparisonsUnique | exam_comparator_improved.py:201-207 | No pair of names is compared twice. |
| Comparator.SameWordsListedDuplicate | exam_comparator_improved.py:212-216 | With `calculate_similarity` as the score, two questions with the same words are listed as a duplicate. This needs the ratio to score a normalised text against itself as 1.0. |
| Pairs.AllPairsSpec | exam_comparator_improved.py:201-202 | The double loop visits `n * (n - 1) / 2` pairs, exactly those with `i < j < n`, in strictly increasing lexicographic order. |
| Pairs.UpToOfIndex | exam_comparator_improved.py:201-206 | The `t`-th visit of the double loop applies the loop body to the keys at the positions of the `t`-th pair. |
| Report.CreateReport | exam_comparator_improved.py:242-283 | Accumulating `report` gives exactly `ReportText`: the banner and summary, then one numbered section per result. |
| Report.WriteDuplicates | exam_comparator_improved.py:268-272 | The duplicate listing appended to the report: nothing for an empty list, otherwise a heading and two lines per pair, in order. |
| Report.WriteSimilar | exam_comparator_improved.py:274-279 | The similar-pair listing appended to the report: nothing for an empty list, otherwise a heading and three lines per pair, in order. |
| Report.TotalsMatchListing | exam_comparator_improved.py:250-257 | When every count equals its list's length, the summary totals equal the number of duplicate lines and of similar lines that the sections list. |
| Report.ComparisonTotals | exam_comparator_improved.py:250-257 | For the results of `compare_documents`, the summary totals equal the listed duplicates and similar pairs. |
| Report.SectionsNumbered | exam_comparator_improved.py:260-281 | Sections come in result order: after the first `k` sections comes the section labelled `k + 1` for result `k`. |
| Report.SectionLabel | exam_comparator_improved.py:260-261 | The `k`-th section starts with its label, and the label's number reads back as `k`. |
| Report.TruncateSpec | exam_comparator_improved.py:272-279 | A text up to the bound is shown whole. A longer one is shown as its first `n` characters followed by `...`. The ellipsis appears if and only if the text is longer than the bound (120 for duplicates, 60 for each similar text). |

## Left out

- The tkinter interface, the file-list handling and the message boxes (lines 9-90, 286-289) are user-interface plumbing.
- `save_report` and the `Document(...)` reader are file and docx I/O through a foreign library. A document is modelled as its name and its list of paragraph strings.
- `os.path.basename` is not modelled: document names are given strings. The overwrite-on-same-name behaviour of the dictionary is kept.
- The algorithm inside `difflib.SequenceMatcher.ratio` is not modelled. It is the parameter `ratio` (in `Similarity`) or `similarity` (in `Comparator`). The library does score a text against itself as 1.0, but the model cannot derive that from an opaque parameter. So `Similarity.SameWordsScoreOne` and `Comparator.SameWordsListedDuplicate` take `ratio(x, x) == 1.0` for the text in question as a hypothesis.
- `Comparator.SimilarScoresBetween` assumes that scores lie in [0, 1], as the ratio guarantees. Nothing else assumes it.
- Floating point is not modelled. Scores are reals compared with `== 1.0` and `> 0.9` exactly, and rates are exact fractions.
- The `:.2%` rendering of rates and scores is not modelled. It is the report's parameters `ratePercent` and `percent`.
- Headings.MatchHeading: does not model the error path of `int()` on a digit run longer than Python's default limit of 4300 digits. There `int()` raises `ValueError`, which leaves `extract_questions` and `compare_documents` and ends the whole comparison in the interface's error handler (lines 89-90). The model numbers such a heading by the run's value.
- Unicode `\d` digits other than ASCII and full-width digits are not modelled.
- `Comparator.CompareNames` reads the table with a default of no questions. That default is never reached, because every key is in the table; the source would raise `KeyError` there instead.
