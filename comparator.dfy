/**
 * The comparator (`compare_documents`): the questions of every document
 * are collected in a table keyed by document name, then every pair of
 * names is compared question by question. A pair of questions scoring
 * exactly 1.0 is a duplicate, one scoring above 0.9 is similar.
 */
module Comparator {
  import opened Segmenter
  import opened Similarity
  import opened Pairs

  /** A document as the comparator receives it: its base name and its
      paragraphs. */
  datatype Document = Document(name: string, paragraphs: seq<string>)

  /** `(num1, num2, text1)` of the `duplicates` list. */
  datatype Duplicate = Duplicate(num1: nat, num2: nat, text: string)

  /** `(num1, num2, text1, text2, sim)` of the `similar` list. */
  datatype Similar = Similar(num1: nat, num2: nat, text1: string, text2: string, score: real)

  /** A rate kept as the exact quotient `count / over`, where `over` is the
      smaller of the two question totals; a zero `over` stands for the
      source's rate of 0 when either document has no question. */
  datatype Fraction = Fraction(count: nat, over: nat)

  /** One entry of `results`. */
  datatype Comparison = Comparison(
    file1: string, file2: string,
    duplicates: seq<Duplicate>, similar: seq<Similar>,
    dupCount: nat, simCount: nat,
    dupRate: Fraction, simRate: Fraction,
    total1: nat, total2: nat)

  predicate Distinct<T(==)>(s: seq<T>) {
    forall a, b :: 0 <= a < b < |s| ==> s[a] != s[b]
  }

  predicate Named(docs: seq<Document>, name: string) {
    exists i :: 0 <= i < |docs| && docs[i].name == name
  }

  /** The keys of `all_questions` in the dictionary's order: a name takes its
      place when it is first inserted, and a later document with the same
      name does not move it. */
  function KeyOrder(docs: seq<Document>): (keys: seq<string>)
  {
    if docs == [] then []
    else
      var front := KeyOrder(docs[..|docs| - 1]);
      var name := docs[|docs| - 1].name;
      if name in front then front else front + [name]
  }

  /** The values of `all_questions`: each name is mapped to the questions of
      the last document with that name. */
  function LatestTable(docs: seq<Document>): (table: map<string, seq<Question>>)
  {
    if docs == [] then map[]
    else
      var last := docs[|docs| - 1];
      LatestTable(docs[..|docs| - 1])[last.name := Segment(last.paragraphs)]
  }

  /** A name is one of the documents' names exactly when it, or the last
      document, names it. */
  lemma NamedSnoc(docs: seq<Document>)
    requires docs != []
    ensures forall n :: Named(docs, n) <==> Named(docs[..|docs| - 1], n) || n == docs[|docs| - 1].name
  {
    var front := docs[..|docs| - 1];
    forall n | Named(front, n) ensures Named(docs, n) {
      var i :| 0 <= i < |front| && front[i].name == n;
      assert docs[i].name == n;
    }
    forall n | Named(docs, n) && n != docs[|docs| - 1].name ensures Named(front, n) {
      var i :| 0 <= i < |docs| && docs[i].name == n;
      assert front[i].name == n;
    }
  }

  /** The keys are exactly the names of the documents. */
  lemma {:induction false} KeyOrderNames(docs: seq<Document>)
    ensures forall n :: n in KeyOrder(docs) <==> Named(docs, n)
  {
    if docs != [] {
      KeyOrderNames(docs[..|docs| - 1]);
      NamedSnoc(docs);
    }
  }

  /** No name is a key twice. */
  lemma {:induction false} KeyOrderDistinct(docs: seq<Document>)
    ensures Distinct(KeyOrder(docs))
  {
    if docs != [] {
      KeyOrderDistinct(docs[..|docs| - 1]);
    }
  }

  /** The table's domain is the set of keys. */
  lemma {:induction false} TableDomain(docs: seq<Document>)
    ensures forall n :: n in LatestTable(docs) <==> n in KeyOrder(docs)
  {
    if docs != [] {
      TableDomain(docs[..|docs| - 1]);
    }
  }

  /** The keys are the names of the documents, each once, and they are the
      table's domain. */
  lemma KeyOrderSpec(docs: seq<Document>)
    ensures Distinct(KeyOrder(docs))
    ensures forall n :: n in KeyOrder(docs) <==> Named(docs, n)
    ensures forall n :: n in LatestTable(docs) <==> n in KeyOrder(docs)
  {
    KeyOrderDistinct(docs);
    KeyOrderNames(docs);
    TableDomain(docs);
  }

  /** The table holds, for each name, the questions of the last document
      carrying it: a later file with the same name overwrites the earlier. */
  lemma {:induction false} LatestTableValue(docs: seq<Document>, i: nat)
    requires i < |docs|
    requires forall j :: i < j < |docs| ==> docs[j].name != docs[i].name
    ensures docs[i].name in LatestTable(docs)
    ensures LatestTable(docs)[docs[i].name] == Segment(docs[i].paragraphs)
  {
    if i < |docs| - 1 {
      var front := docs[..|docs| - 1];
      assert front[i] == docs[i];
      LatestTableValue(front, i);
    }
  }

  /** A document whose name no earlier document has adds that name as the
      key right after the keys of the earlier documents. */
  lemma FirstSeenAppends(docs: seq<Document>, j: nat)
    requires j < |docs|
    requires forall k :: 0 <= k < j ==> docs[k].name != docs[j].name
    ensures KeyOrder(docs[..j + 1]) == KeyOrder(docs[..j]) + [docs[j].name]
  {
    var front := docs[..j];
    assert docs[..j + 1][..j] == front;
    KeyOrderNames(front);
    forall k | 0 <= k < |front| ensures front[k].name != docs[j].name {
      assert front[k] == docs[k];
    }
  }

  /** The position of a name among the keys is fixed by its first
      occurrence: names first met earlier come first, and later documents
      with the same name do not move it. */
  lemma KeyOrderFirstSeen(docs: seq<Document>, i: nat, j: nat)
    requires i < j < |docs|
    requires forall k :: 0 <= k < i ==> docs[k].name != docs[i].name
    requires forall k :: 0 <= k < j ==> docs[k].name != docs[j].name
    ensures exists a, b ::
      && 0 <= a < b < |KeyOrder(docs)|
      && KeyOrder(docs)[a] == docs[i].name && KeyOrder(docs)[b] == docs[j].name
  {
    var front := docs[..j];
    FirstSeenAppends(docs, j);
    KeyOrderNames(front);
    assert front[i] == docs[i] && Named(front, docs[i].name);
    var ka := KeyOrder(front);
    var a :| 0 <= a < |ka| && ka[a] == docs[i].name;
    KeyOrderPrefix(docs, j + 1);
    var keys := KeyOrder(docs);
    assert keys[..|ka| + 1] == ka + [docs[j].name];
    assert keys[a] == (ka + [docs[j].name])[a];
    assert keys[|ka|] == (ka + [docs[j].name])[|ka|];
  }

  /** Later documents only append keys. */
  lemma {:induction false} KeyOrderPrefix(docs: seq<Document>, m: nat)
    requires m <= |docs|
    ensures |KeyOrder(docs[..m])| <= |KeyOrder(docs)|
    ensures KeyOrder(docs)[..|KeyOrder(docs[..m])|] == KeyOrder(docs[..m])
    decreases |docs| - m
  {
    if m < |docs| {
      var longer := docs[..m + 1];
      KeyOrderPrefix(docs, m + 1);
      assert longer[..m] == docs[..m];
      assert longer[..|longer| - 1] == docs[..m];
    } else {
      assert docs[..m] == docs;
    }
  }

  /** Building `all_questions`: one `extract_questions` per document, the
      result stored under the document's name. `keys` is the dictionary's
      insertion order, which assigning to an existing key leaves alone. */
  method BuildTable(docs: seq<Document>) returns (keys: seq<string>, table: map<string, seq<Question>>)
    ensures keys == KeyOrder(docs) && table == LatestTable(docs)
  {
    keys := [];
    table := map[];
    for i := 0 to |docs|
      invariant keys == KeyOrder(docs[..i]) && table == LatestTable(docs[..i])
    {
      ghost var keys0, table0 := keys, table;
      var filename := docs[i].name;
      var questions := ExtractQuestions(docs[i].paragraphs);
      if filename !in table {
        keys := keys + [filename];
      }
      table := table[filename := questions];
      BuildStep(docs, i, keys0, table0, keys, table);
    }
    assert docs[..|docs|] == docs;
  }

  /** One document more: its name is appended to the keys unless the table
      already has it, and its questions are stored under it. */
  lemma BuildStep(docs: seq<Document>, i: nat, keys: seq<string>, table: map<string, seq<Question>>,
    keys': seq<string>, table': map<string, seq<Question>>)
    requires i < |docs| && keys == KeyOrder(docs[..i]) && table == LatestTable(docs[..i])
    requires keys' == if docs[i].name in table then keys else keys + [docs[i].name]
    requires table' == table[docs[i].name := Segment(docs[i].paragraphs)]
    ensures keys' == KeyOrder(docs[..i + 1]) && table' == LatestTable(docs[..i + 1])
  {
    var d := docs[..i + 1];
    assert d[..|d| - 1] == docs[..i] && d[|d| - 1] == docs[i];
    TableDomain(docs[..i]);
    assert docs[i].name in table <==> docs[i].name in keys;
  }

  /** The duplicates found for question `a` against the questions `q2`. */
  function DupRow(similarity: (string, string) -> real, a: Question, q2: seq<Question>): (ds: seq<Duplicate>)
    ensures |ds| <= |q2|
  {
    if q2 == [] then []
    else
      var b := q2[|q2| - 1];
      DupRow(similarity, a, q2[..|q2| - 1]) +
        (if similarity(a.body, b.body) == 1.0 then [Duplicate(a.number, b.number, a.body)] else [])
  }

  /** The similar pairs found for question `a` against the questions `q2`. */
  function SimRow(similarity: (string, string) -> real, a: Question, q2: seq<Question>): (ss: seq<Similar>)
  {
    if q2 == [] then []
    else
      var b := q2[|q2| - 1];
      var sim := similarity(a.body, b.body);
      SimRow(similarity, a, q2[..|q2| - 1]) +
        (if sim != 1.0 && sim > 0.9 then [Similar(a.number, b.number, a.body, b.body, sim)] else [])
  }

  /** The `duplicates` list of one comparison. */
  function Dups(similarity: (string, string) -> real, q1: seq<Question>, q2: seq<Question>): seq<Duplicate>
  {
    if q1 == [] then [] else Dups(similarity, q1[..|q1| - 1], q2) + DupRow(similarity, q1[|q1| - 1], q2)
  }

  /** The `similar` list of one comparison. */
  function Sims(similarity: (string, string) -> real, q1: seq<Question>, q2: seq<Question>): seq<Similar>
  {
    if q1 == [] then [] else Sims(similarity, q1[..|q1| - 1], q2) + SimRow(similarity, q1[|q1| - 1], q2)
  }

  /** A question pair is a duplicate exactly when it scores 1.0. */
  predicate IsDuplicateOf(similarity: (string, string) -> real, d: Duplicate, q1: seq<Question>, q2: seq<Question>) {
    exists a, b :: a in q1 && b in q2 && similarity(a.body, b.body) == 1.0 &&
      d == Duplicate(a.number, b.number, a.body)
  }

  /** A question pair is similar exactly when it scores above 0.9 but not
      1.0, and the entry records that score. */
  predicate IsSimilarOf(similarity: (string, string) -> real, s: Similar, q1: seq<Question>, q2: seq<Question>) {
    exists a, b :: a in q1 && b in q2 &&
      similarity(a.body, b.body) != 1.0 && similarity(a.body, b.body) > 0.9 &&
      s == Similar(a.number, b.number, a.body, b.body, similarity(a.body, b.body))
  }

  lemma {:induction false} DupRowMembers(similarity: (string, string) -> real, a: Question, q2: seq<Question>)
    ensures forall d :: d in DupRow(similarity, a, q2) <==>
      exists b :: b in q2 && similarity(a.body, b.body) == 1.0 && d == Duplicate(a.number, b.number, a.body)
  {
    if q2 != [] {
      var front := q2[..|q2| - 1];
      DupRowMembers(similarity, a, front);
      assert q2 == front + [q2[|q2| - 1]];
    }
  }

  lemma {:induction false} SimRowMembers(similarity: (string, string) -> real, a: Question, q2: seq<Question>)
    ensures forall s :: s in SimRow(similarity, a, q2) <==>
      exists b :: b in q2 && similarity(a.body, b.body) != 1.0 && similarity(a.body, b.body) > 0.9 &&
        s == Similar(a.number, b.number, a.body, b.body, similarity(a.body, b.body))
  {
    if q2 != [] {
      var front := q2[..|q2| - 1];
      SimRowMembers(similarity, a, front);
      assert q2 == front + [q2[|q2| - 1]];
    }
  }

  /** The duplicates listed are exactly the cross pairs scoring 1.0. */
  lemma {:induction false} DupsMembers(similarity: (string, string) -> real, q1: seq<Question>, q2: seq<Question>)
    ensures forall d :: d in Dups(similarity, q1, q2) <==> IsDuplicateOf(similarity, d, q1, q2)
  {
    if q1 != [] {
      var front := q1[..|q1| - 1];
      var a := q1[|q1| - 1];
      DupsMembers(similarity, front, q2);
      DupRowMembers(similarity, a, q2);
      assert q1 == front + [a];
      forall d | IsDuplicateOf(similarity, d, q1, q2) ensures d in Dups(similarity, q1, q2) {
        var x, b :| x in q1 && b in q2 && similarity(x.body, b.body) == 1.0 &&
          d == Duplicate(x.number, b.number, x.body);
        if x != a {
          assert x in front;
          assert IsDuplicateOf(similarity, d, front, q2);
        }
      }
    }
  }

  /** The similar pairs listed are exactly the cross pairs scoring above
      0.9 and not 1.0. */
  lemma {:induction false} SimsMembers(similarity: (string, string) -> real, q1: seq<Question>, q2: seq<Question>)
    ensures forall s :: s in Sims(similarity, q1, q2) <==> IsSimilarOf(similarity, s, q1, q2)
  {
    if q1 != [] {
      var front := q1[..|q1| - 1];
      var a := q1[|q1| - 1];
      SimsMembers(similarity, front, q2);
      SimRowMembers(similarity, a, q2);
      assert q1 == front + [a];
      forall s | IsSimilarOf(similarity, s, q1, q2) ensures s in Sims(similarity, q1, q2) {
        var x, b :| x in q1 && b in q2 &&
          similarity(x.body, b.body) != 1.0 && similarity(x.body, b.body) > 0.9 &&
          s == Similar(x.number, b.number, x.body, b.body, similarity(x.body, b.body));
        if x != a {
          assert x in front;
          assert IsSimilarOf(similarity, s, front, q2);
        }
      }
    }
  }

  /** The question pair at positions `p` scores 1.0. */
  predicate DupAt(similarity: (string, string) -> real, q1: seq<Question>, q2: seq<Question>, p: (nat, nat)) {
    p.0 < |q1| && p.1 < |q2| && similarity(q1[p.0].body, q2[p.1].body) == 1.0
  }

  /** The question pair at positions `p` scores above 0.9 and not 1.0. */
  predicate SimAt(similarity: (string, string) -> real, q1: seq<Question>, q2: seq<Question>, p: (nat, nat)) {
    p.0 < |q1| && p.1 < |q2| &&
    similarity(q1[p.0].body, q2[p.1].body) != 1.0 && similarity(q1[p.0].body, q2[p.1].body) > 0.9
  }

  /** The positions of the duplicates question `q1[i]` finds among the
      first `m` questions of `q2`. */
  lemma {:induction false} DupRowIndexed(similarity: (string, string) -> real, q1: seq<Question>, q2: seq<Question>,
    i: nat, m: nat) returns (row: seq<(nat, nat)>)
    requires i < |q1| && m <= |q2|
    ensures Increasing(row)
    ensures forall p :: p in row <==> p.0 == i && p.1 < m && DupAt(similarity, q1, q2, p)
    ensures |row| == |DupRow(similarity, q1[i], q2[..m])|
    ensures forall k :: 0 <= k < |row| ==>
      row[k].0 == i && row[k].1 < |q2| &&
      DupRow(similarity, q1[i], q2[..m])[k] == Duplicate(q1[i].number, q2[row[k].1].number, q1[i].body)
    decreases m
  {
    if m == 0 {
      row := [];
      assert q2[..0] == [];
    } else {
      var front := DupRowIndexed(similarity, q1, q2, i, m - 1);
      RowStep(similarity, q1[i], q2, m - 1);
      if similarity(q1[i].body, q2[m - 1].body) == 1.0 {
        row := front + [(i, m - 1)];
        IncreasingAppend(front, [(i, m - 1)]);
      } else {
        row := front;
      }
    }
  }

  /** The positions of the similar pairs question `q1[i]` finds among the
      first `m` questions of `q2`. */
  lemma {:induction false} SimRowIndexed(similarity: (string, string) -> real, q1: seq<Question>, q2: seq<Question>,
    i: nat, m: nat) returns (row: seq<(nat, nat)>)
    requires i < |q1| && m <= |q2|
    ensures Increasing(row)
    ensures forall p :: p in row <==> p.0 == i && p.1 < m && SimAt(similarity, q1, q2, p)
    ensures |row| == |SimRow(similarity, q1[i], q2[..m])|
    ensures forall k :: 0 <= k < |row| ==>
      row[k].0 == i && row[k].1 < |q2| &&
      SimRow(similarity, q1[i], q2[..m])[k] == Similar(q1[i].number, q2[row[k].1].number, q1[i].body,
        q2[row[k].1].body, similarity(q1[i].body, q2[row[k].1].body))
    decreases m
  {
    if m == 0 {
      row := [];
      assert q2[..0] == [];
    } else {
      var front := SimRowIndexed(similarity, q1, q2, i, m - 1);
      RowStep(similarity, q1[i], q2, m - 1);
      var sim := similarity(q1[i].body, q2[m - 1].body);
      if sim != 1.0 && sim > 0.9 {
        row := front + [(i, m - 1)];
        IncreasingAppend(front, [(i, m - 1)]);
      } else {
        row := front;
      }
    }
  }

  /** The positions of the duplicates the first `m` questions of `q1` find. */
  lemma {:induction false} DupsIndexed(similarity: (string, string) -> real, q1: seq<Question>, q2: seq<Question>,
    m: nat) returns (idx: seq<(nat, nat)>)
    requires m <= |q1|
    ensures Increasing(idx)
    ensures forall p :: p in idx <==> p.0 < m && DupAt(similarity, q1, q2, p)
    ensures |idx| == |Dups(similarity, q1[..m], q2)|
    ensures forall k :: 0 <= k < |idx| ==>
      idx[k].0 < |q1| && idx[k].1 < |q2| &&
      Dups(similarity, q1[..m], q2)[k] == Duplicate(q1[idx[k].0].number, q2[idx[k].1].number, q1[idx[k].0].body)
  {
    if m == 0 {
      idx := [];
      assert q1[..0] == [];
    } else {
      var front := DupsIndexed(similarity, q1, q2, m - 1);
      var row := DupRowIndexed(similarity, q1, q2, m - 1, |q2|);
      assert q2[..|q2|] == q2;
      ListStep(similarity, q1, q2, m - 1);
      IncreasingAppend(front, row);
      idx := front + row;
      var ds := Dups(similarity, q1[..m], q2);
      var dsFront := Dups(similarity, q1[..m - 1], q2);
      var dsRow := DupRow(similarity, q1[m - 1], q2);
      assert ds == dsFront + dsRow;
      forall k | 0 <= k < |idx| ensures idx[k].0 < |q1| && idx[k].1 < |q2| &&
        ds[k] == Duplicate(q1[idx[k].0].number, q2[idx[k].1].number, q1[idx[k].0].body)
      {
        if k < |front| {
          assert idx[k] == front[k] && ds[k] == dsFront[k];
        } else {
          assert idx[k] == row[k - |front|] && ds[k] == dsRow[k - |front|];
        }
      }
    }
  }

  /** The positions of the similar pairs the first `m` questions of `q1`
      find. */
  lemma {:induction false} SimsIndexed(similarity: (string, string) -> real, q1: seq<Question>, q2: seq<Question>,
    m: nat) returns (idx: seq<(nat, nat)>)
    requires m <= |q1|
    ensures Increasing(idx)
    ensures forall p :: p in idx <==> p.0 < m && SimAt(similarity, q1, q2, p)
    ensures |idx| == |Sims(similarity, q1[..m], q2)|
    ensures forall k :: 0 <= k < |idx| ==>
      idx[k].0 < |q1| && idx[k].1 < |q2| &&
      Sims(similarity, q1[..m], q2)[k] == Similar(q1[idx[k].0].number, q2[idx[k].1].number,
        q1[idx[k].0].body, q2[idx[k].1].body, similarity(q1[idx[k].0].body, q2[idx[k].1].body))
  {
    if m == 0 {
      idx := [];
      assert q1[..0] == [];
    } else {
      var front := SimsIndexed(similarity, q1, q2, m - 1);
      var row := SimRowIndexed(similarity, q1, q2, m - 1, |q2|);
      assert q2[..|q2|] == q2;
      ListStep(similarity, q1, q2, m - 1);
      IncreasingAppend(front, row);
      idx := front + row;
      var ss := Sims(similarity, q1[..m], q2);
      var ssFront := Sims(similarity, q1[..m - 1], q2);
      var ssRow := SimRow(similarity, q1[m - 1], q2);
      assert ss == ssFront + ssRow;
      forall k | 0 <= k < |idx| ensures idx[k].0 < |q1| && idx[k].1 < |q2| &&
        ss[k] == Similar(q1[idx[k].0].number, q2[idx[k].1].number,
          q1[idx[k].0].body, q2[idx[k].1].body, similarity(q1[idx[k].0].body, q2[idx[k].1].body))
      {
        if k < |front| {
          assert idx[k] == front[k] && ss[k] == ssFront[k];
        } else {
          assert idx[k] == row[k - |front|] && ss[k] == ssRow[k - |front|];
        }
      }
    }
  }

  /** `duplicates` has one entry per pair of positions `(i, j)` whose
      questions score 1.0, in the `(i, j)` order of the two loops, and the
      entry is built from the questions at those positions. */
  lemma DupsInOrder(similarity: (string, string) -> real, q1: seq<Question>, q2: seq<Question>)
    returns (idx: seq<(nat, nat)>)
    ensures Increasing(idx)
    ensures forall p :: p in idx <==> DupAt(similarity, q1, q2, p)
    ensures |Dups(similarity, q1, q2)| == |idx|
    ensures forall k :: 0 <= k < |idx| ==>
      idx[k].0 < |q1| && idx[k].1 < |q2| &&
      Dups(similarity, q1, q2)[k] == Duplicate(q1[idx[k].0].number, q2[idx[k].1].number, q1[idx[k].0].body)
  {
    idx := DupsIndexed(similarity, q1, q2, |q1|);
    assert q1[..|q1|] == q1;
  }

  /** `similar` has one entry per pair of positions `(i, j)` whose questions
      score above 0.9 and not 1.0, in the `(i, j)` order of the two loops. */
  lemma SimsInOrder(similarity: (string, string) -> real, q1: seq<Question>, q2: seq<Question>)
    returns (idx: seq<(nat, nat)>)
    ensures Increasing(idx)
    ensures forall p :: p in idx <==> SimAt(similarity, q1, q2, p)
    ensures |Sims(similarity, q1, q2)| == |idx|
    ensures forall k :: 0 <= k < |idx| ==>
      idx[k].0 < |q1| && idx[k].1 < |q2| &&
      Sims(similarity, q1, q2)[k] == Similar(q1[idx[k].0].number, q2[idx[k].1].number,
        q1[idx[k].0].body, q2[idx[k].1].body, similarity(q1[idx[k].0].body, q2[idx[k].1].body))
  {
    idx := SimsIndexed(similarity, q1, q2, |q1|);
    assert q1[..|q1|] == q1;
  }

  /** The pairs of positions whose questions score 1.0. */
  function DupPairs(similarity: (string, string) -> real, q1: seq<Question>, q2: seq<Question>): set<(nat, nat)> {
    set i: nat, j: nat | i < |q1| && j < |q2| && similarity(q1[i].body, q2[j].body) == 1.0 :: (i, j)
  }

  /** The pairs of positions whose questions score above 0.9 and not 1.0. */
  function SimPairs(similarity: (string, string) -> real, q1: seq<Question>, q2: seq<Question>): set<(nat, nat)> {
    set i: nat, j: nat | i < |q1| && j < |q2| &&
      similarity(q1[i].body, q2[j].body) != 1.0 && similarity(q1[i].body, q2[j].body) > 0.9 :: (i, j)
  }

  /** `dup_count` and `sim_count` are the numbers of question pairs scoring
      1.0 and scoring above 0.9 but not 1.0: the lists neither merge equal
      entries nor miss a pair. */
  lemma CountsArePairs(similarity: (string, string) -> real, q1: seq<Question>, q2: seq<Question>)
    ensures |Dups(similarity, q1, q2)| == |DupPairs(similarity, q1, q2)|
    ensures |Sims(similarity, q1, q2)| == |SimPairs(similarity, q1, q2)|
  {
    var di := DupsInOrder(similarity, q1, q2);
    IncreasingCard(di);
    assert (set p | p in di) == DupPairs(similarity, q1, q2);
    var si := SimsInOrder(similarity, q1, q2);
    IncreasingCard(si);
    assert (set p | p in si) == SimPairs(similarity, q1, q2);
  }

  /** Each question of `q2` is classified at most once against `a`. */
  lemma {:induction false} RowBound(similarity: (string, string) -> real, a: Question, q2: seq<Question>)
    ensures |DupRow(similarity, a, q2)| + |SimRow(similarity, a, q2)| <= |q2|
  {
    if q2 != [] {
      RowBound(similarity, a, q2[..|q2| - 1]);
    }
  }

  /** Each cross pair is classified at most once, so the two lists together
      hold no more entries than there are pairs. */
  lemma {:induction false} CrossBound(similarity: (string, string) -> real, q1: seq<Question>, q2: seq<Question>)
    ensures |Dups(similarity, q1, q2)| + |Sims(similarity, q1, q2)| <= |q1| * |q2|
  {
    if q1 != [] {
      CrossBound(similarity, q1[..|q1| - 1], q2);
      RowBound(similarity, q1[|q1| - 1], q2);
      assert |q1| * |q2| == (|q1| - 1) * |q2| + |q2|;
    }
  }

  /** With a similarity in `[0, 1]`, every similar pair scores strictly between
      0.9 and 1.0. */
  lemma SimilarScoresBetween(similarity: (string, string) -> real, q1: seq<Question>, q2: seq<Question>)
    requires forall x, y :: 0.0 <= similarity(x, y) <= 1.0
    ensures forall s :: s in Sims(similarity, q1, q2) ==> 0.9 < s.score < 1.0
  {
    SimsMembers(similarity, q1, q2);
  }

  /** One more question of `q2` extends both rows by its verdict. */
  lemma RowStep(similarity: (string, string) -> real, a: Question, q2: seq<Question>, j: nat)
    requires j < |q2|
    ensures DupRow(similarity, a, q2[..j + 1]) == DupRow(similarity, a, q2[..j]) +
      (if similarity(a.body, q2[j].body) == 1.0 then [Duplicate(a.number, q2[j].number, a.body)] else [])
    ensures SimRow(similarity, a, q2[..j + 1]) == SimRow(similarity, a, q2[..j]) +
      (if similarity(a.body, q2[j].body) != 1.0 && similarity(a.body, q2[j].body) > 0.9
       then [Similar(a.number, q2[j].number, a.body, q2[j].body, similarity(a.body, q2[j].body))]
       else [])
  {
    assert q2[..j + 1][..j] == q2[..j];
  }

  /** One more question of `q1` extends both lists by its rows. */
  lemma ListStep(similarity: (string, string) -> real, q1: seq<Question>, q2: seq<Question>, i: nat)
    requires i < |q1|
    ensures Dups(similarity, q1[..i + 1], q2) == Dups(similarity, q1[..i], q2) + DupRow(similarity, q1[i], q2)
    ensures Sims(similarity, q1[..i + 1], q2) == Sims(similarity, q1[..i], q2) + SimRow(similarity, q1[i], q2)
  {
    assert q1[..i + 1][..i] == q1[..i];
  }

  /** The double loop over the two question lists. */
  method ClassifyPairs(similarity: (string, string) -> real, q1: seq<Question>, q2: seq<Question>)
    returns (duplicates: seq<Duplicate>, similar: seq<Similar>)
    ensures duplicates == Dups(similarity, q1, q2) && similar == Sims(similarity, q1, q2)
  {
    duplicates := [];
    similar := [];
    for i := 0 to |q1|
      invariant duplicates == Dups(similarity, q1[..i], q2) && similar == Sims(similarity, q1[..i], q2)
    {
      var a := q1[i];
      for j := 0 to |q2|
        invariant duplicates == Dups(similarity, q1[..i], q2) + DupRow(similarity, a, q2[..j])
        invariant similar == Sims(similarity, q1[..i], q2) + SimRow(similarity, a, q2[..j])
      {
        RowStep(similarity, a, q2, j);
        var b := q2[j];
        var sim := similarity(a.body, b.body);
        if sim == 1.0 {
          duplicates := duplicates + [Duplicate(a.number, b.number, a.body)];
        } else if sim > 0.9 {
          similar := similar + [Similar(a.number, b.number, a.body, b.body, sim)];
        }
      }
      assert q2[..|q2|] == q2;
      ListStep(similarity, q1, q2, i);
    }
    assert q1[..|q1|] == q1;
  }

  /** The value of a rate: `count / over`, or 0 when `over` is 0. */
  function Value(f: Fraction): real {
    if f.over > 0 then f.count as real / f.over as real else 0.0
  }

  /** `count / min(total1, total2)`, or 0 when either document has no
      question. */
  function Rate(count: nat, total1: nat, total2: nat): Fraction {
    Fraction(count, if total1 < total2 then total1 else total2)
  }

  /** A rate times the smaller total gives back the count; rates are never
      negative, grow with the count, and are 0 when either side is empty. */
  lemma RateSpec(c1: nat, c2: nat, total1: nat, total2: nat)
    requires c1 <= c2
    ensures total1 > 0 && total2 > 0 ==>
      Value(Rate(c2, total1, total2)) * (if total1 < total2 then total1 else total2) as real == c2 as real
    ensures 0.0 <= Value(Rate(c1, total1, total2)) <= Value(Rate(c2, total1, total2))
    ensures total1 == 0 || total2 == 0 ==> Value(Rate(c2, total1, total2)) == 0.0
  {
    var m := if total1 < total2 then total1 else total2;
    if m > 0 {
      DivMonotone(c1 as real, c2 as real, m as real);
    }
  }

  lemma DivMonotone(x: real, y: real, m: real)
    requires 0.0 <= x <= y && m > 0.0
    ensures 0.0 <= x / m <= y / m && y / m * m == y
  {
    assert y / m - x / m == (y - x) / m;
    assert (y - x) / m * m == y - x;
  }

  /** A rate is not capped at 1: one question matching two identical ones
      on the other side gives a duplicate rate of 2. */
  lemma RateCanExceedOne()
    ensures var q := Question(1, "q");
      var c := Compare((x: string, y: string) => 1.0, "a", "b", [q], [q, q]);
      c.dupCount == 2 && Value(c.dupRate) == 2.0
  {
    var q := Question(1, "q");
    var similarity := (x: string, y: string) => 1.0;
    assert [q, q][..1] == [q];
    assert [q][..0] == [];
    assert DupRow(similarity, q, [q]) == [Duplicate(1, 1, "q")];
    assert DupRow(similarity, q, [q, q]) == [Duplicate(1, 1, "q"), Duplicate(1, 1, "q")];
    assert Dups(similarity, [q], [q, q]) == DupRow(similarity, q, [q, q]);
  }

  /** One entry of `results`, from the two names and their question lists. */
  function Compare(similarity: (string, string) -> real, file1: string, file2: string,
    q1: seq<Question>, q2: seq<Question>): Comparison
  {
    var duplicates := Dups(similarity, q1, q2);
    var similar := Sims(similarity, q1, q2);
    Comparison(file1, file2, duplicates, similar, |duplicates|, |similar|,
      Rate(|duplicates|, |q1|, |q2|), Rate(|duplicates| + |similar|, |q1|, |q2|), |q1|, |q2|)
  }

  /** What a comparison promises: counts are the lengths of the lists and
      the numbers of qualifying question pairs, together no more than all
      the pairs; each entry is a real match; and the duplicate rate never
      exceeds the similarity rate, both 0 for an empty side. */
  lemma CompareSpec(similarity: (string, string) -> real, file1: string, file2: string,
    q1: seq<Question>, q2: seq<Question>)
    ensures var c := Compare(similarity, file1, file2, q1, q2);
      && c.dupCount == |c.duplicates| && c.simCount == |c.similar|
      && c.dupCount == |DupPairs(similarity, q1, q2)| && c.simCount == |SimPairs(similarity, q1, q2)|
      && c.dupCount + c.simCount <= c.total1 * c.total2
      && (forall d :: d in c.duplicates <==> IsDuplicateOf(similarity, d, q1, q2))
      && (forall s :: s in c.similar <==> IsSimilarOf(similarity, s, q1, q2))
      && 0.0 <= Value(c.dupRate) <= Value(c.simRate)
      && (c.total1 == 0 || c.total2 == 0 ==> Value(c.simRate) == 0.0)
  {
    CrossBound(similarity, q1, q2);
    CountsArePairs(similarity, q1, q2);
    DupsMembers(similarity, q1, q2);
    SimsMembers(similarity, q1, q2);
    var d := |Dups(similarity, q1, q2)|;
    RateSpec(d, d + |Sims(similarity, q1, q2)|, |q1|, |q2|);
  }

  predicate Covers(keys: seq<string>, table: map<string, seq<Question>>) {
    forall k :: k in keys ==> k in table
  }

  /** `all_questions[name]`: the questions stored under a name (none for a
      name that is not a key, which the loops never look up). */
  function Lookup(table: map<string, seq<Question>>, name: string): seq<Question> {
    if name in table then table[name] else []
  }

  /** The comparison the loops make for two names. */
  function CompareNames(similarity: (string, string) -> real, table: map<string, seq<Question>>):
    (string, string) -> Comparison
  {
    (file1: string, file2: string) => Compare(similarity, file1, file2, Lookup(table, file1), Lookup(table, file2))
  }

  /** `compare_documents(files)` on documents given as names and paragraphs:
      the comparisons of the keys in the order of the two loops. */
  function Comparisons(similarity: (string, string) -> real, docs: seq<Document>): seq<Comparison> {
    UpToOf(CompareNames(similarity, LatestTable(docs)), KeyOrder(docs), |KeyOrder(docs)|)
  }

  /** The `t`-th result compares the keys at the positions of the `t`-th
      pair of `Pairs.AllPairs`. */
  lemma ComparisonsIndex(similarity: (string, string) -> real, docs: seq<Document>,
    keys: seq<string>, table: map<string, seq<Question>>, t: nat)
    requires keys == KeyOrder(docs) && table == LatestTable(docs)
    requires t < |Comparisons(similarity, docs)|
    ensures t < |AllPairs(|keys|)|
    ensures AllPairs(|keys|)[t].0 < AllPairs(|keys|)[t].1 < |keys|
    ensures Comparisons(similarity, docs)[t] ==
      CompareNames(similarity, table)(keys[AllPairs(|keys|)[t].0], keys[AllPairs(|keys|)[t].1])
  {
    UpToOfLength(CompareNames(similarity, table), keys, |keys|);
    UpToOfIndex(CompareNames(similarity, table), keys, |keys|, t);
  }

  /** `k` distinct names give `k * (k - 1) / 2` results. */
  lemma ComparisonsCount(similarity: (string, string) -> real, docs: seq<Document>, keys: seq<string>)
    requires keys == KeyOrder(docs)
    ensures |Comparisons(similarity, docs)| == |keys| * (|keys| - 1) / 2
  {
    UpToOfCount(CompareNames(similarity, LatestTable(docs)), keys);
  }

  /** Each result compares the `a`-th key with the `b`-th key for some
      `a < b`, two different names, using the questions the table holds for
      them. */
  lemma ComparisonAt(similarity: (string, string) -> real, docs: seq<Document>,
    keys: seq<string>, table: map<string, seq<Question>>, rs: seq<Comparison>, t: nat)
    requires keys == KeyOrder(docs) && table == LatestTable(docs) && rs == Comparisons(similarity, docs)
    requires t < |rs|
    ensures rs[t].file1 != rs[t].file2
    ensures exists a, b ::
      && 0 <= a < b < |keys| && keys[a] in table && keys[b] in table
      && rs[t] == Compare(similarity, keys[a], keys[b], table[keys[a]], table[keys[b]])
  {
    KeyOrderDistinct(docs);
    TableDomain(docs);
    ComparisonsIndex(similarity, docs, keys, table, t);
    var p := AllPairs(|keys|)[t];
    assert keys[p.0] in table && keys[p.1] in table;
  }

  /** Every pair of distinct names, the earlier key first, is compared. */
  lemma ComparisonsCover(similarity: (string, string) -> real, docs: seq<Document>,
    keys: seq<string>, rs: seq<Comparison>, a: nat, b: nat)
    requires keys == KeyOrder(docs) && rs == Comparisons(similarity, docs)
    requires a < b < |keys|
    ensures exists t :: 0 <= t < |rs| && rs[t].file1 == keys[a] && rs[t].file2 == keys[b]
  {
    var t := AllPairsIndexOf(|keys|, a, b);
    UpToOfLength(CompareNames(similarity, LatestTable(docs)), keys, |keys|);
    ComparisonsIndex(similarity, docs, keys, LatestTable(docs), t);
    assert rs[t].file1 == keys[a] && rs[t].file2 == keys[b];
  }

  /** No pair of names is compared twice: the results follow the key
      positions in lexicographic order. */
  lemma ComparisonsUnique(similarity: (string, string) -> real, docs: seq<Document>,
    keys: seq<string>, rs: seq<Comparison>, t: nat, u: nat)
    requires keys == KeyOrder(docs) && rs == Comparisons(similarity, docs)
    requires t < u < |rs|
    ensures (rs[t].file1, rs[t].file2) != (rs[u].file1, rs[u].file2)
  {
    KeyOrderDistinct(docs);
    AllPairsSpec(|keys|);
    var ps := AllPairs(|keys|);
    ComparisonsIndex(similarity, docs, keys, LatestTable(docs), t);
    ComparisonsIndex(similarity, docs, keys, LatestTable(docs), u);
    assert Before(ps[t], ps[u]);
    if ps[t].0 < ps[u].0 {
      assert keys[ps[t].0] != keys[ps[u].0];
    } else {
      assert keys[ps[t].1] != keys[ps[u].1];
    }
  }

  /** With `calculate_similarity` as the similarity, two questions with the
      same words are listed as duplicates, provided the ratio scores a
      normalised text against itself as 1. */
  lemma SameWordsListedDuplicate(similarity: (string, string) -> real, ratio: (string, string) -> real,
    q1: seq<Question>, q2: seq<Question>, a: Question, b: Question)
    requires forall x, y :: similarity(x, y) == Score(ratio, x, y)
    requires a in q1 && b in q2 && Words(a.body) == Words(b.body)
    requires ratio(Normalize(a.body), Normalize(a.body)) == 1.0
    ensures Duplicate(a.number, b.number, a.body) in Dups(similarity, q1, q2)
  {
    SameWordsScoreOne(ratio, a.body, b.body);
    DupsMembers(similarity, q1, q2);
    assert IsDuplicateOf(similarity, Duplicate(a.number, b.number, a.body), q1, q2);
  }

  /** One pass of the inner loop: classify the pairs of questions of two
      documents and build the comparison entry for them. */
  method CompareEntry(similarity: (string, string) -> real, file1: string, file2: string,
    q1List: seq<Question>, q2List: seq<Question>) returns (entry: Comparison)
    ensures entry == Compare(similarity, file1, file2, q1List, q2List)
  {
    var duplicates, similar := ClassifyPairs(similarity, q1List, q2List);
    var total1 := |q1List|;
    var total2 := |q2List|;
    var dupCount := |duplicates|;
    var simCount := |similar|;
    var dupRate := Rate(dupCount, total1, total2);
    var simRate := Rate(dupCount + simCount, total1, total2);
    entry := Comparison(file1, file2, duplicates, similar, dupCount, simCount,
      dupRate, simRate, total1, total2);
  }

  /** The second phase of `compare_documents`: compare the `i`-th and the
      `j`-th name for every `i < j`. */
  method CompareTable(similarity: (string, string) -> real, filenames: seq<string>,
    allQuestions: map<string, seq<Question>>) returns (results: seq<Comparison>)
    requires Covers(filenames, allQuestions)
    ensures results == UpToOf(CompareNames(similarity, allQuestions), filenames, |filenames|)
  {
    var n := |filenames|;
    results := [];
    for i := 0 to n
      invariant results == UpToOf(CompareNames(similarity, allQuestions), filenames, i)
    {
      results := CompareRow(similarity, filenames, allQuestions, i, results);
    }
  }

  /** The inner loop for the `i`-th name: compare it with every later name,
      appending each entry to `results`. */
  method CompareRow(similarity: (string, string) -> real, filenames: seq<string>,
    allQuestions: map<string, seq<Question>>, i: nat, done: seq<Comparison>) returns (results: seq<Comparison>)
    requires Covers(filenames, allQuestions) && i < |filenames|
    ensures results == done + RowOf(CompareNames(similarity, allQuestions), filenames, i, |filenames|)
  {
    var n := |filenames|;
    results := done;
    for j := i + 1 to n
      invariant results == done + RowOf(CompareNames(similarity, allQuestions), filenames, i, j)
    {
      var file1 := filenames[i];
      var file2 := filenames[j];
      var entry := CompareEntry(similarity, file1, file2, allQuestions[file1], allQuestions[file2]);
      assert Lookup(allQuestions, file1) == allQuestions[file1] && Lookup(allQuestions, file2) == allQuestions[file2];
      assert CompareNames(similarity, allQuestions)(file1, file2) ==
        Compare(similarity, file1, file2, Lookup(allQuestions, file1), Lookup(allQuestions, file2));
      RowOfStep(CompareNames(similarity, allQuestions), filenames, i, j);
      results := results + [entry];
    }
  }

  /** `compare_documents`: build the table, then compare every pair of
      names. */
  method CompareDocuments(similarity: (string, string) -> real, docs: seq<Document>)
    returns (results: seq<Comparison>)
    ensures results == Comparisons(similarity, docs)
  {
    var filenames, allQuestions := BuildTable(docs);
    TableDomain(docs);
    results := CompareTable(similarity, filenames, allQuestions);
  }
}
