/**
 * The order in which `compare_documents` visits pairs of documents: `for i
 * in range(n): for j in range(i + 1, n)`, as a sequence of index pairs.
 */
module Pairs {

  /** The pairs `(i, i + 1)`, ..., `(i, j - 1)`: the inner loop run up to `j`. */
  function PairRow(i: nat, j: nat): (ps: seq<(nat, nat)>)
    ensures |ps| == if j > i then j - i - 1 else 0
    decreases j
  {
    if j <= i + 1 then [] else PairRow(i, j - 1) + [(i, j - 1)]
  }

  /** The pairs visited by the first `i` runs of the outer loop over `n`
      documents. */
  function PairsUpTo(i: nat, n: nat): (ps: seq<(nat, nat)>)
  {
    if i == 0 then [] else PairsUpTo(i - 1, n) + PairRow(i - 1, n)
  }

  /** All the pairs visited for `n` documents. */
  function AllPairs(n: nat): seq<(nat, nat)> {
    PairsUpTo(n, n)
  }

  /** Lexicographic order on index pairs. */
  predicate Before(p: (nat, nat), q: (nat, nat)) {
    p.0 < q.0 || (p.0 == q.0 && p.1 < q.1)
  }

  predicate Increasing(ps: seq<(nat, nat)>) {
    forall a, b :: 0 <= a < b < |ps| ==> Before(ps[a], ps[b])
  }

  /** Two increasing runs, every pair of the first before every pair of the
      second, make one increasing run. */
  lemma IncreasingAppend(a: seq<(nat, nat)>, b: seq<(nat, nat)>)
    requires Increasing(a) && Increasing(b)
    requires forall p, q :: p in a && q in b ==> Before(p, q)
    ensures Increasing(a + b)
  {
    var ab := a + b;
    forall x, y | 0 <= x < y < |ab| ensures Before(ab[x], ab[y]) {
      if y < |a| {
        assert ab[x] == a[x] && ab[y] == a[y];
      } else if x < |a| {
        assert ab[x] == a[x] && a[x] in a;
        assert ab[y] == b[y - |a|] && b[y - |a|] in b;
      } else {
        assert ab[x] == b[x - |a|] && ab[y] == b[y - |a|];
      }
    }
  }

  /** An increasing run holds no pair twice, so it has as many pairs as the
      set of its elements. */
  lemma {:induction false} IncreasingCard(ps: seq<(nat, nat)>)
    requires Increasing(ps)
    ensures |set p | p in ps| == |ps|
  {
    if ps != [] {
      var front := ps[..|ps| - 1];
      var last := ps[|ps| - 1];
      assert Increasing(front);
      IncreasingCard(front);
      assert last !in front by {
        forall x | 0 <= x < |front| ensures front[x] != last {
          assert Before(ps[x], ps[|ps| - 1]);
        }
      }
      assert ps == front + [last];
      assert (set p | p in ps) == (set p | p in front) + {last};
    }
  }

  lemma {:induction false} PairRowElements(i: nat, j: nat)
    ensures forall d :: 0 <= d < |PairRow(i, j)| ==> PairRow(i, j)[d] == (i, i + 1 + d)
    decreases j
  {
    if j > i + 1 {
      PairRowElements(i, j - 1);
    }
  }

  /** The row is the pairs `(i, j')` with `i < j' < j`, in increasing order. */
  lemma PairRowSpec(i: nat, j: nat)
    ensures forall p :: p in PairRow(i, j) <==> p.0 == i && i < p.1 < j
    ensures Increasing(PairRow(i, j))
  {
    PairRowElements(i, j);
    var row := PairRow(i, j);
    forall p: (nat, nat) | i < p.1 < j && p.0 == i ensures p in row {
      assert row[p.1 - i - 1] == p;
    }
  }

  /** What the two loops visit: exactly the pairs `i < j < n` whose first
      index is below the outer bound, each once, in lexicographic order. */
  lemma {:induction false} PairsUpToSpec(i: nat, n: nat)
    ensures forall p :: p in PairsUpTo(i, n) <==> p.0 < i && p.0 < p.1 < n
    ensures Increasing(PairsUpTo(i, n))
  {
    if i > 0 {
      PairsUpToSpec(i - 1, n);
      PairRowSpec(i - 1, n);
      var front := PairsUpTo(i - 1, n);
      var row := PairRow(i - 1, n);
      var ps := front + row;
      forall a, b | 0 <= a < b < |ps| ensures Before(ps[a], ps[b]) {
        if b < |front| {
          assert ps[a] == front[a] && ps[b] == front[b];
        } else if a < |front| {
          assert ps[a] == front[a] && ps[a] in front;
          assert ps[b] == row[b - |front|] && ps[b] in row;
        } else {
          assert ps[a] == row[a - |front|] && ps[b] == row[b - |front|];
        }
      }
    }
  }

  lemma {:induction false} PairsUpToCount(i: nat, n: nat)
    requires i <= n
    ensures 2 * |PairsUpTo(i, n)| == i * (2 * n - i - 1)
  {
    if i > 0 {
      PairsUpToCount(i - 1, n);
      assert |PairRow(i - 1, n)| == n - i;
      CountStep(i, n);
    }
  }

  lemma CountStep(i: int, n: int)
    ensures (i - 1) * (2 * n - i) + 2 * (n - i) == i * (2 * n - i - 1)
  {
    assert (i - 1) * (2 * n - i) == i * (2 * n - i) - (2 * n - i);
    assert i * (2 * n - i - 1) == i * (2 * n - i) - i;
  }

  /** `n` positions make `n * (n - 1) / 2` pairs. */
  lemma AllPairsCount(n: nat)
    ensures |AllPairs(n)| == n * (n - 1) / 2
  {
    PairsUpToCount(n, n);
  }

  /** Every pair of positions `a < b` has its place in `AllPairs`. */
  lemma AllPairsIndexOf(n: nat, a: nat, b: nat) returns (t: nat)
    requires a < b < n
    ensures t < |AllPairs(n)| && AllPairs(n)[t] == (a, b)
  {
    AllPairsSpec(n);
    var p: (nat, nat) := (a, b);
    assert p in AllPairs(n);
    t :| 0 <= t < |AllPairs(n)| && AllPairs(n)[t] == p;
  }

  lemma AllPairsSpec(n: nat)
    ensures |AllPairs(n)| == n * (n - 1) / 2
    ensures forall p :: p in AllPairs(n) <==> p.0 < p.1 < n
    ensures Increasing(AllPairs(n))
  {
    AllPairsCount(n);
    PairsUpToSpec(n, n);
    if n > 0 {
      assert forall p: (nat, nat) :: p.0 < p.1 < n ==> p.0 < n;
    }
  }

  /** The `t`-th pair visited lies in the `i`-th run's row or in an
      earlier run; its first index is below its second, both below `n`. */
  lemma PairsUpToAt(i: nat, n: nat, t: nat)
    requires 0 < i <= n && t < |PairsUpTo(i, n)|
    ensures PairsUpTo(i, n)[t].0 < PairsUpTo(i, n)[t].1 < n
    ensures t < |PairsUpTo(i - 1, n)| ==> PairsUpTo(i, n)[t] == PairsUpTo(i - 1, n)[t]
    ensures t >= |PairsUpTo(i - 1, n)| ==>
      PairsUpTo(i, n)[t] == (i - 1, i + t - |PairsUpTo(i - 1, n)|)
  {
    var front := PairsUpTo(i - 1, n);
    var row := PairRow(i - 1, n);
    PairsUpToSpec(i, n);
    assert PairsUpTo(i, n)[t] in PairsUpTo(i, n);
    if t >= |front| {
      PairRowElements(i - 1, n);
      assert PairsUpTo(i, n)[t] == row[t - |front|];
    }
  }

  /** What the inner loop yields for the `i`-th key, run up to `j`, when
      visiting the keys `x` and `y` yields `f(x, y)`. */
  function RowOf<K, T>(f: (K, K) -> T, keys: seq<K>, i: nat, j: nat): (r: seq<T>)
    requires i < |keys| && j <= |keys|
    ensures |r| == if j > i then j - i - 1 else 0
    decreases j
  {
    if j <= i + 1 then [] else RowOf(f, keys, i, j - 1) + [f(keys[i], keys[j - 1])]
  }

  /** What the first `i` runs of the outer loop yield. */
  function UpToOf<K, T>(f: (K, K) -> T, keys: seq<K>, i: nat): (r: seq<T>)
    requires i <= |keys|
  {
    if i == 0 then [] else UpToOf(f, keys, i - 1) + RowOf(f, keys, i - 1, |keys|)
  }

  /** The loops yield one item per pair they visit. */
  lemma {:induction false} UpToOfLength<K, T>(f: (K, K) -> T, keys: seq<K>, i: nat)
    requires i <= |keys|
    ensures |UpToOf(f, keys, i)| == |PairsUpTo(i, |keys|)|
  {
    if i > 0 {
      UpToOfLength(f, keys, i - 1);
    }
  }

  /** Visiting all pairs of `k` keys makes `k * (k - 1) / 2` visits. */
  lemma UpToOfCount<K, T>(f: (K, K) -> T, keys: seq<K>)
    ensures |UpToOf(f, keys, |keys|)| == |keys| * (|keys| - 1) / 2
  {
    UpToOfLength(f, keys, |keys|);
    AllPairsCount(|keys|);
  }

  /** One more run of the inner loop appends the visit of the `i`-th and
      the `j`-th key. */
  lemma RowOfStep<K, T>(f: (K, K) -> T, keys: seq<K>, i: nat, j: nat)
    requires i < j < |keys|
    ensures RowOf(f, keys, i, j + 1) == RowOf(f, keys, i, j) + [f(keys[i], keys[j])]
  {
  }

  lemma {:induction false} RowOfIndex<K, T>(f: (K, K) -> T, keys: seq<K>, i: nat, j: nat, t: nat)
    requires i < |keys| && j <= |keys| && t < |PairRow(i, j)|
    ensures i + 1 + t < j
    ensures RowOf(f, keys, i, j)[t] == f(keys[i], keys[i + 1 + t])
    decreases j
  {
    if t < |PairRow(i, j - 1)| {
      RowOfIndex(f, keys, i, j - 1, t);
    }
  }

  /** The `t`-th item the loops yield is the visit of the keys at the
      positions of the `t`-th pair they visit. */
  lemma {:induction false} UpToOfIndex<K, T>(f: (K, K) -> T, keys: seq<K>, i: nat, t: nat)
    requires i <= |keys| && t < |PairsUpTo(i, |keys|)|
    ensures PairsUpTo(i, |keys|)[t].0 < PairsUpTo(i, |keys|)[t].1 < |keys|
    ensures |UpToOf(f, keys, i)| == |PairsUpTo(i, |keys|)|
    ensures UpToOf(f, keys, i)[t] == f(keys[PairsUpTo(i, |keys|)[t].0], keys[PairsUpTo(i, |keys|)[t].1])
  {
    var n := |keys|;
    UpToOfLength(f, keys, i);
    PairsUpToAt(i, n, t);
    var m := |PairsUpTo(i - 1, n)|;
    if t < m {
      UpToOfIndex(f, keys, i - 1, t);
    } else {
      RowOfIndex(f, keys, i - 1, n, t - m);
    }
  }
}
