/** Vectors of counters, one slot per statistic, and their sums. */
module Tally {
  import Seqs

  type Counts = seq<int>

  function Zeros(k: nat): (z: Counts)
    ensures |z| == k && forall i :: 0 <= i < k ==> z[i] == 0
  {
    seq(k, _ => 0)
  }

  /** Slot-by-slot addition: one pass of the `+=` lines of a collector. */
  function Add(a: Counts, b: Counts): (c: Counts)
    requires |a| == |b|
    ensures |c| == |a| && forall i :: 0 <= i < |a| ==> c[i] == a[i] + b[i]
  {
    seq(|a|, i requires 0 <= i < |a| => a[i] + b[i])
  }

  /** Every vector in `rows` has `k` slots. */
  predicate Uniform(k: nat, rows: seq<Counts>) {
    forall i :: 0 <= i < |rows| ==> |rows[i]| == k
  }

  /** The slot-by-slot sum of a sequence of vectors. */
  function Sum(k: nat, rows: seq<Counts>): (s: Counts)
    requires Uniform(k, rows)
    ensures |s| == k
    decreases |rows|
  {
    if |rows| == 0 then Zeros(k) else Add(rows[0], Sum(k, rows[1..]))
  }

  /** The ordinary sum of a sequence of integers. */
  function Total(xs: seq<int>): int
    decreases |xs|
  {
    if |xs| == 0 then 0 else xs[0] + Total(xs[1..])
  }

  /** Slot `j` of every vector: one statistic across all records. */
  function Column(rows: seq<Counts>, j: nat): (c: seq<int>)
    requires forall i :: 0 <= i < |rows| ==> j < |rows[i]|
    ensures |c| == |rows| && forall i :: 0 <= i < |rows| ==> c[i] == rows[i][j]
  {
    seq(|rows|, i requires 0 <= i < |rows| => rows[i][j])
  }

  /** Each slot of the vector sum is the total of that statistic over all
      rows; with no rows every slot is 0. */
  lemma {:induction false} SumIsColumnTotal(k: nat, rows: seq<Counts>, j: nat)
    requires Uniform(k, rows) && j < k
    ensures Sum(k, rows)[j] == Total(Column(rows, j))
    decreases |rows|
  {
    if |rows| > 0 {
      SumIsColumnTotal(k, rows[1..], j);
      assert Column(rows, j)[1..] == Column(rows[1..], j);
    }
  }

  lemma AddAssociative(a: Counts, b: Counts, c: Counts)
    requires |a| == |b| == |c|
    ensures Add(Add(a, b), c) == Add(a, Add(b, c))
  {
  }

  lemma AddCommutative(a: Counts, b: Counts)
    requires |a| == |b|
    ensures Add(a, b) == Add(b, a)
  {
  }

  lemma AddZeros(a: Counts)
    ensures Add(Zeros(|a|), a) == a && Add(a, Zeros(|a|)) == a
  {
  }

  /** Summing the concatenation of two runs of records adds their sums. */
  lemma {:induction false} SumAppend(k: nat, a: seq<Counts>, b: seq<Counts>)
    requires Uniform(k, a) && Uniform(k, b)
    ensures Uniform(k, a + b)
    ensures Sum(k, a + b) == Add(Sum(k, a), Sum(k, b))
    decreases |a|
  {
    if |a| == 0 {
      assert a + b == b;
      AddZeros(Sum(k, b));
    } else {
      assert (a + b)[1..] == a[1..] + b;
      SumAppend(k, a[1..], b);
      AddAssociative(a[0], Sum(k, a[1..]), Sum(k, b));
    }
  }

  /** Taking one record out of the middle of a run takes it out of the sum. */
  lemma SumRemove(k: nat, b: seq<Counts>, j: nat)
    requires Uniform(k, b) && j < |b|
    ensures Uniform(k, b[..j] + b[j + 1..])
    ensures Sum(k, b) == Add(b[j], Sum(k, b[..j] + b[j + 1..]))
  {
    var x, left, right := b[j], b[..j], b[j + 1..];
    assert b == left + ([x] + right);
    SumAppend(k, left, right);
    SumAppend(k, left, [x] + right);
    assert ([x] + right)[1..] == right;
    AddAssociative(Sum(k, left), x, Sum(k, right));
    AddCommutative(Sum(k, left), x);
    AddAssociative(x, Sum(k, left), Sum(k, right));
  }

  /** The sum does not depend on the order of the records. */
  lemma {:induction false} SumPermutation(k: nat, a: seq<Counts>, b: seq<Counts>)
    requires Uniform(k, a) && Uniform(k, b)
    requires multiset(a) == multiset(b)
    ensures Sum(k, a) == Sum(k, b)
    decreases |a|
  {
    if |a| == 0 {
      assert |b| == |multiset(b)| == 0;
    } else {
      var x := a[0];
      assert x in multiset(b);
      var j :| 0 <= j < |b| && b[j] == x;
      var rest := b[..j] + b[j + 1..];
      Seqs.MultisetRemove(a, b, j);
      SumPermutation(k, a[1..], rest);
      SumRemove(k, b, j);
    }
  }
}
