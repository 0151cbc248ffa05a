/** Reading the counters of root-server records: each statistic is the
    integer found at one subscript path of the decoded record. */
module Records {
  import opened Wrappers
  import opened Json
  import opened Tally
  import Seqs

  /** `root[path[0]][path[1]]...` as the integer a collector adds. */
  function Statistic(root: Value, path: seq<string>): Result<int, Error> {
    var v :- GetPath(root, path);
    AsInt(v)
  }

  /** The statistics of one record, read path by path in the order the
      collector's `+=` lines read them; the first failing read raises. */
  function ReadCounts(root: Value, paths: seq<seq<string>>): (r: Result<Counts, Error>)
    ensures r.Success? ==> |r.value| == |paths|
    // `root` stays the same from call to call; leading the measure with it
    // keeps the verifier from unfolding a read of a constant path list in full.
    decreases root, |paths|
  {
    if |paths| == 0 then Success([])
    else
      var x :- Statistic(root, paths[0]);
      var rest :- ReadCounts(root, paths[1..]);
      Success([x] + rest)
  }

  /** Reading a record succeeds exactly when every path leads to an
      integer, and then slot `j` is the integer at path `j`. */
  lemma {:induction false} ReadCountsSpec(root: Value, paths: seq<seq<string>>)
    ensures ReadCounts(root, paths).Success? <==> forall j :: 0 <= j < |paths| ==> Statistic(root, paths[j]).Success?
    ensures ReadCounts(root, paths).Success? ==>
              forall j :: 0 <= j < |paths| ==> ReadCounts(root, paths).value[j] == Statistic(root, paths[j]).value
    decreases |paths|
  {
    if |paths| > 0 {
      ReadCountsSpec(root, paths[1..]);
      assert forall j :: 1 <= j < |paths| ==> paths[j] == paths[1..][j - 1];
    }
  }

  /** The statistics of every record, or the error of the first record that
      cannot be read. */
  function ReadAll(roots: seq<Value>, paths: seq<seq<string>>): (r: Result<seq<Counts>, Error>)
    ensures r.Success? ==> |r.value| == |roots| && Uniform(|paths|, r.value)
    decreases |roots|
  {
    if |roots| == 0 then Success([])
    else
      var c :- ReadCounts(roots[0], paths);
      var rest :- ReadAll(roots[1..], paths);
      Success([c] + rest)
  }

  /** Reading every record succeeds exactly when each record can be read,
      and then the readings are those of the records, in order. */
  lemma {:induction false} ReadAllElementwise(roots: seq<Value>, paths: seq<seq<string>>)
    ensures ReadAll(roots, paths).Success? <==>
              forall i :: 0 <= i < |roots| ==> ReadCounts(roots[i], paths).Success?
    ensures ReadAll(roots, paths).Success? ==>
              forall i :: 0 <= i < |roots| ==> ReadAll(roots, paths).value[i] == ReadCounts(roots[i], paths).value
    decreases |roots|
  {
    if |roots| > 0 {
      ReadAllElementwise(roots[1..], paths);
      if ReadCounts(roots[0], paths).Success? && ReadAll(roots[1..], paths).Success? {
        var rest := ReadAll(roots[1..], paths).value;
        assert forall i :: 1 <= i < |roots| ==> ReadAll(roots, paths).value[i] == rest[i - 1];
        assert forall i :: 1 <= i < |roots| ==> roots[i] == roots[1..][i - 1];
      } else if ReadCounts(roots[0], paths).Success? {
        var i :| 0 <= i < |roots[1..]| && ReadCounts(roots[1..][i], paths).Failure?;
        assert roots[1..][i] == roots[i + 1];
      }
    }
  }

  /** Reading `a + b` succeeds exactly when reading both halves does, and
      yields the readings of `a` followed by those of `b`. */
  lemma {:induction false} ReadAllAppend(a: seq<Value>, b: seq<Value>, paths: seq<seq<string>>)
    ensures ReadAll(a + b, paths).Success? <==> ReadAll(a, paths).Success? && ReadAll(b, paths).Success?
    ensures ReadAll(a + b, paths).Success? ==>
              ReadAll(a + b, paths).value == ReadAll(a, paths).value + ReadAll(b, paths).value
    decreases |a|
  {
    if |a| == 0 {
      assert a + b == b;
    } else {
      assert (a + b)[0] == a[0];
      assert (a + b)[1..] == a[1..] + b;
      ReadAllAppend(a[1..], b, paths);
    }
  }

  /** Reordering the records reorders their readings, and reading succeeds
      for one order exactly when it does for the other. */
  lemma {:induction false} ReadAllPermutation(a: seq<Value>, b: seq<Value>, paths: seq<seq<string>>)
    requires multiset(a) == multiset(b)
    ensures ReadAll(a, paths).Success? <==> ReadAll(b, paths).Success?
    ensures ReadAll(a, paths).Success? ==>
              multiset(ReadAll(a, paths).value) == multiset(ReadAll(b, paths).value)
    decreases |a|
  {
    if |a| == 0 {
      assert |b| == |multiset(b)| == 0;
    } else {
      var x := a[0];
      assert x in multiset(b);
      var j :| 0 <= j < |b| && b[j] == x;
      var rest := b[..j] + b[j + 1..];
      Seqs.MultisetRemove(a, b, j);
      ReadAllPermutation(a[1..], rest, paths);
      ReadAllRemove(b, j, paths);
      ReadAllAppend([x], a[1..], paths);
      assert a == [x] + a[1..];
    }
  }

  /** Taking record `j` out: the rest reads, and record `j`'s counters are
      the ones that go missing. */
  lemma ReadAllRemove(b: seq<Value>, j: nat, paths: seq<seq<string>>)
    requires j < |b|
    ensures ReadAll(b, paths).Success? <==>
              ReadAll([b[j]], paths).Success? && ReadAll(b[..j] + b[j + 1..], paths).Success?
    ensures ReadAll(b, paths).Success? ==>
              multiset(ReadAll(b, paths).value) ==
                multiset(ReadAll([b[j]], paths).value) + multiset(ReadAll(b[..j] + b[j + 1..], paths).value)
  {
    var left, right := b[..j], b[j + 1..];
    assert b == left + ([b[j]] + right);
    ReadAllAppend([b[j]], right, paths);
    ReadAllAppend(left, [b[j]] + right, paths);
    ReadAllAppend(left, right, paths);
  }
}
