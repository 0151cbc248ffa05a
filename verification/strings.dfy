/** String comparison and slicing as the handlers use them. */
module Strings {

  /** Python's `<=` on `str`, which compares code points one by one and
      puts a proper prefix first. DynamoDB compares string attributes by
      their UTF-8 bytes, which orders Unicode scalar values the same way,
      so this one relation serves both the scan filter and `sorted`. */
  predicate Le(a: string, b: string)
    decreases |a|
  {
    |a| == 0 || (|b| > 0 && (a[0] < b[0] || (a[0] == b[0] && Le(a[1..], b[1..]))))
  }

  /** Python's `str.startswith`. */
  predicate StartsWith(s: string, prefix: string) {
    |prefix| <= |s| && s[..|prefix|] == prefix
  }

  lemma {:induction false} LeReflexive(a: string)
    ensures Le(a, a)
    decreases |a|
  {
    if |a| > 0 {
      LeReflexive(a[1..]);
    }
  }

  lemma {:induction false} LeAntisymmetric(a: string, b: string)
    requires Le(a, b) && Le(b, a)
    ensures a == b
    decreases |a|
  {
    if |a| > 0 {
      LeAntisymmetric(a[1..], b[1..]);
      assert a == [a[0]] + a[1..];
      assert b == [b[0]] + b[1..];
    }
  }

  lemma {:induction false} LeTransitive(a: string, b: string, c: string)
    requires Le(a, b) && Le(b, c)
    ensures Le(a, c)
    decreases |a|
  {
    if |a| > 0 && a[0] == b[0] && b[0] == c[0] {
      LeTransitive(a[1..], b[1..], c[1..]);
    }
  }

  lemma {:induction false} LeTotal(a: string, b: string)
    ensures Le(a, b) || Le(b, a)
    decreases |a|
  {
    if |a| > 0 && |b| > 0 && a[0] == b[0] {
      LeTotal(a[1..], b[1..]);
    }
  }

  /** Comparing two strings that start with pieces of equal length: the
      first pieces decide unless they are equal, and then the rests do. */
  lemma {:induction false} LeConcat(p: string, q: string, r: string, s: string)
    requires |p| == |q|
    ensures Le(p + r, q + s) <==> (p != q && Le(p, q)) || (p == q && Le(r, s))
    decreases |p|
  {
    if |p| == 0 {
      assert p + r == r && q + s == s;
    } else {
      assert (p + r)[0] == p[0] && (q + s)[0] == q[0];
      assert (p + r)[1..] == p[1..] + r;
      assert (q + s)[1..] == q[1..] + s;
      assert p == [p[0]] + p[1..];
      assert q == [q[0]] + q[1..];
      LeConcat(p[1..], q[1..], r, s);
    }
  }

  /** Two strings that start with pieces of equal length are equal exactly
      when both the pieces and the rests are. */
  lemma SplitEqual(p: string, q: string, r: string, s: string)
    requires |p| == |q|
    ensures p + r == q + s <==> p == q && r == s
  {
    if p + r == q + s {
      assert p == (p + r)[..|p|] && q == (q + s)[..|q|];
      assert r == (p + r)[|p|..] && s == (q + s)[|q|..];
    }
  }
}
