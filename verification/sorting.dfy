/** Python's `sorted(items, key=...)` for string keys: a stable sort,
    modelled as insertion sort. */
module Sorting {
  import Strings

  /** Keys never decrease along `s`. */
  predicate SortedBy<T>(s: seq<T>, key: T -> string) {
    forall i, j :: 0 <= i < j < |s| ==> Strings.Le(key(s[i]), key(s[j]))
  }

  /** Puts `x` in front of the first element whose key is not below its own. */
  function Insert<T>(x: T, s: seq<T>, key: T -> string): seq<T>
    decreases |s|
  {
    if |s| == 0 then [x]
    else if Strings.Le(key(x), key(s[0])) then [x] + s
    else [s[0]] + Insert(x, s[1..], key)
  }

  /** Sorts by `key`; elements with equal keys keep their input order. */
  function SortBy<T>(s: seq<T>, key: T -> string): seq<T>
    decreases |s|
  {
    if |s| == 0 then [] else Insert(s[0], SortBy(s[1..], key), key)
  }

  /** The first element of a sorted sequence has the least key. */
  lemma HeadIsLeast<T>(s: seq<T>, key: T -> string, y: T)
    requires SortedBy(s, key) && y in multiset(s)
    ensures Strings.Le(key(s[0]), key(y))
  {
    var k :| 0 <= k < |s| && s[k] == y;
    if k == 0 {
      Strings.LeReflexive(key(y));
    }
  }

  /** A sorted sequence stays sorted with an element in front whose key is
      at most that of every element. */
  lemma ConsSorted<T>(x: T, s: seq<T>, key: T -> string)
    requires SortedBy(s, key)
    requires forall y :: y in multiset(s) ==> Strings.Le(key(x), key(y))
    ensures SortedBy([x] + s, key)
  {
    var r := [x] + s;
    forall i, j | 0 <= i < j < |r|
      ensures Strings.Le(key(r[i]), key(r[j]))
    {
      assert r[j] == s[j - 1];
      if i == 0 {
        assert s[j - 1] in multiset(s);
      } else {
        assert r[i] == s[i - 1];
      }
    }
  }

  lemma {:induction false} InsertSorted<T>(x: T, s: seq<T>, key: T -> string)
    requires SortedBy(s, key)
    ensures SortedBy(Insert(x, s, key), key)
    ensures multiset(Insert(x, s, key)) == multiset(s) + multiset{x}
    decreases |s|
  {
    if |s| == 0 {
    } else if Strings.Le(key(x), key(s[0])) {
      forall y | y in multiset(s)
        ensures Strings.Le(key(x), key(y))
      {
        HeadIsLeast(s, key, y);
        Strings.LeTransitive(key(x), key(s[0]), key(y));
      }
      ConsSorted(x, s, key);
    } else {
      Strings.LeTotal(key(x), key(s[0]));
      var rest := Insert(x, s[1..], key);
      assert s == [s[0]] + s[1..];
      assert SortedBy(s[1..], key);
      InsertSorted(x, s[1..], key);
      forall y | y in multiset(rest)
        ensures Strings.Le(key(s[0]), key(y))
      {
        if y != x {
          assert y in multiset(s);
          HeadIsLeast(s, key, y);
        }
      }
      ConsSorted(s[0], rest, key);
    }
  }

  /** The sort returns a permutation of its input, in key order. */
  lemma {:induction false} SortBySorted<T>(s: seq<T>, key: T -> string)
    ensures SortedBy(SortBy(s, key), key)
    ensures multiset(SortBy(s, key)) == multiset(s)
    decreases |s|
  {
    if |s| > 0 {
      SortBySorted(s[1..], key);
      InsertSorted(s[0], SortBy(s[1..], key), key);
      assert s == [s[0]] + s[1..];
    }
  }

  lemma TailSorted<T>(s: seq<T>, key: T -> string)
    requires SortedBy(s, key) && |s| > 0
    ensures SortedBy(s[1..], key)
  {
    forall i, j | 0 <= i < j < |s[1..]|
      ensures Strings.Le(key(s[1..][i]), key(s[1..][j]))
    {
      assert s[1..][i] == s[i + 1] && s[1..][j] == s[j + 1];
    }
  }

  /** Elements of `s` that share a key are the same element. */
  predicate KeyDetermines<T(==)>(s: seq<T>, key: T -> string) {
    forall x, y :: x in s && y in s && key(x) == key(y) ==> x == y
  }

  /** When the key determines the element, a multiset has only one sorted
      arrangement: the order the input arrived in cannot show through. */
  lemma {:induction false} SortedUnique<T>(a: seq<T>, b: seq<T>, key: T -> string)
    requires SortedBy(a, key) && SortedBy(b, key)
    requires multiset(a) == multiset(b)
    requires KeyDetermines(a, key)
    ensures a == b
    decreases |a|
  {
    if |a| == 0 {
      assert |b| == |multiset(b)| == 0;
    } else {
      assert |b| == |multiset(b)| == |multiset(a)| == |a|;
      SortedHeads(a, b, key);
      assert a == [a[0]] + a[1..] && b == [b[0]] + b[1..];
      assert multiset(a[1..]) == multiset(b[1..]) by {
        assert multiset(a[1..]) == multiset(a) - multiset{a[0]};
        assert multiset(b[1..]) == multiset(b) - multiset{b[0]};
      }
      KeyDeterminesTail(a, key);
      TailSorted(a, key);
      TailSorted(b, key);
      SortedUnique(a[1..], b[1..], key);
    }
  }

  /** Two sorted arrangements of one multiset start with the same element
      when the key determines the element. */
  lemma SortedHeads<T>(a: seq<T>, b: seq<T>, key: T -> string)
    requires SortedBy(a, key) && SortedBy(b, key)
    requires multiset(a) == multiset(b) && |a| > 0
    requires KeyDetermines(a, key)
    ensures |b| > 0 && a[0] == b[0]
  {
    assert |b| == |multiset(b)| == |multiset(a)| == |a|;
    assert a[0] in multiset(b) && b[0] in multiset(a);
    HeadIsLeast(b, key, a[0]);
    HeadIsLeast(a, key, b[0]);
    Strings.LeAntisymmetric(key(a[0]), key(b[0]));
    assert b[0] in a;
  }

  lemma KeyDeterminesTail<T>(a: seq<T>, key: T -> string)
    requires KeyDetermines(a, key) && |a| > 0
    ensures KeyDetermines(a[1..], key)
  {
    forall x, y | x in a[1..] && y in a[1..] && key(x) == key(y)
      ensures x == y
    {
      assert x in a && y in a;
    }
  }
}
