/** Python's ordering of `str` values (code point by code point, a proper prefix first)
    and the stable sort that `sorted` performs on them. */
module Sorting {

  /** Python's `a < b` on strings. */
  predicate LexLess(a: string, b: string)
    decreases |a|
  {
    if a == [] then b != []
    else if b == [] then false
    else if a[0] != b[0] then a[0] < b[0]
    else LexLess(a[1..], b[1..])
  }

  /** Python's `a <= b` on strings. */
  predicate LexLe(a: string, b: string) {
    !LexLess(b, a)
  }

  lemma {:induction false} LexLessIrreflexive(a: string)
    ensures !LexLess(a, a)
    decreases |a|
  {
    if a != [] {
      LexLessIrreflexive(a[1..]);
    }
  }

  lemma {:induction false} LexLessTransitive(a: string, b: string, c: string)
    requires LexLess(a, b) && LexLess(b, c)
    ensures LexLess(a, c)
    decreases |a|
  {
    if a != [] && b != [] && c != [] && a[0] == b[0] && b[0] == c[0] {
      LexLessTransitive(a[1..], b[1..], c[1..]);
    }
  }

  /** Any two different strings are ordered one way or the other. */
  lemma {:induction false} LexLessTotal(a: string, b: string)
    requires a != b
    ensures LexLess(a, b) || LexLess(b, a)
    decreases |a|
  {
    if a != [] && b != [] && a[0] == b[0] {
      assert a == [a[0]] + a[1..] && b == [b[0]] + b[1..];
      LexLessTotal(a[1..], b[1..]);
    }
  }

  lemma LexLessAsymmetric(a: string, b: string)
    requires LexLess(a, b)
    ensures !LexLess(b, a)
  {
    if LexLess(b, a) {
      LexLessTransitive(a, b, a);
      LexLessIrreflexive(a);
    }
  }

  lemma LexLeAntisymmetric(a: string, b: string)
    requires LexLe(a, b) && LexLe(b, a)
    ensures a == b
  {
    if a != b {
      LexLessTotal(a, b);
    }
  }

  lemma LexLeTransitive(a: string, b: string, c: string)
    requires LexLe(a, b) && LexLe(b, c)
    ensures LexLe(a, c)
  {
    if LexLess(c, a) {
      if a == b {
      } else {
        LexLessTotal(a, b);
        LexLessTransitive(c, a, b);
      }
    }
  }

  ghost predicate SortedBy<T>(s: seq<T>, key: T -> string) {
    forall i, j :: 0 <= i < j < |s| ==> LexLe(key(s[i]), key(s[j]))
  }

  /** Inserts `x` before the first element whose key is not below `x`'s key. */
  function InsertBy<T>(x: T, s: seq<T>, key: T -> string): (r: seq<T>)
    ensures |r| == |s| + 1
  {
    if s == [] || !LexLess(key(s[0]), key(x)) then [x] + s
    else [s[0]] + InsertBy(x, s[1..], key)
  }

  /** Stable insertion sort on the keys, the result of Python's `sorted(s, key=key)`. */
  function SortBy<T>(s: seq<T>, key: T -> string): (r: seq<T>)
    ensures |r| == |s|
  {
    if s == [] then [] else InsertBy(s[0], SortBy(s[1..], key), key)
  }

  lemma {:induction false} InsertByCorrect<T>(x: T, s: seq<T>, key: T -> string)
    requires SortedBy(s, key)
    ensures SortedBy(InsertBy(x, s, key), key)
    ensures multiset(InsertBy(x, s, key)) == multiset(s) + multiset{x}
    decreases |s|
  {
    var r := InsertBy(x, s, key);
    if s == [] || !LexLess(key(s[0]), key(x)) {
      forall i, j | 0 <= i < j < |r| ensures LexLe(key(r[i]), key(r[j])) {
        if i == 0 && j > 1 {
          LexLeTransitive(key(x), key(s[0]), key(s[j - 1]));
        }
      }
    } else {
      InsertByCorrect(x, s[1..], key);
      var t := InsertBy(x, s[1..], key);
      assert r == [s[0]] + t;
      LexLessAsymmetric(key(s[0]), key(x));
      forall j | 0 <= j < |t| ensures LexLe(key(s[0]), key(t[j])) {
        assert t[j] in multiset(t);
        assert t[j] in multiset(s[1..]) || t[j] == x;
        if t[j] != x {
          var k :| 0 <= k < |s[1..]| && s[1..][k] == t[j];
          assert s[k + 1] == t[j];
        }
      }
      assert s == [s[0]] + s[1..];
    }
  }

  lemma {:induction false} SortByCorrect<T>(s: seq<T>, key: T -> string)
    ensures SortedBy(SortBy(s, key), key)
    ensures multiset(SortBy(s, key)) == multiset(s)
  {
    if s != [] {
      SortByCorrect(s[1..], key);
      InsertByCorrect(s[0], SortBy(s[1..], key), key);
      assert s == [s[0]] + s[1..];
    }
  }

  /** No two different elements share a key. */
  ghost predicate KeysDistinct<T>(m: multiset<T>, key: T -> string) {
    forall x, y :: x in m && y in m && x != y ==> key(x) != key(y)
  }

  /** The head of a sorted sequence has the least key. */
  lemma HeadIsLeast<T>(a: seq<T>, key: T -> string, x: T)
    requires SortedBy(a, key) && x in multiset(a)
    ensures LexLe(key(a[0]), key(x))
  {
    var i :| 0 <= i < |a| && a[i] == x;
    if i == 0 {
      LexLessIrreflexive(key(x));
    }
  }

  /** Sorting is determined by the multiset of elements once keys are distinct: two sorted
      arrangements of the same elements are the same sequence. */
  lemma {:induction false} SortedUnique<T>(a: seq<T>, b: seq<T>, key: T -> string)
    requires SortedBy(a, key) && SortedBy(b, key)
    requires multiset(a) == multiset(b)
    requires KeysDistinct(multiset(a), key)
    ensures a == b
    decreases |a|
  {
    assert |a| == |multiset(a)| == |b|;
    if a != [] {
      HeadsEqual(a, b, key);
      TailsSorted(a, key);
      TailsSorted(b, key);
      assert a == [a[0]] + a[1..] && b == [b[0]] + b[1..];
      assert multiset(a[1..]) == multiset(b[1..]);
      KeysDistinctSub(multiset(a[1..]), multiset(a), key);
      SortedUnique(a[1..], b[1..], key);
    }
  }

  lemma KeysDistinctSub<T>(m: multiset<T>, n: multiset<T>, key: T -> string)
    requires m <= n && KeysDistinct(n, key)
    ensures KeysDistinct(m, key)
  {
  }

  lemma HeadsEqual<T>(a: seq<T>, b: seq<T>, key: T -> string)
    requires a != [] && SortedBy(a, key) && SortedBy(b, key)
    requires multiset(a) == multiset(b)
    requires KeysDistinct(multiset(a), key)
    ensures b != [] && a[0] == b[0]
  {
    assert a[0] in multiset(a);
    assert b != [];
    assert b[0] in multiset(b);
    HeadIsLeast(b, key, a[0]);
    HeadIsLeast(a, key, b[0]);
    LexLeAntisymmetric(key(a[0]), key(b[0]));
  }

  lemma TailsSorted<T>(a: seq<T>, key: T -> string)
    requires a != [] && SortedBy(a, key)
    ensures SortedBy(a[1..], key)
  {
    forall i, j | 0 <= i < j < |a[1..]| ensures LexLe(key(a[1..][i]), key(a[1..][j])) {
      assert a[1..][i] == a[i + 1] && a[1..][j] == a[j + 1];
    }
  }

  /** With distinct keys, sorting does not depend on the input order. */
  lemma SortByPermutation<T>(s: seq<T>, t: seq<T>, key: T -> string)
    requires multiset(s) == multiset(t)
    requires KeysDistinct(multiset(s), key)
    ensures SortBy(s, key) == SortBy(t, key)
  {
    SortByCorrect(s, key);
    SortByCorrect(t, key);
    SortedUnique(SortBy(s, key), SortBy(t, key), key);
  }
}
