/** Counting over sequences and summing over count maps: the arithmetic that the
    aggregating loops are specified with. */
module Tally {

  /** How many elements of `xs` satisfy `f`, counted from the back so that extending a
      prefix by one element adds at most one. */
  function Count<T>(xs: seq<T>, f: T -> bool): (n: nat)
    ensures n <= |xs|
  {
    if xs == [] then 0 else Count(xs[..|xs| - 1], f) + (if f(xs[|xs| - 1]) then 1 else 0)
  }

  lemma CountSnoc<T>(xs: seq<T>, x: T, f: T -> bool)
    ensures Count(xs + [x], f) == Count(xs, f) + (if f(x) then 1 else 0)
  {
    assert (xs + [x])[..|xs|] == xs;
  }

  /** An element that satisfies `f` makes the count positive. */
  lemma {:induction false} CountPositive<T>(xs: seq<T>, f: T -> bool, j: int)
    requires 0 <= j < |xs| && f(xs[j])
    ensures Count(xs, f) > 0
  {
    if j < |xs| - 1 {
      assert xs[..|xs| - 1][j] == xs[j];
      CountPositive(xs[..|xs| - 1], f, j);
    }
  }

  /** A weaker condition counts at least as many elements. */
  lemma {:induction false} CountMonotone<T>(xs: seq<T>, f: T -> bool, g: T -> bool)
    requires forall x :: f(x) ==> g(x)
    ensures Count(xs, f) <= Count(xs, g)
  {
    if xs != [] {
      CountMonotone(xs[..|xs| - 1], f, g);
    }
  }

  predicate Distinct<K(==)>(ks: seq<K>) {
    forall i, j :: 0 <= i < j < |ks| ==> ks[i] != ks[j]
  }

  /** The counts of `f(k)` summed over the keys `ks`. */
  function SumCounts<K, T>(ks: seq<K>, xs: seq<T>, f: K -> T -> bool): nat {
    if ks == [] then 0 else Count(xs, f(ks[0])) + SumCounts(ks[1..], xs, f)
  }

  /** How many keys of `ks` the element `x` counts towards. */
  function Hits<K, T>(ks: seq<K>, x: T, f: K -> T -> bool): nat {
    if ks == [] then 0 else (if f(ks[0])(x) then 1 else 0) + Hits(ks[1..], x, f)
  }

  lemma {:induction false} SumCountsSnoc<K, T>(ks: seq<K>, xs: seq<T>, x: T, f: K -> T -> bool)
    ensures SumCounts(ks, xs + [x], f) == SumCounts(ks, xs, f) + Hits(ks, x, f)
  {
    if ks != [] {
      CountSnoc(xs, x, f(ks[0]));
      SumCountsSnoc(ks[1..], xs, x, f);
    }
  }

  /** When `f(k)` means "satisfies `g` and has key `k`", an element counts towards its own
      key once, if that key is listed, and towards no other. */
  lemma {:induction false} HitsKeyed<K, T>(ks: seq<K>, x: T, f: K -> T -> bool, g: T -> bool, key: T -> K)
    requires Distinct(ks)
    requires forall k :: f(k)(x) == (g(x) && key(x) == k)
    ensures Hits(ks, x, f) == if g(x) && key(x) in ks then 1 else 0
  {
    if ks != [] {
      var rest := ks[1..];
      assert Distinct(rest) by {
        forall i, j | 0 <= i < j < |rest| ensures rest[i] != rest[j] {
          assert rest[i] == ks[i + 1] && rest[j] == ks[j + 1];
        }
      }
      HitsKeyed(rest, x, f, g, key);
      if g(x) && key(x) == ks[0] {
        assert key(x) !in rest by {
          forall j | 0 <= j < |rest| ensures rest[j] != key(x) {
            assert rest[j] == ks[j + 1];
          }
        }
      }
    }
  }

  /** Counting by key and summing over all keys that occur gives the plain count. */
  lemma {:induction false} CountByKey<K, T>(ks: seq<K>, xs: seq<T>, f: K -> T -> bool, g: T -> bool, key: T -> K)
    requires Distinct(ks)
    requires forall k, x :: f(k)(x) == (g(x) && key(x) == k)
    requires forall j :: 0 <= j < |xs| && g(xs[j]) ==> key(xs[j]) in ks
    ensures Count(xs, g) == SumCounts(ks, xs, f)
  {
    if xs == [] {
      SumCountsEmpty(ks, f);
    } else {
      var init := xs[..|xs| - 1];
      var x := xs[|xs| - 1];
      assert xs == init + [x];
      forall j | 0 <= j < |init| && g(init[j]) ensures key(init[j]) in ks {
        assert init[j] == xs[j];
      }
      CountByKey(ks, init, f, g, key);
      SumCountsSnoc(ks, init, x, f);
      HitsKeyed(ks, x, f, g, key);
      CountSnoc(init, x, g);
    }
  }

  lemma {:induction false} SumCountsEmpty<K, T>(ks: seq<K>, f: K -> T -> bool)
    ensures SumCounts(ks, [], f) == 0
  {
    if ks != [] {
      SumCountsEmpty(ks[1..], f);
    }
  }

  /** `m.get(k, 0)`. */
  function Get<K>(m: map<K, nat>, k: K): (n: nat)
    ensures k !in m ==> n == 0
  {
    if k in m then m[k] else 0
  }

  /** `m.get(k, {})`: the inner map under `k`, or an empty one. */
  function Inner<K, A, B>(m: map<K, map<A, B>>, k: K): (r: map<A, B>)
    ensures k !in m ==> r == map[]
  {
    if k in m then m[k] else map[]
  }

  /** Sum of the values of a count map. */
  ghost function Total<K>(m: map<K, nat>): nat
    decreases |m|
  {
    if m == map[] then 0
    else
      var k :| k in m;
      m[k] + Total(m - {k})
  }

  lemma {:induction false} TotalRemove<K>(m: map<K, nat>, k: K)
    requires k in m
    ensures Total(m) == m[k] + Total(m - {k})
    decreases |m|
  {
    var j :| j in m && Total(m) == m[j] + Total(m - {j});
    if j != k {
      TotalRemove(m - {j}, k);
      TotalRemove(m - {k}, j);
      assert m - {j} - {k} == m - {k} - {j};
    }
  }

  /** Replacing the value under `k` by `v` changes the sum by the difference. */
  lemma TotalUpdate<K>(m: map<K, nat>, k: K, v: nat)
    ensures Total(m[k := v]) + Get(m, k) == Total(m) + v
  {
    TotalRemove(m[k := v], k);
    if k in m {
      TotalRemove(m, k);
      assert m[k := v] - {k} == m - {k};
    } else {
      assert m[k := v] - {k} == m;
    }
  }

  /** Sum of all leaves of a two-level count map. */
  ghost function Total2<K, A>(mm: map<K, map<A, nat>>): nat {
    Total(map k | k in mm :: Total(mm[k]))
  }

  lemma Total2Update<K, A>(mm: map<K, map<A, nat>>, k: K, inner: map<A, nat>)
    ensures Total2(mm[k := inner]) + Total(Inner(mm, k)) == Total2(mm) + Total(inner)
  {
    var sums := map j | j in mm :: Total(mm[j]);
    var mm' := mm[k := inner];
    assert (map j | j in mm' :: Total(mm'[j])) == sums[k := Total(inner)];
    TotalUpdate(sums, k, Total(inner));
    if k !in mm {
      assert Total(Inner(mm, k)) == 0 by {
        assert Inner(mm, k) == map[];
      }
    }
  }

  /** Every stored count is positive: a key is present only once something was counted. */
  ghost predicate Positive1<K>(m: map<K, nat>) {
    forall k :: k in m ==> m[k] > 0
  }

  ghost predicate Positive2<K, A>(mm: map<K, map<A, nat>>) {
    forall k :: k in mm ==> mm[k] != map[] && Positive1(mm[k])
  }

  /** `m[k] = m.get(k, 0) + 1`. */
  function Inc1(m: map<string, nat>, k: string): (r: map<string, nat>)
    ensures r.Keys == m.Keys + {k}
    ensures forall j :: Get(r, j) == Get(m, j) + (if j == k then 1 else 0)
    ensures Total(r) == Total(m) + 1
    ensures Positive1(m) ==> Positive1(r)
  {
    TotalUpdate(m, k, Get(m, k) + 1);
    m[k := Get(m, k) + 1]
  }

  function Get2(mm: map<string, map<string, nat>>, k: string, a: string): nat {
    Get(Inner(mm, k), a)
  }

  /** `mm.setdefault(k, {}); mm[k][a] = mm[k].get(a, 0) + 1`. */
  function Inc2(mm: map<string, map<string, nat>>, k: string, a: string): (r: map<string, map<string, nat>>)
    ensures r.Keys == mm.Keys + {k}
    ensures r[k].Keys == Inner(mm, k).Keys + {a}
    ensures forall j :: j in mm && j != k ==> r[j] == mm[j]
    ensures forall j, b :: Get2(r, j, b) == Get2(mm, j, b) + (if j == k && b == a then 1 else 0)
    ensures Total2(r) == Total2(mm) + 1
    ensures Positive2(mm) ==> Positive2(r)
  {
    var inner := Inc1(Inner(mm, k), a);
    assert a in inner;
    Total2Update(mm, k, inner);
    mm[k := inner]
  }

  function Get3(m3: map<string, map<string, map<string, nat>>>, k: string, a: string, b: string): nat {
    Get2(Inner(m3, k), a, b)
  }

  /** `m3.setdefault(k, {}); m3[k].setdefault(a, {}); m3[k][a][b] = m3[k][a].get(b, 0) + 1`. */
  function Inc3(m3: map<string, map<string, map<string, nat>>>, k: string, a: string, b: string): (r: map<string, map<string, map<string, nat>>>)
    ensures r.Keys == m3.Keys + {k}
    ensures r[k].Keys == Inner(m3, k).Keys + {a}
    ensures forall j :: j in m3 && j != k ==> r[j] == m3[j]
    ensures forall j, a', b' :: Get3(r, j, a', b') == Get3(m3, j, a', b') + (if j == k && a' == a && b' == b then 1 else 0)
    ensures Positive2(Inner(m3, k)) ==> Positive2(r[k])
  {
    m3[k := Inc2(Inner(m3, k), a, b)]
  }
}
