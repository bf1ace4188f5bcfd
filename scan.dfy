/** The early-return `for x in xs: if hit(x): return value(x)` loop over a list, whose
    result is decided by the first element that hits. */
module Scan {

  function FirstHit<T, R>(xs: seq<T>, hit: T -> bool, value: T -> R, otherwise: R): (r: R)
    ensures r == otherwise || exists i :: 0 <= i < |xs| && hit(xs[i]) && r == value(xs[i])
  {
    if xs == [] then otherwise
    else if hit(xs[0]) then value(xs[0])
    else FirstHit(xs[1..], hit, value, otherwise)
  }

  /** Element `i` hits and none before it does. */
  ghost predicate IsFirstHit<T>(xs: seq<T>, hit: T -> bool, i: int) {
    0 <= i < |xs| && hit(xs[i]) && forall j :: 0 <= j < i ==> !hit(xs[j])
  }

  lemma {:induction false} FirstHitAt<T, R>(xs: seq<T>, hit: T -> bool, value: T -> R, otherwise: R, i: int)
    requires IsFirstHit(xs, hit, i)
    ensures FirstHit(xs, hit, value, otherwise) == value(xs[i])
  {
    if i > 0 {
      assert !hit(xs[0]);
      assert IsFirstHit(xs[1..], hit, i - 1) by {
        forall j | 0 <= j < i - 1 ensures !hit(xs[1..][j]) {
          assert xs[1..][j] == xs[j + 1];
        }
      }
      FirstHitAt(xs[1..], hit, value, otherwise, i - 1);
    }
  }

  lemma {:induction false} FirstHitNone<T, R>(xs: seq<T>, hit: T -> bool, value: T -> R, otherwise: R)
    requires forall j :: 0 <= j < |xs| ==> !hit(xs[j])
    ensures FirstHit(xs, hit, value, otherwise) == otherwise
  {
    if xs != [] {
      assert !hit(xs[0]);
      forall j | 0 <= j < |xs| - 1 ensures !hit(xs[1..][j]) {
        assert xs[1..][j] == xs[j + 1];
      }
      FirstHitNone(xs[1..], hit, value, otherwise);
    }
  }

  /** Elements after the first hit are never consulted. */
  lemma FirstHitIgnoresLater<T, R>(xs: seq<T>, hit: T -> bool, value: T -> R, otherwise: R, i: int, later: seq<T>)
    requires IsFirstHit(xs, hit, i)
    ensures FirstHit(xs[..i + 1] + later, hit, value, otherwise) == FirstHit(xs, hit, value, otherwise)
  {
    var g := xs[..i + 1] + later;
    assert IsFirstHit(g, hit, i) by {
      assert g[i] == xs[i];
      assert forall j :: 0 <= j < i ==> g[j] == xs[j];
    }
    FirstHitAt(g, hit, value, otherwise, i);
    FirstHitAt(xs, hit, value, otherwise, i);
  }
}
