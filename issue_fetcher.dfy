/** The paged issue fetcher. The tracker's `/api/issues` endpoint is modelled as a fixed
    list of matches for the query, of which a request with `$skip`/`$top` returns the
    slice starting at `$skip` of at most `$top` elements. */
module IssueFetcher {

  /** The page size `_iter_issues_minimal` uses by default. */
  const PAGE_SIZE := 100

  /** One response: the matches from offset `skip`, at most `top` of them. */
  function Page<T>(backing: seq<T>, skip: nat, top: nat): (r: seq<T>)
    ensures |r| <= top
    ensures r == [] <==> skip >= |backing| || top == 0
    ensures skip < |backing| ==> r == backing[skip..if skip + top <= |backing| then skip + top else |backing|]
  {
    if skip >= |backing| then []
    else backing[skip..if skip + top <= |backing| then skip + top else |backing|]
  }

  /** `_iter_issues_minimal`: requests pages at offsets 0, p, 2p, ... and stops after an
      empty page or a page shorter than p. Every match is produced once, in order, and
      the number of requests is |backing| / p + 1 (the last one is short or empty). */
  method IterIssues<T>(backing: seq<T>, pageSize: nat) returns (items: seq<T>, skips: seq<nat>)
    requires pageSize > 0
    ensures items == backing
    ensures |skips| == |backing| / pageSize + 1
    ensures forall i :: 0 <= i < |skips| ==> skips[i] == i * pageSize
  {
    items := [];
    skips := [];
    var skip := 0;
    while true
      invariant skip == |skips| * pageSize
      invariant skip <= |backing|
      invariant items == backing[..skip]
      invariant forall i :: 0 <= i < |skips| ==> skips[i] == i * pageSize
      decreases |backing| - skip
    {
      var batch := Page(backing, skip, pageSize);
      skips := skips + [skip];
      if batch == [] {
        DivExact(|backing|, |skips| - 1, pageSize);
        break;
      }
      items := items + batch;
      if |batch| < pageSize {
        assert items == backing;
        DivBetween(|backing|, |skips| - 1, pageSize);
        break;
      }
      skip := skip + pageSize;
    }
  }

  lemma DivExact(n: nat, k: nat, p: nat)
    requires p > 0 && n == k * p
    ensures n / p == k
  {
    DivBetween(n, k, p);
  }

  /** Division recovers the number of whole pages before `n`. */
  lemma DivBetween(n: nat, k: nat, p: nat)
    requires p > 0 && k * p <= n < k * p + p
    ensures n / p == k
  {
    var q := n / p;
    assert n == q * p + n % p && 0 <= n % p < p;
    if q < k {
      MulAtLeast(k - q, p);
    } else if q > k {
      MulAtLeast(q - k, p);
    }
  }

  lemma {:induction false} MulAtLeast(a: int, p: nat)
    requires a >= 1
    ensures a * p >= p
  {
    if a > 1 {
      MulAtLeast(a - 1, p);
      assert a * p == (a - 1) * p + p;
    }
  }
}
