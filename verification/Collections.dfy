/** Histories that keep only their last entries, selections in order, and a minimum. */
module Collections {
  function Min(a: int, b: int): int { if a <= b then a else b }

  function Last<T>(xs: seq<T>, n: nat): (r: seq<T>)
    ensures |r| == if |xs| < n then |xs| else n
    ensures |r| <= |xs| && r == xs[|xs| - |r|..]
  {
    if |xs| <= n then xs else xs[|xs| - n..]
  }

  /** `idx` lists the positions of `keep` in order, each once. */
  ghost predicate Lists(idx: seq<nat>, keep: set<nat>) {
    && (forall i, j :: 0 <= i < j < |idx| ==> idx[i] < idx[j])
    && forall i: nat :: i in idx <==> i in keep
  }

  lemma {:induction false} ListsSize(idx: seq<nat>, keep: set<nat>)
    requires Lists(idx, keep)
    ensures |idx| == |keep|
  {
    if idx == [] {
      assert keep == {};
    } else {
      var n := |idx| - 1;
      assert forall i: nat :: i in idx[..n] <==> i in keep - {idx[n]} by {
        assert idx == idx[..n] + [idx[n]];
      }
      ListsSize(idx[..n], keep - {idx[n]});
      assert keep == keep - {idx[n]} + {idx[n]};
    }
  }

  lemma OneMore(s: set<nat>, more: set<nat>, n: nat, hit: bool)
    requires n !in s && forall k: nat :: k in more <==> k in s || (k == n && hit)
    ensures |more| == |s| + (if hit then 1 else 0)
  {
    if hit {
      assert more == s + {n};
    } else {
      assert more == s;
    }
  }

  /** One more position at the end. */
  lemma ListsNext(idx: seq<nat>, keep: set<nat>, n: nat)
    requires Lists(idx, keep) && forall i :: i in keep ==> i < n
    ensures Lists(idx + [n], keep + {n})
  {
    assert forall i :: 0 <= i < |idx| ==> idx[i] in keep;
  }
}
