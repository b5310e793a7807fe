/** Finite sets of naturals and how large they are. */
module Counting {

  function Ids(n: nat): (ids: set<nat>)
    ensures forall i :: i in ids <==> 0 <= i < n
  {
    if n == 0 then {} else Ids(n - 1) + {n - 1}
  }

  /** An injective sequence of naturals below `n` has at most `n` members. */
  lemma {:induction false} Pigeonhole(xs: seq<nat>, n: nat)
    requires forall i | 0 <= i < |xs| :: xs[i] < n
    requires forall i, j | 0 <= i < j < |xs| :: xs[i] != xs[j]
    ensures |xs| <= n
  {
    var all := set i | 0 <= i < |xs| :: xs[i];
    assert |all| == |xs| by { DistinctCount(xs); }
    assert all <= Ids(n);
    SubsetSize(all, Ids(n));
    IdsCount(n);
  }

  lemma {:induction false} DistinctCount(xs: seq<nat>)
    requires forall i, j | 0 <= i < j < |xs| :: xs[i] != xs[j]
    ensures |set i | 0 <= i < |xs| :: xs[i]| == |xs|
  {
    var all := set i | 0 <= i < |xs| :: xs[i];
    if xs == [] {
      assert all == {};
    } else {
      var ys, last := xs[..|xs| - 1], xs[|xs| - 1];
      DistinctCount(ys);
      var fewer := set i | 0 <= i < |ys| :: ys[i];
      assert all == fewer + {last};
      assert last !in fewer;
    }
  }

  lemma {:induction false} IdsCount(n: nat)
    ensures |Ids(n)| == n
  {
    if n > 0 {
      IdsCount(n - 1);
    }
  }

  lemma {:induction false} SubsetSize<T>(a: set<T>, b: set<T>)
    requires a <= b
    ensures |a| <= |b|
  {
    if a != {} {
      var x :| x in a;
      SubsetSize(a - {x}, b - {x});
    }
  }
}
