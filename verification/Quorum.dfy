/** Majorities and the commit index (src/raft/raft.go:167-177, 741-753). */
module Quorum {
  import opened Counting

  /** Strictly more than half of `n` servers. */
  ghost predicate Majority(q: set<nat>, n: nat) {
    q <= Ids(n) && |q| > n / 2
  }

  /** Two majorities of one cluster share a member. */
  lemma MajoritiesMeet(a: set<nat>, b: set<nat>, n: nat) returns (v: nat)
    requires Majority(a, n) && Majority(b, n)
    ensures v in a && v in b && v < n
  {
    if a * b == {} {
      assert |a + b| == |a| + |b|;
      SubsetSize(a + b, Ids(n));
      IdsCount(n);
      assert false;
    }
    v :| v in a * b;
  }

  // ---------------------------------------------------------------- counting servers

  function CountAtLeast(xs: seq<int>, v: int): nat {
    if xs == [] then 0 else CountAtLeast(xs[..|xs| - 1], v) + if xs[|xs| - 1] >= v then 1 else 0
  }

  ghost function Reaching(xs: seq<int>, v: int): set<nat> {
    set i: nat | i < |xs| && xs[i] >= v
  }

  lemma {:induction false} ReachingCount(xs: seq<int>, v: int)
    ensures |Reaching(xs, v)| == CountAtLeast(xs, v) && Reaching(xs, v) <= Ids(|xs|)
  {
    if xs == [] {
      assert Reaching(xs, v) == {};
    } else {
      var n := |xs| - 1;
      ReachingCount(xs[..n], v);
      assert Reaching(xs, v) == Reaching(xs[..n], v) + if xs[n] >= v then {n} else {};
    }
  }

  lemma {:induction false} CountConcat(a: seq<int>, b: seq<int>, v: int)
    ensures CountAtLeast(a + b, v) == CountAtLeast(a, v) + CountAtLeast(b, v)
    decreases |b|
  {
    if b == [] {
      assert a + b == a;
    } else {
      CountConcat(a, b[..|b| - 1], v);
      assert (a + b)[..|a + b| - 1] == a + b[..|b| - 1];
    }
  }

  lemma {:induction false} CountBounds(xs: seq<int>, v: int)
    ensures CountAtLeast(xs, v) <= |xs|
    ensures (forall i | 0 <= i < |xs| :: xs[i] >= v) ==> CountAtLeast(xs, v) == |xs|
    ensures (forall i | 0 <= i < |xs| :: xs[i] < v) ==> CountAtLeast(xs, v) == 0
  {
    if xs != [] {
      CountBounds(xs[..|xs| - 1], v);
    }
  }

  // ---------------------------------------------------------------- sorting a copy

  ghost predicate Sorted(xs: seq<int>) {
    forall i, j | 0 <= i <= j < |xs| :: xs[i] <= xs[j]
  }

  ghost predicate SameCounts(a: seq<int>, b: seq<int>) {
    |a| == |b| && forall v :: CountAtLeast(a, v) == CountAtLeast(b, v)
  }

  lemma InsertCounts(a: seq<int>, b: seq<int>, x: int, j: nat)
    requires SameCounts(a, b) && j <= |b|
    ensures SameCounts(a + [x], b[..j] + [x] + b[j..])
  {
    forall v ensures CountAtLeast(a + [x], v) == CountAtLeast(b[..j] + [x] + b[j..], v) {
      CountConcat(a, [x], v);
      CountConcat(b[..j], b[j..], v);
      assert b[..j] + b[j..] == b;
      CountConcat(b[..j] + [x], b[j..], v);
      CountConcat(b[..j], [x], v);
    }
  }

  lemma InsertSorted(b: seq<int>, x: int, j: nat)
    requires Sorted(b) && j <= |b| && (j == 0 || b[j - 1] <= x) && forall p | j <= p < |b| :: x < b[p]
    ensures Sorted(b[..j] + [x] + b[j..])
  {}

  /** Stands in for Go's `sort.Ints` on a copy: sorted, and every threshold is reached equally often,
      which for integers is the same as being a permutation. */
  method SortInts(a: seq<int>) returns (b: seq<int>)
    ensures Sorted(b) && SameCounts(a, b)
  {
    hide Sorted, SameCounts;
    b := [];
    var k := 0;
    EmptyCounts();
    assert a[..0] == [];
    while k < |a|
      invariant 0 <= k <= |a|
      invariant Sorted(b) && SameCounts(a[..k], b)
    {
      var j := |b|;
      while j > 0 && a[k] < b[j - 1]
        invariant 0 <= j <= |b|
        invariant forall p | j <= p < |b| :: a[k] < b[p]
      {
        j := j - 1;
      }
      InsertCounts(a[..k], b, a[k], j);
      InsertSorted(b, a[k], j);
      assert a[..k + 1] == a[..k] + [a[k]];
      b := b[..j] + [a[k]] + b[j..];
      k := k + 1;
    }
    assert a[..k] == a;
  }

  lemma EmptyCounts()
    ensures SameCounts([], []) && Sorted([])
  {}

  // ---------------------------------------------------------------- findMajority

  /** The largest value that strictly more than half of the entries reach. */
  ghost predicate IsMajorityValue(xs: seq<int>, r: int) {
    CountAtLeast(xs, r) > |xs| / 2 && forall v | v > r :: CountAtLeast(xs, v) <= |xs| / 2
  }

  lemma CountFrom(b: seq<int>, k: nat, v: int)
    requires k <= |b|
    ensures (forall i | k <= i < |b| :: b[i] >= v) ==> CountAtLeast(b, v) >= |b| - k
    ensures (forall i | 0 <= i < k :: b[i] < v) ==> CountAtLeast(b, v) <= |b| - k
  {
    assert b == b[..k] + b[k..];
    CountConcat(b[..k], b[k..], v);
    CountBounds(b[..k], v);
    CountBounds(b[k..], v);
  }

  lemma MiddleOfSorted(b: seq<int>)
    requires Sorted(b) && b != []
    ensures IsMajorityValue(b, b[(|b| - 1) / 2])
  {
    hide CountAtLeast;
    var m := (|b| - 1) / 2;
    CountFrom(b, m, b[m]);
    forall v | v > b[m] ensures CountAtLeast(b, v) <= |b| / 2 {
      CountFrom(b, m + 1, v);
    }
  }

  method FindMajority(matchIndex: seq<int>) returns (r: int)
    requires matchIndex != []
    ensures IsMajorityValue(matchIndex, r)
  {
    var sorted := SortInts(matchIndex);
    MiddleOfSorted(sorted);
    r := sorted[(|sorted| - 1) / 2];
  }

  /** The majority value is unique, so every caller computes the same commit candidate. */
  lemma MajorityValueUnique(xs: seq<int>, r: int, q: int)
    requires IsMajorityValue(xs, r) && IsMajorityValue(xs, q)
    ensures r == q
  {}

  /** The servers behind one commit and the servers behind any other share one: whatever indices two
      leaders commit, some server reached both. */
  lemma CommitQuorumsMeet(xs: seq<int>, ys: seq<int>, r: int, q: int) returns (i: nat)
    requires |xs| == |ys| && IsMajorityValue(xs, r) && IsMajorityValue(ys, q)
    ensures i < |xs| && xs[i] >= r && ys[i] >= q
  {
    ReachingCount(xs, r);
    ReachingCount(ys, q);
    i := MajoritiesMeet(Reaching(xs, r), Reaching(ys, q), |xs|);
  }
}
