/** Dancing links on positions (src/linearizability/linearizability.go:147-165).

    A doubly linked list over the fixed positions `0 .. size-1` is a pair of index sequences; the
    value `size` plays the role of nil. Position 0 is the head sentinel and is never removed. The
    heap nodes of the checker mirror such a pair pointer by pointer. */
module Links {

  datatype Links = Links(next: seq<nat>, prev: seq<nat>)

  ghost predicate Shape(l: Links) {
    && |l.next| == |l.prev|
    && (forall p | 0 <= p < |l.next| :: l.next[p] <= |l.next| && l.prev[p] <= |l.next|)
  }

  /** All positions linked in order. */
  ghost function Initial(size: nat): (l: Links)
    ensures Shape(l) && |l.next| == size
  {
    Links(seq(size, p => p + 1), seq(size, p => if p == 0 then size else p - 1))
  }

  /** `q` is the first position after `p` that is not in `gone`, or `size` if there is none. */
  ghost predicate IsNext(size: nat, gone: set<nat>, p: nat, q: nat) {
    p < q <= size && (q < size ==> q !in gone) && forall r | p < r < q :: r in gone
  }

  ghost predicate IsPrev(size: nat, gone: set<nat>, p: nat, q: nat) {
    if q >= p then q == size && forall r | 0 <= r < p :: r in gone
    else q !in gone && forall r | q < r < p :: r in gone
  }

  /** Every surviving position is linked to its nearest surviving neighbours. */
  ghost predicate Linked(l: Links, gone: set<nat>) {
    && Shape(l)
    && (forall p | 0 <= p < |l.next| && p !in gone ::
          IsNext(|l.next|, gone, p, l.next[p]) && IsPrev(|l.next|, gone, p, l.prev[p]))
  }

  lemma InitialIsLinked(size: nat)
    ensures Linked(Initial(size), {})
  {}

  /** One half of `lift`: the neighbours of `x` forget it, `x` remembers them. */
  ghost function Unlink(l: Links, x: nat): (l': Links)
    requires Shape(l) && x < |l.next|
    ensures Shape(l') && |l'.next| == |l.next|
  {
    var size := |l.next|;
    Links(if l.prev[x] < size then l.next[l.prev[x] := l.next[x]] else l.next,
          if l.next[x] < size then l.prev[l.next[x] := l.prev[x]] else l.prev)
  }

  /** One half of `unlift`: the remembered neighbours point at `x` again. */
  ghost function Relink(l: Links, x: nat): (l': Links)
    requires Shape(l) && x < |l.next|
    ensures Shape(l') && |l'.next| == |l.next|
  {
    var size := |l.next|;
    Links(if l.prev[x] < size then l.next[l.prev[x] := x] else l.next,
          if l.next[x] < size then l.prev[l.next[x] := x] else l.prev)
  }

  /** The neighbours of a surviving position survive and point back at it. */
  lemma Neighbours(l: Links, gone: set<nat>, x: nat)
    requires Linked(l, gone) && 0 !in gone && 0 < x < |l.next| && x !in gone
    ensures l.prev[x] < x && l.prev[x] !in gone && l.next[l.prev[x]] == x
    ensures x < l.next[x] <= |l.next|
    ensures l.next[x] < |l.next| ==> l.next[x] !in gone && l.prev[l.next[x]] == x
  {}

  /** Removing `x` moves a successor link from `x` to the successor of `x` and keeps the others. */
  lemma NextWithout(size: nat, gone: set<nat>, x: nat, p: nat, q: nat, after: nat)
    requires IsNext(size, gone, p, q) && IsNext(size, gone, x, after)
    ensures IsNext(size, gone + {x}, p, if q == x then after else q)
  {}

  lemma PrevWithout(size: nat, gone: set<nat>, x: nat, p: nat, q: nat, before: nat)
    requires x < size && p < size && IsPrev(size, gone, p, q) && IsPrev(size, gone, x, before)
    ensures IsPrev(size, gone + {x}, p, if q == x then before else q)
  {}

  lemma UniqueNeighbour(l: Links, gone: set<nat>, x: nat, p: nat)
    requires Linked(l, gone) && 0 !in gone && 0 < x < |l.next| && x !in gone
    requires p < |l.next| && p !in gone && p != x
    ensures l.next[p] == x <==> p == l.prev[x]
    ensures l.prev[p] == x <==> p == l.next[x]
  {
    Neighbours(l, gone, x);
    if l.next[p] == x {
      assert IsNext(|l.next|, gone, p, x) && IsPrev(|l.next|, gone, x, l.prev[x]);
    }
    if l.prev[p] == x {
      assert IsPrev(|l.next|, gone, p, x) && IsNext(|l.next|, gone, x, l.next[x]);
    }
  }

  lemma UnlinkedNeighbour(l: Links, gone: set<nat>, x: nat, p: nat)
    requires Linked(l, gone) && 0 !in gone && 0 < x < |l.next| && x !in gone
    requires p < |l.next| && p !in gone && p != x
    ensures var l', gone' := Unlink(l, x), gone + {x};
      IsNext(|l.next|, gone', p, l'.next[p]) && IsPrev(|l.next|, gone', p, l'.prev[p])
  {
    hide IsNext, IsPrev;
    UniqueNeighbour(l, gone, x, p);
    Neighbours(l, gone, x);
    NextWithout(|l.next|, gone, x, p, l.next[p], l.next[x]);
    PrevWithout(|l.next|, gone, x, p, l.prev[p], l.prev[x]);
  }

  lemma UnlinkKeepsLinked(l: Links, gone: set<nat>, x: nat)
    requires Linked(l, gone) && 0 !in gone && 0 < x < |l.next| && x !in gone
    ensures Linked(Unlink(l, x), gone + {x})
  {
    hide IsNext, IsPrev, Unlink;
    forall p: nat | p < |l.next| && p !in gone + {x}
      ensures IsNext(|l.next|, gone + {x}, p, Unlink(l, x).next[p]) && IsPrev(|l.next|, gone + {x}, p, Unlink(l, x).prev[p])
    {
      UnlinkedNeighbour(l, gone, x, p);
    }
  }

  /** Putting a position straight back restores every link, also when it was the tail. */
  lemma RelinkUndoesUnlink(l: Links, gone: set<nat>, x: nat)
    requires Linked(l, gone) && 0 !in gone && 0 < x < |l.next| && x !in gone
    ensures Relink(Unlink(l, x), x) == l
  {
    hide IsNext, IsPrev;
    Neighbours(l, gone, x);
    var l' := Relink(Unlink(l, x), x);
    assert l'.next == l.next;
    assert l'.prev == l.prev;
  }

  // ---------------------------------------------------------------- stacks of removals

  ghost predicate Removable(size: nat, xs: seq<nat>) {
    && (forall i | 0 <= i < |xs| :: 0 < xs[i] < size)
    && (forall i, j | 0 <= i < j < |xs| :: xs[i] != xs[j])
  }

  /** The list after removing `xs`, first to last. */
  ghost function UnlinkAll(size: nat, xs: seq<nat>): (l: Links)
    requires Removable(size, xs)
    ensures Shape(l) && |l.next| == size
  {
    if xs == [] then Initial(size) else Unlink(UnlinkAll(size, xs[..|xs| - 1]), xs[|xs| - 1])
  }

  ghost function Positions(xs: seq<nat>): set<nat> {
    set x | x in xs
  }

  /** After any stack of removals the survivors are linked exactly as in the original list. */
  lemma {:induction false} UnlinkAllIsLinked(size: nat, xs: seq<nat>)
    requires Removable(size, xs)
    ensures Linked(UnlinkAll(size, xs), Positions(xs))
  {
    if xs == [] {
      InitialIsLinked(size);
      assert Positions(xs) == {};
    } else {
      var ys, x := xs[..|xs| - 1], xs[|xs| - 1];
      UnlinkAllIsLinked(size, ys);
      assert forall p | p in ys :: exists i :: 0 <= i < |ys| && xs[i] == p;
      assert Positions(xs) == Positions(ys) + {x} by { assert xs == ys + [x]; }
      UnlinkKeepsLinked(UnlinkAll(size, ys), Positions(ys), x);
    }
  }

  /** The LIFO law: undoing the last removal leads back to the list before it. */
  lemma RelinkUndoesLast(size: nat, xs: seq<nat>, x: nat)
    requires Removable(size, xs + [x])
    ensures Removable(size, xs) && Relink(UnlinkAll(size, xs + [x]), x) == UnlinkAll(size, xs)
  {
    var ys := xs + [x];
    assert ys[..|ys| - 1] == xs;
    assert forall i | 0 <= i < |xs| :: xs[i] == ys[i];
    assert ys[|xs|] == x;
    UnlinkAllIsLinked(size, xs);
    RelinkUndoesUnlink(UnlinkAll(size, xs), Positions(xs), x);
  }

  lemma UnlinkAllSnoc(size: nat, xs: seq<nat>, x: nat)
    requires Removable(size, xs + [x])
    ensures Removable(size, xs) && UnlinkAll(size, xs + [x]) == Unlink(UnlinkAll(size, xs), x)
  {
    var ys := xs + [x];
    assert ys[..|ys| - 1] == xs;
    assert forall i | 0 <= i < |xs| :: xs[i] == ys[i];
    assert ys[|xs|] == x;
  }

  // ---------------------------------------------------------------- what a traversal sees

  /** The positions met by following `next` from `p`. */
  ghost function Walk(l: Links, p: nat): seq<nat>
    decreases |l.next| - p
  {
    if p >= |l.next| then [] else if l.next[p] <= p then [p] else [p] + Walk(l, l.next[p])
  }

  /** The positions from `p` on that are not in `gone`, in order. */
  ghost function Survivors(size: nat, gone: set<nat>, p: nat): seq<nat>
    decreases size - p
  {
    if p >= size then [] else (if p in gone then [] else [p]) + Survivors(size, gone, p + 1)
  }

  lemma {:induction false} SkipGone(size: nat, gone: set<nat>, p: nat, q: nat)
    requires p <= q <= size && forall r | p <= r < q :: r in gone
    ensures Survivors(size, gone, p) == Survivors(size, gone, q)
    decreases q - p
  {
    if p < q {
      SkipGone(size, gone, p + 1, q);
    }
  }

  lemma NextSurvivor(l: Links, gone: set<nat>, p: nat)
    requires Linked(l, gone) && p < |l.next| && p !in gone
    ensures p < l.next[p] <= |l.next| && (l.next[p] < |l.next| ==> l.next[p] !in gone)
    ensures forall r | p + 1 <= r < l.next[p] :: r in gone
  {}

  lemma WalkStep(l: Links, p: nat)
    requires p < |l.next| && p < l.next[p]
    ensures Walk(l, p) == [p] + Walk(l, l.next[p])
  {}

  lemma SurvivorsStep(size: nat, gone: set<nat>, p: nat)
    requires p < size && p !in gone
    ensures Survivors(size, gone, p) == [p] + Survivors(size, gone, p + 1)
  {}

  lemma NothingPastTheEnd(l: Links, gone: set<nat>)
    ensures Walk(l, |l.next|) == [] == Survivors(|l.next|, gone, |l.next|)
  {}

  lemma {:induction false} WalkMeetsSurvivors(l: Links, gone: set<nat>, p: nat)
    requires Linked(l, gone) && (p == |l.next| || (p < |l.next| && p !in gone))
    ensures Walk(l, p) == Survivors(|l.next|, gone, p)
    decreases |l.next| - p
  {
    hide *;
    if p < |l.next| {
      NextSurvivor(l, gone, p);
      WalkMeetsSurvivors(l, gone, l.next[p]);
      SkipGone(|l.next|, gone, p + 1, l.next[p]);
      WalkStep(l, p);
      SurvivorsStep(|l.next|, gone, p);
    } else {
      NothingPastTheEnd(l, gone);
    }
  }

  /** The live list is the original list minus the removed positions. */
  lemma LiveList(size: nat, xs: seq<nat>)
    requires 0 < size && Removable(size, xs)
    ensures Walk(UnlinkAll(size, xs), 0) == Survivors(size, Positions(xs), 0)
  {
    UnlinkAllIsLinked(size, xs);
    WalkMeetsSurvivors(UnlinkAll(size, xs), Positions(xs), 0);
  }
}
