/** Which list positions are alive while `order` is lifted: the bridge between the links and the
    search (src/linearizability/linearizability.go:189-210). */
module LiveNodes {
  import opened Histories
  import opened Links
  import opened Search

  /** `owner[p]` is the operation whose call or return node sits at position `p > 0`. */
  ghost predicate Covers<I, O>(ops: seq<Operation<I, O>>, owner: seq<nat>) {
    && Laid(ops)
    && |owner| > 0
    && (forall i | 0 <= i < |ops| :: ops[i].ret < |owner| && owner[ops[i].call] == i && owner[ops[i].ret] == i)
    && (forall p | 0 < p < |owner| :: owner[p] < |ops| && (p == ops[owner[p]].call || p == ops[owner[p]].ret))
  }

  /** The positions removed by lifting the operations of `order` in turn. */
  ghost function Removed<I, O>(ops: seq<Operation<I, O>>, order: seq<nat>): (r: seq<nat>)
    requires Laid(ops) && Within(ops, order)
    ensures |r| == 2 * |order|
    ensures forall k | 0 <= k < |r| :: r[k] == if k % 2 == 0 then ops[order[k / 2]].call else ops[order[k / 2]].ret
  {
    seq(2 * |order|, k requires 0 <= k < 2 * |order| =>
      if k % 2 == 0 then ops[order[k / 2]].call else ops[order[k / 2]].ret)
  }

  ghost predicate Distinct(order: seq<nat>) {
    forall i, j | 0 <= i < j < |order| :: order[i] != order[j]
  }

  lemma RemovedIsRemovable<I, O>(ops: seq<Operation<I, O>>, owner: seq<nat>, order: seq<nat>)
    requires Covers(ops, owner) && Within(ops, order) && Distinct(order)
    ensures Removable(|owner|, Removed(ops, order))
  {}

  lemma RemovedSnoc<I, O>(ops: seq<Operation<I, O>>, order: seq<nat>, a: nat)
    requires Laid(ops) && Within(ops, order) && a < |ops|
    ensures Removed(ops, order + [a]) == Removed(ops, order) + [ops[a].call] + [ops[a].ret]
  {}

  /** Exactly the nodes of the operations in `order` are gone. */
  lemma GoneIsDone<I, O>(ops: seq<Operation<I, O>>, owner: seq<nat>, order: seq<nat>, p: nat)
    requires Covers(ops, owner) && Within(ops, order) && 0 < p < |owner|
    ensures p in Positions(Removed(ops, order)) <==> owner[p] in Done(order)
  {
    var r := Removed(ops, order);
    if p in Positions(r) {
      var k :| 0 <= k < |r| && r[k] == p;
      assert order[k / 2] in order && owner[p] == order[k / 2];
    }
    if owner[p] in Done(order) {
      var j :| 0 <= j < |order| && order[j] == owner[p];
      assert r[2 * j] == ops[order[j]].call && r[2 * j + 1] == ops[order[j]].ret;
    }
  }

  /** The links of the live list while `order` is lifted. */
  ghost function Live<I, O>(ops: seq<Operation<I, O>>, owner: seq<nat>, order: seq<nat>): (l: Links)
    requires Covers(ops, owner) && Within(ops, order) && Distinct(order)
    ensures Shape(l) && |l.next| == |owner|
  {
    RemovedIsRemovable(ops, owner, order);
    UnlinkAll(|owner|, Removed(ops, order))
  }

  ghost predicate IsLive<I, O>(ops: seq<Operation<I, O>>, owner: seq<nat>, order: seq<nat>, p: nat) {
    0 < p < |owner| && owner[p] in Todo(ops, order)
  }

  /** From a live node (or the head) the `next` link leads to the nearest live node, if any. */
  lemma NextLive<I, O>(ops: seq<Operation<I, O>>, owner: seq<nat>, order: seq<nat>, p: nat)
    requires Covers(ops, owner) && Within(ops, order) && Distinct(order)
    requires p == 0 || IsLive(ops, owner, order, p)
    ensures var q := Live(ops, owner, order).next[p];
      && p < q <= |owner| && NothingBetween(ops, Todo(ops, order), p, q)
      && (q < |owner| ==> IsLive(ops, owner, order, q))
  {
    var gone := Positions(Removed(ops, order));
    var l := Live(ops, owner, order);
    var q := l.next[p];
    RemovedIsRemovable(ops, owner, order);
    UnlinkAllIsLinked(|owner|, Removed(ops, order));
    assert 0 !in gone;
    if p > 0 {
      GoneIsDone(ops, owner, order, p);
    }
    NextSurvivor(l, gone, p);
    hide Linked, Live, Removed, UnlinkAll, Positions;
    if q < |owner| {
      GoneIsDone(ops, owner, order, q);
    }
    forall b | b in Todo(ops, order) ensures !(p < ops[b].call < q) && !(p < ops[b].ret < q) {
      GoneIsDone(ops, owner, order, ops[b].call);
      GoneIsDone(ops, owner, order, ops[b].ret);
    }
  }

  /** The head has no successor exactly when every operation has been taken. */
  lemma HeadLink<I, O>(ops: seq<Operation<I, O>>, owner: seq<nat>, order: seq<nat>)
    requires Covers(ops, owner) && Within(ops, order) && Distinct(order)
    ensures Live(ops, owner, order).next[0] == |owner| <==> Todo(ops, order) == {}
  {
    NextLive(ops, owner, order, 0);
    hide Live;
    var q := Live(ops, owner, order).next[0];
    if b :| b in Todo(ops, order) {
      assert !(0 < ops[b].call < q);
    }
  }

  /** The cursor never runs off the list from a live call, because its return is still ahead. */
  lemma CallHasSuccessor<I, O>(ops: seq<Operation<I, O>>, owner: seq<nat>, order: seq<nat>, a: nat)
    requires Covers(ops, owner) && Within(ops, order) && Distinct(order) && a in Todo(ops, order)
    ensures var q := Live(ops, owner, order).next[ops[a].call];
      && ops[a].call < q < |owner| && IsLive(ops, owner, order, q)
      && NothingBetween(ops, Todo(ops, order), ops[a].call, q)
  {
    NextLive(ops, owner, order, ops[a].call);
    hide Live;
    assert !(ops[a].call < ops[a].ret < Live(ops, owner, order).next[ops[a].call]);
  }

  /** The two unlinks of `lift`, call first and return second, lead to the next live list. */
  lemma LiftLinks<I, O>(ops: seq<Operation<I, O>>, owner: seq<nat>, order: seq<nat>, a: nat)
    requires Covers(ops, owner) && Within(ops, order) && Distinct(order) && a in Todo(ops, order)
    ensures Distinct(order + [a])
    ensures Unlink(Unlink(Live(ops, owner, order), ops[a].call), ops[a].ret) == Live(ops, owner, order + [a])
  {
    DistinctSnoc(ops, order, a);
    RemovedIsRemovable(ops, owner, order);
    RemovedIsRemovable(ops, owner, order + [a]);
    RemovedSnoc(ops, order, a);
    hide Unlink, Removed, Removable, Covers, Distinct;
    UnlinkAllSnoc(|owner|, Removed(ops, order) + [ops[a].call], ops[a].ret);
    UnlinkAllSnoc(|owner|, Removed(ops, order), ops[a].call);
  }

  lemma DistinctSnoc<I, O>(ops: seq<Operation<I, O>>, order: seq<nat>, a: nat)
    requires Distinct(order) && a in Todo(ops, order)
    ensures Distinct(order + [a])
  {}

  /** `unlift` puts the return back first and the call second, and that undoes `lift` exactly. */
  lemma UnliftLinks<I, O>(ops: seq<Operation<I, O>>, owner: seq<nat>, order: seq<nat>, a: nat)
    requires Covers(ops, owner) && Within(ops, order + [a]) && Distinct(order + [a])
    ensures Within(ops, order) && Distinct(order)
    ensures Relink(Relink(Live(ops, owner, order + [a]), ops[a].ret), ops[a].call) == Live(ops, owner, order)
  {
    assert order == (order + [a])[..|order|];
    assert a == (order + [a])[|order|];
    var r := Removed(ops, order);
    RemovedIsRemovable(ops, owner, order + [a]);
    RemovedSnoc(ops, order, a);
    hide Relink, Removed;
    RelinkUndoesLast(|owner|, r + [ops[a].call], ops[a].ret);
    RelinkUndoesLast(|owner|, r, ops[a].call);
  }

  // ---------------------------------------------------------------- one loop iteration, links included

  /** The positions lifted so far. */
  ghost function Gone<I, O>(ops: seq<Operation<I, O>>, order: seq<nat>): set<nat>
    requires Laid(ops) && Within(ops, order)
  {
    Positions(Removed(ops, order))
  }

  lemma LiveIsLinked<I, O>(ops: seq<Operation<I, O>>, owner: seq<nat>, order: seq<nat>)
    requires Covers(ops, owner) && Within(ops, order) && Distinct(order)
    ensures Linked(Live(ops, owner, order), Gone(ops, order)) && 0 !in Gone(ops, order)
    ensures forall a | a in Todo(ops, order) :: ops[a].call !in Gone(ops, order) && ops[a].ret !in Gone(ops, order)
  {
    RemovedIsRemovable(ops, owner, order);
    UnlinkAllIsLinked(|owner|, Removed(ops, order));
    forall a | a in Todo(ops, order) ensures ops[a].call !in Gone(ops, order) && ops[a].ret !in Gone(ops, order) {
      GoneIsDone(ops, owner, order, ops[a].call);
      GoneIsDone(ops, owner, order, ops[a].ret);
    }
  }

  /** The cursor stands on a live node, or past the end when nothing is live. */
  ghost predicate Cursor<I, O>(ops: seq<Operation<I, O>>, owner: seq<nat>, order: seq<nat>, e: nat) {
    if Todo(ops, order) == {} then e == |owner| else IsLive(ops, owner, order, e)
  }

  lemma FirstCursor<I, O>(ops: seq<Operation<I, O>>, owner: seq<nat>, order: seq<nat>)
    requires Covers(ops, owner) && Within(ops, order) && Distinct(order)
    ensures Cursor(ops, owner, order, Live(ops, owner, order).next[0])
    ensures NothingBetween(ops, Todo(ops, order), 0, Live(ops, owner, order).next[0])
  {
    NextLive(ops, owner, order, 0);
    HeadLink(ops, owner, order);
  }

  lemma SkipIteration<S, I, O>(m: Model<S, I, O>, ops: seq<Operation<I, O>>, owner: seq<nat>, order: seq<nat>,
                               cached: set<Config<S>>, a: nat)
    requires Covers(ops, owner) && Within(ops, order) && Distinct(order) && a in Todo(ops, order)
    requires Searching(m, ops, order, cached, ops[a].call)
    requires !Allows(m, ops[a], StateAfter(m, ops, order)) || NextConfig(m, ops, order, a) in cached
    ensures var q := Live(ops, owner, order).next[ops[a].call];
      ops[a].call < q && Searching(m, ops, order, cached, q) && Cursor(ops, owner, order, q)
  {
    CallHasSuccessor(ops, owner, order, a);
    hide Live, Searching, NothingBetween;
    SkipStep(m, ops, order, cached, a, Live(ops, owner, order).next[ops[a].call]);
  }

  lemma PushIteration<S, I, O>(m: Model<S, I, O>, ops: seq<Operation<I, O>>, owner: seq<nat>, order: seq<nat>,
                               cached: set<Config<S>>, a: nat)
    requires Covers(ops, owner) && Within(ops, order) && Distinct(order) && a in Todo(ops, order)
    requires Searching(m, ops, order, cached, ops[a].call)
    requires Allows(m, ops[a], StateAfter(m, ops, order))
    ensures Within(ops, order + [a]) && Distinct(order + [a])
    ensures var q := Live(ops, owner, order + [a]).next[0];
      && Searching(m, ops, order + [a], cached + {NextConfig(m, ops, order, a)}, q)
      && Cursor(ops, owner, order + [a], q)
    ensures NextConfig(m, ops, order, a) in Configs(m, ops, |ops|)
    ensures NextConfig(m, ops, order, a) == (Done(order + [a]), StateAfter(m, ops, order + [a]))
  {
    DistinctSnoc(ops, order, a);
    DoneSnoc(order, a);
    FirstCursor(ops, owner, order + [a]);
    hide Live, Searching, NothingBetween, Cursor, Distinct, Covers;
    PushStep(m, ops, order, cached, a, Live(ops, owner, order + [a]).next[0]);
  }

  lemma PopIteration<S, I, O>(m: Model<S, I, O>, ops: seq<Operation<I, O>>, owner: seq<nat>, order: seq<nat>,
                              cached: set<Config<S>>, x: nat)
    requires Covers(ops, owner) && Within(ops, order) && Distinct(order) && order != [] && x in Todo(ops, order)
    requires Searching(m, ops, order, cached, ops[x].ret)
    ensures var shorter, a := order[..|order| - 1], order[|order| - 1];
      && Within(ops, shorter) && Distinct(shorter) && a in Todo(ops, shorter)
      && Done(shorter) == Done(order) - {a}
      && var q := Live(ops, owner, shorter).next[ops[a].call];
         ops[a].call < q && Searching(m, ops, shorter, cached, q) && Cursor(ops, owner, shorter, q)
  {
    var shorter, a := order[..|order| - 1], order[|order| - 1];
    assert order == shorter + [a];
    LastStep(m, ops, order);
    DoneSnoc(shorter, a);
    CallHasSuccessor(ops, owner, shorter, a);
    hide Live, Searching, NothingBetween, Covers;
    PopStep(m, ops, order, cached, x, Live(ops, owner, shorter).next[ops[a].call]);
  }
}
