/** The mathematics of the memoised depth-first search in `checkSingle`
    (src/linearizability/linearizability.go:167-214), free of the heap.

    `order` is the stack of operations linearized so far, and an operation's `call` and `ret` are the
    positions of its two nodes in the list. A cursor position `e` and a set of cached
    configurations (linearized set, state) complete the search state. */
module Search {
  import opened Counting
  import opened Histories

  /** Node positions: calls before returns, and no position used twice. */
  ghost predicate Laid<I, O>(ops: seq<Operation<I, O>>) {
    && (forall i | 0 <= i < |ops| :: 0 < ops[i].call < ops[i].ret)
    && (forall i, j | 0 <= i < |ops| && 0 <= j < |ops| :: ops[i].call != ops[j].ret)
    && (forall i, j | 0 <= i < j < |ops| :: ops[i].call != ops[j].call && ops[i].ret != ops[j].ret)
  }

  ghost function Done(order: seq<nat>): set<nat> {
    set x | x in order
  }

  ghost function Todo<I, O>(ops: seq<Operation<I, O>>, order: seq<nat>): (ids: set<nat>)
    ensures InRange(ops, ids)
  {
    Ids(|ops|) - Done(order)
  }

  lemma DoneSnoc(order: seq<nat>, a: nat)
    ensures Done(order + [a]) == Done(order) + {a}
  {}

  lemma TodoSnoc<I, O>(ops: seq<Operation<I, O>>, order: seq<nat>, a: nat)
    ensures Todo(ops, order + [a]) == Todo(ops, order) - {a}
  {}

  /** The state reached by stepping through `order`. */
  ghost function StateAfter<S, I, O>(m: Model<S, I, O>, ops: seq<Operation<I, O>>, order: seq<nat>): S
    requires Within(ops, order)
  {
    if order == [] then m.init
    else After(m, ops[order[|order| - 1]], StateAfter(m, ops, order[..|order| - 1]))
  }

  /** `order` can be built by pushing one minimal, accepted operation after the other. */
  ghost predicate Path<S, I, O>(m: Model<S, I, O>, ops: seq<Operation<I, O>>, order: seq<nat>)
    ensures Path(m, ops, order) ==> Within(ops, order)
  {
    order == [] ||
      var init, a := order[..|order| - 1], order[|order| - 1];
      && Path(m, ops, init)
      && Minimal(ops, Todo(ops, init), a)
      && Allows(m, ops[a], StateAfter(m, ops, init))
  }

  lemma {:induction false} PathIsDistinct<S, I, O>(m: Model<S, I, O>, ops: seq<Operation<I, O>>, order: seq<nat>)
    requires Path(m, ops, order)
    ensures forall i, j | 0 <= i < j < |order| :: order[i] != order[j]
    ensures |Done(order)| == |order|
  {
    if order == [] {
      assert Done(order) == {};
    } else {
      var init, a := order[..|order| - 1], order[|order| - 1];
      PathIsDistinct(m, ops, init);
      assert order == init + [a];
      DoneSnoc(init, a);
      assert forall i | 0 <= i < |init| :: order[i] == init[i] && init[i] in init;
    }
  }

  // ---------------------------------------------------------------- soundness

  /** A completion of the current configuration prolongs the stack to a completion of the start. */
  lemma {:induction false} PathThenCompletion<S, I, O>(m: Model<S, I, O>, ops: seq<Operation<I, O>>,
                                                       order: seq<nat>, rest: seq<nat>)
    requires Path(m, ops, order)
    requires Completes(m, ops, Todo(ops, order), StateAfter(m, ops, order), rest)
    ensures Completes(m, ops, Ids(|ops|), m.init, order + rest)
    decreases |order|
  {
    hide Minimal, Allows, After;
    if order == [] {
      assert Todo(ops, order) == Ids(|ops|);
      assert order + rest == rest;
    } else {
      var init, a := order[..|order| - 1], order[|order| - 1];
      assert order == init + [a];
      TodoSnoc(ops, init, a);
      assert ([a] + rest)[1..] == rest;
      PathThenCompletion(m, ops, init, [a] + rest);
      assert order + rest == init + ([a] + rest);
    }
  }

  /** Soundness: a stack that has taken every operation is a linearization. */
  lemma FullPathIsLinearization<S, I, O>(m: Model<S, I, O>, ops: seq<Operation<I, O>>, order: seq<nat>)
    requires Path(m, ops, order) && Todo(ops, order) == {}
    ensures IsLinearization(m, ops, Ids(|ops|), m.init, order)
  {
    PathThenCompletion(m, ops, order, []);
    assert order + [] == order;
    CompletionIsLinearization(m, ops, Ids(|ops|), m.init, order);
  }

  // ---------------------------------------------------------------- what the cursor has ruled out

  /** The pending operation `b` cannot be taken now: refused by the model or leading nowhere. */
  ghost predicate RuledOut<S, I, O>(m: Model<S, I, O>, ops: seq<Operation<I, O>>, todo: set<nat>, s: S, b: nat)
    requires InRange(ops, todo) && b in todo
  {
    Allows(m, ops[b], s) ==> Dead(m, ops, todo - {b}, After(m, ops[b], s))
  }

  /** No pending return lies before the cursor `e`, and every pending call before it is ruled out. */
  ghost predicate Tried<S, I, O>(m: Model<S, I, O>, ops: seq<Operation<I, O>>, todo: set<nat>, s: S, e: nat)
    requires InRange(ops, todo)
  {
    && (forall b | b in todo :: e <= ops[b].ret)
    && (forall b | b in todo && ops[b].call < e :: RuledOut(m, ops, todo, s, b))
  }

  /** No node of a pending operation lies strictly between `p` and `q`. */
  ghost predicate NothingBetween<I, O>(ops: seq<Operation<I, O>>, todo: set<nat>, p: nat, q: nat)
    requires InRange(ops, todo)
  {
    forall b | b in todo :: !(p < ops[b].call < q) && !(p < ops[b].ret < q)
  }

  /** Standing on a pending return with everything before it tried: this configuration is dead. */
  lemma ReturnReachedIsDead<S, I, O>(m: Model<S, I, O>, ops: seq<Operation<I, O>>, todo: set<nat>, s: S, x: nat)
    requires Laid(ops) && InRange(ops, todo) && x in todo
    requires Tried(m, ops, todo, s, ops[x].ret)
    ensures Dead(m, ops, todo, s)
  {}

  /** The cursor leaves a ruled-out call and moves to the next live node. */
  lemma CursorAdvances<S, I, O>(m: Model<S, I, O>, ops: seq<Operation<I, O>>, todo: set<nat>, s: S, a: nat, e: nat)
    requires Laid(ops) && InRange(ops, todo) && a in todo
    requires Tried(m, ops, todo, s, ops[a].call) && RuledOut(m, ops, todo, s, a)
    requires ops[a].call < e && NothingBetween(ops, todo, ops[a].call, e)
    ensures Tried(m, ops, todo, s, e)
  {}

  /** At the first live node nothing has been passed. */
  lemma CursorStarts<S, I, O>(m: Model<S, I, O>, ops: seq<Operation<I, O>>, todo: set<nat>, s: S, e: nat)
    requires Laid(ops) && InRange(ops, todo) && NothingBetween(ops, todo, 0, e)
    ensures Tried(m, ops, todo, s, e)
  {}

  // ---------------------------------------------------------------- the cache

  type Config<S> = (set<nat>, S)

  ghost predicate OnPath<S, I, O>(m: Model<S, I, O>, ops: seq<Operation<I, O>>, order: seq<nat>, c: Config<S>)
    requires Within(ops, order)
  {
    exists j :: 0 < j <= |order| && AtLevel(m, ops, order, c, j)
  }

  ghost predicate AtLevel<S, I, O>(m: Model<S, I, O>, ops: seq<Operation<I, O>>, order: seq<nat>, c: Config<S>, j: nat)
    requires Within(ops, order) && j <= |order|
  {
    c == (Done(order[..j]), StateAfter(m, ops, order[..j]))
  }

  /** The memoisation invariant: a cached configuration is on the stack or has no completion. */
  ghost predicate CacheSound<S, I, O>(m: Model<S, I, O>, ops: seq<Operation<I, O>>, order: seq<nat>,
                                      cached: set<Config<S>>)
    requires Within(ops, order)
  {
    forall c | c in cached :: OnPath(m, ops, order, c) || Dead(m, ops, Ids(|ops|) - c.0, c.1)
  }

  /** Every level of the stack had tried everything before the call it pushed. */
  ghost predicate Levels<S, I, O>(m: Model<S, I, O>, ops: seq<Operation<I, O>>, order: seq<nat>)
    requires Within(ops, order)
  {
    forall j | 0 <= j < |order| :: Level(m, ops, order, j)
  }

  ghost predicate Level<S, I, O>(m: Model<S, I, O>, ops: seq<Operation<I, O>>, order: seq<nat>, j: nat)
    requires Within(ops, order) && j < |order|
  {
    0 <= ops[order[j]].call &&
    Tried(m, ops, Todo(ops, order[..j]), StateAfter(m, ops, order[..j]), ops[order[j]].call)
  }

  lemma NotOnPath<S, I, O>(m: Model<S, I, O>, ops: seq<Operation<I, O>>, order: seq<nat>, a: nat, s: S)
    requires Path(m, ops, order) && a !in Done(order)
    ensures !OnPath(m, ops, order, (Done(order) + {a}, s))
  {}

  /** A cache hit is never on the stack, so it never hides a solution. */
  lemma CacheHitIsRuledOut<S, I, O>(m: Model<S, I, O>, ops: seq<Operation<I, O>>, order: seq<nat>,
                                    cached: set<Config<S>>, a: nat)
    requires Path(m, ops, order) && CacheSound(m, ops, order, cached) && a in Todo(ops, order)
    requires (Done(order) + {a}, After(m, ops[a], StateAfter(m, ops, order))) in cached
    ensures RuledOut(m, ops, Todo(ops, order), StateAfter(m, ops, order), a)
  {
    NotOnPath(m, ops, order, a, After(m, ops[a], StateAfter(m, ops, order)));
    assert Ids(|ops|) - (Done(order) + {a}) == Todo(ops, order) - {a};
  }

  lemma OnPathGrows<S, I, O>(m: Model<S, I, O>, ops: seq<Operation<I, O>>, order: seq<nat>, a: nat, c: Config<S>)
    requires Within(ops, order) && a < |ops| && OnPath(m, ops, order, c)
    ensures OnPath(m, ops, order + [a], c)
  {
    hide Done, StateAfter;
    var j :| 0 < j <= |order| && AtLevel(m, ops, order, c, j);
    assert (order + [a])[..j] == order[..j];
    assert AtLevel(m, ops, order + [a], c, j);
  }

  lemma NewestOnPath<S, I, O>(m: Model<S, I, O>, ops: seq<Operation<I, O>>, order: seq<nat>, a: nat)
    requires Within(ops, order) && a < |ops|
    ensures OnPath(m, ops, order + [a], (Done(order) + {a}, After(m, ops[a], StateAfter(m, ops, order))))
  {
    var longer := order + [a];
    DoneSnoc(order, a);
    assert longer[..|order|] == order && longer[..|longer|] == longer;
    assert AtLevel(m, ops, longer, (Done(order) + {a}, After(m, ops[a], StateAfter(m, ops, order))), |longer|);
  }

  lemma PushKeepsCache<S, I, O>(m: Model<S, I, O>, ops: seq<Operation<I, O>>, order: seq<nat>,
                                cached: set<Config<S>>, a: nat)
    requires Path(m, ops, order) && CacheSound(m, ops, order, cached) && a < |ops|
    ensures CacheSound(m, ops, order + [a],
                       cached + {(Done(order) + {a}, After(m, ops[a], StateAfter(m, ops, order)))})
  {
    hide Path, OnPath, Done, StateAfter, Dead;
    NewestOnPath(m, ops, order, a);
    forall c | c in cached && OnPath(m, ops, order, c) ensures OnPath(m, ops, order + [a], c) {
      OnPathGrows(m, ops, order, a, c);
    }
  }

  /** Popping keeps the invariant because the configuration that leaves the stack is dead. */
  lemma PopKeepsCache<S, I, O>(m: Model<S, I, O>, ops: seq<Operation<I, O>>, order: seq<nat>, cached: set<Config<S>>)
    requires Path(m, ops, order) && order != [] && CacheSound(m, ops, order, cached)
    requires Dead(m, ops, Todo(ops, order), StateAfter(m, ops, order))
    ensures CacheSound(m, ops, order[..|order| - 1], cached)
  {
    var shorter := order[..|order| - 1];
    forall c | c in cached ensures OnPath(m, ops, shorter, c) || Dead(m, ops, Ids(|ops|) - c.0, c.1) {
      if OnPath(m, ops, order, c) {
        var j :| 0 < j <= |order| && AtLevel(m, ops, order, c, j);
        if j == |order| {
          assert order[..j] == order;
        } else {
          assert shorter[..j] == order[..j];
          assert AtLevel(m, ops, shorter, c, j);
        }
      }
    }
  }

  lemma PushKeepsLevels<S, I, O>(m: Model<S, I, O>, ops: seq<Operation<I, O>>, order: seq<nat>, a: nat)
    requires Within(ops, order) && Levels(m, ops, order) && a < |ops| && 0 <= ops[a].call
    requires Tried(m, ops, Todo(ops, order), StateAfter(m, ops, order), ops[a].call)
    ensures Levels(m, ops, order + [a])
  {
    hide Tried;
    var longer := order + [a];
    forall j | 0 <= j < |longer| ensures Level(m, ops, longer, j) {
      assert longer[..j] == order[..j];
      if j < |order| {
        assert Level(m, ops, order, j);
      } else {
        assert order[..j] == order;
      }
    }
  }

  lemma PopKeepsLevels<S, I, O>(m: Model<S, I, O>, ops: seq<Operation<I, O>>, order: seq<nat>)
    requires Within(ops, order) && order != [] && Levels(m, ops, order)
    ensures Levels(m, ops, order[..|order| - 1])
    ensures Level(m, ops, order, |order| - 1)
  {
    hide Tried;
    var shorter := order[..|order| - 1];
    forall j | 0 <= j < |shorter| ensures Level(m, ops, shorter, j) {
      assert Level(m, ops, order, j);
      assert shorter[..j] == order[..j];
    }
  }

  // ---------------------------------------------------------------- finitely many configurations

  /** All sequences of length `k` over `0 .. n-1`. */
  ghost function Sequences(n: nat, k: nat): set<seq<nat>> {
    if k == 0 then {[]} else set xs, a | xs in Sequences(n, k - 1) && a in Ids(n) :: xs + [a]
  }

  ghost function ConfigsAt<S, I, O>(m: Model<S, I, O>, ops: seq<Operation<I, O>>, k: nat): set<Config<S>> {
    set xs | xs in Sequences(|ops|, k) && Within(ops, xs) :: (Done(xs), StateAfter(m, ops, xs))
  }

  /** The configurations of all sequences of at most `k` operations: a finite set. */
  ghost function Configs<S, I, O>(m: Model<S, I, O>, ops: seq<Operation<I, O>>, k: nat): set<Config<S>> {
    (if k == 0 then {} else Configs(m, ops, k - 1)) + ConfigsAt(m, ops, k)
  }

  lemma {:induction false} PathIsSequence<S, I, O>(m: Model<S, I, O>, ops: seq<Operation<I, O>>, order: seq<nat>)
    requires Path(m, ops, order)
    ensures order in Sequences(|ops|, |order|) && |order| <= |ops|
  {
    if order != [] {
      var init, a := order[..|order| - 1], order[|order| - 1];
      PathIsSequence(m, ops, init);
      assert order == init + [a];
    }
    PathIsDistinct(m, ops, order);
    DoneBound(ops, order);
  }

  lemma DoneBound<I, O>(ops: seq<Operation<I, O>>, order: seq<nat>)
    requires Within(ops, order)
    ensures |Done(order)| <= |ops|
  {
    assert Done(order) <= Ids(|ops|);
    SubsetSize(Done(order), Ids(|ops|));
    IdsCount(|ops|);
  }

  lemma {:induction false} ConfigsGrow<S, I, O>(m: Model<S, I, O>, ops: seq<Operation<I, O>>, j: nat, k: nat)
    requires j <= k
    ensures Configs(m, ops, j) <= Configs(m, ops, k)
    decreases k - j
  {
    hide ConfigsAt;
    if j < k {
      ConfigsGrow(m, ops, j, k - 1);
    }
  }

  /** Whatever the search caches belongs to one finite set: the search can only push so often. */
  lemma PathConfigIsKnown<S, I, O>(m: Model<S, I, O>, ops: seq<Operation<I, O>>, order: seq<nat>)
    requires Path(m, ops, order)
    ensures (Done(order), StateAfter(m, ops, order)) in Configs(m, ops, |ops|)
  {
    PathIsSequence(m, ops, order);
    assert (Done(order), StateAfter(m, ops, order)) in ConfigsAt(m, ops, |order|);
    hide ConfigsAt;
    assert (Done(order), StateAfter(m, ops, order)) in Configs(m, ops, |order|);
    ConfigsGrow(m, ops, |order|, |ops|);
  }

  // ---------------------------------------------------------------- the loop invariant and its steps

  /** The invariant of the search loop: stack, cache and cursor together. */
  ghost predicate Searching<S, I, O>(m: Model<S, I, O>, ops: seq<Operation<I, O>>, order: seq<nat>,
                                     cached: set<Config<S>>, e: nat)
    ensures Searching(m, ops, order, cached, e) ==> Within(ops, order)
  {
    && Laid(ops)
    && Path(m, ops, order)
    && Levels(m, ops, order)
    && CacheSound(m, ops, order, cached)
    && cached <= Configs(m, ops, |ops|)
    && Tried(m, ops, Todo(ops, order), StateAfter(m, ops, order), e)
  }

  ghost function NextConfig<S, I, O>(m: Model<S, I, O>, ops: seq<Operation<I, O>>, order: seq<nat>, a: nat): Config<S>
    requires Within(ops, order) && a < |ops|
  {
    (Done(order) + {a}, After(m, ops[a], StateAfter(m, ops, order)))
  }

  lemma StartSearching<S, I, O>(m: Model<S, I, O>, ops: seq<Operation<I, O>>, e: nat)
    requires Laid(ops) && NothingBetween(ops, Todo(ops, []), 0, e)
    ensures Searching(m, ops, [], {}, e)
  {}

  /** The model refuses `a`, or its successor configuration is cached: move on. */
  lemma SkipStep<S, I, O>(m: Model<S, I, O>, ops: seq<Operation<I, O>>, order: seq<nat>, cached: set<Config<S>>,
                          a: nat, e: nat)
    requires a in Todo(ops, order) && 0 <= ops[a].call
    requires Searching(m, ops, order, cached, ops[a].call)
    requires !Allows(m, ops[a], StateAfter(m, ops, order)) || NextConfig(m, ops, order, a) in cached
    requires ops[a].call < e && NothingBetween(ops, Todo(ops, order), ops[a].call, e)
    ensures Searching(m, ops, order, cached, e)
  {
    if Allows(m, ops[a], StateAfter(m, ops, order)) {
      CacheHitIsRuledOut(m, ops, order, cached, a);
    }
    hide Levels, CacheSound, Path, Configs, Tried, NothingBetween, Laid;
    CursorAdvances(m, ops, Todo(ops, order), StateAfter(m, ops, order), a, e);
  }

  lemma PathSnoc<S, I, O>(m: Model<S, I, O>, ops: seq<Operation<I, O>>, order: seq<nat>, a: nat)
    requires Path(m, ops, order) && a in Todo(ops, order) && 0 <= ops[a].call
    requires Tried(m, ops, Todo(ops, order), StateAfter(m, ops, order), ops[a].call)
    requires Allows(m, ops[a], StateAfter(m, ops, order))
    ensures Path(m, ops, order + [a])
    ensures (Done(order + [a]), StateAfter(m, ops, order + [a])) == NextConfig(m, ops, order, a)
  {
    assert (order + [a])[..|order|] == order;
    DoneSnoc(order, a);
  }

  /** Take `a`: push it, cache the new configuration and start again at the head. */
  lemma PushStep<S, I, O>(m: Model<S, I, O>, ops: seq<Operation<I, O>>, order: seq<nat>, cached: set<Config<S>>,
                          a: nat, e: nat)
    requires a in Todo(ops, order) && 0 <= ops[a].call
    requires Searching(m, ops, order, cached, ops[a].call)
    requires Allows(m, ops[a], StateAfter(m, ops, order))
    requires NothingBetween(ops, Todo(ops, order + [a]), 0, e)
    ensures Searching(m, ops, order + [a], cached + {NextConfig(m, ops, order, a)}, e)
    ensures NextConfig(m, ops, order, a) in Configs(m, ops, |ops|)
    ensures StateAfter(m, ops, order + [a]) == NextConfig(m, ops, order, a).1
  {
    PathSnoc(m, ops, order, a);
    hide Levels, CacheSound, Path, Configs, NothingBetween, Laid, Tried, Done, Todo;
    PushKeepsLevels(m, ops, order, a);
    PushKeepsCache(m, ops, order, cached, a);
    PathConfigIsKnown(m, ops, order + [a]);
    CursorStarts(m, ops, Todo(ops, order + [a]), StateAfter(m, ops, order + [a]), e);
  }

  lemma LastStep<S, I, O>(m: Model<S, I, O>, ops: seq<Operation<I, O>>, order: seq<nat>)
    requires Path(m, ops, order) && order != []
    ensures var shorter, a := order[..|order| - 1], order[|order| - 1];
      && Path(m, ops, shorter) && a in Todo(ops, shorter) && Todo(ops, order) == Todo(ops, shorter) - {a}
      && StateAfter(m, ops, order) == After(m, ops[a], StateAfter(m, ops, shorter))
  {}

  /** A pending return stops the cursor: pop the last operation and continue after its call. */
  lemma PopStep<S, I, O>(m: Model<S, I, O>, ops: seq<Operation<I, O>>, order: seq<nat>, cached: set<Config<S>>,
                         x: nat, e: nat)
    requires order != [] && x in Todo(ops, order) && 0 <= ops[x].ret
    requires Searching(m, ops, order, cached, ops[x].ret)
    requires var shorter, a := order[..|order| - 1], order[|order| - 1];
      && 0 <= ops[a].call < e && NothingBetween(ops, Todo(ops, shorter), ops[a].call, e)
    ensures Searching(m, ops, order[..|order| - 1], cached, e)
  {
    var shorter, a := order[..|order| - 1], order[|order| - 1];
    LastStep(m, ops, order);
    hide Levels, CacheSound, Path, Configs, NothingBetween, Laid, Tried, Done, Todo, StateAfter, Dead;
    ReturnReachedIsDead(m, ops, Todo(ops, order), StateAfter(m, ops, order), x);
    PopKeepsCache(m, ops, order, cached);
    PopKeepsLevels(m, ops, order);
    assert Level(m, ops, order, |order| - 1);
    CursorAdvances(m, ops, Todo(ops, shorter), StateAfter(m, ops, shorter), a, e);
  }

  /** A pending return with an empty stack: no linearization exists. */
  lemma FailStep<S, I, O>(m: Model<S, I, O>, ops: seq<Operation<I, O>>, cached: set<Config<S>>, x: nat)
    requires x in Todo(ops, []) && 0 <= ops[x].ret && Searching(m, ops, [], cached, ops[x].ret)
    ensures !Linearizable(m, ops)
  {
    ReturnReachedIsDead(m, ops, Todo(ops, []), m.init, x);
    assert Todo(ops, []) == Ids(|ops|);
    SearchDecidesLinearizability(m, ops);
  }
}
