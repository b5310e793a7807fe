/** Concurrent histories and linearizability (src/linearizability/model.go), independent of any
    checker. An operation is known by its index in the history. */
module Histories {
  import opened Counting

  /** model.go's Operation: what was asked, what was answered, and when. */
  datatype Operation<I, O> = Operation(input: I, call: int, output: O, ret: int)

  /** model.go's Model without the partition functions; states are compared with `==`. */
  datatype Model<!S, !I, !O> = Model(init: S, step: (S, I, O) -> (bool, S))

  /** Real-time order: `a` had returned before `b` was called. */
  predicate Precedes<I, O>(a: Operation<I, O>, b: Operation<I, O>) {
    a.ret < b.call
  }

  ghost predicate InRange<I, O>(ops: seq<Operation<I, O>>, ids: set<nat>) {
    forall i | i in ids :: i < |ops|
  }

  /** `order` lists exactly the members of `ids`, each once. */
  ghost predicate Enumerates(order: seq<nat>, ids: set<nat>) {
    && (forall i, j | 0 <= i < j < |order| :: order[i] != order[j])
    && (forall i | 0 <= i < |order| :: order[i] in ids)
    && (forall x | x in ids :: x in order)
  }

  ghost predicate Within<I, O>(ops: seq<Operation<I, O>>, order: seq<nat>) {
    forall i | 0 <= i < |order| :: order[i] < |ops|
  }

  ghost predicate RespectsRealTime<I, O>(ops: seq<Operation<I, O>>, order: seq<nat>)
    requires Within(ops, order)
  {
    forall i, j | 0 <= i < j < |order| :: !Precedes(ops[order[j]], ops[order[i]])
  }

  predicate Allows<S, I, O>(m: Model<S, I, O>, op: Operation<I, O>, s: S) {
    m.step(s, op.input, op.output).0
  }

  function After<S, I, O>(m: Model<S, I, O>, op: Operation<I, O>, s: S): S {
    m.step(s, op.input, op.output).1
  }

  /** The model accepts every step of `order` from state `s`. */
  ghost predicate Accepts<S, I, O>(m: Model<S, I, O>, ops: seq<Operation<I, O>>, s: S, order: seq<nat>)
    requires Within(ops, order)
  {
    order == [] || (Allows(m, ops[order[0]], s) && Accepts(m, ops, After(m, ops[order[0]], s), order[1..]))
  }

  /** `order` is a legal sequential order of the operations `ids`, started in state `s`. */
  ghost predicate IsLinearization<S, I, O>(m: Model<S, I, O>, ops: seq<Operation<I, O>>, ids: set<nat>, s: S,
                                           order: seq<nat>)
    requires InRange(ops, ids)
  {
    Enumerates(order, ids) && RespectsRealTime(ops, order) && Accepts(m, ops, s, order)
  }

  /** The textbook definition. */
  ghost predicate Linearizable<S, I, O>(m: Model<S, I, O>, ops: seq<Operation<I, O>>) {
    exists order :: IsLinearization(m, ops, Ids(|ops|), m.init, order)
  }

  /** A verdict that may have been cut short: true is always right, and false is right unless the flag
      that calls the search off was read as set. */
  ghost predicate Justified(ok: bool, linearizable: bool, killed: bool) {
    if ok then linearizable else !linearizable || killed
  }

  // ---------------------------------------------------------------- one operation at a time

  /** `a` may be taken next: no other pending operation had returned before it was called. */
  ghost predicate Minimal<I, O>(ops: seq<Operation<I, O>>, todo: set<nat>, a: nat)
    requires InRange(ops, todo)
  {
    a in todo && forall b | b in todo && b != a :: !Precedes(ops[b], ops[a])
  }

  /** The search's view of a linearization: take a minimal pending operation, step, repeat. */
  ghost predicate Completes<S, I, O>(m: Model<S, I, O>, ops: seq<Operation<I, O>>, todo: set<nat>, s: S,
                                     rest: seq<nat>)
    requires InRange(ops, todo)
  {
    if rest == [] then todo == {}
    else
      var a := rest[0];
      && Minimal(ops, todo, a)
      && Allows(m, ops[a], s)
      && Completes(m, ops, todo - {a}, After(m, ops[a], s), rest[1..])
  }

  /** No legal order of the pending operations exists from here. */
  ghost predicate Dead<S, I, O>(m: Model<S, I, O>, ops: seq<Operation<I, O>>, todo: set<nat>, s: S)
    requires InRange(ops, todo)
  {
    forall rest :: !Completes(m, ops, todo, s, rest)
  }

  lemma ConsEnumerates(a: nat, tail: seq<nat>, todo: set<nat>)
    requires a in todo && Enumerates(tail, todo - {a})
    ensures Enumerates([a] + tail, todo)
  {}

  lemma ConsRespectsRealTime<I, O>(ops: seq<Operation<I, O>>, a: nat, tail: seq<nat>, todo: set<nat>)
    requires InRange(ops, todo) && Minimal(ops, todo, a) && Enumerates(tail, todo - {a})
    requires RespectsRealTime(ops, tail)
    ensures Within(ops, [a] + tail) && RespectsRealTime(ops, [a] + tail)
  {}

  lemma {:induction false} CompletionIsLinearization<S, I, O>(m: Model<S, I, O>, ops: seq<Operation<I, O>>,
                                                              todo: set<nat>, s: S, rest: seq<nat>)
    requires InRange(ops, todo) && Completes(m, ops, todo, s, rest)
    ensures IsLinearization(m, ops, todo, s, rest)
  {
    if rest != [] {
      var a, tail := rest[0], rest[1..];
      CompletionIsLinearization(m, ops, todo - {a}, After(m, ops[a], s), tail);
      assert rest == [a] + tail;
      ConsEnumerates(a, tail, todo);
      ConsRespectsRealTime(ops, a, tail, todo);
      hide Enumerates, RespectsRealTime, Minimal, Within;
      assert Accepts(m, ops, s, rest);
    }
  }

  lemma {:induction false} LinearizationIsCompletion<S, I, O>(m: Model<S, I, O>, ops: seq<Operation<I, O>>,
                                                              todo: set<nat>, s: S, rest: seq<nat>)
    requires InRange(ops, todo) && IsLinearization(m, ops, todo, s, rest)
    ensures Completes(m, ops, todo, s, rest)
  {
    if rest != [] {
      var a, tail := rest[0], rest[1..];
      assert forall j | 0 <= j < |tail| :: tail[j] == rest[j + 1];
      forall b | b in todo && b != a ensures !Precedes(ops[b], ops[a]) && b in tail {
        assert b in rest;
        var j :| 0 <= j < |rest| && rest[j] == b;
        assert tail[j - 1] == b;
      }
      LinearizationIsCompletion(m, ops, todo - {a}, After(m, ops[a], s), tail);
    }
  }

  lemma SearchDecidesLinearizability<S, I, O>(m: Model<S, I, O>, ops: seq<Operation<I, O>>)
    ensures Linearizable(m, ops) <==> !Dead(m, ops, Ids(|ops|), m.init)
  {
    var ids := Ids(|ops|);
    if Linearizable(m, ops) {
      var order :| IsLinearization(m, ops, ids, m.init, order);
      LinearizationIsCompletion(m, ops, ids, m.init, order);
    }
    if !Dead(m, ops, ids, m.init) {
      var rest :| Completes(m, ops, ids, m.init, rest);
      CompletionIsLinearization(m, ops, ids, m.init, rest);
    }
  }

  // ---------------------------------------------------------------- histories without overlap

  /** `order` lists all operations, each returned before the next is called. */
  ghost predicate OneAfterTheOther<I, O>(ops: seq<Operation<I, O>>, order: seq<nat>) {
    && Enumerates(order, Ids(|ops|))
    && (forall i, j | 0 <= i < j < |order| :: Precedes(ops[order[i]], ops[order[j]]))
    && (forall i | 0 <= i < |ops| :: ops[i].call <= ops[i].ret)
  }

  ghost function Members(order: seq<nat>): set<nat> {
    set i | 0 <= i < |order| :: order[i]
  }

  /** Only the first of the remaining operations can be taken, so a completion is the order itself. */
  lemma {:induction false} OnlyOneCompletion<S, I, O>(m: Model<S, I, O>, ops: seq<Operation<I, O>>, order: seq<nat>, k: nat,
                                                      s: S, rest: seq<nat>)
    requires OneAfterTheOther(ops, order) && k <= |order| && InRange(ops, Members(order[k..]))
    requires Completes(m, ops, Members(order[k..]), s, rest)
    ensures Within(ops, order[k..]) && Accepts(m, ops, s, order[k..])
    decreases |order| - k
  {
    var todo := Members(order[k..]);
    if k < |order| {
      var a := order[k];
      assert order[k..][0] == a && order[k..][1..] == order[k + 1..];
      assert a in todo;
      OnlyFirstIsMinimal(ops, order, k, rest[0]);
      MembersTail(order, k, ops);
      OnlyOneCompletion(m, ops, order, k + 1, After(m, ops[a], s), rest[1..]);
    }
  }

  lemma OnlyFirstIsMinimal<I, O>(ops: seq<Operation<I, O>>, order: seq<nat>, k: nat, b: nat)
    requires OneAfterTheOther(ops, order) && k < |order| && InRange(ops, Members(order[k..]))
    requires Minimal(ops, Members(order[k..]), b)
    ensures b == order[k]
  {
    var j :| 0 <= j < |order[k..]| && order[k..][j] == b;
    assert order[k + j] == b;
    assert order[k..][0] == order[k] && order[k] in Members(order[k..]);
    if j > 0 {
      assert Precedes(ops[order[k]], ops[order[k + j]]);
    }
  }

  lemma MembersTail<I, O>(order: seq<nat>, k: nat, ops: seq<Operation<I, O>>)
    requires OneAfterTheOther(ops, order) && k < |order|
    ensures Members(order[k + 1..]) == Members(order[k..]) - {order[k]}
  {
    var xs, ys := order[k..], order[k + 1..];
    forall x ensures x in Members(ys) <==> x in Members(xs) && x != order[k] {
      if x in Members(ys) {
        var j :| 0 <= j < |ys| && ys[j] == x;
        assert xs[j + 1] == x && order[k + 1 + j] == x;
      }
      if x in Members(xs) && x != order[k] {
        var j :| 0 <= j < |xs| && xs[j] == x;
        assert ys[j - 1] == x;
      }
    }
  }

  /** A history without overlap is linearizable exactly when the model accepts it in the order of time. */
  lemma SequentialVerdict<S, I, O>(m: Model<S, I, O>, ops: seq<Operation<I, O>>, order: seq<nat>)
    requires OneAfterTheOther(ops, order)
    ensures Within(ops, order) && (Linearizable(m, ops) <==> Accepts(m, ops, m.init, order))
  {
    assert order[0..] == order;
    if Accepts(m, ops, m.init, order) {
      assert IsLinearization(m, ops, Ids(|ops|), m.init, order);
    }
    if Linearizable(m, ops) {
      SearchDecidesLinearizability(m, ops);
      var rest :| Completes(m, ops, Ids(|ops|), m.init, rest);
      assert Members(order) == Ids(|ops|);
      OnlyOneCompletion(m, ops, order, 0, m.init, rest);
    }
  }

  // ---------------------------------------------------------------- comparing histories

  /** Same requests and answers, and every precedence of `xs` is one of `ys`. */
  ghost predicate Relaxes<I, O>(xs: seq<Operation<I, O>>, ys: seq<Operation<I, O>>) {
    && |xs| == |ys|
    && (forall i | 0 <= i < |xs| :: xs[i].input == ys[i].input && xs[i].output == ys[i].output)
    && (forall i, j | 0 <= i < |xs| && 0 <= j < |xs| && Precedes(xs[i], xs[j]) :: Precedes(ys[i], ys[j]))
  }

  lemma {:induction false} SameSteps<S, I, O>(m: Model<S, I, O>, xs: seq<Operation<I, O>>,
                                              ys: seq<Operation<I, O>>, s: S, order: seq<nat>)
    requires Relaxes(xs, ys) && Within(xs, order)
    requires Accepts(m, ys, s, order)
    ensures Accepts(m, xs, s, order)
  {
    if order != [] {
      SameSteps(m, xs, ys, After(m, ys[order[0]], s), order[1..]);
    }
  }

  /** Dropping real-time constraints keeps a legal order legal. */
  lemma RelaxingKeepsLinearization<S, I, O>(m: Model<S, I, O>, xs: seq<Operation<I, O>>,
                                            ys: seq<Operation<I, O>>, order: seq<nat>)
    requires Relaxes(xs, ys) && IsLinearization(m, ys, Ids(|ys|), m.init, order)
    ensures IsLinearization(m, xs, Ids(|xs|), m.init, order)
  {
    SameSteps(m, xs, ys, m.init, order);
  }

  lemma RelaxingKeepsLinearizable<S, I, O>(m: Model<S, I, O>, xs: seq<Operation<I, O>>,
                                           ys: seq<Operation<I, O>>)
    requires Relaxes(xs, ys) && Linearizable(m, ys)
    ensures Linearizable(m, xs)
  {
    var order :| IsLinearization(m, ys, Ids(|ys|), m.init, order);
    RelaxingKeepsLinearization(m, xs, ys, order);
  }

  /** `sub` is a sub-history of `ops`: its operation `i` is operation `f[i]` there. */
  ghost predicate Embeds<I, O>(sub: seq<Operation<I, O>>, ops: seq<Operation<I, O>>, f: seq<nat>) {
    && |f| == |sub|
    && (forall i | 0 <= i < |f| :: f[i] < |ops| && ops[f[i]] == sub[i])
    && (forall i, j | 0 <= i < j < |f| :: f[i] != f[j])
  }

  ghost function Image(f: seq<nat>, ids: set<nat>): (r: set<nat>)
    requires forall i | i in ids :: i < |f|
    ensures forall i | i in ids :: f[i] in r
  {
    set i | i in ids :: f[i]
  }

  lemma ImageWithout(f: seq<nat>, ids: set<nat>, a: nat)
    requires forall i | i in ids :: i < |f|
    requires a in ids && forall i, j | 0 <= i < j < |f| :: f[i] != f[j]
    ensures Image(f, ids - {a}) == Image(f, ids) - {f[a]}
  {}

  lemma MinimalInSub<I, O>(sub: seq<Operation<I, O>>, ops: seq<Operation<I, O>>, f: seq<nat>, ids: set<nat>, a: nat)
    requires Embeds(sub, ops, f) && InRange(sub, ids) && a in ids
    ensures InRange(ops, Image(f, ids))
    ensures Minimal(sub, ids, a) <==> Minimal(ops, Image(f, ids), f[a])
  {}

  /** A sub-history has a completion exactly when its operations have one inside the history. */
  lemma {:induction false} PushCompletion<S, I, O>(m: Model<S, I, O>, sub: seq<Operation<I, O>>,
      ops: seq<Operation<I, O>>, f: seq<nat>, ids: set<nat>, s: S, rest: seq<nat>) returns (order: seq<nat>)
    requires Embeds(sub, ops, f) && InRange(sub, ids) && Completes(m, sub, ids, s, rest)
    ensures InRange(ops, Image(f, ids)) && Completes(m, ops, Image(f, ids), s, order)
    decreases |rest|
  {
    if rest == [] {
      order := [];
    } else {
      var a := rest[0];
      var tail := PushCompletion(m, sub, ops, f, ids - {a}, After(m, sub[a], s), rest[1..]);
      MinimalInSub(sub, ops, f, ids, a);
      ImageWithout(f, ids, a);
      order := [f[a]] + tail;
    }
  }

  lemma {:induction false} PullCompletion<S, I, O>(m: Model<S, I, O>, sub: seq<Operation<I, O>>,
      ops: seq<Operation<I, O>>, f: seq<nat>, ids: set<nat>, s: S, order: seq<nat>) returns (rest: seq<nat>)
    requires Embeds(sub, ops, f) && InRange(sub, ids)
    requires InRange(ops, Image(f, ids)) && Completes(m, ops, Image(f, ids), s, order)
    ensures Completes(m, sub, ids, s, rest)
    decreases |order|
  {
    if order == [] {
      rest := [];
    } else {
      var a :| a in ids && f[a] == order[0];
      MinimalInSub(sub, ops, f, ids, a);
      ImageWithout(f, ids, a);
      var tail := PullCompletion(m, sub, ops, f, ids - {a}, After(m, sub[a], s), order[1..]);
      rest := [a] + tail;
    }
  }
}
