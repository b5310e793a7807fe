/** `checkSingle` (src/linearizability/linearizability.go:142-214): the search on the heap list. */
module Checker {
  import opened Bitset
  import opened Cache
  import opened Counting
  import opened Entries
  import opened Histories
  import opened Links
  import opened LiveNodes
  import opened Nodes
  import opened Search

  datatype CallsEntry<S, I, O> = CallsEntry(entry: Node<I, O>, state: S)

  /** `id: ^uint(0)` of the head node. */
  const HEAD_ID: nat := 0xFFFF_FFFF_FFFF_FFFF

  // ---------------------------------------------------------------- the list with its head in front

  /** The history with every entry position moved up by one, behind the head. */
  ghost function Shifted<I, O>(ops: seq<Operation<I, O>>): (r: seq<Operation<I, O>>)
    ensures |r| == |ops|
    ensures forall i | 0 <= i < |r| :: r[i] == Operation(ops[i].input, ops[i].call + 1, ops[i].output, ops[i].ret + 1)
  {
    seq(|ops|, i requires 0 <= i < |ops| => Operation(ops[i].input, ops[i].call + 1, ops[i].output, ops[i].ret + 1))
  }

  /** Moving all positions up changes no precedence, so the same orders are legal. */
  lemma ShiftedIsEquivalent<S, I, O>(m: Model<S, I, O>, ops: seq<Operation<I, O>>, order: seq<nat>)
    ensures IsLinearization(m, Shifted(ops), Ids(|ops|), m.init, order) <==> IsLinearization(m, ops, Ids(|ops|), m.init, order)
  {
    assert Relaxes(ops, Shifted(ops)) && Relaxes(Shifted(ops), ops);
    hide IsLinearization, Relaxes;
    if IsLinearization(m, ops, Ids(|ops|), m.init, order) {
      RelaxingKeepsLinearization(m, Shifted(ops), ops, order);
    }
    if IsLinearization(m, Shifted(ops), Ids(|ops|), m.init, order) {
      RelaxingKeepsLinearization(m, ops, Shifted(ops), order);
    }
  }

  ghost function Owners<I, O>(es: seq<Entry<I, O>>): (owner: seq<nat>)
    ensures |owner| == |es| + 1
    ensures forall p | 0 < p < |owner| :: owner[p] == es[p - 1].id
  {
    [0] + seq(|es|, p requires 0 <= p < |es| => es[p].id)
  }

  lemma ShiftedCovers<I, O>(es: seq<Entry<I, O>>, ops: seq<Operation<I, O>>)
    requires Describes(es, ops)
    ensures Covers(Shifted(ops), Owners(es))
  {
    forall i | 0 <= i < |ops| ensures PlacedAt(es, ops[i], i) {}
  }

  /** The two nodes of every operation are where its positions say. */
  ghost predicate Wired<I, O>(nodes: seq<Node<I, O>>, ops: seq<Operation<I, O>>) {
    forall i | 0 <= i < |ops| :: WiredAt(nodes, ops[i], i)
  }

  ghost predicate WiredAt<I, O>(nodes: seq<Node<I, O>>, op: Operation<I, O>, i: nat) {
    && 0 < op.call < op.ret < |nodes|
    && nodes[op.call].value == Input(op.input) && nodes[op.call].id == i && nodes[op.call].mate == nodes[op.ret]
    && nodes[op.ret].value == Output(op.output) && nodes[op.ret].mate == null
  }

  lemma RepresentedIsWired<I, O>(head: Node<I, O>, nodes: seq<Node<I, O>>, es: seq<Entry<I, O>>, ops: seq<Operation<I, O>>)
    requires Describes(es, ops) && Represents(nodes, es, ops)
    ensures Wired([head] + nodes, Shifted(ops))
  {
    var all, shifted := [head] + nodes, Shifted(ops);
    forall i | 0 <= i < |shifted| ensures WiredAt(all, shifted[i], i) {
      assert PlacedAt(es, ops[i], i);
      assert Mated(nodes, ops[i]);
      assert all[shifted[i].call] == nodes[ops[i].call] && all[shifted[i].ret] == nodes[ops[i].ret];
    }
  }

  /** A live node is a call node with a mate, or a return node without one. */
  lemma LiveNodeKind<I, O>(nodes: seq<Node<I, O>>, ops: seq<Operation<I, O>>, owner: seq<nat>, order: seq<nat>, e: nat)
    requires Covers(ops, owner) && Wired(nodes, ops) && |nodes| == |owner| && IsLive(ops, owner, order, e)
    ensures var a := owner[e];
      && a in Todo(ops, order) && WiredAt(nodes, ops[a], a)
      && (nodes[e].mate != null ==> e == ops[a].call)
      && (nodes[e].mate == null ==> e == ops[a].ret)
  {}

  /** The undo stack holds, per level, the call node taken and the state before it. */
  ghost predicate Stacked<S, I, O>(calls: seq<CallsEntry<S, I, O>>, nodes: seq<Node<I, O>>, m: Model<S, I, O>,
                                   ops: seq<Operation<I, O>>, order: seq<nat>)
    requires Within(ops, order)
    ensures Stacked(calls, nodes, m, ops, order) ==> |calls| == |order|
  {
    && |calls| == |order|
    && (forall j | 0 <= j < |calls| :: StackedAt(calls, nodes, m, ops, order, j))
  }

  ghost predicate StackedAt<S, I, O>(calls: seq<CallsEntry<S, I, O>>, nodes: seq<Node<I, O>>, m: Model<S, I, O>,
                                     ops: seq<Operation<I, O>>, order: seq<nat>, j: nat)
    requires Within(ops, order) && j < |calls| == |order|
  {
    && 0 <= ops[order[j]].call < |nodes|
    && calls[j] == CallsEntry(nodes[ops[order[j]].call], StateAfter(m, ops, order[..j]))
  }

  lemma StackPush<S, I, O>(calls: seq<CallsEntry<S, I, O>>, nodes: seq<Node<I, O>>, m: Model<S, I, O>,
                           ops: seq<Operation<I, O>>, order: seq<nat>, a: nat)
    requires Within(ops, order) && Stacked(calls, nodes, m, ops, order)
    requires a < |ops| && 0 <= ops[a].call < |nodes|
    ensures Stacked(calls + [CallsEntry(nodes[ops[a].call], StateAfter(m, ops, order))], nodes, m, ops, order + [a])
  {
    var calls', order' := calls + [CallsEntry(nodes[ops[a].call], StateAfter(m, ops, order))], order + [a];
    forall j | 0 <= j < |calls'| ensures StackedAt(calls', nodes, m, ops, order', j) {
      if j < |calls| {
        assert StackedAt(calls, nodes, m, ops, order, j);
        assert order'[..j] == order[..j];
      } else {
        assert order'[..j] == order;
      }
    }
  }

  lemma StackPop<S, I, O>(calls: seq<CallsEntry<S, I, O>>, nodes: seq<Node<I, O>>, m: Model<S, I, O>,
                          ops: seq<Operation<I, O>>, order: seq<nat>)
    requires Within(ops, order) && Stacked(calls, nodes, m, ops, order) && calls != []
    ensures Stacked(calls[..|calls| - 1], nodes, m, ops, order[..|order| - 1])
    ensures StackedAt(calls, nodes, m, ops, order, |order| - 1)
  {
    var calls', order' := calls[..|calls| - 1], order[..|order| - 1];
    forall j | 0 <= j < |calls'| ensures StackedAt(calls', nodes, m, ops, order', j) {
      assert StackedAt(calls, nodes, m, ops, order, j);
      assert order'[..j] == order[..j];
    }
  }

  // ---------------------------------------------------------------- the search

  lemma StartIteration<S, I, O>(m: Model<S, I, O>, ops: seq<Operation<I, O>>, owner: seq<nat>)
    requires Covers(ops, owner)
    ensures Live(ops, owner, []) == Initial(|owner|)
    ensures var q := Initial(|owner|).next[0];
      Searching(m, ops, [], {}, q) && Cursor(ops, owner, [], q)
  {
    FirstCursor(ops, owner, []);
    assert Removed(ops, []) == [];
    hide Live;
    StartSearching(m, ops, Live(ops, owner, []).next[0]);
  }

  /** The heap-free half of the loop invariant: the fixed list and the state of the search on it. */
  ghost predicate SearchState<S(!new), I, O>(m: Model<S, I, O>, nodes: seq<Node<I, O>>, ops: seq<Operation<I, O>>,
      owner: seq<nat>, order: seq<nat>, cached: set<Config<S>>, e: nat)
    ensures SearchState(m, nodes, ops, owner, order, cached, e) ==>
      Laid(ops) && Covers(ops, owner) && Within(ops, order) && Distinct(order) && AllDistinct(nodes) && |nodes| == |owner| > 0
  {
    && AllDistinct(nodes) && Wired(nodes, ops) && |nodes| == |owner|
    && Covers(ops, owner) && Distinct(order)
    && Searching(m, ops, order, cached, e)
    && Cursor(ops, owner, order, e)
  }

  /** The head node's `next` tells whether an operation is left. */
  lemma HeadPointer<S(!new), I, O>(m: Model<S, I, O>, nodes: seq<Node<I, O>>, ops: seq<Operation<I, O>>,
      owner: seq<nat>, order: seq<nat>, cached: set<Config<S>>, e: nat)
    requires SearchState(m, nodes, ops, owner, order, cached, e) && Mirrors(nodes, Live(ops, owner, order))
    ensures nodes[0].next == null ==> IsLinearization(m, ops, Ids(|ops|), m.init, order)
    ensures nodes[0].next != null ==> IsLive(ops, owner, order, e)
  {
    HeadLink(ops, owner, order);
    assert MirrorsAt(nodes, Live(ops, owner, order), 0);
    if nodes[0].next == null {
      FullPathIsLinearization(m, ops, order);
    }
  }

  /** What the loop body finds at the cursor. */
  lemma CursorNode<S(!new), I, O>(m: Model<S, I, O>, nodes: seq<Node<I, O>>, ops: seq<Operation<I, O>>,
      owner: seq<nat>, order: seq<nat>, cached: set<Config<S>>, e: nat) returns (a: nat)
    requires SearchState(m, nodes, ops, owner, order, cached, e) && IsLive(ops, owner, order, e)
    ensures a == owner[e] && a in Todo(ops, order) && a !in Done(order) && WiredAt(nodes, ops[a], a)
    ensures nodes[e].mate != null ==> e == ops[a].call
    ensures nodes[e].mate == null ==> e == ops[a].ret
  {
    a := owner[e];
    LiveNodeKind(nodes, ops, owner, order, e);
  }

  lemma SkipCursor<S(!new), I, O>(m: Model<S, I, O>, nodes: seq<Node<I, O>>, ops: seq<Operation<I, O>>,
      owner: seq<nat>, order: seq<nat>, cached: set<Config<S>>, a: nat) returns (q: nat)
    requires Laid(ops) && a < |ops|
    requires SearchState(m, nodes, ops, owner, order, cached, ops[a].call) && Mirrors(nodes, Live(ops, owner, order))
    requires a in Todo(ops, order) && ops[a].call < |nodes|
    requires !Allows(m, ops[a], StateAfter(m, ops, order)) || NextConfig(m, ops, order, a) in cached
    ensures SearchState(m, nodes, ops, owner, order, cached, q)
    ensures ops[a].call < q && nodes[ops[a].call].next == At(nodes, q)
  {
    hide Live, Searching, Covers, Wired, Allows, NextConfig, Cursor;
    SkipIteration(m, ops, owner, order, cached, a);
    q := Live(ops, owner, order).next[ops[a].call];
    assert MirrorsAt(nodes, Live(ops, owner, order), ops[a].call);
  }

  lemma PushCursor<S(!new), I, O>(m: Model<S, I, O>, nodes: seq<Node<I, O>>, ops: seq<Operation<I, O>>,
      owner: seq<nat>, order: seq<nat>, cached: set<Config<S>>, a: nat) returns (q: nat)
    requires Laid(ops) && a < |ops|
    requires SearchState(m, nodes, ops, owner, order, cached, ops[a].call)
    requires a in Todo(ops, order) && Allows(m, ops[a], StateAfter(m, ops, order))
    requires Mirrors(nodes, Unlink(Unlink(Live(ops, owner, order), ops[a].call), ops[a].ret))
    ensures SearchState(m, nodes, ops, owner, order + [a], cached + {NextConfig(m, ops, order, a)}, q)
    ensures Mirrors(nodes, Live(ops, owner, order + [a])) && nodes[0].next == At(nodes, q)
    ensures NextConfig(m, ops, order, a) in Configs(m, ops, |ops|)
    ensures NextConfig(m, ops, order, a) == (Done(order + [a]), StateAfter(m, ops, order + [a]))
  {
    hide Live, Searching, Covers, Wired, Allows, NextConfig, Laid, Cursor, Unlink, Configs;
    LiftLinks(ops, owner, order, a);
    PushIteration(m, ops, owner, order, cached, a);
    q := Live(ops, owner, order + [a]).next[0];
    assert MirrorsAt(nodes, Live(ops, owner, order + [a]), 0);
  }

  /** The node and state on top of the undo stack, and the list it was lifted from. */
  lemma PopTop<S(!new), I, O>(calls: seq<CallsEntry<S, I, O>>, m: Model<S, I, O>, nodes: seq<Node<I, O>>,
      ops: seq<Operation<I, O>>, owner: seq<nat>, order: seq<nat>, cached: set<Config<S>>, x: nat)
    requires Laid(ops) && x < |ops|
    requires SearchState(m, nodes, ops, owner, order, cached, ops[x].ret) && x in Todo(ops, order)
    requires order != [] && Stacked(calls, nodes, m, ops, order)
    ensures var shorter, a := order[..|order| - 1], order[|order| - 1];
      && order == shorter + [a] && Within(ops, shorter) && Distinct(shorter) && a < |ops| && a in Todo(ops, shorter)
      && WiredAt(nodes, ops[a], a)
      && Stacked(calls[..|calls| - 1], nodes, m, ops, shorter)
      && calls[|calls| - 1] == CallsEntry(nodes[ops[a].call], StateAfter(m, ops, shorter))
      && Live(ops, owner, order) == Unlink(Unlink(Live(ops, owner, shorter), ops[a].call), ops[a].ret)
      && Done(shorter) == Done(order) - {a}
  {
    var shorter, a := order[..|order| - 1], order[|order| - 1];
    assert order == shorter + [a];
    StackPop(calls, nodes, m, ops, order);
    PopIteration(m, ops, owner, order, cached, x);
    hide Live, Searching, Covers, Laid, Cursor, Unlink, Configs, Stacked;
    LiftLinks(ops, owner, shorter, a);
    assert WiredAt(nodes, ops[a], a);
  }

  lemma PopCursor<S(!new), I, O>(m: Model<S, I, O>, nodes: seq<Node<I, O>>, ops: seq<Operation<I, O>>,
      owner: seq<nat>, order: seq<nat>, cached: set<Config<S>>, x: nat) returns (q: nat)
    requires Laid(ops) && x < |ops|
    requires SearchState(m, nodes, ops, owner, order, cached, ops[x].ret) && x in Todo(ops, order)
    requires order != [] && Distinct(order[..|order| - 1])
    requires Mirrors(nodes, Live(ops, owner, order[..|order| - 1]))
    ensures SearchState(m, nodes, ops, owner, order[..|order| - 1], cached, q)
    ensures nodes[ops[order[|order| - 1]].call].next == At(nodes, q)
  {
    hide Live, Searching, Wired, Cursor, Unlink, Configs;
    PopIteration(m, ops, owner, order, cached, x);
    var shorter, a := order[..|order| - 1], order[|order| - 1];
    q := Live(ops, owner, shorter).next[ops[a].call];
    assert MirrorsAt(nodes, Live(ops, owner, shorter), ops[a].call);
  }

  lemma NothingLeft<S(!new), I, O>(m: Model<S, I, O>, nodes: seq<Node<I, O>>, ops: seq<Operation<I, O>>,
      owner: seq<nat>, cached: set<Config<S>>, x: nat)
    requires Laid(ops) && x < |ops|
    requires SearchState(m, nodes, ops, owner, [], cached, ops[x].ret) && x in Todo(ops, [])
    ensures !Linearizable(m, ops)
  {
    hide Covers, Wired, Cursor;
    FailStep(m, ops, cached, x);
  }

  /** Taking an operation: its bit is set and its two nodes leave the list. */
  method Advance<S(==,!new), I, O>(m: Model<S, I, O>, entry: Node<I, O>, linearized: array<bv64>,
      ghost nodes: seq<Node<I, O>>, ghost ops: seq<Operation<I, O>>, ghost owner: seq<nat>, ghost order: seq<nat>,
      ghost cached: set<Config<S>>, ghost a: nat)
    returns (ghost e: nat)
    requires Laid(ops) && a < |ops| && a in Todo(ops, order) && WiredAt(nodes, ops[a], a) && entry == nodes[ops[a].call]
    requires SearchState(m, nodes, ops, owner, order, cached, ops[a].call) && Mirrors(nodes, Live(ops, owner, order))
    requires Allows(m, ops[a], StateAfter(m, ops, order))
    requires |ops| <= 64 * linearized.Length && Elements(linearized[..]) == Done(order)
    modifies nodes, linearized
    ensures SearchState(m, nodes, ops, owner, order + [a], cached + {NextConfig(m, ops, order, a)}, e)
    ensures Mirrors(nodes, Live(ops, owner, order + [a])) && nodes[0].next == At(nodes, e)
    ensures NextConfig(m, ops, order, a) in Configs(m, ops, |ops|)
    ensures NextConfig(m, ops, order, a) == (Done(order + [a]), StateAfter(m, ops, order + [a]))
    ensures Elements(linearized[..]) == Done(order + [a])
  {
    hide SearchState, Mirrors, Live, Elements, Configs, StateAfter, Laid, Covers, Distinct, Unlink, Linked,
         AllDistinct, Wired, Gone, Allows;
    Set(linearized, entry.id);
    LiveIsLinked(ops, owner, order);
    Lift(entry, nodes, Live(ops, owner, order), Gone(ops, order), ops[a].call, ops[a].ret);
    e := PushCursor(m, nodes, ops, owner, order, cached, a);
  }

  /** The backtracking branch: undo the top of the stack and go on behind it. `x` is the operation whose
      pending return was reached. */
  method Backtrack<S(==,!new), I, O>(m: Model<S, I, O>, calls: seq<CallsEntry<S, I, O>>, linearized: array<bv64>,
      ghost nodes: seq<Node<I, O>>, ghost ops: seq<Operation<I, O>>, ghost owner: seq<nat>, ghost order: seq<nat>,
      ghost cached: set<Config<S>>, ghost x: nat)
    returns (entry: Node?<I, O>, state: S, rest: seq<CallsEntry<S, I, O>>, ghost shorter: seq<nat>, ghost e: nat)
    requires Laid(ops) && x < |ops| && order != [] && x in Todo(ops, order)
    requires SearchState(m, nodes, ops, owner, order, cached, ops[x].ret) && Mirrors(nodes, Live(ops, owner, order))
    requires Stacked(calls, nodes, m, ops, order)
    requires |ops| <= 64 * linearized.Length && Elements(linearized[..]) == Done(order)
    modifies nodes, linearized
    ensures |shorter| == |order| - 1
    ensures SearchState(m, nodes, ops, owner, shorter, cached, e) && Mirrors(nodes, Live(ops, owner, shorter))
    ensures Stacked(rest, nodes, m, ops, shorter) && state == StateAfter(m, ops, shorter)
    ensures Elements(linearized[..]) == Done(shorter) && entry == At(nodes, e)
  {
    hide SearchState, Mirrors, Live, Stacked, Elements, StateAfter, Laid, Covers, Distinct, Unlink, Linked,
         AllDistinct, Wired, Gone;
    PopTop(calls, m, nodes, ops, owner, order, cached, x);
    shorter := order[..|order| - 1];
    ghost var a := order[|order| - 1];
    var callsTop := calls[|calls| - 1];
    entry := callsTop.entry;
    state := callsTop.state;
    Clear(linearized, entry.id);
    rest := calls[..|calls| - 1];
    LiveIsLinked(ops, owner, shorter);
    Unlift(entry, nodes, Live(ops, owner, shorter), Gone(ops, shorter), ops[a].call, ops[a].ret);
    e := PopCursor(m, nodes, ops, owner, order, cached, x);
    entry := entry.next;
  }

  /** The last of the readings of the flag found it set. */
  ghost predicate Killed(kill: nat -> bool, readings: nat) {
    readings > 0 && kill(readings - 1)
  }

  /** The main loop, from the state `checkSingle` sets up. `readings` counts how often the flag was read,
      and `order` is what the undo stack holds at the end. */
  method Explore<S(==,!new), I, O>(m: Model<S, I, O>, headEntry: Node<I, O>, subhistory: Node?<I, O>,
                                   linearized: array<bv64>, kill: nat -> bool,
                                   ghost nodes: seq<Node<I, O>>, ghost ops: seq<Operation<I, O>>, ghost owner: seq<nat>)
    returns (ok: bool, ghost readings: nat, ghost order: seq<nat>)
    requires SearchState(m, nodes, ops, owner, [], {}, 1) && Mirrors(nodes, Live(ops, owner, []))
    requires headEntry == nodes[0] && subhistory == At(nodes, 1)
    requires |ops| <= 64 * linearized.Length && Elements(linearized[..]) == {}
    modifies nodes, linearized
    ensures ok ==> IsLinearization(m, ops, Ids(|ops|), m.init, order)
    ensures Justified(ok, Linearizable(m, ops), Killed(kill, readings))
    ensures forall k | 0 <= k < readings && kill(k) :: k == readings - 1 && !ok
  {
    hide SearchState, Mirrors, Live, Stacked, Holds, Elements, Linearizable, IsLinearization, Configs, StateAfter, Laid, Covers,
         Distinct, Unlink, Linked, AllDistinct, Wired, Gone, HashOf;
    var cache: Buckets<S> := map[];
    var calls: seq<CallsEntry<S, I, O>> := [];
    var state := m.init;
    var entry := subhistory;
    var reading := 0;
    readings, order := 0, [];
    ghost var cached: set<Config<S>>, e: nat := {}, 1;
    EmptyStack(m, nodes, ops, linearized.Length);

    while headEntry.next != null
      invariant SearchState(m, nodes, ops, owner, order, cached, e)
      invariant Mirrors(nodes, Live(ops, owner, order))
      invariant state == StateAfter(m, ops, order)
      invariant Stacked(calls, nodes, m, ops, order)
      invariant Elements(linearized[..]) == Done(order)
      invariant Holds(cache, cached, linearized.Length)
      invariant entry == At(nodes, e)
      invariant readings == reading && forall k | 0 <= k < readings :: !kill(k)
      decreases Configs(m, ops, |ops|) - cached, |order|, |nodes| - e
    {
      HeadPointer(m, nodes, ops, owner, order, cached, e);
      readings := readings + 1;
      if kill(reading) {
        ok := false;
        return;
      }
      reading := reading + 1;
      ghost var a := CursorNode(m, nodes, ops, owner, order, cached, e);
      if entry.mate != null {
        var matching := entry.mate;
        var (ok', newState) := m.step(state, entry.value.input, matching.value.output);
        if ok' {
          var newLinearized := Clone(linearized);
          Set(newLinearized, entry.id);
          var newCacheEntry := CacheEntry(newLinearized[..], newState);
          assert Pair(newCacheEntry) == NextConfig(m, ops, order, a);
          var found := CacheContains(cache, newCacheEntry, cached, linearized.Length);
          if !found {
            cache := CacheInsert(cache, newCacheEntry, cached, linearized.Length);
            StackPush(calls, nodes, m, ops, order, a);
            calls := calls + [CallsEntry(entry, state)];
            state := newState;
            e := Advance(m, entry, linearized, nodes, ops, owner, order, cached, a);
            entry := headEntry.next;
            order, cached := order + [a], cached + {NextConfig(m, ops, order, a)};
          } else {
            e := SkipCursor(m, nodes, ops, owner, order, cached, a);
            entry := entry.next;
          }
        } else {
          e := SkipCursor(m, nodes, ops, owner, order, cached, a);
          entry := entry.next;
        }
      } else {
        if |calls| == 0 {
          NothingLeft(m, nodes, ops, owner, cached, a);
          ok := false;
          return;
        }
        ghost var shorter;
        entry, state, calls, shorter, e := Backtrack(m, calls, linearized, nodes, ops, owner, order, cached, a);
        order := shorter;
      }
    }
    HeadPointer(m, nodes, ops, owner, order, cached, e);
    LinearizationIsWitness(m, ops, order);
    ok := true;
  }

  lemma LinearizationIsWitness<S, I, O>(m: Model<S, I, O>, ops: seq<Operation<I, O>>, order: seq<nat>)
    requires IsLinearization(m, ops, Ids(|ops|), m.init, order)
    ensures Linearizable(m, ops)
  {}

  lemma EmptyStack<S(!new), I, O>(m: Model<S, I, O>, nodes: seq<Node<I, O>>, ops: seq<Operation<I, O>>, words: nat)
    ensures StateAfter(m, ops, []) == m.init
    ensures Stacked([], nodes, m, ops, [])
    ensures Holds<S>(map[], {}, words)
  {}

  lemma ListIsReady<S(!new), I, O>(m: Model<S, I, O>, head: Node<I, O>, nodes: seq<Node<I, O>>, es: seq<Entry<I, O>>,
                                   ops: seq<Operation<I, O>>)
    requires Describes(es, ops) && Represents(nodes, es, ops)
    requires AllDistinct([head] + nodes) && InOrder([head] + nodes)
    ensures SearchState(m, [head] + nodes, Shifted(ops), Owners(es), [], {}, 1)
    ensures Mirrors([head] + nodes, Live(Shifted(ops), Owners(es), []))
  {
    hide Describes, InOrder, Covers, Wired, Searching, Cursor, Mirrors, AllDistinct, Live;
    ShiftedCovers(es, ops);
    RepresentedIsWired(head, nodes, es, ops);
    InOrderMirrors([head] + nodes);
    StartIteration(m, Shifted(ops), Owners(es));
  }

  lemma ShiftedVerdict<S, I, O>(m: Model<S, I, O>, ops: seq<Operation<I, O>>)
    ensures Linearizable(m, Shifted(ops)) <==> Linearizable(m, ops)
  {
    forall order ensures IsLinearization(m, Shifted(ops), Ids(|ops|), m.init, order)
                    <==> IsLinearization(m, ops, Ids(|ops|), m.init, order) {
      ShiftedIsEquivalent(m, ops, order);
    }
    hide IsLinearization;
  }

  /** The verdict of the search. `kill(k)` is the value of the shared flag at its `k`-th reading. True
      comes with a legal order; false means that there is none or that the last of the `readings` found
      the flag set. */
  method CheckSingle<S(==,!new), I, O>(m: Model<S, I, O>, subhistory: Node?<I, O>, kill: nat -> bool,
                                       ghost nodes: seq<Node<I, O>>, ghost es: seq<Entry<I, O>>, ghost ops: seq<Operation<I, O>>)
    returns (ok: bool, ghost readings: nat, ghost order: seq<nat>)
    requires Describes(es, ops) && Represents(nodes, es, ops) && InOrder(nodes) && subhistory == At(nodes, 0)
    modifies nodes
    ensures ok ==> IsLinearization(m, ops, Ids(|ops|), m.init, order)
    ensures Justified(ok, Linearizable(m, ops), Killed(kill, readings))
    ensures forall k | 0 <= k < readings && kill(k) :: k == readings - 1 && !ok
  {
    hide Describes, InOrder, Elements, SearchState, Mirrors, Live, Linearizable, IsLinearization, Shifted, Owners;
    var len := Length(subhistory, nodes);
    DescribedLength(es, ops);
    var linearized := NewBitset(len / 2);
    var headEntry := new Node<I, O>(Nil, null, HEAD_ID);
    InsertBefore(headEntry, subhistory, nodes, 0);
    assert nodes[..0] + [headEntry] + nodes[0..] == [headEntry] + nodes;
    ListIsReady(m, headEntry, nodes, es, ops);
    ok, readings, order := Explore(m, headEntry, subhistory, linearized, kill, [headEntry] + nodes, Shifted(ops), Owners(es));
    ShiftedIsEquivalent(m, ops, order);
    ShiftedVerdict(m, ops);
  }
}
