/** The doubly linked node list on the heap
    (src/linearizability/linearizability.go:51-79, 109-126, 147-165). */
module Nodes {
  import opened Histories
  import opened Entries
  import opened Links

  /** `mate` is Go's `match`: the return node of a call node, null for a return node. */
  class Node<I, O> {
    const value: Value<I, O>
    const mate: Node?<I, O>
    const id: nat
    var next: Node?<I, O>
    var prev: Node?<I, O>

    constructor (value: Value<I, O>, mate: Node?<I, O>, id: nat)
      ensures this.value == value && this.mate == mate && this.id == id
      ensures next == null && prev == null
    {
      this.value, this.mate, this.id := value, mate, id;
      next, prev := null, null;
    }
  }

  ghost function At<I, O>(nodes: seq<Node<I, O>>, p: nat): Node?<I, O> {
    if p < |nodes| then nodes[p] else null
  }

  ghost predicate AllDistinct<I, O>(nodes: seq<Node<I, O>>) {
    forall p, q | 0 <= p < q < |nodes| :: nodes[p] != nodes[q]
  }

  /** The pointers of `nodes` are the links `l`. */
  ghost predicate Mirrors<I, O>(nodes: seq<Node<I, O>>, l: Links)
    reads nodes
  {
    && |nodes| == |l.next| == |l.prev|
    && (forall p | 0 <= p < |nodes| :: MirrorsAt(nodes, l, p))
  }

  ghost predicate MirrorsAt<I, O>(nodes: seq<Node<I, O>>, l: Links, p: nat)
    requires p < |nodes| == |l.next| == |l.prev|
    reads nodes
  {
    nodes[p].next == At(nodes, l.next[p]) && nodes[p].prev == At(nodes, l.prev[p])
  }

  /** The list is linked in sequence order, nothing lifted. */
  ghost predicate InOrder<I, O>(nodes: seq<Node<I, O>>)
    reads nodes
  {
    forall p | 0 <= p < |nodes| :: InOrderAt(nodes, p)
  }

  ghost predicate InOrderAt<I, O>(nodes: seq<Node<I, O>>, p: nat)
    requires p < |nodes|
    reads nodes
  {
    && nodes[p].next == (if p + 1 < |nodes| then nodes[p + 1] else null)
    && nodes[p].prev == (if p > 0 then nodes[p - 1] else null)
  }

  lemma InOrderMirrors<I, O>(nodes: seq<Node<I, O>>)
    requires InOrder(nodes)
    ensures Mirrors(nodes, Initial(|nodes|))
  {
    forall p | 0 <= p < |nodes| ensures MirrorsAt(nodes, Initial(|nodes|), p) {
      assert InOrderAt(nodes, p);
    }
  }

  /** Links `n` in front of the node `mark`, at position `k` of the list; alone if `mark` is nil. */
  method InsertBefore<I, O>(n: Node<I, O>, mark: Node?<I, O>, ghost nodes: seq<Node<I, O>>, ghost k: nat)
    requires AllDistinct(nodes) && InOrder(nodes)
    requires n !in nodes && n.next == null && n.prev == null
    requires if mark == null then nodes == [] && k == 0 else k < |nodes| && nodes[k] == mark
    modifies n, nodes
    ensures AllDistinct(nodes[..k] + [n] + nodes[k..])
    ensures InOrder(nodes[..k] + [n] + nodes[k..])
  {
    ghost var longer := nodes[..k] + [n] + nodes[k..];
    assert forall p | 0 <= p < |longer| :: longer[p] == if p < k then nodes[p] else if p == k then n else nodes[p - 1];
    if mark != null {
      assert InOrderAt(nodes, k);
      var beforeMark := mark.prev;
      mark.prev := n;
      n.next := mark;
      if beforeMark != null {
        n.prev := beforeMark;
        beforeMark.next := n;
      }
    }
    forall p | 0 <= p < |longer| ensures InOrderAt(longer, p) {
      assert p < k ==> old(InOrderAt(nodes, p));
      assert p > k ==> old(InOrderAt(nodes, p - 1));
    }
  }

  method Length<I, O>(n: Node?<I, O>, ghost nodes: seq<Node<I, O>>) returns (l: nat)
    requires InOrder(nodes) && n == At(nodes, 0)
    ensures l == |nodes|
  {
    l := 0;
    var node := n;
    while node != null
      invariant l <= |nodes| && node == At(nodes, l)
      decreases |nodes| - l
    {
      assert InOrderAt(nodes, l);
      node := node.next;
      l := l + 1;
    }
  }

  ghost predicate IsReturn<I, O>(e: Entry<I, O>, id: nat) {
    e.kind == ReturnEntry && e.id == id
  }

  /** The first return entry of `id` from position `p` on, or the length of the list. */
  ghost function NextReturn<I, O>(es: seq<Entry<I, O>>, id: nat, p: nat): (q: nat)
    requires p <= |es|
    ensures p <= q <= |es|
    ensures q < |es| ==> IsReturn(es[q], id)
    ensures forall k | p <= k < q :: !IsReturn(es[k], id)
    decreases |es| - p
  {
    if p == |es| || IsReturn(es[p], id) then p else NextReturn(es, id, p + 1)
  }

  /** The node of entry `p`, when `nodes` starts at entry `base`: a call is matched with the next return of
      its id, if there is one. */
  ghost predicate Carries<I, O>(nodes: seq<Node<I, O>>, es: seq<Entry<I, O>>, base: nat, p: nat)
    requires base <= p < |es| == base + |nodes|
  {
    && nodes[p - base].value == es[p].value && nodes[p - base].id == es[p].id
    && nodes[p - base].mate == if es[p].kind == ReturnEntry then null else At(nodes, NextReturn(es, es[p].id, p + 1) - base)
  }

  /** The node list of an entry list. */
  ghost predicate Lists<I, O>(nodes: seq<Node<I, O>>, es: seq<Entry<I, O>>) {
    && |nodes| == |es| && AllDistinct(nodes)
    && (forall p | 0 <= p < |nodes| :: Carries(nodes, es, 0, p))
  }

  /** The node list of a well-formed entry list: values and ids in order, calls matched with returns. */
  ghost predicate Represents<I, O>(nodes: seq<Node<I, O>>, es: seq<Entry<I, O>>, ops: seq<Operation<I, O>>) {
    && |nodes| == |es| && AllDistinct(nodes)
    && (forall p | 0 <= p < |nodes| :: nodes[p].value == es[p].value && nodes[p].id == es[p].id)
    && (forall i | 0 <= i < |ops| :: Mated(nodes, ops[i]))
  }

  ghost predicate Mated<I, O>(nodes: seq<Node<I, O>>, op: Operation<I, O>) {
    0 <= op.call < op.ret < |nodes| && nodes[op.call].mate == nodes[op.ret] && nodes[op.ret].mate == null
  }

  /** In a well-formed list the next return of a call's id is its own. */
  lemma ListedRepresents<I, O>(nodes: seq<Node<I, O>>, es: seq<Entry<I, O>>, ops: seq<Operation<I, O>>)
    requires Describes(es, ops) && Lists(nodes, es)
    ensures Represents(nodes, es, ops)
  {
    forall p | 0 <= p < |nodes| ensures nodes[p].value == es[p].value && nodes[p].id == es[p].id {
      assert Carries(nodes, es, 0, p);
    }
    forall i | 0 <= i < |ops| ensures Mated(nodes, ops[i]) {
      assert PlacedAt(es, ops[i], i);
      assert Carries(nodes, es, 0, ops[i].call) && Carries(nodes, es, 0, ops[i].ret);
      var q := NextReturn(es, i, ops[i].call + 1);
      assert IsReturn(es[ops[i].ret], i);
      assert q == ops[i].ret;
    }
  }

  /** What the loop has built once it has come down to entry `base`: the nodes from there on, and for every
      id the node of its next return. */
  ghost predicate ListsFrom<I, O>(matches: map<nat, Node<I, O>>, nodes: seq<Node<I, O>>, es: seq<Entry<I, O>>, base: nat) {
    && |es| == base + |nodes|
    && (forall p | base <= p < |es| :: Carries(nodes, es, base, p))
    && (forall id :: Match(matches, id) == At(nodes, NextReturn(es, id, base) - base))
  }

  /** Reading Go's map: nil for an unknown id. */
  function Match<I, O>(matches: map<nat, Node<I, O>>, id: nat): Node?<I, O> {
    if id in matches then matches[id] else null
  }

  lemma PrependLists<I, O>(matches: map<nat, Node<I, O>>, n: Node<I, O>, nodes: seq<Node<I, O>>, es: seq<Entry<I, O>>, base: nat)
    requires base < |es| && ListsFrom(matches, nodes, es, base + 1)
    requires n.value == es[base].value && n.id == es[base].id
    requires n.mate == if es[base].kind == ReturnEntry then null else Match(matches, es[base].id)
    ensures ListsFrom(if es[base].kind == ReturnEntry then matches[es[base].id := n] else matches, [n] + nodes, es, base)
  {
    var matches' := if es[base].kind == ReturnEntry then matches[es[base].id := n] else matches;
    forall id ensures Match(matches', id) == At([n] + nodes, NextReturn(es, id, base) - base) {
      assert Match(matches, id) == At(nodes, NextReturn(es, id, base + 1) - (base + 1));
    }
    forall p | base <= p < |es| ensures Carries([n] + nodes, es, base, p) {
      assert p > base ==> Carries(nodes, es, base + 1, p);
    }
  }

  lemma NothingListed<I, O>(es: seq<Entry<I, O>>)
    ensures ListsFrom<I, O>(map[], [], es, |es|) && InOrder<I, O>([]) && AllDistinct<I, O>([])
  {}

  lemma AllListed<I, O>(matches: map<nat, Node<I, O>>, nodes: seq<Node<I, O>>, es: seq<Entry<I, O>>)
    requires ListsFrom(matches, nodes, es, 0) && AllDistinct(nodes)
    ensures Lists(nodes, es)
  {}

  /** Nodes in entry order. A call node is matched with the return node of its id that comes next; the
      match stays nil if no return of that id follows. */
  method MakeLinkedEntries<I, O>(entries: seq<Entry<I, O>>) returns (root: Node?<I, O>, ghost nodes: seq<Node<I, O>>)
    ensures fresh(nodes) && root == At(nodes, 0)
    ensures Lists(nodes, entries) && InOrder(nodes)
  {
    hide InOrder, AllDistinct, ListsFrom, Lists;
    root, nodes := null, [];
    var matches: map<nat, Node<I, O>> := map[];
    var i := |entries|;
    NothingListed(entries);
    while i > 0
      invariant 0 <= i <= |entries| == i + |nodes|
      invariant fresh(nodes) && root == At(nodes, 0)
      invariant AllDistinct(nodes) && InOrder(nodes)
      invariant ListsFrom(matches, nodes, entries, i)
    {
      i := i - 1;
      var elem := entries[i];
      if elem.kind == ReturnEntry {
        var entry := new Node(elem.value, null, elem.id);
        PrependLists(matches, entry, nodes, entries, i);
        matches := matches[elem.id := entry];
        nodes := Prepend(entry, root, nodes);
        root := entry;
      } else {
        var entry := new Node(elem.value, Match(matches, elem.id), elem.id);
        PrependLists(matches, entry, nodes, entries, i);
        nodes := Prepend(entry, root, nodes);
        root := entry;
      }
    }
    AllListed(matches, nodes, entries);
  }

  /** `insertBefore` at the front of the list. */
  method Prepend<I, O>(entry: Node<I, O>, root: Node?<I, O>, ghost nodes: seq<Node<I, O>>) returns (ghost longer: seq<Node<I, O>>)
    requires AllDistinct(nodes) && InOrder(nodes) && root == At(nodes, 0)
    requires entry !in nodes && entry.next == null && entry.prev == null
    modifies entry, nodes
    ensures longer == [entry] + nodes && AllDistinct(longer) && InOrder(longer)
  {
    hide InOrder, AllDistinct;
    InsertBefore(entry, root, nodes, 0);
    longer := [entry] + nodes;
    assert nodes[..0] + [entry] + nodes[0..] == longer;
  }

  // ---------------------------------------------------------------- lift and unlift

  /** Half of `lift`: the neighbours of the node at `x` are linked past it; it keeps its own links. */
  method TakeOut<I, O>(node: Node<I, O>, ghost nodes: seq<Node<I, O>>, ghost l: Links, ghost gone: set<nat>, ghost x: nat)
    requires AllDistinct(nodes) && Mirrors(nodes, l) && Linked(l, gone) && 0 !in gone
    requires 0 < x < |nodes| == |l.next| && x !in gone && nodes[x] == node
    modifies nodes
    ensures Mirrors(nodes, Unlink(l, x))
  {
    Neighbours(l, gone, x);
    hide Linked;
    assert MirrorsAt(nodes, l, x);
    node.prev.next := node.next;
    if node.next != null {
      node.next.prev := node.prev;
    }
    forall p | 0 <= p < |nodes| ensures MirrorsAt(nodes, Unlink(l, x), p) {
      assert old(MirrorsAt(nodes, l, p));
    }
  }

  /** Half of `unlift`: the node's own links tell which neighbours must point at it again. */
  method PutBack<I, O>(node: Node<I, O>, ghost nodes: seq<Node<I, O>>, ghost before: Links, ghost gone: set<nat>,
                       ghost x: nat)
    requires AllDistinct(nodes) && Linked(before, gone) && 0 !in gone
    requires 0 < x < |nodes| == |before.next| && x !in gone && nodes[x] == node
    requires Mirrors(nodes, Unlink(before, x))
    modifies nodes
    ensures Mirrors(nodes, before)
  {
    Neighbours(before, gone, x);
    RelinkUndoesUnlink(before, gone, x);
    hide Linked;
    ghost var l := Unlink(before, x);
    assert MirrorsAt(nodes, l, x);
    node.prev.next := node;
    if node.next != null {
      node.next.prev := node;
    }
    forall p | 0 <= p < |nodes| ensures MirrorsAt(nodes, Relink(l, x), p) {
      assert old(MirrorsAt(nodes, l, p));
    }
  }

  /** Takes a call node out of the list and then its return node. */
  method Lift<I, O>(entry: Node<I, O>, ghost nodes: seq<Node<I, O>>, ghost l: Links, ghost gone: set<nat>,
                    ghost c: nat, ghost r: nat)
    requires AllDistinct(nodes) && Mirrors(nodes, l) && Linked(l, gone) && 0 !in gone
    requires |nodes| == |l.next| && 0 < c < r < |nodes| && c !in gone && r !in gone
    requires nodes[c] == entry && entry.mate == nodes[r]
    modifies nodes
    ensures Mirrors(nodes, Unlink(Unlink(l, c), r))
  {
    hide Mirrors, Unlink, IsNext, IsPrev;
    UnlinkKeepsLinked(l, gone, c);
    TakeOut(entry, nodes, l, gone, c);
    TakeOut(entry.mate, nodes, Unlink(l, c), gone + {c}, r);
  }

  /** Puts a lifted pair back in the opposite order; `before` are the links that the matching `Lift`
      started from, and they are restored exactly. */
  method Unlift<I, O>(entry: Node<I, O>, ghost nodes: seq<Node<I, O>>, ghost before: Links, ghost gone: set<nat>,
                      ghost c: nat, ghost r: nat)
    requires AllDistinct(nodes) && Linked(before, gone) && 0 !in gone
    requires 0 < c < r < |nodes| == |before.next| && c !in gone && r !in gone
    requires Mirrors(nodes, Unlink(Unlink(before, c), r))
    requires nodes[c] == entry && entry.mate == nodes[r]
    modifies nodes
    ensures Mirrors(nodes, before)
  {
    hide Mirrors, Unlink, IsNext, IsPrev;
    UnlinkKeepsLinked(before, gone, c);
    PutBack(entry.mate, nodes, Unlink(before, c), gone + {c}, r);
    PutBack(entry, nodes, before, gone, c);
  }
}
