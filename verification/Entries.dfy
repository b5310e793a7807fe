/** From operations or events to time-ordered entry lists
    (src/linearizability/linearizability.go:9-49, 81-107). */
module Entries {
  import opened Counting
  import opened Histories

  datatype Kind = CallEntry | ReturnEntry

  /** Go's `interface{}` payload of an entry; `Nil` only occurs in the list head. */
  datatype Value<I, O> = Input(input: I) | Output(output: O) | Nil

  datatype Entry<I, O> = Entry(kind: Kind, value: Value<I, O>, id: nat, time: int)

  datatype Event<I, O> = Event(kind: Kind, value: Value<I, O>, id: nat)

  /** `es` is a well-formed entry list for the history `ops`, whose call and return times are
      positions in `es`: each operation has one call entry and one later return entry, ids are the
      dense range below |ops|, and there is nothing else. */
  ghost predicate Describes<I, O>(es: seq<Entry<I, O>>, ops: seq<Operation<I, O>>) {
    && (forall i | 0 <= i < |ops| :: PlacedAt(es, ops[i], i))
    && (forall p | 0 <= p < |es| ::
          es[p].id < |ops| && p == if es[p].kind == CallEntry then ops[es[p].id].call else ops[es[p].id].ret)
  }

  ghost predicate PlacedAt<I, O>(es: seq<Entry<I, O>>, op: Operation<I, O>, i: nat) {
    && 0 <= op.call < op.ret < |es|
    && es[op.call].kind == CallEntry && es[op.call].value == Input(op.input) && es[op.call].id == i
    && es[op.ret].kind == ReturnEntry && es[op.ret].value == Output(op.output) && es[op.ret].id == i
  }

  // ---------------------------------------------------------------- counting

  function Doubled<I, O>(ops: seq<Operation<I, O>>): (r: seq<int>)
    ensures |r| == 2 * |ops|
    ensures forall i | 0 <= i < |r| :: r[i] == if i % 2 == 0 then ops[i / 2].call else ops[i / 2].ret
  {
    seq(2 * |ops|, i requires 0 <= i < 2 * |ops| => if i % 2 == 0 then ops[i / 2].call else ops[i / 2].ret)
  }

  ghost function Slots<I, O>(es: seq<Entry<I, O>>): (r: seq<nat>)
    ensures |r| == |es|
    ensures forall p | 0 <= p < |r| :: r[p] == 2 * es[p].id + if es[p].kind == CallEntry then 0 else 1
  {
    seq(|es|, p requires 0 <= p < |es| => 2 * es[p].id + if es[p].kind == CallEntry then 0 else 1)
  }

  lemma AtMostTwoEach<I, O>(es: seq<Entry<I, O>>, ops: seq<Operation<I, O>>)
    requires Describes(es, ops)
    ensures |es| <= 2 * |ops|
  {
    var slots := Slots(es);
    forall p, q | 0 <= p < q < |slots| ensures slots[p] != slots[q] {
      assert es[p].id < |ops| && es[q].id < |ops|;
    }
    Pigeonhole(slots, 2 * |ops|);
  }

  lemma AtLeastTwoEach<I, O>(es: seq<Entry<I, O>>, ops: seq<Operation<I, O>>)
    requires forall i | 0 <= i < |ops| :: PlacedAt(es, ops[i], i)
    ensures 2 * |ops| <= |es|
  {
    var places := Doubled(ops);
    forall i | 0 <= i < |places| ensures 0 <= places[i] < |es| {
      assert PlacedAt(es, ops[i / 2], i / 2);
    }
    forall i, j | 0 <= i < j < |places| ensures places[i] != places[j] {
      assert PlacedAt(es, ops[i / 2], i / 2) && PlacedAt(es, ops[j / 2], j / 2);
    }
    Pigeonhole(seq(|places|, i requires 0 <= i < |places| => places[i] as nat), |es|);
  }

  /** A well-formed list has two entries per operation, so `length(list) / 2` counts operations. */
  lemma DescribedLength<I, O>(es: seq<Entry<I, O>>, ops: seq<Operation<I, O>>)
    requires Describes(es, ops)
    ensures |es| == 2 * |ops|
  {
    AtMostTwoEach(es, ops);
    AtLeastTwoEach(es, ops);
  }

  // ---------------------------------------------------------------- sorting by time

  ghost predicate SortedByTime<I, O>(es: seq<Entry<I, O>>) {
    forall p, q | 0 <= p <= q < |es| :: es[p].time <= es[q].time
  }

  /** `b` is `a` rearranged: element `i` of `a` sits at `to[i]`, element `p` of `b` came from `from[p]`. */
  ghost predicate Rearranges<T>(a: seq<T>, b: seq<T>, to: seq<nat>, from: seq<nat>) {
    && |a| == |b| == |to| == |from|
    && (forall i | 0 <= i < |a| :: to[i] < |b| && b[to[i]] == a[i] && from[to[i]] == i)
    && (forall p | 0 <= p < |b| :: from[p] < |a| && to[from[p]] == p)
  }

  ghost predicate IsRearranged<T>(a: seq<T>, b: seq<T>) {
    exists to, from :: Rearranges(a, b, to, from)
  }

  /** Inserting one element keeps a rearrangement one. */
  lemma InsertKeepsRearranged<T>(a: seq<T>, b: seq<T>, to: seq<nat>, from: seq<nat>, x: T, j: nat)
    returns (to': seq<nat>, from': seq<nat>)
    requires Rearranges(a, b, to, from) && j <= |b|
    ensures Rearranges(a + [x], b[..j] + [x] + b[j..], to', from')
  {
    from' := from[..j] + [|a|] + from[j..];
    to' := seq(|to|, i requires 0 <= i < |to| => if to[i] < j then to[i] else to[i] + 1) + [j];
  }

  lemma InsertKeepsSorted<I, O>(b: seq<Entry<I, O>>, x: Entry<I, O>, j: nat)
    requires SortedByTime(b) && j <= |b| && (j == 0 || b[j - 1].time <= x.time)
    requires forall p | j <= p < |b| :: x.time < b[p].time
    ensures SortedByTime(b[..j] + [x] + b[j..])
  {}

  lemma NothingToSort<I, O>()
    ensures SortedByTime<I, O>([]) && Rearranges<Entry<I, O>>([], [], [], [])
  {}

  /** Stands in for Go's `sort.Sort(byTime(entries))`: only "sorted" and "rearranged" are promised, so
      entries with equal times may come out in either order. */
  method SortEntries<I, O>(a: seq<Entry<I, O>>) returns (b: seq<Entry<I, O>>, ghost to: seq<nat>, ghost from: seq<nat>)
    ensures SortedByTime(b) && Rearranges(a, b, to, from)
  {
    hide SortedByTime, Rearranges;
    b, to, from := [], [], [];
    var k := 0;
    NothingToSort<I, O>();
    assert a[..0] == [];
    while k < |a|
      invariant 0 <= k <= |a|
      invariant SortedByTime(b) && Rearranges(a[..k], b, to, from)
    {
      var j := |b|;
      while j > 0 && a[k].time < b[j - 1].time
        invariant 0 <= j <= |b|
        invariant forall p | j <= p < |b| :: a[k].time < b[p].time
      {
        j := j - 1;
      }
      InsertKeepsSorted(b, a[k], j);
      to, from := InsertKeepsRearranged(a[..k], b, to, from, a[k], j);
      assert a[..k + 1] == a[..k] + [a[k]];
      b := b[..j] + [a[k]] + b[j..];
      k := k + 1;
    }
    assert a[..k] == a;
  }

  // ---------------------------------------------------------------- makeEntries

  ghost predicate WellTimed<I, O>(history: seq<Operation<I, O>>) {
    forall i | 0 <= i < |history| :: history[i].call < history[i].ret
  }

  /** No operation returns at the very instant another is called. */
  ghost predicate NoTies<I, O>(history: seq<Operation<I, O>>) {
    forall i, j | 0 <= i < |history| && 0 <= j < |history| :: history[i].ret != history[j].call
  }

  function EntryOf<I, O>(history: seq<Operation<I, O>>, i: nat): Entry<I, O>
    requires i < 2 * |history|
  {
    var op := history[i / 2];
    if i % 2 == 0 then Entry(CallEntry, Input(op.input), i / 2, op.call)
    else Entry(ReturnEntry, Output(op.output), i / 2, op.ret)
  }

  /** The entries of a history before sorting: call and return of each operation in turn. */
  ghost function RawEntries<I, O>(history: seq<Operation<I, O>>): (raw: seq<Entry<I, O>>)
    ensures |raw| == 2 * |history| && forall i | 0 <= i < |raw| :: raw[i] == EntryOf(history, i)
  {
    seq(2 * |history|, i requires 0 <= i < 2 * |history| => EntryOf(history, i))
  }

  /** The history with each time replaced by the place of its entry in the sorted list. */
  ghost function Placed<I, O>(history: seq<Operation<I, O>>, to: seq<nat>): (ops: seq<Operation<I, O>>)
    requires |to| == 2 * |history|
    ensures |ops| == |history|
  {
    seq(|history|, i requires 0 <= i < |history| =>
      Operation(history[i].input, to[2 * i], history[i].output, to[2 * i + 1]))
  }

  /** `es` is an outcome of sorting the entries of `history` by time, and `ops` is the history with the
      times replaced by places in `es`. Nothing is said about the order of equal times. */
  ghost predicate IsSort<I, O>(history: seq<Operation<I, O>>, es: seq<Entry<I, O>>, ops: seq<Operation<I, O>>) {
    SortedByTime(es) && exists to, from :: Rearranges(RawEntries(history), es, to, from) && ops == Placed(history, to)
  }

  lemma RearrangedDescribes<I, O>(history: seq<Operation<I, O>>, raw: seq<Entry<I, O>>, es: seq<Entry<I, O>>,
                                  to: seq<nat>, from: seq<nat>)
    requires WellTimed(history) && |raw| == 2 * |history|
    requires forall i | 0 <= i < |raw| :: raw[i] == EntryOf(history, i)
    requires SortedByTime(es) && Rearranges(raw, es, to, from)
    ensures Describes(es, Placed(history, to))
  {
    var ops := Placed(history, to);
    forall i | 0 <= i < |ops| ensures PlacedAt(es, ops[i], i) {
      assert raw[2 * i] == EntryOf(history, 2 * i) && raw[2 * i + 1] == EntryOf(history, 2 * i + 1);
      assert es[to[2 * i]].time < es[to[2 * i + 1]].time;
    }
    forall p | 0 <= p < |es|
      ensures es[p].id < |ops| && p == if es[p].kind == CallEntry then ops[es[p].id].call else ops[es[p].id].ret
    {
      assert es[to[from[p]]] == raw[from[p]] == EntryOf(history, from[p]);
    }
  }

  /** If every operation returns after its call, every sort is a well-formed list. */
  lemma SortedDescribes<I, O>(history: seq<Operation<I, O>>, es: seq<Entry<I, O>>, ops: seq<Operation<I, O>>)
    requires WellTimed(history) && IsSort(history, es, ops)
    ensures Describes(es, ops)
  {
    var to, from :| Rearranges(RawEntries(history), es, to, from) && ops == Placed(history, to);
    hide *;
    RearrangedDescribes(history, RawEntries(history), es, to, from);
  }

  /** The history read with the least concurrency: an operation that returns at the instant another is
      called counts as having returned before it. (Times are doubled to make room.) */
  ghost function Eager<I, O>(history: seq<Operation<I, O>>): (r: seq<Operation<I, O>>)
    ensures |r| == |history|
    ensures forall i | 0 <= i < |r| ::
      r[i] == Operation(history[i].input, 2 * history[i].call, history[i].output, 2 * history[i].ret - 1)
  {
    seq(|history|, i requires 0 <= i < |history| =>
      Operation(history[i].input, 2 * history[i].call, history[i].output, 2 * history[i].ret - 1))
  }

  /** Without ties the two readings of a history have the same real-time order. */
  lemma NoTiesNoDifference<S, I, O>(m: Model<S, I, O>, history: seq<Operation<I, O>>)
    requires NoTies(history)
    ensures Linearizable(m, Eager(history)) <==> Linearizable(m, history)
  {
    assert Relaxes(history, Eager(history)) && Relaxes(Eager(history), history);
    if Linearizable(m, history) {
      RelaxingKeepsLinearizable(m, Eager(history), history);
    }
    if Linearizable(m, Eager(history)) {
      RelaxingKeepsLinearizable(m, history, Eager(history));
    }
  }

  lemma PlacesOfPair<I, O>(history: seq<Operation<I, O>>, es: seq<Entry<I, O>>, to: seq<nat>, from: seq<nat>, i: nat, j: nat)
    requires i < |history| && j < |history|
    requires SortedByTime(es) && Rearranges(RawEntries(history), es, to, from)
    ensures PlacedBetween(history, to, i, j)
  {
    var raw := RawEntries(history);
    assert raw[2 * i + 1] == EntryOf(history, 2 * i + 1) && raw[2 * j] == EntryOf(history, 2 * j);
  }

  /** Positions lie between the two readings: what precedes in time precedes in the list, and what
      precedes in the list had returned no later than the other's call. */
  lemma PlacesRefineTimes<I, O>(history: seq<Operation<I, O>>, es: seq<Entry<I, O>>, ops: seq<Operation<I, O>>)
    requires IsSort(history, es, ops)
    ensures Relaxes(history, ops) && Relaxes(ops, Eager(history))
  {
    var to, from :| Rearranges(RawEntries(history), es, to, from) && ops == Placed(history, to);
    forall i, j | 0 <= i < |history| && 0 <= j < |history| ensures PlacedBetween(history, to, i, j) {
      PlacesOfPair(history, es, to, from, i, j);
    }
    hide SortedByTime, Rearranges;
    BetweenRelaxes(history, to);
  }

  ghost predicate PlacedBetween<I, O>(history: seq<Operation<I, O>>, to: seq<nat>, i: nat, j: nat)
    requires |to| == 2 * |history| && i < |history| && j < |history|
  {
    && (history[i].ret < history[j].call ==> to[2 * i + 1] < to[2 * j])
    && (to[2 * i + 1] < to[2 * j] ==> history[i].ret <= history[j].call)
  }

  lemma BetweenRelaxes<I, O>(history: seq<Operation<I, O>>, to: seq<nat>)
    requires |to| == 2 * |history|
    requires forall i, j | 0 <= i < |history| && 0 <= j < |history| :: PlacedBetween(history, to, i, j)
    ensures Relaxes(history, Placed(history, to)) && Relaxes(Placed(history, to), Eager(history))
  {
    var ops := Placed(history, to);
    forall i, j | 0 <= i < |ops| && 0 <= j < |ops|
      ensures Precedes(history[i], history[j]) ==> Precedes(ops[i], ops[j])
      ensures Precedes(ops[i], ops[j]) ==> Precedes(Eager(history)[i], Eager(history)[j])
    {
      assert PlacedBetween(history, to, i, j);
    }
  }

  method MakeEntries<I, O>(history: seq<Operation<I, O>>)
    returns (entries: seq<Entry<I, O>>, ghost ops: seq<Operation<I, O>>)
    ensures SortedByTime(entries) && IsRearranged(RawEntries(history), entries)
    ensures IsSort(history, entries, ops)
    ensures Relaxes(history, ops) && Relaxes(ops, Eager(history))
    ensures WellTimed(history) ==> Describes(entries, ops)
  {
    var raw: seq<Entry<I, O>> := [];
    var id := 0;
    while id < |history|
      invariant 0 <= id <= |history| && |raw| == 2 * id
      invariant forall i | 0 <= i < |raw| :: raw[i] == EntryOf(history, i)
    {
      var elem := history[id];
      raw := raw + [Entry(CallEntry, Input(elem.input), id, elem.call)];
      raw := raw + [Entry(ReturnEntry, Output(elem.output), id, elem.ret)];
      id := id + 1;
    }
    assert raw == RawEntries(history);
    hide SortedByTime, Rearranges, WellTimed, Describes, Relaxes;
    ghost var to, from;
    entries, to, from := SortEntries(raw);
    ops := Placed(history, to);
    PlacesRefineTimes(history, entries, ops);
    if WellTimed(history) {
      SortedDescribes(history, entries, ops);
    }
  }

  // ---------------------------------------------------------------- which orders a sort may produce

  /** Some sort exists. */
  lemma {:induction false} SortExists<I, O>(a: seq<Entry<I, O>>) returns (b: seq<Entry<I, O>>, to: seq<nat>, from: seq<nat>)
    ensures SortedByTime(b) && Rearranges(a, b, to, from)
    decreases |a|
  {
    if a == [] {
      b, to, from := [], [], [];
    } else {
      var n := |a| - 1;
      b, to, from := SortExists(a[..n]);
      hide Rearranges;
      var j := SortedPlace(b, a[n]);
      InsertKeepsSorted(b, a[n], j);
      to, from := InsertKeepsRearranged(a[..n], b, to, from, a[n], j);
      assert a == a[..n] + [a[n]];
      b := b[..j] + [a[n]] + b[j..];
    }
  }

  /** Where an entry belongs in a sorted list, behind its equals. */
  lemma {:induction false} SortedPlace<I, O>(b: seq<Entry<I, O>>, x: Entry<I, O>) returns (j: nat)
    requires SortedByTime(b)
    ensures j <= |b| && (j == 0 || b[j - 1].time <= x.time) && forall p | j <= p < |b| :: x.time < b[p].time
    decreases |b|
  {
    j := |b|;
    if b != [] && x.time < b[|b| - 1].time {
      j := SortedPlace(b[..|b| - 1], x);
    }
  }

  /** Times doubled, with returns moved by one unit before (`late` false) or behind (`late` true) the calls
      of the same instant. */
  ghost function Untied<I, O>(es: seq<Entry<I, O>>, late: bool): (r: seq<Entry<I, O>>)
    ensures |r| == |es| && forall i | 0 <= i < |r| :: r[i] == es[i].(time := UntiedTime(es[i], late))
  {
    seq(|es|, i requires 0 <= i < |es| => es[i].(time := UntiedTime(es[i], late)))
  }

  function UntiedTime<I, O>(e: Entry<I, O>, late: bool): int {
    2 * e.time + if e.kind == CallEntry then 0 else if late then 1 else -1
  }

  /** A sort of the untied entries is one of the entries themselves. */
  lemma RetieSort<I, O>(a: seq<Entry<I, O>>, late: bool, b: seq<Entry<I, O>>, to: seq<nat>, from: seq<nat>)
    returns (es: seq<Entry<I, O>>)
    requires SortedByTime(b) && Rearranges(Untied(a, late), b, to, from)
    ensures SortedByTime(es) && Rearranges(a, es, to, from)
  {
    es := seq(|a|, p requires 0 <= p < |a| => a[from[p]]);
    forall p | 0 <= p < |a| ensures b[p].time == UntiedTime(es[p], late) {
      assert b[to[from[p]]] == Untied(a, late)[from[p]];
    }
    forall p, q | 0 <= p <= q < |es| ensures es[p].time <= es[q].time {
      assert b[p].time <= b[q].time;
    }
  }

  /** Equal times can come out either way: one sort puts all returns of an instant in front of its calls,
      another all behind. */
  lemma BothReadingsAreSorts<I, O>(history: seq<Operation<I, O>>, late: bool)
    returns (es: seq<Entry<I, O>>, ops: seq<Operation<I, O>>)
    ensures IsSort(history, es, ops)
    ensures var reading := if late then history else Eager(history); Relaxes(ops, reading) && Relaxes(reading, ops)
  {
    var raw := RawEntries(history);
    var b, to, from := SortExists(Untied(raw, late));
    es := RetieSort(raw, late, b, to, from);
    ops := Placed(history, to);
    forall i, j | 0 <= i < |history| && 0 <= j < |history|
      ensures to[2 * i + 1] < to[2 * j] <==> 2 * history[i].ret + (if late then 1 else -1) < 2 * history[j].call
    {
      UntiedPair(history, late, b, to, from, i, j);
    }
    hide SortedByTime, Rearranges, RawEntries;
    PlacesGiveReading(history, late, to);
    assert Rearranges(RawEntries(history), es, to, from);
  }

  lemma PlacesGiveReading<I, O>(history: seq<Operation<I, O>>, late: bool, to: seq<nat>)
    requires |to| == 2 * |history|
    requires forall i, j | 0 <= i < |history| && 0 <= j < |history| ::
      to[2 * i + 1] < to[2 * j] <==> 2 * history[i].ret + (if late then 1 else -1) < 2 * history[j].call
    ensures var reading, ops := if late then history else Eager(history), Placed(history, to);
      Relaxes(ops, reading) && Relaxes(reading, ops)
  {
    var reading, ops := if late then history else Eager(history), Placed(history, to);
    forall i, j | 0 <= i < |history| && 0 <= j < |history|
      ensures Precedes(ops[i], ops[j]) <==> Precedes(reading[i], reading[j])
    {
      assert ops[i].ret == to[2 * i + 1] && ops[j].call == to[2 * j];
    }
  }

  lemma UntiedPair<I, O>(history: seq<Operation<I, O>>, late: bool, b: seq<Entry<I, O>>, to: seq<nat>, from: seq<nat>,
                         i: nat, j: nat)
    requires i < |history| && j < |history|
    requires SortedByTime(b) && Rearranges(Untied(RawEntries(history), late), b, to, from)
    ensures to[2 * i + 1] < to[2 * j] <==> 2 * history[i].ret + (if late then 1 else -1) < 2 * history[j].call
  {
    var raw := RawEntries(history);
    assert raw[2 * i + 1] == EntryOf(history, 2 * i + 1) && raw[2 * j] == EntryOf(history, 2 * j);
    assert b[to[2 * i + 1]] == Untied(raw, late)[2 * i + 1] && b[to[2 * j]] == Untied(raw, late)[2 * j];
  }

  /** Every outcome of the sort leads to the same verdict. */
  ghost predicate SortIsIrrelevant<S, I(!new), O(!new)>(m: Model<S, I, O>, history: seq<Operation<I, O>>) {
    forall es, ops, es', ops' | IsSort(history, es, ops) && IsSort(history, es', ops') ::
      Linearizable(m, ops) <==> Linearizable(m, ops')
  }

  lemma SortIsBetween<S, I, O>(m: Model<S, I, O>, history: seq<Operation<I, O>>, es: seq<Entry<I, O>>, ops: seq<Operation<I, O>>)
    requires IsSort(history, es, ops)
    ensures Linearizable(m, Eager(history)) ==> Linearizable(m, ops)
    ensures Linearizable(m, ops) ==> Linearizable(m, history)
  {
    PlacesRefineTimes(history, es, ops);
    hide *;
    if Linearizable(m, Eager(history)) {
      RelaxingKeepsLinearizable(m, ops, Eager(history));
    }
    if Linearizable(m, ops) {
      RelaxingKeepsLinearizable(m, history, ops);
    }
  }

  lemma ReadingHasSort<S, I, O>(m: Model<S, I, O>, history: seq<Operation<I, O>>, late: bool)
    returns (es: seq<Entry<I, O>>, ops: seq<Operation<I, O>>)
    ensures IsSort(history, es, ops)
    ensures Linearizable(m, ops) <==> Linearizable(m, if late then history else Eager(history))
  {
    hide *;
    es, ops := BothReadingsAreSorts(history, late);
    var reading := if late then history else Eager(history);
    if Linearizable(m, ops) {
      RelaxingKeepsLinearizable(m, reading, ops);
    }
    if Linearizable(m, reading) {
      RelaxingKeepsLinearizable(m, ops, reading);
    }
  }

  /** The sort is irrelevant exactly when the two readings of equal times have the same verdict. */
  lemma SortIsIrrelevantIff<S, I(!new), O(!new)>(m: Model<S, I, O>, history: seq<Operation<I, O>>)
    ensures SortIsIrrelevant(m, history) <==> (Linearizable(m, history) <==> Linearizable(m, Eager(history)))
  {
    var es, ops := ReadingHasSort(m, history, true);
    var es', ops' := ReadingHasSort(m, history, false);
    hide Linearizable, IsSort;
    if Linearizable(m, history) <==> Linearizable(m, Eager(history)) {
      forall xs, x, ys, y | IsSort(history, xs, x) && IsSort(history, ys, y) ensures Linearizable(m, x) <==> Linearizable(m, y) {
        SortIsBetween(m, history, xs, x);
        SortIsBetween(m, history, ys, y);
      }
    }
  }

  // ---------------------------------------------------------------- renumber, convertEntries

  /** `r` has the events of `events` with ids renamed one-to-one onto 0 .. n-1. */
  ghost predicate Renumbers<I, O>(events: seq<Event<I, O>>, r: seq<Event<I, O>>, n: nat) {
    && |r| == |events|
    && (forall i | 0 <= i < |r| :: r[i].kind == events[i].kind && r[i].value == events[i].value && r[i].id < n)
    && (forall i, j | 0 <= i < |r| && 0 <= j < |r| :: r[i].id == r[j].id <==> events[i].id == events[j].id)
    && (forall k | 0 <= k < n :: Used(r, k))
  }

  ghost predicate Used<I, O>(r: seq<Event<I, O>>, k: nat) {
    exists i :: 0 <= i < |r| && r[i].id == k
  }

  method Renumber<I, O>(events: seq<Event<I, O>>) returns (e: seq<Event<I, O>>)
    ensures exists n :: Renumbers(events, e, n)
  {
    assert Renumbers(events[..0], [], 0);
    hide Renumbers;
    e := [];
    var m: map<nat, nat> := map[];
    var id := 0;
    var k := 0;
    while k < |events|
      invariant 0 <= k <= |events| && |e| == k
      invariant Renumbers(events[..k], e, id)
      invariant forall i | 0 <= i < k :: events[i].id in m && e[i].id == m[events[i].id]
      invariant forall x | x in m :: m[x] < id && exists i :: 0 <= i < k && events[i].id == x
    {
      var v := events[k];
      ghost var before := e;
      if v.id in m {
        e := e + [Event(v.kind, v.value, m[v.id])];
        ExtendRenumbering(events, k, before, e, id, id);
      } else {
        e := e + [Event(v.kind, v.value, id)];
        m := m[v.id := id];
        ExtendRenumbering(events, k, before, e, id, id + 1);
        id := id + 1;
      }
      k := k + 1;
    }
    assert events[..k] == events;
  }

  lemma ExtendRenumbering<I, O>(events: seq<Event<I, O>>, k: nat, before: seq<Event<I, O>>, e: seq<Event<I, O>>,
                                id: nat, id': nat)
    requires k < |events| && Renumbers(events[..k], before, id)
    requires |e| == k + 1 && e[..k] == before
    requires e[k].kind == events[k].kind && e[k].value == events[k].value && e[k].id < id'
    requires id' == id || (id' == id + 1 && e[k].id == id)
    requires forall i | 0 <= i < k :: e[i].id == e[k].id <==> events[i].id == events[k].id
    ensures Renumbers(events[..k + 1], e, id')
  {
    forall i, j | 0 <= i < |e| && 0 <= j < |e| ensures e[i].id == e[j].id <==> events[i].id == events[j].id {
      assert forall x | 0 <= x < k :: before[x] == e[x];
    }
    forall x | 0 <= x < id' ensures Used(e, x) {
      if x < id {
        assert Used(before, x);
        var i :| 0 <= i < |before| && before[i].id == x;
        assert e[i].id == x;
      } else {
        assert e[k].id == x;
      }
    }
  }

  function Converted<I, O>(e: Event<I, O>): Entry<I, O> {
    Entry(e.kind, e.value, e.id, -1)
  }

  method ConvertEntries<I, O>(events: seq<Event<I, O>>) returns (entries: seq<Entry<I, O>>)
    ensures |entries| == |events|
    ensures forall i | 0 <= i < |entries| :: entries[i] == Converted(events[i])
  {
    entries := [];
    var k := 0;
    while k < |events|
      invariant 0 <= k <= |events| == |events| && |entries| == k
      invariant forall i | 0 <= i < k :: entries[i] == Converted(events[i])
    {
      var elem := events[k];
      var kind := CallEntry;
      if elem.kind == ReturnEntry {
        kind := ReturnEntry;
      }
      entries := entries + [Entry(kind, elem.value, elem.id, -1)];
      k := k + 1;
    }
  }

  ghost predicate ReturnOf<I, O>(events: seq<Event<I, O>>, p: nat, q: nat) {
    p < q < |events| && events[q].kind == ReturnEntry && events[q].id == events[p].id
  }

  ghost predicate HasReturn<I, O>(events: seq<Event<I, O>>, p: nat) {
    exists q :: ReturnOf(events, p, q)
  }

  ghost predicate HasCall<I, O>(events: seq<Event<I, O>>, q: nat) {
    exists p :: 0 <= p < |events| && events[p].kind == CallEntry && ReturnOf(events, p, q)
  }

  /** A complete event history: calls carry inputs, returns carry outputs, every call has a later
      return of the same id, every return answers an earlier call, and no id is used twice. */
  ghost predicate Matched<I, O>(events: seq<Event<I, O>>) {
    && (forall p | 0 <= p < |events| :: if events[p].kind == CallEntry then events[p].value.Input? else events[p].value.Output?)
    && (forall p {:trigger HasReturn(events, p)} | 0 <= p < |events| && events[p].kind == CallEntry :: HasReturn(events, p))
    && (forall q {:trigger HasCall(events, q)} | 0 <= q < |events| && events[q].kind == ReturnEntry :: HasCall(events, q))
    && (forall p, q | 0 <= p < q < |events| && events[p].kind == events[q].kind :: events[p].id != events[q].id)
  }

  lemma MatchedPair<I, O>(events: seq<Event<I, O>>, i: nat) returns (p: nat, q: nat)
    requires Matched(events) && i < |events|
    ensures p < q < |events| && events[p].kind == CallEntry && events[q].kind == ReturnEntry
    ensures events[p].id == events[q].id == events[i].id
    ensures events[p].value.Input? && events[q].value.Output?
  {
    if events[i].kind == CallEntry {
      p := i;
    } else {
      assert HasCall(events, i);
      p :| 0 <= p < |events| && events[p].kind == CallEntry && ReturnOf(events, p, i);
    }
    assert HasReturn(events, p);
    q :| ReturnOf(events, p, q);
  }

  lemma RenumberedPair<I, O>(events: seq<Event<I, O>>, r: seq<Event<I, O>>, n: nat, k: nat) returns (p: nat, q: nat)
    requires Renumbers(events, r, n) && Matched(events) && k < n
    ensures p < q < |r| && r[p].kind == CallEntry && r[q].kind == ReturnEntry && r[p].id == r[q].id == k
    ensures r[p].value.Input? && r[q].value.Output?
  {
    hide Matched;
    assert Used(r, k);
    var i :| 0 <= i < |r| && r[i].id == k;
    p, q := MatchedPair(events, i);
    assert r[p].id == r[i].id && r[q].id == r[i].id;
  }

  ghost predicate CallAndReturn<I, O>(r: seq<Event<I, O>>, op: Operation<I, O>, k: nat) {
    && 0 <= op.call < op.ret < |r|
    && r[op.call] == Event(CallEntry, Input(op.input), k)
    && r[op.ret] == Event(ReturnEntry, Output(op.output), k)
  }

  lemma {:induction false} FindOperations<I, O>(events: seq<Event<I, O>>, r: seq<Event<I, O>>, n: nat, k: nat)
    returns (ops: seq<Operation<I, O>>)
    requires Renumbers(events, r, n) && Matched(events) && k <= n
    ensures |ops| == k && forall i | 0 <= i < k :: CallAndReturn(r, ops[i], i)
    decreases k
  {
    hide Matched, Renumbers;
    if k == 0 {
      ops := [];
    } else {
      ops := FindOperations(events, r, n, k - 1);
      var p, q := RenumberedPair(events, r, n, k - 1);
      ops := ops + [Operation(r[p].value.input, p, r[q].value.output, q)];
    }
  }

  /** Renumbered and converted, a complete event history is a well-formed list. */
  lemma RenumberedDescribes<I, O>(events: seq<Event<I, O>>, r: seq<Event<I, O>>, n: nat, es: seq<Entry<I, O>>)
    returns (ops: seq<Operation<I, O>>)
    requires Renumbers(events, r, n) && Matched(events)
    requires |es| == |r| && forall i | 0 <= i < |es| :: es[i] == Converted(r[i])
    ensures |ops| == n && Describes(es, ops)
  {
    ops := FindOperations(events, r, n, n);
    forall i | 0 <= i < n ensures PlacedAt(es, ops[i], i) {
      assert CallAndReturn(r, ops[i], i);
    }
    forall p | 0 <= p < |es|
      ensures es[p].id < |ops| && p == if es[p].kind == CallEntry then ops[es[p].id].call else ops[es[p].id].ret
    {
      assert CallAndReturn(r, ops[r[p].id], r[p].id);
    }
  }
}
