/** The drivers `CheckOperationsTimeout` and `CheckEventsTimeout` without a timeout
    (src/linearizability/linearizability.go:229-313). */
module CheckOperations {
  import opened Checker
  import Collector
  import opened Counting
  import opened Entries
  import opened Histories
  import opened KvModel
  import opened Nodes

  // ---------------------------------------------------------------- one partition

  /** One worker: list building and search. The verdict is right for the order `ops` that the sort
      produced. Return and call entries with equal times may be sorted either way, so it lies between the
      two readings of such ties; without ties they coincide. */
  method CheckHistory<S(==,!new), I, O>(m: Model<S, I, O>, history: seq<Operation<I, O>>, kill: nat -> bool)
    returns (ok: bool, ghost readings: nat, ghost es: seq<Entry<I, O>>, ghost ops: seq<Operation<I, O>>)
    requires WellTimed(history)
    ensures IsSort(history, es, ops) && Justified(ok, Linearizable(m, ops), Killed(kill, readings))
    ensures ok ==> Linearizable(m, history)
    ensures !ok ==> !Linearizable(m, Eager(history)) || Killed(kill, readings)
    ensures NoTies(history) ==> Justified(ok, Linearizable(m, history), Killed(kill, readings))
  {
    hide *;
    var entries;
    entries, ops := MakeEntries(history);
    es := entries;
    var l, nodes := MakeLinkedEntries(entries);
    ListedRepresents(nodes, entries, ops);
    ghost var order;
    ok, readings, order := CheckSingle(m, l, kill, nodes, entries, ops);
    BracketedVerdict(m, history, es, ops, ok, Killed(kill, readings));
  }

  lemma BracketedVerdict<S, I, O>(m: Model<S, I, O>, history: seq<Operation<I, O>>, es: seq<Entry<I, O>>,
                                  ops: seq<Operation<I, O>>, ok: bool, killed: bool)
    requires IsSort(history, es, ops) && Justified(ok, Linearizable(m, ops), killed)
    ensures ok ==> Linearizable(m, history)
    ensures !ok ==> !Linearizable(m, Eager(history)) || killed
    ensures NoTies(history) ==> Justified(ok, Linearizable(m, history), killed)
  {
    hide Linearizable, IsSort, NoTies;
    SortIsBetween(m, history, es, ops);
    if NoTies(history) {
      NoTiesNoDifference(m, history);
    }
  }

  // ---------------------------------------------------------------- CheckOperations with KvModel

  lemma {:induction false} SubHistoryMembers(ops: seq<KvOperation>, n: nat, key: string, i: nat)
    requires n <= |ops| && i < |SubHistory(ops, n, key)|
    ensures SubHistory(ops, n, key)[i] in ops
  {
    if i < |SubHistory(ops, n - 1, key)| {
      SubHistoryMembers(ops, n - 1, key, i);
    }
  }

  lemma PartKeepsTimes(ops: seq<KvOperation>, key: string)
    requires WellTimed(ops)
    ensures WellTimed(SubHistory(ops, |ops|, key))
    ensures NoTies(ops) ==> NoTies(SubHistory(ops, |ops|, key))
  {
    var sub := SubHistory(ops, |ops|, key);
    forall i | 0 <= i < |sub| ensures sub[i] in ops {
      SubHistoryMembers(ops, |ops|, key, i);
    }
    hide SubHistory;
    forall i | 0 <= i < |sub| ensures sub[i].call < sub[i].ret {
      var x :| 0 <= x < |ops| && ops[x] == sub[i];
    }
    if NoTies(ops) {
      forall i, j | 0 <= i < |sub| && 0 <= j < |sub| ensures sub[i].ret != sub[j].call {
        var x :| 0 <= x < |ops| && ops[x] == sub[i];
        var y :| 0 <= y < |ops| && ops[y] == sub[j];
      }
    }
  }

  lemma {:induction false} SubHistoryEager(ops: seq<KvOperation>, n: nat, key: string)
    requires n <= |ops|
    ensures SubHistory(Eager(ops), n, key) == Eager(SubHistory(ops, n, key))
  {
    if n > 0 {
      SubHistoryEager(ops, n - 1, key);
    }
  }

  /** The eager reading of each part partitions the eager reading of the whole. */
  lemma EagerPartition(ops: seq<KvOperation>, parts: seq<seq<KvOperation>>, keys: seq<string>)
    requires IsPartition(ops, parts, keys) && WellTimed(ops)
    ensures IsPartition(Eager(ops), EagerParts(parts), keys) && CallsFirst(Eager(ops))
  {
    forall i | 0 <= i < |keys| ensures EagerParts(parts)[i] == SubHistory(Eager(ops), |ops|, keys[i]) {
      SubHistoryEager(ops, |ops|, keys[i]);
    }
    hide SubHistory;
    assert forall i | 0 <= i < |ops| :: Eager(ops)[i].input == ops[i].input;
  }

  ghost function EagerParts(parts: seq<seq<KvOperation>>): (r: seq<seq<KvOperation>>)
    ensures |r| == |parts| && forall i | 0 <= i < |r| :: r[i] == Eager(parts[i])
  {
    seq(|parts|, i requires 0 <= i < |parts| => Eager(parts[i]))
  }

  const NO_KILL: nat -> bool := _ => false

  lemma NeverKilled(ok: bool, linearizable: bool, readings: nat)
    ensures !Killed(NO_KILL, readings)
    ensures Justified(ok, linearizable, Killed(NO_KILL, readings)) ==> (ok <==> linearizable)
  {}

  /** The whole checker on a multi-key history, with the workers answering one after the other. The
      verdict on the per-key lists is a verdict on the store; without partitions the original waits
      forever for a first result. */
  method CheckKvOperations(history: seq<KvOperation>) returns (ok: bool)
    requires history != [] && WellTimed(history)
    ensures ok ==> Linearizable(StoreModel(), history)
    ensures !ok ==> !Linearizable(StoreModel(), Eager(history))
    ensures NoTies(history) ==> (ok <==> Linearizable(StoreModel(), history))
  {
    hide Linearizable, SubHistory, NoTies, NO_KILL;
    var partitions, keys := Partition(history);
    ok := true;
    var count := 0;
    while ok && count < |partitions|
      invariant 0 <= count <= |partitions|
      invariant ok ==> forall i | 0 <= i < count :: Linearizable(KeyModel(), partitions[i])
      invariant !ok ==> exists i :: 0 <= i < |partitions| && !Linearizable(KeyModel(), Eager(partitions[i]))
      decreases ok, |partitions| - count
    {
      PartKeepsTimes(history, keys[count]);
      var result, readings, es, ops := CheckHistory(KeyModel(), partitions[count], NO_KILL);
      NeverKilled(result, Linearizable(KeyModel(), ops), readings);
      ok := ok && result;
      if ok {
        count := count + 1;
      }
    }
    PartitionDecides(history, partitions, keys);
    EagerPartition(history, partitions, keys);
    PartitionDecides(Eager(history), EagerParts(partitions), keys);
    if NoTies(history) {
      NoTiesNoDifference(StoreModel(), history);
    }
  }

  // ---------------------------------------------------------------- the workers and the collector together

  /** `lists` are the orders in which the entries of the parts came out of their sorts. */
  ghost predicate AreSorts(parts: seq<seq<KvOperation>>, lists: seq<seq<KvOperation>>) {
    |lists| == |parts| && forall i | 0 <= i < |parts| :: exists es :: IsSort(parts[i], es, lists[i])
  }

  ghost function Verdicts(lists: seq<seq<KvOperation>>): (r: seq<bool>)
    ensures |r| == |lists| && forall i | 0 <= i < |r| :: r[i] == Linearizable(KeyModel(), lists[i])
  {
    seq(|lists|, i requires 0 <= i < |lists| => Linearizable(KeyModel(), lists[i]))
  }

  lemma PartVerdict(parts: seq<seq<KvOperation>>, lists: seq<seq<KvOperation>>, i: nat)
    requires AreSorts(parts, lists) && i < |parts|
    ensures Verdicts(lists)[i] ==> Linearizable(KeyModel(), parts[i])
    ensures Linearizable(KeyModel(), Eager(parts[i])) ==> Verdicts(lists)[i]
  {
    hide Linearizable, IsSort;
    var es :| IsSort(parts[i], es, lists[i]);
    SortIsBetween(KeyModel(), parts[i], es, lists[i]);
  }

  /** The verdicts of the parts, whatever their sorts, and what they say about the whole history. */
  lemma VerdictsDecide(history: seq<KvOperation>, parts: seq<seq<KvOperation>>, keys: seq<string>, lists: seq<seq<KvOperation>>)
    requires WellTimed(history) && IsPartition(history, parts, keys) && AreSorts(parts, lists)
    ensures (forall i | 0 <= i < |lists| :: Verdicts(lists)[i]) ==> Linearizable(StoreModel(), history)
    ensures Linearizable(StoreModel(), Eager(history)) ==> forall i | 0 <= i < |lists| :: Verdicts(lists)[i]
  {
    EagerPartition(history, parts, keys);
    hide Linearizable, SubHistory, IsPartition, AreSorts;
    PartitionDecides(history, parts, keys);
    PartitionDecides(Eager(history), EagerParts(parts), keys);
    forall i | 0 <= i < |parts|
      ensures Verdicts(lists)[i] ==> Linearizable(KeyModel(), parts[i])
      ensures Linearizable(KeyModel(), Eager(parts[i])) ==> Verdicts(lists)[i]
    {
      PartVerdict(parts, lists, i);
    }
    assert |lists| == |parts|;
  }

  /** The checker on a multi-key history, for every outcome of every sort and every interleaving of the
      workers, their readings of the flag and the collector: when the loop ends, its answer is right. */
  lemma EveryInterleavingIsRight(history: seq<KvOperation>, parts: seq<seq<KvOperation>>, keys: seq<string>,
                                 lists: seq<seq<KvOperation>>, run: seq<Collector.State>, k: nat)
    requires WellTimed(history) && IsPartition(history, parts, keys) && AreSorts(parts, lists)
    requires Collector.IsRun(Verdicts(lists), run) && k < |run| && run[k].done
    ensures run[k].ok ==> Linearizable(StoreModel(), history)
    ensures !run[k].ok ==> !Linearizable(StoreModel(), Eager(history))
    ensures NoTies(history) ==> (run[k].ok <==> Linearizable(StoreModel(), history))
  {
    hide *;
    VerdictsDecide(history, parts, keys, lists);
    Collector.VerdictIsConjunction(Verdicts(lists), run, k);
    if NoTies(history) {
      NoTiesNoDifference(StoreModel(), history);
    }
  }

  // ---------------------------------------------------------------- ties

  /** A put that returns at the instant a get of the old value is called. */
  function TiedHistory(): seq<KvOperation> {
    [Operation(KvInput(1, "k", "v"), 0, KvOutput(""), 5), Operation(KvInput(0, "k", ""), 5, KvOutput(""), 9)]
  }

  /** Ties leave the verdict open: one sort puts the return first, another the call, and the checker's
      verdicts on the two lists differ. */
  lemma TiesMatter() returns (es: seq<Entry<KvInput, KvOutput>>, ops: seq<KvOperation>,
                              es': seq<Entry<KvInput, KvOutput>>, ops': seq<KvOperation>)
    ensures WellTimed(TiedHistory()) && IsSort(TiedHistory(), es, ops) && IsSort(TiedHistory(), es', ops')
    ensures Linearizable(KeyModel(), ops) && !Linearizable(KeyModel(), ops')
  {
    LateReadingHolds();
    EagerReadingFails();
    assert WellTimed(TiedHistory());
    hide *;
    es, ops := ReadingHasSort(KeyModel(), TiedHistory(), true);
    es', ops' := ReadingHasSort(KeyModel(), TiedHistory(), false);
  }

  lemma LateReadingHolds()
    ensures Linearizable(KeyModel(), TiedHistory())
  {
    var h := TiedHistory();
    assert IsLinearization(KeyModel(), h, Ids(2), "", [1, 0]) by {
      assert [1, 0][1..] == [0];
      assert Accepts(KeyModel(), h, "", [1, 0]);
    }
  }

  lemma EagerReadingFails()
    ensures !Linearizable(KeyModel(), Eager(TiedHistory()))
  {
    var e := Eager(TiedHistory());
    SearchDecidesLinearizability(KeyModel(), e);
    forall rest ensures !Completes(KeyModel(), e, Ids(2), "", rest) {
      if rest != [] && Minimal(e, Ids(2), rest[0]) {
        assert !Minimal(e, Ids(2), 1) by {
          assert Precedes(e[0], e[1]) && 0 in Ids(2);
        }
        assert rest[0] == 0;
        assert After(KeyModel(), e[0], "") == "v";
        assert !Completes(KeyModel(), e, Ids(2) - {0}, "v", rest[1..]) by {
          assert 1 in Ids(2) - {0};
        }
      }
    }
  }

  // ---------------------------------------------------------------- CheckEvents, one partition

  /** `ops` are the operations of `events`: each pairs a call event with a later return event of the
      same id, and every event belongs to one of them. */
  ghost predicate IsHistoryOf<I, O>(events: seq<Event<I, O>>, ops: seq<Operation<I, O>>) {
    && (forall i | 0 <= i < |ops| :: PairsEvents(events, ops[i]))
    && (forall p | 0 <= p < |events| :: BelongsTo(ops, p))
    && (forall i, j | 0 <= i < j < |ops| :: ops[i].call != ops[j].call && ops[i].ret != ops[j].ret)
  }

  ghost predicate BelongsTo<I, O>(ops: seq<Operation<I, O>>, p: nat) {
    exists i :: 0 <= i < |ops| && (p == ops[i].call || p == ops[i].ret)
  }

  ghost predicate PairsEvents<I, O>(events: seq<Event<I, O>>, op: Operation<I, O>) {
    && 0 <= op.call < op.ret < |events|
    && events[op.call].kind == CallEntry && events[op.call].value == Input(op.input)
    && events[op.ret].kind == ReturnEntry && events[op.ret].value == Output(op.output)
    && events[op.call].id == events[op.ret].id
  }

  lemma DescribedEvents<I, O>(events: seq<Event<I, O>>, e: seq<Event<I, O>>, n: nat, es: seq<Entry<I, O>>,
                              ops: seq<Operation<I, O>>)
    requires Renumbers(events, e, n) && |es| == |e| && (forall i | 0 <= i < |es| :: es[i] == Converted(e[i]))
    requires Describes(es, ops)
    ensures IsHistoryOf(events, ops)
  {
    forall i | 0 <= i < |ops| ensures PairsEvents(events, ops[i]) {
      assert PlacedAt(es, ops[i], i);
      assert e[ops[i].call].id == e[ops[i].ret].id;
    }
    forall i, j | 0 <= i < j < |ops| ensures ops[i].call != ops[j].call && ops[i].ret != ops[j].ret {
      assert PlacedAt(es, ops[i], i) && PlacedAt(es, ops[j], j);
    }
    forall p | 0 <= p < |events| ensures BelongsTo(ops, p) {
      assert es[p].id < |ops|;
    }
  }

  ghost function IndexIn<I, O>(ops: seq<Operation<I, O>>, op: Operation<I, O>): (i: nat)
    requires op in ops
    ensures i < |ops| && ops[i] == op
  {
    var i :| 0 <= i < |ops| && ops[i] == op;
    i
  }

  /** Complete events pair up in only one way. */
  lemma SamePairs<I, O>(events: seq<Event<I, O>>, a: seq<Operation<I, O>>, b: seq<Operation<I, O>>, i: nat)
    requires Matched(events) && IsHistoryOf(events, a) && IsHistoryOf(events, b) && i < |a|
    ensures a[i] in b
  {
    assert PairsEvents(events, a[i]);
    assert BelongsTo(b, a[i].call);
    var j :| 0 <= j < |b| && (a[i].call == b[j].call || a[i].call == b[j].ret);
    assert PairsEvents(events, b[j]);
  }

  lemma SameVerdict<S(!new), I, O>(m: Model<S, I, O>, events: seq<Event<I, O>>, a: seq<Operation<I, O>>, b: seq<Operation<I, O>>)
    requires Matched(events) && IsHistoryOf(events, a) && IsHistoryOf(events, b)
    ensures Linearizable(m, a) ==> Linearizable(m, b)
  {
    forall i | 0 <= i < |a| ensures a[i] in b {
      SamePairs(events, a, b, i);
    }
    forall j | 0 <= j < |b| ensures b[j] in a {
      SamePairs(events, b, a, j);
    }
    var f := seq(|a|, i requires 0 <= i < |a| => IndexIn(b, a[i]));
    assert Embeds(a, b, f);
    forall j | 0 <= j < |b| ensures j in Image(f, Ids(|a|)) {
      var i := IndexIn(a, b[j]);
      assert f[i] == j;
    }
    assert Image(f, Ids(|a|)) == Ids(|b|);
    hide IsHistoryOf, Matched, Embeds, Image, Completes, Linearizable, Dead;
    SearchDecidesLinearizability(m, a);
    SearchDecidesLinearizability(m, b);
    CompletionCarriesOver(m, a, b, f);
  }

  lemma CompletionCarriesOver<S(!new), I, O>(m: Model<S, I, O>, a: seq<Operation<I, O>>, b: seq<Operation<I, O>>, f: seq<nat>)
    requires Embeds(a, b, f) && Image(f, Ids(|a|)) == Ids(|b|)
    ensures !Dead(m, a, Ids(|a|), m.init) ==> !Dead(m, b, Ids(|b|), m.init)
  {
    if !Dead(m, a, Ids(|a|), m.init) {
      var rest :| Completes(m, a, Ids(|a|), m.init, rest);
      var order := PushCompletion(m, a, b, f, Ids(|a|), m.init, rest);
    }
  }

  /** For a complete event history the verdict is right for its operations, which it determines. */
  method CheckEvents<S(==,!new), I(!new), O(!new)>(m: Model<S, I, O>, history: seq<Event<I, O>>) returns (ok: bool)
    requires Matched(history)
    ensures exists ops :: IsHistoryOf(history, ops)
    ensures forall ops | IsHistoryOf(history, ops) :: ok <==> Linearizable(m, ops)
  {
    hide *;
    var e := Renumber(history);
    var entries := ConvertEntries(e);
    ghost var n :| Renumbers(history, e, n);
    ghost var ops := RenumberedDescribes(history, e, n, entries);
    DescribedEvents(history, e, n, entries, ops);
    var l, nodes := MakeLinkedEntries(entries);
    ListedRepresents(nodes, entries, ops);
    ghost var readings, order;
    ok, readings, order := CheckSingle(m, l, NO_KILL, nodes, entries, ops);
    NeverKilled(ok, Linearizable(m, ops), readings);
    forall ops' | IsHistoryOf(history, ops') ensures ok <==> Linearizable(m, ops') {
      SameVerdict(m, history, ops, ops');
      SameVerdict(m, history, ops', ops);
    }
  }
}
