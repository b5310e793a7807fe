/** The key-value model of src/linearizability/models.go and the locality of its key partition. */
module KvModel {
  import opened Counting
  import opened Histories

  /** 0 => get, 1 => put, anything else => append. */
  datatype KvInput = KvInput(op: nat, key: string, value: string)

  datatype KvOutput = KvOutput(value: string)

  type KvOperation = Operation<KvInput, KvOutput>

  /** One key's value. */
  function Step(st: string, inp: KvInput, out: KvOutput): (bool, string) {
    if inp.op == 0 then (out.value == st, st)
    else if inp.op == 1 then (true, inp.value)
    else (true, st + inp.value)
  }

  /** The checker's model: a single key, initially "". */
  function KeyModel(): Model<string, KvInput, KvOutput> {
    Model("", Step)
  }

  type Store = map<string, string>

  function Lookup(st: Store, key: string): string {
    if key in st then st[key] else ""
  }

  /** The whole store: a request steps the value of its own key and leaves the others alone. */
  function StoreStep(st: Store, inp: KvInput, out: KvOutput): (bool, Store) {
    var (ok, v) := Step(Lookup(st, inp.key), inp, out);
    (ok, st[inp.key := v])
  }

  function StoreModel(): Model<Store, KvInput, KvOutput> {
    Model(map[], StoreStep)
  }

  // ---------------------------------------------------------------- what a get must return

  /** One behind the last put among the first `n` requests that `on` selects; 0 if there is none. */
  ghost function LastPut(reqs: seq<KvInput>, on: KvInput -> bool, n: nat): (p: nat)
    requires n <= |reqs|
    ensures p <= n && (p > 0 ==> reqs[p - 1].op == 1 && on(reqs[p - 1]))
    ensures forall i | p <= i < n && on(reqs[i]) :: reqs[i].op != 1
  {
    if n == 0 then 0 else if reqs[n - 1].op == 1 && on(reqs[n - 1]) then n else LastPut(reqs, on, n - 1)
  }

  /** The values appended by the selected requests from `from` up to `n`, one behind the other. */
  ghost function Appends(reqs: seq<KvInput>, on: KvInput -> bool, from: nat, n: nat): string
    requires from <= n <= |reqs|
    decreases n
  {
    if n == from then ""
    else Appends(reqs, on, from, n - 1) + if reqs[n - 1].op > 1 && on(reqs[n - 1]) then reqs[n - 1].value else ""
  }

  /** The value after the first `n` requests, from the requests alone: the last put and the appends since. */
  ghost function ValueAfter(reqs: seq<KvInput>, on: KvInput -> bool, n: nat): string
    requires n <= |reqs|
  {
    var p := LastPut(reqs, on, n);
    (if p > 0 then reqs[p - 1].value else "") + Appends(reqs, on, p, n)
  }

  lemma ValueStep(reqs: seq<KvInput>, on: KvInput -> bool, n: nat)
    requires n < |reqs|
    ensures var v, inp := ValueAfter(reqs, on, n), reqs[n];
      ValueAfter(reqs, on, n + 1) == if !on(inp) || inp.op == 0 then v else if inp.op == 1 then inp.value else v + inp.value
  {
    var p := LastPut(reqs, on, n);
    var base := if p > 0 then reqs[p - 1].value else "";
    assert base + (Appends(reqs, on, p, n) + reqs[n].value) == (base + Appends(reqs, on, p, n)) + reqs[n].value;
    assert Appends(reqs, on, p, n) + "" == Appends(reqs, on, p, n);
    assert reqs[n].value + "" == reqs[n].value;
  }

  ghost function Requests(ops: seq<KvOperation>, order: seq<nat>): (r: seq<KvInput>)
    requires Within(ops, order)
    ensures |r| == |order| && forall k | 0 <= k < |r| :: r[k] == ops[order[k]].input
  {
    seq(|order|, k requires 0 <= k < |order| => ops[order[k]].input)
  }

  const ANY_KEY: KvInput -> bool := _ => true

  /** The one value of the checker's model, which looks at no keys. */
  ghost function PlainValue(reqs: seq<KvInput>, n: nat): string
    requires n <= |reqs|
  {
    ValueAfter(reqs, ANY_KEY, n)
  }

  ghost function KeyValue(reqs: seq<KvInput>, key: string, n: nat): string
    requires n <= |reqs|
  {
    ValueAfter(reqs, (inp: KvInput) => inp.key == key, n)
  }

  lemma PlainValueStep(reqs: seq<KvInput>, n: nat, out: KvOutput)
    requires n < |reqs|
    ensures PlainValue(reqs, 0) == ""
    ensures var v := PlainValue(reqs, n);
      Step(v, reqs[n], out) == (reqs[n].op == 0 ==> out.value == v, PlainValue(reqs, n + 1))
  {
    ValueStep(reqs, ANY_KEY, n);
    hide ValueAfter, Appends, LastPut;
    NoRequests(reqs, ANY_KEY);
  }

  lemma NoRequests(reqs: seq<KvInput>, on: KvInput -> bool)
    ensures ValueAfter(reqs, on, 0) == ""
  {}

  lemma KeyValueStep(reqs: seq<KvInput>, key: string, n: nat)
    requires n < |reqs|
    ensures var v, inp := KeyValue(reqs, key, n), reqs[n];
      KeyValue(reqs, key, n + 1)
        == if inp.key != key || inp.op == 0 then v else if inp.op == 1 then inp.value else v + inp.value
  {
    ValueStep(reqs, (inp: KvInput) => inp.key == key, n);
    hide ValueAfter;
  }

  lemma AcceptsAt<S>(m: Model<S, KvInput, KvOutput>, ops: seq<KvOperation>, order: seq<nat>, k: nat, s: S)
    requires Within(ops, order) && k < |order|
    ensures Within(ops, order[k..]) && Within(ops, order[k + 1..])
    ensures Accepts(m, ops, s, order[k..]) <==>
      Allows(m, ops[order[k]], s) && Accepts(m, ops, After(m, ops[order[k]], s), order[k + 1..])
  {
    assert order[k..][0] == order[k] && order[k..][1..] == order[k + 1..];
    hide Allows, After;
  }

  // The checker's model

  ghost predicate GetIsRight(ops: seq<KvOperation>, order: seq<nat>, j: nat)
    requires Within(ops, order) && j < |order|
  {
    ops[order[j]].input.op == 0 ==> ops[order[j]].output.value == PlainValue(Requests(ops, order), j)
  }

  ghost predicate GetsAreRight(ops: seq<KvOperation>, order: seq<nat>, k: nat)
    requires Within(ops, order)
  {
    forall j | k <= j < |order| :: GetIsRight(ops, order, j)
  }

  lemma GetsStep(ops: seq<KvOperation>, order: seq<nat>, k: nat)
    requires Within(ops, order) && k < |order|
    ensures GetsAreRight(ops, order, k) <==> GetIsRight(ops, order, k) && GetsAreRight(ops, order, k + 1)
  {
    hide GetIsRight;
  }

  lemma RightIsAllowed(ops: seq<KvOperation>, order: seq<nat>, k: nat)
    requires Within(ops, order) && k < |order|
    ensures var op, reqs := ops[order[k]], Requests(ops, order);
      && (Allows(KeyModel(), op, PlainValue(reqs, k)) <==> GetIsRight(ops, order, k))
      && After(KeyModel(), op, PlainValue(reqs, k)) == PlainValue(reqs, k + 1)
  {
    PlainValueStep(Requests(ops, order), k, ops[order[k]].output);
    hide PlainValue, Step;
  }

  lemma {:induction false} AcceptedIffRight(ops: seq<KvOperation>, order: seq<nat>, k: nat)
    requires Within(ops, order) && k <= |order|
    ensures Within(ops, order[k..])
    ensures Accepts(KeyModel(), ops, PlainValue(Requests(ops, order), k), order[k..]) <==> GetsAreRight(ops, order, k)
    decreases |order| - k
  {
    if k < |order| {
      hide PlainValue, Step, Allows, After, GetsAreRight, GetIsRight;
      AcceptsAt(KeyModel(), ops, order, k, PlainValue(Requests(ops, order), k));
      AcceptedIffRight(ops, order, k + 1);
      RightIsAllowed(ops, order, k);
      GetsStep(ops, order, k);
    }
  }

  /** A history without overlap is linearizable for the checker's model exactly when every get returns the last
      value put, with everything appended since. */
  lemma SequentialGets(ops: seq<KvOperation>, order: seq<nat>)
    requires OneAfterTheOther(ops, order)
    ensures Within(ops, order)
    ensures Linearizable(KeyModel(), ops) <==> GetsAreRight(ops, order, 0)
  {
    SequentialVerdict(KeyModel(), ops, order);
    NoRequests(Requests(ops, order), ANY_KEY);
    hide Linearizable, ValueAfter, GetsAreRight;
    AcceptedIffRight(ops, order, 0);
    assert order[0..] == order;
  }

  // The whole store

  ghost predicate StoreGetIsRight(ops: seq<KvOperation>, order: seq<nat>, j: nat)
    requires Within(ops, order) && j < |order|
  {
    ops[order[j]].input.op == 0 ==> ops[order[j]].output.value == KeyValue(Requests(ops, order), ops[order[j]].input.key, j)
  }

  ghost predicate HoldsValues(st: Store, reqs: seq<KvInput>, n: nat)
    requires n <= |reqs|
  {
    forall key :: Lookup(st, key) == KeyValue(reqs, key, n)
  }

  lemma HoldsStep(st: Store, reqs: seq<KvInput>, n: nat, out: KvOutput)
    requires n < |reqs| && HoldsValues(st, reqs, n)
    ensures HoldsValues(StoreStep(st, reqs[n], out).1, reqs, n + 1)
    ensures StoreStep(st, reqs[n], out).0 <==> (reqs[n].op == 0 ==> out.value == KeyValue(reqs, reqs[n].key, n))
  {
    hide KeyValue;
    var st' := StoreStep(st, reqs[n], out).1;
    assert Lookup(st, reqs[n].key) == KeyValue(reqs, reqs[n].key, n);
    forall key ensures Lookup(st', key) == KeyValue(reqs, key, n + 1) {
      KeyValueStep(reqs, key, n);
      assert Lookup(st, key) == KeyValue(reqs, key, n);
    }
  }

  ghost predicate StoreGetsAreRight(ops: seq<KvOperation>, order: seq<nat>, k: nat)
    requires Within(ops, order)
  {
    forall j | k <= j < |order| :: StoreGetIsRight(ops, order, j)
  }

  lemma StoreGetsStep(ops: seq<KvOperation>, order: seq<nat>, k: nat)
    requires Within(ops, order) && k < |order|
    ensures StoreGetsAreRight(ops, order, k) <==> StoreGetIsRight(ops, order, k) && StoreGetsAreRight(ops, order, k + 1)
  {
    hide StoreGetIsRight;
  }

  lemma StoreRightIsAllowed(ops: seq<KvOperation>, order: seq<nat>, k: nat, st: Store)
    requires Within(ops, order) && k < |order| && HoldsValues(st, Requests(ops, order), k)
    ensures Allows(StoreModel(), ops[order[k]], st) <==> StoreGetIsRight(ops, order, k)
    ensures HoldsValues(After(StoreModel(), ops[order[k]], st), Requests(ops, order), k + 1)
  {
    HoldsStep(st, Requests(ops, order), k, ops[order[k]].output);
    hide StoreStep, HoldsValues, KeyValue;
  }

  lemma {:induction false} StoreAcceptedIffRight(ops: seq<KvOperation>, order: seq<nat>, k: nat, st: Store)
    requires Within(ops, order) && k <= |order| && HoldsValues(st, Requests(ops, order), k)
    ensures Within(ops, order[k..])
    ensures Accepts(StoreModel(), ops, st, order[k..]) <==> StoreGetsAreRight(ops, order, k)
    decreases |order| - k
  {
    if k < |order| {
      hide HoldsValues, Allows, After, StoreGetsAreRight, StoreGetIsRight;
      AcceptsAt(StoreModel(), ops, order, k, st);
      StoreRightIsAllowed(ops, order, k, st);
      StoreAcceptedIffRight(ops, order, k + 1, After(StoreModel(), ops[order[k]], st));
      StoreGetsStep(ops, order, k);
    }
  }

  /** The same for the whole store, where only requests on the get's own key count. */
  lemma SequentialStoreGets(ops: seq<KvOperation>, order: seq<nat>)
    requires OneAfterTheOther(ops, order)
    ensures Within(ops, order)
    ensures Linearizable(StoreModel(), ops) <==> StoreGetsAreRight(ops, order, 0)
  {
    SequentialVerdict(StoreModel(), ops, order);
    forall key ensures KeyValue(Requests(ops, order), key, 0) == "" {
      NoRequests(Requests(ops, order), (inp: KvInput) => inp.key == key);
      hide ValueAfter;
    }
    hide Linearizable, KeyValue, StoreGetsAreRight, StoreStep;
    var empty: Store := map[];
    assert HoldsValues(empty, Requests(ops, order), 0);
    StoreAcceptedIffRight(ops, order, 0, empty);
    assert order[0..] == order;
  }

  // ---------------------------------------------------------------- sub-histories

  /** The operations on `key` among the first `n`, in history order. */
  function SubHistory(ops: seq<KvOperation>, n: nat, key: string): seq<KvOperation>
    requires n <= |ops|
  {
    if n == 0 then []
    else SubHistory(ops, n - 1, key) + if ops[n - 1].input.key == key then [ops[n - 1]] else []
  }

  ghost function KeyIndices(ops: seq<KvOperation>, n: nat, key: string): seq<nat>
    requires n <= |ops|
  {
    if n == 0 then []
    else KeyIndices(ops, n - 1, key) + if ops[n - 1].input.key == key then [n - 1] else []
  }

  ghost function KeyIds(ops: seq<KvOperation>, todo: set<nat>, key: string): (ids: set<nat>)
    requires InRange(ops, todo)
    ensures InRange(ops, ids)
  {
    set i | i in todo && ops[i].input.key == key
  }

  lemma {:induction false} SubHistoryEmbeds(ops: seq<KvOperation>, n: nat, key: string)
    requires n <= |ops|
    ensures Embeds(SubHistory(ops, n, key), ops, KeyIndices(ops, n, key))
    ensures forall j | 0 <= j < |KeyIndices(ops, n, key)| :: KeyIndices(ops, n, key)[j] < n
  {
    if n > 0 {
      SubHistoryEmbeds(ops, n - 1, key);
      var sub', f' := SubHistory(ops, n - 1, key), KeyIndices(ops, n - 1, key);
      if ops[n - 1].input.key == key {
        assert SubHistory(ops, n, key) == sub' + [ops[n - 1]] && KeyIndices(ops, n, key) == f' + [n - 1];
      } else {
        assert SubHistory(ops, n, key) == sub' && KeyIndices(ops, n, key) == f';
      }
    }
  }

  lemma KeyIdsStep(ops: seq<KvOperation>, n: nat, key: string)
    requires n < |ops|
    ensures KeyIds(ops, Ids(n + 1), key) == KeyIds(ops, Ids(n), key) + if ops[n].input.key == key then {n} else {}
  {}

  lemma IndexStep(ops: seq<KvOperation>, n: nat, key: string, f: seq<nat>)
    requires n < |ops| && Image(f, Ids(|f|)) == KeyIds(ops, Ids(n), key)
    ensures var f' := if ops[n].input.key == key then f + [n] else f; Image(f', Ids(|f'|)) == KeyIds(ops, Ids(n + 1), key)
  {
    KeyIdsStep(ops, n, key);
    hide KeyIds, Image, InRange;
    ImageSnoc(f, n);
  }

  lemma {:induction false} IndicesAreKeyIds(ops: seq<KvOperation>, n: nat, key: string)
    requires n <= |ops|
    ensures Image(KeyIndices(ops, n, key), Ids(|KeyIndices(ops, n, key)|)) == KeyIds(ops, Ids(n), key)
  {
    if n == 0 {
      assert KeyIds(ops, Ids(0), key) == {};
    } else {
      var f := KeyIndices(ops, n - 1, key);
      IndicesAreKeyIds(ops, n - 1, key);
      IndexStep(ops, n - 1, key, f);
      assert f + [] == f;
      hide KeyIds, Image, InRange;
    }
  }

  lemma ImageIsMembers(f: seq<nat>, y: nat)
    ensures y in Image(f, Ids(|f|)) <==> y in f
  {
    if y in f {
      var i :| 0 <= i < |f| && f[i] == y;
      assert i in Ids(|f|);
    }
  }

  lemma ImageSnoc(f: seq<nat>, x: nat)
    ensures Image(f + [x], Ids(|f| + 1)) == Image(f, Ids(|f|)) + {x}
  {
    forall y: nat ensures y in Image(f + [x], Ids(|f| + 1)) <==> y in Image(f, Ids(|f|)) + {x} {
      ImageIsMembers(f + [x], y);
      ImageIsMembers(f, y);
      hide Image;
    }
    hide Image;
  }

  /** A sub-history is linearizable iff its operations have a completion inside the whole history. */
  lemma SubHistoryLinearizable(ops: seq<KvOperation>, key: string)
    ensures Linearizable(KeyModel(), SubHistory(ops, |ops|, key))
       <==> !Dead(KeyModel(), ops, KeyIds(ops, Ids(|ops|), key), "")
  {
    var sub, f := SubHistory(ops, |ops|, key), KeyIndices(ops, |ops|, key);
    SubHistoryEmbeds(ops, |ops|, key);
    IndicesAreKeyIds(ops, |ops|, key);
    SearchDecidesLinearizability(KeyModel(), sub);
    hide Completes, Linearizable, Embeds, SubHistory, KeyIndices, Image, KeyIds;
    if !Dead(KeyModel(), sub, Ids(|sub|), "") {
      var rest :| Completes(KeyModel(), sub, Ids(|sub|), "", rest);
      var order := PushCompletion(KeyModel(), sub, ops, f, Ids(|sub|), "", rest);
    }
    if !Dead(KeyModel(), ops, KeyIds(ops, Ids(|ops|), key), "") {
      var order :| Completes(KeyModel(), ops, KeyIds(ops, Ids(|ops|), key), "", order);
      var rest := PullCompletion(KeyModel(), sub, ops, f, Ids(|sub|), "", order);
    }
  }

  // ---------------------------------------------------------------- locality

  ghost predicate CallsFirst(ops: seq<KvOperation>) {
    forall i | 0 <= i < |ops| :: ops[i].call <= ops[i].ret
  }

  /** Projecting a completion of the whole store onto one key. */
  lemma {:induction false} Project(ops: seq<KvOperation>, todo: set<nat>, st: Store, rest: seq<nat>, key: string)
    returns (r: seq<nat>)
    requires InRange(ops, todo) && Completes(StoreModel(), ops, todo, st, rest)
    ensures Completes(KeyModel(), ops, KeyIds(ops, todo, key), Lookup(st, key), r)
    decreases |rest|
  {
    if rest == [] {
      r := [];
    } else {
      var a := rest[0];
      var tail := Project(ops, todo - {a}, After(StoreModel(), ops[a], st), rest[1..], key);
      if ops[a].input.key == key {
        r := [a] + tail;
        assert KeyIds(ops, todo - {a}, key) == KeyIds(ops, todo, key) - {a};
        assert r[1..] == tail;
      } else {
        r := tail;
        assert KeyIds(ops, todo - {a}, key) == KeyIds(ops, todo, key);
      }
    }
  }

  lemma {:induction false} EarliestReturn(ops: seq<KvOperation>, todo: set<nat>) returns (b: nat)
    requires InRange(ops, todo) && todo != {}
    ensures b in todo && forall c | c in todo :: ops[b].ret <= ops[c].ret
    decreases |todo|
  {
    b :| b in todo;
    if todo != {b} {
      var c := EarliestReturn(ops, todo - {b});
      if ops[c].ret < ops[b].ret {
        b := c;
      }
    }
  }

  ghost predicate KeyAlive(ops: seq<KvOperation>, todo: set<nat>, st: Store, key: string)
    requires InRange(ops, todo)
  {
    exists rest :: Completes(KeyModel(), ops, KeyIds(ops, todo, key), Lookup(st, key), rest)
  }

  /** The first operation of the right key's order is minimal in the whole history: whoever returns
      first overall had not returned before it was called. */
  lemma FirstOfKeyIsMinimal(ops: seq<KvOperation>, todo: set<nat>, a: nat, b: nat)
    requires InRange(ops, todo) && CallsFirst(ops)
    requires b in todo && forall c | c in todo :: ops[b].ret <= ops[c].ret
    requires Minimal(ops, KeyIds(ops, todo, ops[b].input.key), a)
    ensures Minimal(ops, todo, a)
  {}

  lemma OtherKeysUndisturbed(ops: seq<KvOperation>, todo: set<nat>, st: Store, a: nat, key: string)
    requires InRange(ops, todo) && a in todo && key != ops[a].input.key && KeyAlive(ops, todo, st, key)
    ensures KeyAlive(ops, todo - {a}, After(StoreModel(), ops[a], st), key)
  {
    assert KeyIds(ops, todo - {a}, key) == KeyIds(ops, todo, key);
    assert Lookup(After(StoreModel(), ops[a], st), key) == Lookup(st, key);
  }

  lemma OwnKeyAdvances(ops: seq<KvOperation>, todo: set<nat>, st: Store, a: nat, rest: seq<nat>)
    requires InRange(ops, todo) && rest != [] && rest[0] == a && a < |ops|
    requires Completes(KeyModel(), ops, KeyIds(ops, todo, ops[a].input.key), Lookup(st, ops[a].input.key), rest)
    ensures KeyAlive(ops, todo - {a}, After(StoreModel(), ops[a], st), ops[a].input.key)
    ensures Allows(StoreModel(), ops[a], st)
  {
    var key := ops[a].input.key;
    assert KeyIds(ops, todo - {a}, key) == KeyIds(ops, todo, key) - {a};
    assert Completes(KeyModel(), ops, KeyIds(ops, todo - {a}, key), Lookup(After(StoreModel(), ops[a], st), key), rest[1..]);
  }

  /** Merging: if every key can be completed on its own, the store can be completed. */
  lemma {:induction false} Merge(ops: seq<KvOperation>, todo: set<nat>, st: Store) returns (r: seq<nat>)
    requires InRange(ops, todo) && CallsFirst(ops)
    requires forall key :: KeyAlive(ops, todo, st, key)
    ensures Completes(StoreModel(), ops, todo, st, r)
    decreases |todo|
  {
    if todo == {} {
      r := [];
    } else {
      var b := EarliestReturn(ops, todo);
      var key := ops[b].input.key;
      assert KeyAlive(ops, todo, st, key);
      var rest :| Completes(KeyModel(), ops, KeyIds(ops, todo, key), Lookup(st, key), rest);
      assert b in KeyIds(ops, todo, key);
      var a := rest[0];
      FirstOfKeyIsMinimal(ops, todo, a, b);
      OwnKeyAdvances(ops, todo, st, a, rest);
      hide Minimal, KeyAlive, Allows, After, KeyIds, Completes;
      var st' := After(StoreModel(), ops[a], st);
      forall k ensures KeyAlive(ops, todo - {a}, st', k) {
        if k != key {
          OtherKeysUndisturbed(ops, todo, st, a, k);
        }
      }
      var tail := Merge(ops, todo - {a}, st');
      ConsCompletes(ops, todo, st, a, tail);
      r := [a] + tail;
    }
  }

  lemma ConsCompletes(ops: seq<KvOperation>, todo: set<nat>, st: Store, a: nat, tail: seq<nat>)
    requires InRange(ops, todo) && Minimal(ops, todo, a) && Allows(StoreModel(), ops[a], st)
    requires Completes(StoreModel(), ops, todo - {a}, After(StoreModel(), ops[a], st), tail)
    ensures Completes(StoreModel(), ops, todo, st, [a] + tail)
  {}

  lemma KeyAliveAtStart(ops: seq<KvOperation>, key: string)
    ensures KeyLinearizable(ops, key) <==> KeyAlive(ops, Ids(|ops|), map[], key)
  {
    hide Completes, Linearizable, SubHistory, KeyIds;
    SubHistoryLinearizable(ops, key);
    var empty: Store := map[];
    assert Lookup(empty, key) == "";
  }

  ghost predicate KeyLinearizable(ops: seq<KvOperation>, key: string) {
    Linearizable(KeyModel(), SubHistory(ops, |ops|, key))
  }

  ghost predicate EveryKeyLinearizable(ops: seq<KvOperation>) {
    forall key :: KeyLinearizable(ops, key)
  }

  /** The contract of `Partition`: the history is linearizable iff every key's sub-history is. */
  lemma Locality(ops: seq<KvOperation>)
    requires CallsFirst(ops)
    ensures Linearizable(StoreModel(), ops) <==> EveryKeyLinearizable(ops)
  {
    hide Linearizable, KeyLinearizable;
    if Linearizable(StoreModel(), ops) {
      forall key ensures KeyLinearizable(ops, key) {
        ProjectAtStart(ops, key);
      }
    }
    if EveryKeyLinearizable(ops) {
      MergeAtStart(ops);
    }
  }

  lemma ProjectAtStart(ops: seq<KvOperation>, key: string)
    requires Linearizable(StoreModel(), ops)
    ensures KeyLinearizable(ops, key)
  {
    hide Completes, Linearizable, SubHistory, KeyAlive, KeyIds, Lookup;
    SearchDecidesLinearizability(StoreModel(), ops);
    var rest :| Completes(StoreModel(), ops, Ids(|ops|), map[], rest);
    ProjectAlive(ops, Ids(|ops|), map[], rest, key);
    KeyAliveAtStart(ops, key);
  }

  lemma MergeAtStart(ops: seq<KvOperation>)
    requires CallsFirst(ops) && EveryKeyLinearizable(ops)
    ensures Linearizable(StoreModel(), ops)
  {
    hide Completes, KeyAlive, IsLinearization, Linearizable, KeyLinearizable;
    forall key ensures KeyAlive(ops, Ids(|ops|), map[], key) {
      assert KeyLinearizable(ops, key);
      KeyAliveAtStart(ops, key);
    }
    MergeAll(ops);
  }

  lemma MergeAll(ops: seq<KvOperation>)
    requires CallsFirst(ops) && forall key :: KeyAlive(ops, Ids(|ops|), map[], key)
    ensures Linearizable(StoreModel(), ops)
  {
    hide Completes, KeyAlive, IsLinearization;
    var m, ids := StoreModel(), Ids(|ops|);
    var r := Merge(ops, ids, map[]);
    CompletionIsLinearization(m, ops, ids, m.init, r);
    assert IsLinearization(m, ops, Ids(|ops|), m.init, r);
  }

  lemma ProjectAlive(ops: seq<KvOperation>, todo: set<nat>, st: Store, rest: seq<nat>, key: string)
    requires InRange(ops, todo) && Completes(StoreModel(), ops, todo, st, rest)
    ensures KeyAlive(ops, todo, st, key)
  {
    var r := Project(ops, todo, st, rest, key);
  }

  // ---------------------------------------------------------------- Partition

  ghost predicate HasKey(ops: seq<KvOperation>, n: nat, key: string)
    requires n <= |ops|
  {
    exists i :: 0 <= i < n && ops[i].input.key == key
  }

  lemma {:induction false} NoKeyNoSubHistory(ops: seq<KvOperation>, n: nat, key: string)
    requires n <= |ops| && !HasKey(ops, n, key)
    ensures SubHistory(ops, n, key) == []
  {
    if n > 0 {
      assert !HasKey(ops, n - 1, key);
      NoKeyNoSubHistory(ops, n - 1, key);
    }
  }

  /** `parts` are the sub-histories of the distinct keys `keys`, and no key is forgotten. */
  ghost predicate IsPartition(ops: seq<KvOperation>, parts: seq<seq<KvOperation>>, keys: seq<string>) {
    && |parts| == |keys|
    && (forall i | 0 <= i < |keys| :: parts[i] == SubHistory(ops, |ops|, keys[i]))
    && (forall i, j | 0 <= i < j < |keys| :: keys[i] != keys[j])
    && (forall i | 0 <= i < |ops| :: ops[i].input.key in keys)
  }

  lemma SubHistoryStep(ops: seq<KvOperation>, n: nat, key: string)
    requires n < |ops|
    ensures SubHistory(ops, n + 1, key) == SubHistory(ops, n, key) + if ops[n].input.key == key then [ops[n]] else []
    ensures !HasKey(ops, n, key) ==> SubHistory(ops, n, key) == []
  {
    if !HasKey(ops, n, key) {
      NoKeyNoSubHistory(ops, n, key);
    }
  }

  /** The groups built from the first `n` operations. */
  ghost predicate Grouped(m: map<string, seq<KvOperation>>, ops: seq<KvOperation>, n: nat)
    requires n <= |ops|
  {
    && (forall k | k in m :: m[k] != [] && m[k] == SubHistory(ops, n, k))
    && (forall j | 0 <= j < n :: ops[j].input.key in m)
  }

  lemma GroupStep(m: map<string, seq<KvOperation>>, ops: seq<KvOperation>, n: nat)
    requires n < |ops| && Grouped(m, ops, n)
    ensures var key := ops[n].input.key;
      Grouped(m[key := (if key in m then m[key] else []) + [ops[n]]], ops, n + 1)
  {
    hide SubHistory;
    var key := ops[n].input.key;
    var m' := m[key := (if key in m then m[key] else []) + [ops[n]]];
    SubHistoryStep(ops, n, key);
    forall k | k in m' ensures m'[k] != [] && m'[k] == SubHistory(ops, n + 1, k) {
      SubHistoryStep(ops, n, k);
    }
  }

  method Partition(history: seq<KvOperation>) returns (ret: seq<seq<KvOperation>>, ghost keys: seq<string>)
    ensures IsPartition(history, ret, keys)
    ensures forall i | 0 <= i < |ret| :: ret[i] != []
  {
    hide SubHistory;
    var m: map<string, seq<KvOperation>> := map[];
    var i := 0;
    while i < |history|
      invariant 0 <= i <= |history|
      invariant Grouped(m, history, i)
    {
      GroupStep(m, history, i);
      var key := history[i].input.key;
      m := m[key := (if key in m then m[key] else []) + [history[i]]];
      i := i + 1;
    }
    ret, keys := [], [];
    var left := m.Keys;
    while left != {}
      invariant left <= m.Keys && |ret| == |keys|
      invariant forall j | 0 <= j < |keys| :: keys[j] in m && keys[j] !in left && ret[j] == m[keys[j]]
      invariant forall j, j' | 0 <= j < j' < |keys| :: keys[j] != keys[j']
      invariant forall k | k in m :: k in left || k in keys
      decreases left
    {
      var k :| k in left;
      ret := ret + [m[k]];
      keys := keys + [k];
      left := left - {k};
    }
  }

  lemma PartOfKey(ops: seq<KvOperation>, parts: seq<seq<KvOperation>>, keys: seq<string>, key: string)
    requires IsPartition(ops, parts, keys) && forall i | 0 <= i < |parts| :: Linearizable(KeyModel(), parts[i])
    ensures KeyLinearizable(ops, key)
  {
    hide Linearizable, SubHistory;
    if key in keys {
      var i :| 0 <= i < |keys| && keys[i] == key;
      assert Linearizable(KeyModel(), parts[i]);
    } else {
      assert !HasKey(ops, |ops|, key);
      NoKeyNoSubHistory(ops, |ops|, key);
      EmptyIsLinearizable();
    }
  }

  /** A part-by-part verdict is a verdict on the whole history. */
  lemma PartitionDecides(ops: seq<KvOperation>, parts: seq<seq<KvOperation>>, keys: seq<string>)
    requires CallsFirst(ops) && IsPartition(ops, parts, keys)
    ensures Linearizable(StoreModel(), ops) <==> forall i | 0 <= i < |parts| :: Linearizable(KeyModel(), parts[i])
  {
    hide Linearizable, SubHistory;
    Locality(ops);
    if forall i | 0 <= i < |parts| :: Linearizable(KeyModel(), parts[i]) {
      forall key ensures KeyLinearizable(ops, key) {
        PartOfKey(ops, parts, keys, key);
      }
    }
    if Linearizable(StoreModel(), ops) {
      forall i | 0 <= i < |parts| ensures Linearizable(KeyModel(), parts[i]) {
        assert KeyLinearizable(ops, keys[i]);
      }
    }
  }

  lemma EmptyIsLinearizable()
    ensures Linearizable(KeyModel(), [])
  {
    assert IsLinearization<string, KvInput, KvOutput>(KeyModel(), [], Ids(0), "", []);
  }
}
