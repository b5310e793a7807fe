/** The replicated key-value state machine of src/kvraft/server.go. */
module KvServer {
  import opened Counting
  import opened Histories
  import opened KvModel

  /** Op.Op: "APPEND", "PUT", "GET" or any other string. */
  datatype OpKind = APPEND | PUT | GET | OTHER

  /** `Unset` is Go's zero value "". */
  datatype Err = OK | ErrNoKey | Unset

  /** A client's last applied request and what it answered. */
  datatype Recent = Recent(reqId: int, result: string, err: Err)

  /** `hasChan`: a local client handler waits on ApplyChan. */
  datatype Op = Op(op: OpKind, key: string, value: string, clientId: int, reqId: int, hasChan: bool)

  datatype Option<T> = None | Some(value: T)

  /** The replicated state: what a snapshot saves. */
  datatype Kv = Kv(record: Store, history: map<int, Recent>)

  const EMPTY: Kv := Kv(map[], map[])

  // ---------------------------------------------------------------- specification of apply

  predicate UpToDate(kv: Kv, clientId: int, reqId: int) {
    clientId !in kv.history || reqId > kv.history[clientId].reqId
  }

  predicate Known(e: Op) {
    e.op != OTHER
  }

  /** The plain store: what the request does when nothing is ever repeated. */
  function Write(record: Store, e: Op): Store {
    match e.op
    case APPEND => record[e.key := Lookup(record, e.key) + e.value]
    case PUT => record[e.key := e.value]
    case GET => record
    case OTHER => record
  }

  function Answer(record: Store, e: Op): Recent {
    if e.op != GET then Recent(e.reqId, "", OK)
    else if e.key in record then Recent(e.reqId, record[e.key], OK)
    else Recent(e.reqId, "", ErrNoKey)
  }

  function Applied(kv: Kv, e: Op): Kv {
    if Known(e) && UpToDate(kv, e.clientId, e.reqId)
    then Kv(Write(kv.record, e), kv.history[e.clientId := Answer(kv.record, e)])
    else kv
  }

  /** The state after applying a whole log. */
  function Fold(kv: Kv, log: seq<Op>): Kv {
    if log == [] then kv else Applied(Fold(kv, log[..|log| - 1]), log[|log| - 1])
  }

  /** Reading Go's map: the zero value for an unknown client. */
  function Latest(kv: Kv, clientId: int): Recent {
    if clientId in kv.history then kv.history[clientId] else Recent(0, "", Unset)
  }

  predicate RepeatedGet(kv: Kv, e: Op) {
    e.op == GET && e.clientId in kv.history && e.reqId == kv.history[e.clientId].reqId
  }

  /** What goes into the entry's ApplyChan. A repeated GET with the same id is not answered here; any other
      outdated entry is answered with the client's latest record. */
  function Sent(kv: Kv, e: Op): Option<Recent> {
    if e.hasChan && !RepeatedGet(kv, e) then Some(Latest(Applied(kv, e), e.clientId)) else None
  }

  // ---------------------------------------------------------------- the server object

  class KVServer {
    var record: Store
    var history: map<int, Recent>

    ghost function State(): Kv
      reads this
    {
      Kv(record, history)
    }

    constructor ()
      ensures State() == EMPTY
    {
      record := map[];
      history := map[];
    }

    method IsUpToDate(clientId: int, reqId: int) returns (r: bool)
      ensures r == UpToDate(State(), clientId, reqId)
      ensures r <==> clientId in history ==> reqId > history[clientId].reqId
    {
      if clientId in history {
        return reqId > history[clientId].reqId;
      }
      return true;
    }

    /** `sent` is what goes into the entry's ApplyChan. */
    method Apply(entry: Op) returns (sent: Option<Recent>)
      modifies this
      ensures State() == Applied(old(State()), entry) && sent == Sent(old(State()), entry)
      // An entry with a new id: what it writes, what is recorded, and the answer.
      ensures Known(entry) && UpToDate(old(State()), entry.clientId, entry.reqId) ==>
        && history.Keys == old(history).Keys + {entry.clientId}
        && (forall c | c in old(history) && c != entry.clientId :: history[c] == old(history)[c])
        && history[entry.clientId] == Recent(entry.reqId,
             if entry.op == GET && entry.key in old(record) then old(record)[entry.key] else "",
             if entry.op == GET && entry.key !in old(record) then ErrNoKey else OK)
        && sent == if entry.hasChan then Some(history[entry.clientId]) else None
      ensures Known(entry) && UpToDate(old(State()), entry.clientId, entry.reqId) && entry.op != GET ==>
        && record.Keys == old(record).Keys + {entry.key}
        && (forall k | k in old(record) && k != entry.key :: record[k] == old(record)[k])
        && record[entry.key] == if entry.op == APPEND && entry.key in old(record) then old(record)[entry.key] + entry.value else entry.value
      ensures entry.op == GET ==> record == old(record)
      // An outdated entry changes nothing.
      ensures !UpToDate(old(State()), entry.clientId, entry.reqId) ==>
        && State() == old(State())
        && sent == if entry.hasChan && !(entry.op == GET && entry.reqId == old(history)[entry.clientId].reqId)
                   then Some(old(history)[entry.clientId]) else None
    {
      sent := None;
      var upToDate := IsUpToDate(entry.clientId, entry.reqId);
      if !upToDate {
        if entry.op == GET {
          var tmp := history[entry.clientId];
          if entry.reqId == tmp.reqId {
            return;
          }
        }
        if entry.hasChan {
          sent := Some(Latest(Kv(record, history), entry.clientId));
        }
        return;
      }
      match entry.op {
        case APPEND =>
          if entry.key !in record {
            record := record[entry.key := entry.value];
          } else {
            record := record[entry.key := record[entry.key] + entry.value];
          }
          history := history[entry.clientId := Recent(entry.reqId, "", OK)];
        case PUT =>
          record := record[entry.key := entry.value];
          history := history[entry.clientId := Recent(entry.reqId, "", OK)];
        case GET =>
          if entry.key in record {
            history := history[entry.clientId := Recent(entry.reqId, record[entry.key], OK)];
          } else {
            history := history[entry.clientId := Recent(entry.reqId, "", ErrNoKey)];
          }
        case OTHER =>
      }
      if entry.hasChan {
        sent := Some(Latest(Kv(record, history), entry.clientId));
      }
      assert "" + entry.value == entry.value;
    }

    /** The early return of `Get`: a request whose id is the client's latest is answered from `history`. */
    method CachedGet(clientId: int, reqId: int) returns (reply: Option<Recent>)
      ensures reply == CachedReply(State(), clientId, reqId)
      ensures reply.Some? <==> clientId in history && history[clientId].reqId == reqId
      ensures reply.Some? ==> reply.value == history[clientId]
    {
      var upToDate := IsUpToDate(clientId, reqId);
      if !upToDate {
        var tmp := history[clientId];
        if reqId == tmp.reqId {
          return Some(tmp);
        }
      }
      return None;
    }

    /** The apply loop's two kinds of message. Encoding and decoding are the identity here. */
    method HandleSnapshot(snapshot: Kv)
      modifies this
      ensures State() == snapshot
    {
      record := snapshot.record;
      history := snapshot.history;
    }

    method HandleLog(entries: seq<Op>)
      modifies this
      ensures State() == Fold(old(State()), entries)
    {
      var i := 0;
      while i < |entries|
        invariant 0 <= i <= |entries|
        invariant State() == Fold(old(State()), entries[..i])
      {
        assert entries[..i + 1][..i] == entries[..i];
        var _ := Apply(entries[i]);
        i := i + 1;
      }
      assert entries[..i] == entries;
    }
  }

  function CachedReply(kv: Kv, clientId: int, reqId: int): Option<Recent> {
    if clientId in kv.history && kv.history[clientId].reqId == reqId then Some(kv.history[clientId]) else None
  }

  // ---------------------------------------------------------------- exactly once

  /** Entry `i` of the log is a request with an id above all earlier ones of the same client. */
  ghost predicate Effective(log: seq<Op>, i: nat)
    requires i < |log|
  {
    && Known(log[i])
    && (forall j | 0 <= j < i && Known(log[j]) && log[j].clientId == log[i].clientId :: log[j].reqId < log[i].reqId)
  }

  lemma EffectivePrefix(log: seq<Op>, k: nat, i: nat)
    requires i < k <= |log|
    ensures Effective(log[..k], i) <==> Effective(log, i)
  {}

  ghost function EffectiveEntries(log: seq<Op>): seq<Op> {
    if log == [] then []
    else EffectiveEntries(log[..|log| - 1]) + if Effective(log, |log| - 1) then [log[|log| - 1]] else []
  }

  /** No bookkeeping: just do the requests. */
  ghost function PlainFold(record: Store, entries: seq<Op>): Store {
    if entries == [] then record else Write(PlainFold(record, entries[..|entries| - 1]), entries[|entries| - 1])
  }

  /** `history` knows exactly the clients of the log, each with its largest request id. */
  ghost predicate HoldsMaxima(history: map<int, Recent>, log: seq<Op>) {
    && (forall i | 0 <= i < |log| && Known(log[i]) ::
          log[i].clientId in history && log[i].reqId <= history[log[i].clientId].reqId)
    && (forall c | c in history :: Attained(history, log, c))
  }

  ghost predicate Attained(history: map<int, Recent>, log: seq<Op>, c: int)
    requires c in history
  {
    exists i :: 0 <= i < |log| && Known(log[i]) && log[i].clientId == c && log[i].reqId == history[c].reqId
  }

  lemma UpToDateIsEffective(kv: Kv, log: seq<Op>)
    requires log != [] && HoldsMaxima(kv.history, log[..|log| - 1]) && Known(log[|log| - 1])
    ensures UpToDate(kv, log[|log| - 1].clientId, log[|log| - 1].reqId) <==> Effective(log, |log| - 1)
  {}

  lemma MaximaStep(kv: Kv, log: seq<Op>)
    requires log != [] && HoldsMaxima(kv.history, log[..|log| - 1])
    ensures HoldsMaxima(Applied(kv, log[|log| - 1]).history, log)
  {}

  lemma {:induction false} HistoryHoldsMaxima(log: seq<Op>)
    ensures HoldsMaxima(Fold(EMPTY, log).history, log)
  {
    if log != [] {
      HistoryHoldsMaxima(log[..|log| - 1]);
      MaximaStep(Fold(EMPTY, log[..|log| - 1]), log);
    }
  }

  /** One more entry: it is written through exactly when it is effective. */
  lemma RecordStep(kv: Kv, log: seq<Op>)
    requires log != [] && HoldsMaxima(kv.history, log[..|log| - 1])
    ensures Applied(kv, log[|log| - 1]).record
         == if Effective(log, |log| - 1) then Write(kv.record, log[|log| - 1]) else kv.record
  {
    if Known(log[|log| - 1]) {
      UpToDateIsEffective(kv, log);
    }
  }

  /** And the plain fold over the effective entries makes the same step. */
  lemma PlainFoldStep(record: Store, log: seq<Op>)
    requires log != []
    ensures PlainFold(record, EffectiveEntries(log))
         == var before := PlainFold(record, EffectiveEntries(log[..|log| - 1]));
            if Effective(log, |log| - 1) then Write(before, log[|log| - 1]) else before
  {
    hide Effective, Write;
    var eff := EffectiveEntries(log[..|log| - 1]);
    var longer := eff + [log[|log| - 1]];
    assert longer[..|eff|] == eff;
    assert EffectiveEntries(log) == if Effective(log, |log| - 1) then longer else eff;
  }

  /** Retried, duplicated and stale entries have no effect: the store is the plain fold over the
      effective entries only. */
  lemma {:induction false} ExactlyOnce(log: seq<Op>)
    ensures Fold(EMPTY, log).record == PlainFold(map[], EffectiveEntries(log))
  {
    hide Applied, HoldsMaxima, Effective, Write;
    if log != [] {
      var init := log[..|log| - 1];
      ExactlyOnce(init);
      HistoryHoldsMaxima(init);
      RecordStep(Fold(EMPTY, init), log);
      hide EffectiveEntries, PlainFold;
      PlainFoldStep(map[], log);
    }
  }

  /** A request that is turned away as outdated (PutAppend answers OK at once) is covered: the same client
      has an applied entry with this id or a larger one. */
  lemma OutdatedMeansApplied(log: seq<Op>, clientId: int, reqId: int) returns (i: nat)
    requires !UpToDate(Fold(EMPTY, log), clientId, reqId)
    ensures i < |log| && Known(log[i]) && log[i].clientId == clientId && log[i].reqId >= reqId
  {
    HistoryHoldsMaxima(log);
    var history := Fold(EMPTY, log).history;
    assert Attained(history, log, clientId);
    i :| 0 <= i < |log| && Known(log[i]) && log[i].clientId == clientId && log[i].reqId == history[clientId].reqId;
  }

  // ---------------------------------------------------------------- replay after a snapshot

  lemma {:induction false} FoldConcat(kv: Kv, a: seq<Op>, b: seq<Op>)
    ensures Fold(kv, a + b) == Fold(Fold(kv, a), b)
    decreases |b|
  {
    if b == [] {
      assert a + b == a;
    } else {
      FoldConcat(kv, a, b[..|b| - 1]);
      assert (a + b)[..|a + b| - 1] == a + b[..|b| - 1];
    }
  }

  /** Entries that the history already covers change nothing. */
  lemma {:induction false} CoveredEntriesAreIgnored(kv: Kv, log: seq<Op>, part: seq<Op>)
    requires HoldsMaxima(kv.history, log) && forall i | 0 <= i < |part| :: part[i] in log
    ensures Fold(kv, part) == kv
  {
    if part != [] {
      CoveredEntriesAreIgnored(kv, log, part[..|part| - 1]);
      assert part[|part| - 1] in log;
    }
  }

  /** Restoring the state of the first `k` entries and applying the log again from any earlier point
      ends in the same state as applying the whole log once. */
  lemma OverlappingReplay(log: seq<Op>, j: nat, k: nat)
    requires j <= k <= |log|
    ensures Fold(Fold(EMPTY, log[..k]), log[j..]) == Fold(EMPTY, log)
    ensures Fold(Fold(EMPTY, log[..k]), log[j..k]) == Fold(EMPTY, log[..k])
  {
    hide HoldsMaxima, Fold;
    var snapshot := Fold(EMPTY, log[..k]);
    HistoryHoldsMaxima(log[..k]);
    assert forall i | 0 <= i < k - j :: log[j..k][i] == log[..k][j + i];
    CoveredEntriesAreIgnored(snapshot, log[..k], log[j..k]);
    assert log[j..] == log[j..k] + log[k..];
    FoldConcat(snapshot, log[j..k], log[k..]);
    assert log == log[..k] + log[k..];
    FoldConcat(EMPTY, log[..k], log[k..]);
  }

  // ---------------------------------------------------------------- refinement of the checker's model

  /** The request as src/kvraft/test_test.go hands it to the checker. */
  function InputOf(e: Op): KvInput {
    KvInput(match e.op { case GET => 0 case PUT => 1 case _ => 2 }, e.key, e.value)
  }

  /** What the client sees: the value, or "" for a missing key. */
  function ClientView(r: Recent): KvOutput {
    KvOutput(if r.err == OK then r.result else "")
  }

  /** What `history` records for entry `i` when it is applied. */
  ghost function Recorded(log: seq<Op>, i: nat): Recent
    requires i < |log|
  {
    Answer(Fold(EMPTY, log[..i]).record, log[i])
  }

  /** The effective entries with their recorded results, in log order. */
  ghost function Trace(log: seq<Op>): seq<(KvInput, KvOutput)> {
    if log == [] then []
    else
      var n := |log| - 1;
      Trace(log[..n]) + if Effective(log, n) then [(InputOf(log[n]), ClientView(Recorded(log, n)))] else []
  }

  ghost function OnKey(trace: seq<(KvInput, KvOutput)>, key: string): seq<(KvInput, KvOutput)> {
    if trace == [] then []
    else
      var n := |trace| - 1;
      OnKey(trace[..n], key) + if trace[n].0.key == key then [trace[n]] else []
  }

  /** The value after stepping KvModel through `trace` from "", if every step is accepted. */
  ghost function Checked(trace: seq<(KvInput, KvOutput)>): Option<string> {
    if trace == [] then Some("")
    else
      var n := |trace| - 1;
      var before := Checked(trace[..n]);
      if before.None? || !Step(before.value, trace[n].0, trace[n].1).0 then None
      else Some(Step(before.value, trace[n].0, trace[n].1).1)
  }

  lemma AnswerIsAccepted(record: Store, e: Op, key: string)
    requires Known(e)
    ensures var out := ClientView(Answer(record, e));
      && (e.key == key ==> Step(Lookup(record, key), InputOf(e), out) == (true, Lookup(Write(record, e), key)))
      && (e.key != key ==> Lookup(Write(record, e), key) == Lookup(record, key))
  {}

  /** The same requests, with answers of their own. */
  ghost predicate SameRequests(a: seq<(KvInput, KvOutput)>, b: seq<(KvInput, KvOutput)>) {
    |a| == |b| && forall k | 0 <= k < |a| :: a[k].0 == b[k].0
  }

  ghost predicate SameGets(a: seq<(KvInput, KvOutput)>, b: seq<(KvInput, KvOutput)>, key: string)
    requires |a| == |b|
  {
    forall k | 0 <= k < |a| && a[k].0.key == key && a[k].0.op == 0 :: a[k].1 == b[k].1
  }

  lemma CheckedSnoc(trace: seq<(KvInput, KvOutput)>, x: (KvInput, KvOutput), key: string)
    ensures var before := Checked(OnKey(trace, key));
      Checked(OnKey(trace + [x], key)) == if x.0.key != key then before
        else if before.None? || !Step(before.value, x.0, x.1).0 then None
        else Some(Step(before.value, x.0, x.1).1)
  {
    assert (trace + [x])[..|trace|] == trace;
    var sub := OnKey(trace, key);
    assert (sub + [x])[..|sub|] == sub;
    assert x.0.key != key ==> OnKey(trace + [x], key) == sub;
    hide Step;
  }

  /** One effective entry more, answered with `out`: accepted exactly if it is no get of the key or answered as
      recorded. */
  lemma EntryChecked(record: Store, e: Op, key: string, trace: seq<(KvInput, KvOutput)>, out: KvOutput)
    requires Known(e)
    ensures var before, after := Checked(OnKey(trace, key)), Checked(OnKey(trace + [(InputOf(e), out)], key));
      && (before.None? ==> after.None?)
      && (before == Some(Lookup(record, key)) ==>
            after == if e.op == GET && e.key == key && out != ClientView(Answer(record, e)) then None
                     else Some(Lookup(Write(record, e), key)))
  {
    AnswerIsAccepted(record, e, key);
    hide Checked, OnKey;
    CheckedSnoc(trace, (InputOf(e), out), key);
  }

  lemma TraceStep(log: seq<Op>)
    requires log != []
    ensures var n := |log| - 1;
      Trace(log) == if Effective(log, n) then Trace(log[..n]) + [(InputOf(log[n]), ClientView(Recorded(log, n)))] else Trace(log[..n])
  {
    hide Effective;
  }

  lemma SameGetsSnoc(a: seq<(KvInput, KvOutput)>, b: seq<(KvInput, KvOutput)>, x: (KvInput, KvOutput), y: (KvInput, KvOutput), key: string)
    requires SameRequests(a, b) && x.0 == y.0
    ensures SameRequests(a + [x], b + [y])
    ensures SameGets(a + [x], b + [y], key) <==> SameGets(a, b, key) && (x.0.key == key && x.0.op == 0 ==> x.1 == y.1)
  {
    var a', b' := a + [x], b + [y];
    assert a'[|a|] == x && b'[|a|] == y;
    assert forall k | 0 <= k < |a| :: a'[k] == a[k] && b'[k] == b[k];
    if SameGets(a', b', key) {
      forall k | 0 <= k < |a| && a[k].0.key == key && a[k].0.op == 0 ensures a[k].1 == b[k].1 {
        assert a'[k].1 == b'[k].1;
      }
    }
  }

  /** For every log and key, whatever answers the clients report: the checker's model accepts the effective
      requests exactly when every get of the key reports the recorded result, and then it ends in the value
      the server stores. */
  lemma {:induction false} AnswersAcceptedIff(log: seq<Op>, key: string, told: seq<(KvInput, KvOutput)>)
    requires SameRequests(told, Trace(log))
    ensures Checked(OnKey(told, key))
         == if SameGets(told, Trace(log), key) then Some(Lookup(Fold(EMPTY, log).record, key)) else None
  {
    if log != [] {
      var n := |log| - 1;
      var kv := Fold(EMPTY, log[..n]);
      HistoryHoldsMaxima(log[..n]);
      TraceStep(log);
      RecordStep(kv, log);
      assert Fold(EMPTY, log) == Applied(kv, log[n]);
      if Effective(log, n) {
        assert Known(log[n]);
        var before, x := Trace(log[..n]), (InputOf(log[n]), ClientView(Recorded(log, n)));
        var t, y := told[..|told| - 1], told[|told| - 1];
        assert told == t + [y] && y.0 == x.0;
        assert SameRequests(t, before);
        assert Recorded(log, n) == Answer(kv.record, log[n]);
        hide Fold, Trace, Checked, OnKey, Effective, HoldsMaxima, Applied, Write, Answer, SameRequests, SameGets;
        AnswersAcceptedIff(log[..n], key, t);
        EntryChecked(kv.record, log[n], key, t, y.1);
        SameGetsSnoc(t, before, y, x, key);
      } else {
        hide Fold, Trace, Checked, OnKey, Effective, HoldsMaxima, Applied, Write;
        AnswersAcceptedIff(log[..n], key, told);
      }
    }
  }

  /** In particular it accepts what the server recorded. */
  lemma RefinesKvModel(log: seq<Op>, key: string)
    ensures Checked(OnKey(Trace(log), key)) == Some(Lookup(Fold(EMPTY, log).record, key))
  {
    hide Fold, Trace, Checked, OnKey;
    AnswersAcceptedIff(log, key, Trace(log));
  }

  /** Any later reply served from `history` is the result recorded for the entry with that id. */
  lemma {:induction false} CachedReplyIsRecorded(log: seq<Op>, clientId: int, reqId: int) returns (i: nat)
    requires CachedReply(Fold(EMPTY, log), clientId, reqId).Some?
    ensures i < |log| && Effective(log, i) && log[i].clientId == clientId && log[i].reqId == reqId
    ensures CachedReply(Fold(EMPTY, log), clientId, reqId) == Some(Recorded(log, i))
    ensures log[i].op == GET ==> ClientView(Recorded(log, i)).value == Lookup(Fold(EMPTY, log[..i]).record, log[i].key)
  {
    var n := |log| - 1;
    var init, e := log[..n], log[n];
    HistoryHoldsMaxima(init);
    if Known(e) && UpToDate(Fold(EMPTY, init), e.clientId, e.reqId) && e.clientId == clientId {
      UpToDateIsEffective(Fold(EMPTY, init), log);
      i := n;
    } else {
      i := CachedReplyIsRecorded(init, clientId, reqId);
      EffectivePrefix(log, n, i);
      assert init[..i] == log[..i];
    }
  }

  // ---------------------------------------------------------------- what a client is told

  /** What a waiting handler is sent for an effective entry is what is recorded for it: the value of the key
      before the entry, for a GET. */
  lemma SentIsRecorded(log: seq<Op>, i: nat)
    requires i < |log| && Effective(log, i) && log[i].hasChan
    ensures Sent(Fold(EMPTY, log[..i]), log[i]) == Some(Recorded(log, i))
    ensures var record := Fold(EMPTY, log[..i]).record;
      Recorded(log, i) == Recent(log[i].reqId,
        if log[i].op == GET && log[i].key in record then record[log[i].key] else "",
        if log[i].op == GET && log[i].key !in record then ErrNoKey else OK)
  {
    HistoryHoldsMaxima(log[..i]);
    var upTo := log[..i + 1];
    assert upTo[..|upTo| - 1] == log[..i] && upTo[|upTo| - 1] == log[i];
    EffectivePrefix(log, i + 1, i);
    hide Effective, HoldsMaxima, Fold;
    UpToDateIsEffective(Fold(EMPTY, log[..i]), upTo);
  }

  /** Effective entries of one client have different ids. */
  lemma EffectiveIsUnique(log: seq<Op>, i: nat, j: nat)
    requires i < |log| && j < |log| && Effective(log, i) && Effective(log, j)
    requires log[i].clientId == log[j].clientId && log[i].reqId == log[j].reqId
    ensures i == j
  {}

  /** The ways in which the request of entry `i` is answered with `out`: by the channel, by a later cached reply,
      or, for a write, without a value. */
  ghost predicate AnsweredWith(log: seq<Op>, i: nat, out: KvOutput)
    requires i < |log|
  {
    || (exists r :: Sent(Fold(EMPTY, log[..i]), log[i]) == Some(r) && out == ClientView(r))
    || (exists n, r :: i < n <= |log| && CachedReply(Fold(EMPTY, log[..n]), log[i].clientId, log[i].reqId) == Some(r)
                       && out == ClientView(r))
    || (log[i].op != GET && out == KvOutput(""))
  }

  /** However it is answered, the client sees the recorded result. */
  lemma AnswersAreRecorded(log: seq<Op>, i: nat, out: KvOutput)
    requires i < |log| && Effective(log, i) && AnsweredWith(log, i, out)
    ensures out == ClientView(Recorded(log, i))
  {
    if r :| Sent(Fold(EMPTY, log[..i]), log[i]) == Some(r) && out == ClientView(r) {
      SentIsRecorded(log, i);
    } else if n, r :| i < n <= |log| && CachedReply(Fold(EMPTY, log[..n]), log[i].clientId, log[i].reqId) == Some(r)
                      && out == ClientView(r) {
      CachedIsRecorded(log, i, n);
    }
  }

  lemma CachedIsRecorded(log: seq<Op>, i: nat, n: nat)
    requires i < n <= |log| && Effective(log, i)
    requires CachedReply(Fold(EMPTY, log[..n]), log[i].clientId, log[i].reqId).Some?
    ensures CachedReply(Fold(EMPTY, log[..n]), log[i].clientId, log[i].reqId) == Some(Recorded(log, i))
  {
    hide Fold, Effective, CachedReply;
    var j := CachedReplyIsRecorded(log[..n], log[i].clientId, log[i].reqId);
    EffectivePrefix(log, n, i);
    EffectiveIsUnique(log[..n], i, j);
    assert log[..n][..i] == log[..i];
  }

  /** The positions of the effective entries, in log order. */
  ghost function EffectiveIndices(log: seq<Op>): (r: seq<nat>)
    ensures forall k | 0 <= k < |r| :: r[k] < |log|
  {
    if log == [] then []
    else EffectiveIndices(log[..|log| - 1]) + if Effective(log, |log| - 1) then [|log| - 1] else []
  }

  lemma {:induction false} TraceAt(log: seq<Op>, k: nat)
    requires k < |EffectiveIndices(log)|
    ensures |Trace(log)| == |EffectiveIndices(log)|
    ensures var i := EffectiveIndices(log)[k];
      Effective(log, i) && Trace(log)[k] == (InputOf(log[i]), ClientView(Recorded(log, i)))
  {
    var n := |log| - 1;
    var before := EffectiveIndices(log[..n]);
    TraceLength(log[..n]);
    hide Fold, Effective;
    if k < |before| {
      TraceAt(log[..n], k);
      EffectivePrefix(log, n, before[k]);
      assert log[..n][..before[k]] == log[..before[k]];
    }
  }

  lemma {:induction false} TraceLength(log: seq<Op>)
    ensures |Trace(log)| == |EffectiveIndices(log)|
  {
    if log != [] {
      TraceLength(log[..|log| - 1]);
    }
  }

  // ---------------------------------------------------------------- the service is linearizable

  /** The store model's state after `trace`. */
  ghost function StoreAfter(trace: seq<(KvInput, KvOutput)>): Store {
    if trace == [] then map[]
    else
      var n := |trace| - 1;
      StoreStep(StoreAfter(trace[..n]), trace[n].0, trace[n].1).1
  }

  ghost predicate StoreAllows(trace: seq<(KvInput, KvOutput)>, k: nat)
    requires k < |trace|
  {
    StoreStep(StoreAfter(trace[..k]), trace[k].0, trace[k].1).0
  }

  ghost predicate SameValues(a: Store, b: Store) {
    forall key :: Lookup(a, key) == Lookup(b, key)
  }

  lemma SameValuesStep(a: Store, record: Store, e: Op)
    requires SameValues(a, record) && Known(e)
    ensures var (ok, a') := StoreStep(a, InputOf(e), ClientView(Answer(record, e)));
      ok && SameValues(a', Write(record, e))
  {
    forall key ensures Lookup(StoreStep(a, InputOf(e), ClientView(Answer(record, e))).1, key) == Lookup(Write(record, e), key) {
      AnswerIsAccepted(record, e, key);
      AnswerIsAccepted(record, e, e.key);
    }
    AnswerIsAccepted(record, e, e.key);
  }

  lemma {:induction false} StoreAcceptsTrace(log: seq<Op>)
    ensures forall k | 0 <= k < |Trace(log)| :: StoreAllows(Trace(log), k)
    ensures SameValues(StoreAfter(Trace(log)), Fold(EMPTY, log).record)
  {
    if log != [] {
      var n := |log| - 1;
      StoreAcceptsTrace(log[..n]);
      HistoryHoldsMaxima(log[..n]);
      if Known(log[n]) {
        UpToDateIsEffective(Fold(EMPTY, log[..n]), log);
      }
      if Effective(log, n) {
        var before, x := Trace(log[..n]), (InputOf(log[n]), ClientView(Recorded(log, n)));
        assert Trace(log) == before + [x];
        SameValuesStep(StoreAfter(before), Fold(EMPTY, log[..n]).record, log[n]);
        hide SameValues, Effective, HoldsMaxima, Trace, StoreStep, Fold, Applied;
        AllowsSnoc(before, x);
      } else {
        assert Trace(log) == Trace(log[..n]);
      }
    }
  }

  lemma AllowsSnoc(trace: seq<(KvInput, KvOutput)>, x: (KvInput, KvOutput))
    requires forall k | 0 <= k < |trace| :: StoreAllows(trace, k)
    requires StoreStep(StoreAfter(trace), x.0, x.1).0
    ensures StoreAfter(trace + [x]) == StoreStep(StoreAfter(trace), x.0, x.1).1
    ensures forall k | 0 <= k < |trace + [x]| :: StoreAllows(trace + [x], k)
  {
    hide StoreStep;
    var longer := trace + [x];
    assert longer[..|trace|] == trace;
    forall k | 0 <= k < |longer| ensures StoreAllows(longer, k) {
      if k < |trace| {
        assert StoreAllows(trace, k);
        assert longer[..k] == trace[..k];
      }
    }
  }

  /** Client operations answered from the log: operation `k` is the `k`-th effective entry, answered in one of
      the ways there are, and `added[k]` is when that entry came into the log. It is added after the call, and
      an answer comes after its own and all earlier entries were added. */
  ghost predicate ServedBy(log: seq<Op>, ops: seq<KvOperation>, added: seq<int>) {
    && |ops| == |added| == |EffectiveIndices(log)|
    && (forall k | 0 <= k < |ops| :: Serves(log, EffectiveIndices(log)[k], ops[k]))
    && (forall i | 0 <= i < |ops| :: ops[i].call <= added[i])
    && (forall i, j | 0 <= i <= j < |ops| :: added[i] <= ops[j].ret)
  }

  ghost predicate Serves(log: seq<Op>, i: nat, op: KvOperation)
    requires i < |log|
  {
    op.input == InputOf(log[i]) && AnsweredWith(log, i, op.output)
  }

  /** What clients are told is the trace of the log. */
  lemma ServedIsTrace(log: seq<Op>, ops: seq<KvOperation>, added: seq<int>, k: nat)
    requires ServedBy(log, ops, added) && k < |ops|
    ensures |Trace(log)| == |ops| && (ops[k].input, ops[k].output) == Trace(log)[k]
  {
    var i := EffectiveIndices(log)[k];
    assert Serves(log, i, ops[k]);
    hide Trace, EffectiveIndices, Effective, AnsweredWith, Recorded;
    TraceAt(log, k);
    AnswersAreRecorded(log, i, ops[k].output);
  }

  ghost function LogOrder(n: nat): (order: seq<nat>)
    ensures |order| == n && forall i | 0 <= i < n :: order[i] == i
  {
    seq(n, i => i)
  }

  lemma {:induction false} LogOrderAccepted(trace: seq<(KvInput, KvOutput)>, ops: seq<KvOperation>, k: nat)
    requires k <= |ops| == |trace| && forall i | 0 <= i < |ops| :: (ops[i].input, ops[i].output) == trace[i]
    requires forall i | 0 <= i < |trace| :: StoreAllows(trace, i)
    ensures Accepts(StoreModel(), ops, StoreAfter(trace[..k]), LogOrder(|ops|)[k..])
    decreases |ops| - k
  {
    var order := LogOrder(|ops|);
    if k < |ops| {
      LogOrderAccepted(trace, ops, k + 1);
      assert StoreAllows(trace, k);
      assert trace[..k + 1][..k] == trace[..k];
      hide StoreStep;
      assert order[k..][0] == k && order[k..][1..] == order[k + 1..];
    }
  }

  /** Operations answered from the log are linearizable as soon as real time allows the log order. */
  lemma LogOrderLinearizes(log: seq<Op>, ops: seq<KvOperation>)
    requires |ops| == |Trace(log)| && forall i | 0 <= i < |ops| :: (ops[i].input, ops[i].output) == Trace(log)[i]
    requires forall i, j | 0 <= i < j < |ops| :: !Precedes(ops[j], ops[i])
    ensures Linearizable(StoreModel(), ops)
  {
    hide Trace;
    StoreAcceptsTrace(log);
    LogOrderAccepted(Trace(log), ops, 0);
    var order := LogOrder(|ops|);
    assert order[0..] == order && Trace(log)[..0] == [];
    assert StoreAfter([]) == StoreModel().init;
    hide StoreAllows, StoreAfter, Accepts, SameValues, Precedes;
    forall x | x in Ids(|ops|) ensures x in order {
      assert order[x] == x;
    }
    assert IsLinearization(StoreModel(), ops, Ids(|ops|), StoreModel().init, order);
  }

  /** What clients of the replicated log observe is linearizable. */
  lemma ServiceIsLinearizable(log: seq<Op>, ops: seq<KvOperation>, added: seq<int>)
    requires ServedBy(log, ops, added)
    ensures Linearizable(StoreModel(), ops)
  {
    hide Trace, Linearizable, EffectiveIndices, Serves;
    TraceLength(log);
    forall k | 0 <= k < |ops| ensures (ops[k].input, ops[k].output) == Trace(log)[k] {
      ServedIsTrace(log, ops, added, k);
    }
    forall i, j | 0 <= i < j < |ops| ensures !Precedes(ops[j], ops[i]) {
      assert ops[i].call <= added[i] <= ops[j].ret;
    }
    LogOrderLinearizes(log, ops);
  }
}
