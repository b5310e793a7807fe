/** The partition workers and the collecting loop as a state machine
    (src/linearizability/linearizability.go:177-179, 235-270), timeout 0.

    `linearizable[i]` tells whether the list of partition `i` is linearizable. The result channel is
    unbuffered: a decided worker waits until the collector receives from it. */
module Collector {
  import opened Histories

  /** `killed` is what the worker's search found when it last read the flag. */
  datatype Worker = Running(killed: bool) | Decided(verdict: bool) | Delivered

  datatype State = State(workers: seq<Worker>, kill: bool, ok: bool, count: nat, done: bool)

  function Start(n: nat): State {
    State(seq(n, _ => Running(false)), false, true, 0, false)
  }

  /** A worker's search reads the flag. */
  ghost predicate Poll(s: State, s': State, i: nat) {
    && i < |s.workers| && s.workers[i].Running?
    && s' == s.(workers := s.workers[i := Running(s.kill)])
  }

  /** A worker finishes with a verdict that its search may give after what it has read. */
  ghost predicate Decide(linearizable: seq<bool>, s: State, s': State, i: nat, v: bool) {
    && |s.workers| == |linearizable|
    && i < |s.workers| && s.workers[i].Running?
    && Justified(v, linearizable[i], s.workers[i].killed)
    && s' == s.(workers := s.workers[i := Decided(v)])
  }

  /** The collector receives a result. */
  ghost predicate Receive(s: State, s': State, i: nat) {
    && !s.done && i < |s.workers| && s.workers[i].Decided?
    && var ok := s.ok && s.workers[i].verdict;
       var workers := s.workers[i := Delivered];
       if !ok then s' == State(workers, true, false, s.count, true)
       else s' == State(workers, s.kill, true, s.count + 1, s.count + 1 >= |workers|)
  }

  ghost predicate Next(linearizable: seq<bool>, s: State, s': State) {
    || (exists i :: Poll(s, s', i))
    || (exists i, v :: Decide(linearizable, s, s', i, v))
    || (exists i :: Receive(s, s', i))
  }

  /** Any interleaving whatsoever. */
  ghost predicate IsRun(linearizable: seq<bool>, run: seq<State>) {
    && run != [] && run[0] == Start(|linearizable|)
    && (forall k | 0 <= k < |run| - 1 :: Next(linearizable, run[k], run[k + 1]))
  }

  function DeliveredCount(ws: seq<Worker>): nat {
    if ws == [] then 0 else DeliveredCount(ws[..|ws| - 1]) + if ws[|ws| - 1] == Delivered then 1 else 0
  }

  lemma {:induction false} CountUpdate(ws: seq<Worker>, i: nat, w: Worker)
    requires i < |ws| && ws[i] != Delivered
    ensures DeliveredCount(ws[i := w]) == DeliveredCount(ws) + if w == Delivered then 1 else 0
  {
    var ws' := ws[i := w];
    var last := |ws| - 1;
    if i < last {
      CountUpdate(ws[..last], i, w);
      assert ws'[..last] == ws[..last][i := w];
    } else {
      assert ws'[..last] == ws[..last];
    }
  }

  lemma {:induction false} CountBound(ws: seq<Worker>)
    ensures DeliveredCount(ws) <= |ws|
    ensures DeliveredCount(ws) == |ws| <==> forall i | 0 <= i < |ws| :: ws[i] == Delivered
  {
    if ws != [] {
      CountBound(ws[..|ws| - 1]);
    }
  }

  lemma {:induction false} CountAtStart(n: nat)
    ensures DeliveredCount(Start(n).workers) == 0
  {
    if n > 0 {
      CountAtStart(n - 1);
      assert Start(n).workers[..n - 1] == Start(n - 1).workers;
    }
  }

  ghost predicate SomeFalse(linearizable: seq<bool>) {
    exists i :: 0 <= i < |linearizable| && !linearizable[i]
  }

  /** What every step keeps: while no false verdict has arrived, the flag is unset and was never read as
      set, every decided verdict is right for its partition, and everything delivered was true. */
  ghost predicate Inv(linearizable: seq<bool>, s: State) {
    && |s.workers| == |linearizable|
    && (s.kill <==> !s.ok)
    && (!s.ok ==> s.done && SomeFalse(linearizable))
    && (s.ok ==>
          && s.count == DeliveredCount(s.workers)
          && (s.done ==> s.count >= |s.workers|)
          && (forall i | 0 <= i < |s.workers| ::
                && (s.workers[i].Running? ==> !s.workers[i].killed)
                && (s.workers[i].Decided? ==> s.workers[i].verdict == linearizable[i])
                && (s.workers[i] == Delivered ==> linearizable[i])))
  }

  lemma InvStart(linearizable: seq<bool>)
    ensures Inv(linearizable, Start(|linearizable|))
  {
    CountAtStart(|linearizable|);
  }

  lemma InvNext(linearizable: seq<bool>, s: State, s': State)
    requires Inv(linearizable, s) && Next(linearizable, s, s')
    ensures Inv(linearizable, s')
  {
    if i :| Poll(s, s', i) {
      CountUpdate(s.workers, i, Running(s.kill));
    } else if i, v :| Decide(linearizable, s, s', i, v) {
      CountUpdate(s.workers, i, Decided(v));
    } else {
      var i :| Receive(s, s', i);
      CountUpdate(s.workers, i, Delivered);
    }
  }

  lemma {:induction false} InvRun(linearizable: seq<bool>, run: seq<State>, k: nat)
    requires IsRun(linearizable, run) && k < |run|
    ensures Inv(linearizable, run[k])
  {
    if k == 0 {
      InvStart(linearizable);
    } else {
      InvRun(linearizable, run, k - 1);
      InvNext(linearizable, run[k - 1], run[k]);
    }
  }

  /** For every interleaving: when the loop ends it reports the conjunction of the right verdicts,
      and the flag is only ever set after a partition that really is not linearizable. */
  lemma VerdictIsConjunction(linearizable: seq<bool>, run: seq<State>, k: nat)
    requires IsRun(linearizable, run) && k < |run|
    ensures run[k].done ==> (run[k].ok <==> forall i | 0 <= i < |linearizable| :: linearizable[i])
    ensures run[k].kill ==> SomeFalse(linearizable)
  {
    InvRun(linearizable, run, k);
    CountBound(run[k].workers);
  }

  /** Until the loop ends some worker has not been heard: it is still searching or its result can be
      received right away. */
  lemma NeverStuck(linearizable: seq<bool>, run: seq<State>, k: nat)
    requires IsRun(linearizable, run) && k < |run| && !run[k].done && |linearizable| > 0
    ensures (exists i :: 0 <= i < |run[k].workers| && run[k].workers[i].Running?) || (exists i, s' :: Receive(run[k], s', i))
  {
    InvRun(linearizable, run, k);
    NotAllDelivered(linearizable, run, k);
    CountBound(run[k].workers);
    var s := run[k];
    var i :| 0 <= i < |s.workers| && s.workers[i] != Delivered;
    if s.workers[i].Decided? {
      var ok := s.ok && s.workers[i].verdict;
      var workers := s.workers[i := Delivered];
      var s' := if !ok then State(workers, true, false, s.count, true)
                else State(workers, s.kill, true, s.count + 1, s.count + 1 >= |workers|);
      assert Receive(s, s', i);
    }
  }

  lemma {:induction false} NotAllDelivered(linearizable: seq<bool>, run: seq<State>, k: nat)
    requires IsRun(linearizable, run) && k < |run| && !run[k].done && |linearizable| > 0
    ensures DeliveredCount(run[k].workers) < |run[k].workers|
  {
    if k == 0 {
      CountAtStart(|linearizable|);
    } else {
      var s, s' := run[k - 1], run[k];
      InvRun(linearizable, run, k);
      InvRun(linearizable, run, k - 1);
      assert Next(linearizable, s, s');
      if i :| Poll(s, s', i) {
        NotAllDelivered(linearizable, run, k - 1);
        CountUpdate(s.workers, i, Running(s.kill));
      } else if i, v :| Decide(linearizable, s, s', i, v) {
        NotAllDelivered(linearizable, run, k - 1);
        CountUpdate(s.workers, i, Decided(v));
      } else {
        var i :| Receive(s, s', i);
      }
    }
  }

  /** With no partitions at all no step is possible and the loop never ends. */
  lemma BlocksWithoutPartitions(s: State)
    ensures !Start(0).done && !Next([], Start(0), s)
  {}
}
