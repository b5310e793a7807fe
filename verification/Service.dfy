/** The two halves of the repository together: the checker of src/linearizability run on what the
    service of src/kvraft lets its clients observe (as src/kvraft/test_test.go does). */
module Service {
  import opened CheckOperations
  import opened Entries
  import opened Histories
  import opened KvModel
  import opened KvServer

  /** No answer comes at the very instant at which an earlier entry is added. */
  ghost predicate AnsweredLater(ops: seq<KvOperation>, added: seq<int>)
    requires |ops| == |added|
  {
    forall i, j | 0 <= i < j < |ops| :: added[i] < ops[j].ret
  }

  /** Then the observed history stays linearizable under the stricter reading of equal times. */
  lemma EagerServiceIsLinearizable(log: seq<Op>, ops: seq<KvOperation>, added: seq<int>)
    requires ServedBy(log, ops, added) && AnsweredLater(ops, added)
    ensures Linearizable(StoreModel(), Eager(ops))
  {
    hide Trace, Linearizable, EffectiveIndices, Serves;
    TraceLength(log);
    forall k | 0 <= k < |ops| ensures (ops[k].input, ops[k].output) == Trace(log)[k] {
      ServedIsTrace(log, ops, added, k);
    }
    forall i, j | 0 <= i < j < |ops| ensures !Precedes(Eager(ops)[j], Eager(ops)[i]) {
      assert ops[i].call <= added[i] < ops[j].ret;
    }
    LogOrderLinearizes(log, Eager(ops));
  }

  /** Whatever the log, with retries and duplicates, and whatever the timing, ties included: the checker says
      yes to what the service answers. */
  method CheckerAcceptsService(ghost log: seq<Op>, ops: seq<KvOperation>, ghost added: seq<int>) returns (ok: bool)
    requires ServedBy(log, ops, added) && AnsweredLater(ops, added) && ops != [] && WellTimed(ops)
    ensures ok
  {
    EagerServiceIsLinearizable(log, ops, added);
    hide ServedBy, AnsweredLater, Linearizable, WellTimed;
    ok := CheckKvOperations(ops);
  }
}
