/** Log Matching over whole runs of a cluster (src/raft/raft.go:338-453, 627-659, 812-838).

    AppendEntries messages stay in `sent` forever: a message may be delivered late, in any order, more
    than once or never. `leader(t)` is the one server that appends and sends in term `t` (a condition
    on the run; the original does not enforce it). InstallSnapshot is not part of the runs; local
    compaction is. `full[i]` is a history variable: server i's log with the compacted prefix put back. */
module LogMatching {
  import opened Quorum
  import opened Raft

  /** A message together with the sender's whole log at the time of sending. */
  datatype Packet = Packet(term: int, sender: nat, log: seq<Command>, prev: nat, commit: int)

  datatype Cluster = Cluster(peers: seq<Peer>, full: seq<seq<Command>>, sent: set<Packet>)

  /** What travels on the wire. */
  ghost function Wire(p: Packet): AppendArgs
    requires p.prev < |p.log|
  {
    AppendArgs(p.term, p.sender, p.prev, p.log[p.prev].term, p.log[p.prev + 1..], p.commit)
  }

  // ---------------------------------------------------------------- invariants

  ghost predicate Numbered(xs: seq<Command>) {
    xs != [] && xs[0] == SENTINEL && forall k | 0 <= k < |xs| :: xs[k].index == k
  }

  /** The peer holds the entries of `xs` from its base on. */
  ghost predicate Retains(q: Peer, xs: seq<Command>) {
    && Numbered(xs) && q.log != [] && 0 <= Base(q.log) < |xs|
    && q.log == xs[Base(q.log)..]
  }

  /** `xs` is held by a server other than `i` or by a message. */
  ghost predicate HeldElsewhere(c: Cluster, i: nat, xs: seq<Command>) {
    || (exists j :: 0 <= j < |c.full| && j != i && c.full[j] == xs)
    || (exists p :: p in c.sent && p.log == xs)
  }

  ghost predicate Held(c: Cluster, xs: seq<Command>) {
    || (exists j :: 0 <= j < |c.full| && c.full[j] == xs)
    || (exists p :: p in c.sent && p.log == xs)
  }

  /** Same index and same term imply the same entries up to there. */
  ghost predicate Agree(xs: seq<Command>, ys: seq<Command>) {
    forall k | 0 <= k < |xs| && k < |ys| && xs[k].term == ys[k].term :: xs[..k + 1] == ys[..k + 1]
  }

  ghost predicate LogsMatch(c: Cluster) {
    forall xs, ys | Held(c, xs) && Held(c, ys) :: Agree(xs, ys)
  }

  type Leaders = int -> nat

  ghost predicate Leads(q: Peer, t: int) {
    q.role == Leader && q.term == t
  }

  /** The entry at `k` was appended by its term's leader, which still has it while it leads that term. */
  ghost predicate OwnedAt(c: Cluster, leader: Leaders, xs: seq<Command>, k: nat)
    requires 0 < k < |xs|
  {
    var t := xs[k].term;
    var l := leader(t);
    && l < |c.peers| == |c.full|
    && t <= c.peers[l].term
    && (Leads(c.peers[l], t) ==> k < |c.full[l]| && c.full[l][k] == xs[k])
  }

  ghost predicate Owned(c: Cluster, leader: Leaders, xs: seq<Command>) {
    forall k | 0 < k < |xs| :: OwnedAt(c, leader, xs, k)
  }

  ghost predicate PacketOk(leader: Leaders, p: Packet) {
    p.prev < |p.log| && p.sender == leader(p.term)
  }

  ghost predicate Inv(c: Cluster, leader: Leaders) {
    && |c.peers| == |c.full|
    && (forall i | 0 <= i < |c.peers| :: Retains(c.peers[i], c.full[i]) && Base(c.peers[i].log) <= c.peers[i].commit)
    && (forall p | p in c.sent :: PacketOk(leader, p))
    && (forall xs | Held(c, xs) :: Numbered(xs) && Owned(c, leader, xs))
    && LogsMatch(c)
  }

  // ---------------------------------------------------------------- steps

  ghost predicate Initial(c: Cluster) {
    && |c.peers| == |c.full| && c.sent == {}
    && (forall i | 0 <= i < |c.peers| ::
          c.full[i] == [SENTINEL] && c.peers[i].log == [SENTINEL] && c.peers[i].term == 0 && c.peers[i].commit == 0)
  }

  ghost predicate IsLeader(c: Cluster, leader: Leaders, i: nat) {
    i < |c.peers| && c.peers[i].role == Leader && leader(c.peers[i].term) == i
  }

  ghost predicate StartStep(c: Cluster, c': Cluster, leader: Leaders, i: nat, command: int) {
    && IsLeader(c, leader, i) && |c.full| == |c.peers|
    && var q := c.peers[i];
       && q.log != [] && i < |q.nextIndex| && i < |q.matchIndex| && q.me == i
       && c' == c.(peers := c.peers[i := Started(q, command)],
                   full := c.full[i := c.full[i] + [Command(|c.full[i]|, command, q.term)]])
  }

  ghost predicate SendStep(c: Cluster, c': Cluster, leader: Leaders, i: nat, prev: nat) {
    && IsLeader(c, leader, i) && |c.full| == |c.peers|
    && var q := c.peers[i];
       && q.log != [] && Base(q.log) <= prev <= Last(q.log)
       && c' == c.(sent := c.sent + {Packet(q.term, i, c.full[i], prev, q.commit)})
  }

  ghost function OutcomeOf(c: Cluster, i: nat, p: Packet): Outcome
    requires i < |c.peers| && Contiguous(c.peers[i].log) && p.prev < |p.log|
  {
    AppendOutcome(c.peers[i].term, c.peers[i].log, Wire(p))
  }

  ghost function FullAfter(c: Cluster, i: nat, p: Packet): seq<Command>
    requires i < |c.peers| == |c.full| && Contiguous(c.peers[i].log) && p.prev < |p.log|
  {
    match OutcomeOf(c, i, p)
    case Mismatch(_) => if p.prev <= |c.full[i]| then c.full[i][..p.prev] else c.full[i]
    case Accepted(log) => if log == c.peers[i].log then c.full[i] else p.log
    case _ => c.full[i]
  }

  ghost predicate DeliverStep(c: Cluster, c': Cluster, i: nat, p: Packet) {
    && p in c.sent && p.sender != i && i < |c.peers| == |c.full| && p.prev < |p.log|
    && Contiguous(c.peers[i].log) && (AgreesOnBase(c.peers[i].log, Wire(p)) || p.term < c.peers[i].term)
    && c' == c.(peers := c.peers[i := Appended(c.peers[i], Wire(p))], full := c.full[i := FullAfter(c, i, p)])
  }

  /** The mismatch branch cuts the log without leaving the term or the role. It is harmless unless the
      receiver leads its term and somebody else still holds an entry of that term at or beyond the cut. */
  ghost predicate SafeToTruncate(c: Cluster, leader: Leaders, i: nat, p: Packet)
    requires i < |c.peers| && Contiguous(c.peers[i].log) && p.prev < |p.log|
  {
    OutcomeOf(c, i, p).Mismatch? && IsLeader(c, leader, i) ==>
      forall ys | HeldElsewhere(c, i, ys) :: NoneFrom(ys, p.prev, c.peers[i].term)
  }

  ghost predicate NoneFrom(ys: seq<Command>, k0: nat, term: int) {
    forall k | k0 <= k < |ys| :: ys[k].term != term
  }

  /** Local compaction of entries that are already applied, hence committed. */
  ghost predicate CompactStep(c: Cluster, c': Cluster, i: nat, index: int) {
    && i < |c.peers| && c.peers[i].log != [] && index <= c.peers[i].commit
    && c' == c.(peers := c.peers[i := Compacted(c.peers[i], index)])
  }

  /** Nobody holds an entry of the term. */
  ghost predicate NoEntryOf(c: Cluster, term: int) {
    forall xs | Held(c, xs) :: NoneFrom(xs, 1, term)
  }

  /** A server that leads its term after a change did so before or finds no entry of the term. */
  ghost predicate NotReelected(c: Cluster, i: nat, q: Peer)
    requires i < |c.peers|
  {
    Leads(q, c.peers[i].term) ==> c.peers[i].role == Leader || NoEntryOf(c, q.term)
  }

  /** Between messages a commit index rises only to a majority value of the match indices, and only if the
      entry there is of the own term (`checkCommitIndex`). */
  ghost predicate MayCommit(p: Peer, q: Peer) {
    q.commit <= p.commit || MajorityRule(p, q.commit)
  }

  ghost predicate MajorityRule(p: Peer, r: int) {
    && Contiguous(p.log) && IsMajorityValue(p.matchIndex, r) && Base(p.log) <= r <= Last(p.log)
    && p.log[LocalIndex(p.log, r)].term == p.term
  }

  /** Everything else a peer does: elections, replies, commit advances, crash and restart. None of it
      touches the log or lowers the term, and nobody is elected in a term in which it has led and appended
      before: a campaign starts a new term, and a restart forgets the votes. */
  ghost predicate OtherStep(c: Cluster, c': Cluster, i: nat, q: Peer) {
    && i < |c.peers| && c.peers[i].log != []
    && q.log == c.peers[i].log && q.term >= c.peers[i].term && Base(q.log) <= q.commit
    && NotReelected(c, i, q) && MayCommit(c.peers[i], q)
    && c' == c.(peers := c.peers[i := q])
  }

  ghost predicate Next(c: Cluster, c': Cluster, leader: Leaders) {
    || (exists i, command :: StartStep(c, c', leader, i, command))
    || (exists i, prev :: SendStep(c, c', leader, i, prev))
    || (exists i, p :: DeliverStep(c, c', i, p) && SafeToTruncate(c, leader, i, p))
    || (exists i, index :: CompactStep(c, c', i, index))
    || (exists i, q :: OtherStep(c, c', i, q))
  }

  ghost predicate IsRun(run: seq<Cluster>, leader: Leaders) {
    && run != [] && Initial(run[0])
    && (forall t :: leader(t) < |run[0].peers|)
    && (forall k | 0 <= k < |run| - 1 :: Next(run[k], run[k + 1], leader))
  }

  /** What the vote handlers, a campaign, a commit check and a restart do is such a step, in every state of every
      run; so is passing the vote test in a term of which nobody holds an entry. */
  lemma PeerStepsAreOther(c: Cluster, leader: Leaders, i: nat, a: VoteArgs, term: int, r: VoteReply, n: nat)
    requires Inv(c, leader) && i < |c.peers|
    ensures var q := c.peers[i];
      && q.log != []
      && OtherStep(c, c.(peers := c.peers[i := Campaigning(q)]), i, Campaigning(q))
      && OtherStep(c, c.(peers := c.peers[i := Voted(q, a).0]), i, Voted(q, a).0)
      && OtherStep(c, c.(peers := c.peers[i := Counted(q, term, r)]), i, Counted(q, term, r))
      && OtherStep(c, c.(peers := c.peers[i := Restarted(q)]), i, Restarted(q))
      && (NoEntryOf(c, q.term) ==> OtherStep(c, c.(peers := c.peers[i := Tested(q, n)]), i, Tested(q, n)))
      && (forall r | MajorityRule(q, r) :: OtherStep(c, c.(peers := c.peers[i := q.(commit := r)]), i, q.(commit := r)))
  {
    assert Retains(c.peers[i], c.full[i]);
    hide Inv, NoEntryOf, IsMajorityValue;
  }

  // ---------------------------------------------------------------- one server changes

  lemma HeldCases(c: Cluster, i: nat, xs: seq<Command>)
    requires i < |c.full|
    ensures Held(c, xs) <==> HeldElsewhere(c, i, xs) || xs == c.full[i]
  {}

  /** Replacing server `i` by `q` with the full log `xs`. */
  ghost predicate Replaces(c: Cluster, c': Cluster, i: nat, q: Peer, xs: seq<Command>) {
    && i < |c.peers| == |c.full|
    && c' == c.(peers := c.peers[i := q], full := c.full[i := xs])
  }

  lemma ReplaceHeld(c: Cluster, c': Cluster, i: nat, q: Peer, xs: seq<Command>, ys: seq<Command>)
    requires Replaces(c, c', i, q, xs)
    ensures HeldElsewhere(c', i, ys) <==> HeldElsewhere(c, i, ys)
    ensures Held(c', ys) <==> HeldElsewhere(c, i, ys) || ys == xs
  {
    if HeldElsewhere(c, i, ys) {
      if j :| 0 <= j < |c.full| && j != i && c.full[j] == ys {
        assert c'.full[j] == ys;
      }
    }
    if HeldElsewhere(c', i, ys) {
      if j :| 0 <= j < |c'.full| && j != i && c'.full[j] == ys {
        assert c.full[j] == ys;
      }
    }
    HeldCases(c', i, ys);
  }

  /** If the new server is still in a term it leads, it keeps what others hold of that term. */
  ghost predicate KeepsOwn(c: Cluster, leader: Leaders, i: nat, q: Peer, xs: seq<Command>) {
    q.role == Leader && leader(q.term) == i ==>
      forall ys: seq<Command>, k | HeldElsewhere(c, i, ys) && 0 < k < |ys| && ys[k].term == q.term :: k < |xs| && xs[k] == ys[k]
  }

  lemma OwnedElsewhere(c: Cluster, c': Cluster, leader: Leaders, i: nat, q: Peer, xs: seq<Command>, ys: seq<Command>, k: nat)
    requires Replaces(c, c', i, q, xs) && c.peers[i].term <= q.term && KeepsOwn(c, leader, i, q, xs)
    requires HeldElsewhere(c, i, ys) && 0 < k < |ys| && OwnedAt(c, leader, ys, k)
    ensures OwnedAt(c', leader, ys, k)
  {}

  lemma ReplaceKeepsInv(c: Cluster, c': Cluster, leader: Leaders, i: nat, q: Peer, xs: seq<Command>)
    requires Inv(c, leader) && Replaces(c, c', i, q, xs)
    requires Retains(q, xs) && Base(q.log) <= q.commit && c.peers[i].term <= q.term
    requires KeepsOwn(c, leader, i, q, xs)
    requires forall ys | HeldElsewhere(c, i, ys) :: Agree(xs, ys)
    requires Owned(c', leader, xs)
    ensures Inv(c', leader)
  {
    forall ys ensures Held(c', ys) <==> HeldElsewhere(c, i, ys) || ys == xs {
      ReplaceHeld(c, c', i, q, xs, ys);
    }
    forall ys ensures HeldElsewhere(c, i, ys) ==> Held(c, ys) {
      HeldCases(c, i, ys);
    }
    hide Held, HeldElsewhere, Retains, Agree, OwnedAt, Numbered, KeepsOwn, PacketOk;
    forall ys | Held(c', ys) ensures Numbered(ys) && Owned(c', leader, ys) {
      if HeldElsewhere(c, i, ys) {
        forall k | 0 < k < |ys| ensures OwnedAt(c', leader, ys, k) {
          OwnedElsewhere(c, c', leader, i, q, xs, ys, k);
        }
      } else {
        RetainsNumbered(q, xs);
      }
    }
    forall ys, zs | Held(c', ys) && Held(c', zs) ensures Agree(ys, zs) {
      AgreeSymmetric(ys, zs);
      AgreeReflexive(xs);
    }
  }

  lemma RetainsNumbered(q: Peer, xs: seq<Command>)
    requires Retains(q, xs)
    ensures Numbered(xs)
  {}

  lemma AgreeReflexive(xs: seq<Command>)
    ensures Agree(xs, xs)
  {}

  lemma AgreeSymmetric(xs: seq<Command>, ys: seq<Command>)
    ensures Agree(xs, ys) ==> Agree(ys, xs)
  {}

  lemma AgreePrefix(xs: seq<Command>, ys: seq<Command>, n: nat)
    requires n <= |xs| && Agree(xs, ys)
    ensures Agree(xs[..n], ys)
  {}

  lemma RetainsContiguous(q: Peer, xs: seq<Command>)
    requires Retains(q, xs)
    ensures Contiguous(q.log) && Last(q.log) == |xs| - 1 && 0 <= Base(q.log) < |xs| && q.log == xs[Base(q.log)..]
    ensures forall k | Base(q.log) <= k < |xs| :: q.log[LocalIndex(q.log, k)] == xs[k]
  {}

  // ---------------------------------------------------------------- every step keeps the invariant

  /** What the invariant says about one server and about the logs held elsewhere. */
  lemma InvAt(c: Cluster, leader: Leaders, i: nat)
    requires Inv(c, leader) && i < |c.peers|
    ensures |c.full| == |c.peers| && Retains(c.peers[i], c.full[i]) && Base(c.peers[i].log) <= c.peers[i].commit
    ensures Owned(c, leader, c.full[i])
    ensures forall ys | HeldElsewhere(c, i, ys) :: Agree(c.full[i], ys) && Owned(c, leader, ys)
  {}

  /** A new entry at the end collides with nothing: no other log has an entry of this term there. */
  lemma ExtendAgrees(c: Cluster, leader: Leaders, i: nat, e: Command, ys: seq<Command>)
    requires |c.peers| == |c.full| && IsLeader(c, leader, i) && e.term == c.peers[i].term
    requires c.full[i] != [] && Agree(c.full[i], ys) && Owned(c, leader, ys)
    ensures Agree(c.full[i] + [e], ys)
  {
    var xs, n := c.full[i] + [e], |c.full[i]|;
    assert n < |ys| ==> OwnedAt(c, leader, ys, n);
    forall k | 0 <= k < |xs| && k < |ys| && xs[k].term == ys[k].term ensures xs[..k + 1] == ys[..k + 1] {
      if k < n {
        assert xs[..k + 1] == c.full[i][..k + 1];
      }
    }
  }

  lemma StartKeepsInv(c: Cluster, c': Cluster, leader: Leaders, i: nat, command: int)
    requires Inv(c, leader) && StartStep(c, c', leader, i, command)
    ensures Inv(c', leader)
  {
    InvAt(c, leader, i);
    var q, before := c.peers[i], c.full[i];
    RetainsContiguous(q, before);
    var e := Command(|before|, command, q.term);
    var xs := before + [e];
    var q' := Started(q, command);
    assert Retains(q', xs) by {
      assert xs[Base(q.log)..] == before[Base(q.log)..] + [e];
    }
    forall ys | HeldElsewhere(c, i, ys) ensures Agree(xs, ys) {
      ExtendAgrees(c, leader, i, e, ys);
    }
    hide Inv, Retains, Agree, HeldElsewhere, Started;
    assert KeepsOwn(c, leader, i, q', xs) by {
      forall ys: seq<Command>, k | HeldElsewhere(c, i, ys) && 0 < k < |ys| && ys[k].term == q.term
        ensures k < |xs| && xs[k] == ys[k]
      {
        assert OwnedAt(c, leader, ys, k);
      }
    }
    assert Owned(c', leader, xs) by {
      forall k | 0 < k < |xs| ensures OwnedAt(c', leader, xs, k) {
        if k < |before| {
          assert OwnedAt(c, leader, before, k);
        }
      }
    }
    ReplaceKeepsInv(c, c', leader, i, q', xs);
  }

  lemma SendKeepsInv(c: Cluster, c': Cluster, leader: Leaders, i: nat, prev: nat)
    requires Inv(c, leader) && SendStep(c, c', leader, i, prev)
    ensures Inv(c', leader)
  {
    InvAt(c, leader, i);
    RetainsContiguous(c.peers[i], c.full[i]);
    forall xs ensures Held(c', xs) <==> Held(c, xs) {
      HeldAfterSend(c, c', i, Packet(c.peers[i].term, i, c.full[i], prev, c.peers[i].commit), xs);
    }
    hide Held, Retains, Agree, Numbered;
    forall xs | Held(c', xs) ensures Owned(c', leader, xs) {
      forall k | 0 < k < |xs| ensures OwnedAt(c', leader, xs, k) {
        assert OwnedAt(c, leader, xs, k);
      }
    }
  }

  lemma HeldAfterSend(c: Cluster, c': Cluster, i: nat, p: Packet, xs: seq<Command>)
    requires i < |c.full| && c'.full == c.full && p.log == c.full[i] && c'.sent == c.sent + {p}
    ensures Held(c', xs) <==> Held(c, xs)
  {}

  /** What goes out is exactly what the message builder of the original produces. */
  lemma SentIsMessage(c: Cluster, leader: Leaders, i: nat, prev: nat)
    requires Inv(c, leader) && i < |c.peers| && c.peers[i].me == i
    requires c.peers[i].log != [] && Base(c.peers[i].log) <= prev <= Last(c.peers[i].log)
    ensures Contiguous(c.peers[i].log) && prev < |c.full[i]|
    ensures Wire(Packet(c.peers[i].term, i, c.full[i], prev, c.peers[i].commit)) == Message(c.peers[i], prev + 1)
  {}

  /** Which branch accepted: the message reaches from below the base, or it matched at `prevIndex`. */
  lemma AcceptedForms(q: Peer, a: AppendArgs)
    requires Contiguous(q.log) && AppendOutcome(q.term, q.log, a).Accepted? && AppendOutcome(q.term, q.log, a).log != q.log
    ensures var log, local := AppendOutcome(q.term, q.log, a).log, LocalIndex(q.log, a.prevIndex);
      if local < 0 then -local - 1 < |a.entries| && log == a.entries[-local - 1..]
      else local < |q.log| && q.log[local].term == a.prevTerm && log == q.log[..local + 1] + a.entries
  {}

  /** An accepted message leaves exactly the sender's log, seen from the receiver's base. */
  lemma AcceptedIsSuffix(q: Peer, xs: seq<Command>, p: Packet)
    requires Retains(q, xs) && Numbered(p.log) && Agree(xs, p.log) && p.prev < |p.log| && Contiguous(q.log)
    requires AppendOutcome(q.term, q.log, Wire(p)).Accepted? && AppendOutcome(q.term, q.log, Wire(p)).log != q.log
    ensures Base(q.log) < |p.log| && AppendOutcome(q.term, q.log, Wire(p)).log == p.log[Base(q.log)..]
  {
    hide *;
    AcceptedForms(q, Wire(p));
    RetainsContiguous(q, xs);
    WireFields(p);
    BaseOffset(q.log, p.prev);
    FormsGiveSuffix(q.log, xs, p.log, Base(q.log), p.prev, AppendOutcome(q.term, q.log, Wire(p)).log);
  }

  lemma WireFields(p: Packet)
    requires p.prev < |p.log|
    ensures Wire(p).prevIndex == p.prev && Wire(p).prevTerm == p.log[p.prev].term && Wire(p).entries == p.log[p.prev + 1..]
    ensures Wire(p).leaderCommit == p.commit && Wire(p).term == p.term
  {}

  lemma BaseOffset(log: seq<Command>, index: int)
    requires log != []
    ensures LocalIndex(log, index) == index - Base(log)
  {}

  lemma FormsGiveSuffix(log: seq<Command>, xs: seq<Command>, ys: seq<Command>, base: int, prev: nat, out: seq<Command>)
    requires 0 <= base < |xs| && log == xs[base..] && prev < |ys| && Agree(xs, ys)
    requires if prev < base then base < |ys| && out == ys[prev + 1..][base - prev - 1..]
             else prev - base < |log| && log[prev - base].term == ys[prev].term && out == log[..prev - base + 1] + ys[prev + 1..]
    ensures base < |ys| && out == ys[base..]
  {}

  lemma AcceptedIsSendersLog(c: Cluster, leader: Leaders, i: nat, p: Packet)
    requires Inv(c, leader) && i < |c.peers| && p in c.sent
    ensures Contiguous(c.peers[i].log) && p.prev < |p.log| && Held(c, p.log) && Numbered(p.log)
    ensures var o := OutcomeOf(c, i, p);
      o.Accepted? && o.log != c.peers[i].log ==>
        Base(c.peers[i].log) < |p.log| && o.log == p.log[Base(c.peers[i].log)..]
  {
    InvAt(c, leader, i);
    var q, xs := c.peers[i], c.full[i];
    RetainsContiguous(q, xs);
    assert PacketOk(leader, p);
    assert Held(c, p.log) && HeldElsewhere(c, i, p.log);
    hide Owned, Held, HeldElsewhere, AppendOutcome, Agree, Contiguous, Retains, LogsMatch, Wire, Base;
    if OutcomeOf(c, i, p).Accepted? && OutcomeOf(c, i, p).log != q.log {
      AcceptedIsSuffix(q, xs, p);
    }
  }

  lemma DeliverRetains(c: Cluster, leader: Leaders, i: nat, p: Packet)
    requires Inv(c, leader) && i < |c.peers| == |c.full| && p in c.sent && p.prev < |p.log|
    requires Contiguous(c.peers[i].log) && AgreesOnBase(c.peers[i].log, Wire(p))
    ensures Retains(Appended(c.peers[i], Wire(p)), FullAfter(c, i, p))
    ensures Base(Appended(c.peers[i], Wire(p)).log) <= Appended(c.peers[i], Wire(p)).commit
    ensures Appended(c.peers[i], Wire(p)).term >= c.peers[i].term
  {
    InvAt(c, leader, i);
    var q, xs := c.peers[i], c.full[i];
    RetainsContiguous(q, xs);
    AcceptedIsSendersLog(c, leader, i, p);
    assert WellNumbered(Wire(p));
    AppendKeepsOffsets(q, Wire(p));
    hide Inv, Held, Owned, HeldElsewhere, Agree, AppendOutcome, WellNumbered;
    AcceptedIsNonempty(q, Wire(p));
    var o, base := OutcomeOf(c, i, p), Base(q.log);
    if o.Mismatch? {
      MismatchCut(q, Wire(p));
      assert q.log[..o.cut] == xs[..p.prev][base..];
    }
  }

  lemma MismatchCut(q: Peer, a: AppendArgs)
    requires Contiguous(q.log) && AgreesOnBase(q.log, a) && AppendOutcome(q.term, q.log, a).Mismatch?
    ensures AppendOutcome(q.term, q.log, a).cut == a.prevIndex - Base(q.log) > 0
    ensures a.prevIndex <= Last(q.log) && a.term >= q.term
  {}

  /** Taking over the sender's log: it is matched already, and the receiver does not lead that term. */
  lemma AcceptKeepsInv(c: Cluster, c': Cluster, leader: Leaders, i: nat, p: Packet, q: Peer)
    requires Inv(c, leader) && i < |c.peers| == |c.full| && p in c.sent && p.sender != i
    requires Replaces(c, c', i, q, p.log) && q.term == p.term >= c.peers[i].term
    requires Retains(q, p.log) && Base(q.log) <= q.commit
    ensures Inv(c', leader)
  {
    assert PacketOk(leader, p) && Held(c, p.log);
    forall ys | HeldElsewhere(c, i, ys) ensures Agree(p.log, ys) {
      HeldCases(c, i, ys);
    }
    assert Owned(c, leader, p.log);
    hide Inv, Held, HeldElsewhere, Agree, Retains;
    assert Owned(c', leader, p.log) by {
      forall k | 0 < k < |p.log| ensures OwnedAt(c', leader, p.log, k) {
        assert OwnedAt(c, leader, p.log, k);
      }
    }
    ReplaceKeepsInv(c, c', leader, i, q, p.log);
  }

  /** Cutting the log is safe when nobody else holds entries of the own term beyond the cut. */
  lemma TruncateKeepsInv(c: Cluster, c': Cluster, leader: Leaders, i: nat, n: nat, q: Peer)
    requires Inv(c, leader) && i < |c.peers| == |c.full| && 0 < n <= |c.full[i]|
    requires Replaces(c, c', i, q, c.full[i][..n]) && q.term == c.peers[i].term
    requires Retains(q, c.full[i][..n]) && Base(q.log) <= q.commit
    requires q.role == c.peers[i].role
    requires q.role == Leader && leader(q.term) == i ==> forall ys | HeldElsewhere(c, i, ys) :: NoneFrom(ys, n, q.term)
    ensures Inv(c', leader)
  {
    var xs := c.full[i][..n];
    InvAt(c, leader, i);
    forall ys | HeldElsewhere(c, i, ys) ensures Agree(xs, ys) {
      AgreePrefix(c.full[i], ys, n);
    }
    hide Inv, HeldElsewhere, Agree, Retains;
    assert KeepsOwn(c, leader, i, q, xs) by {
      if q.role == Leader && leader(q.term) == i {
        forall ys: seq<Command>, k | HeldElsewhere(c, i, ys) && 0 < k < |ys| && ys[k].term == q.term
          ensures k < |xs| && xs[k] == ys[k]
        {
          assert OwnedAt(c, leader, ys, k);
          assert NoneFrom(ys, n, q.term);
        }
      }
    }
    assert Owned(c', leader, xs) by {
      forall k | 0 < k < |xs| ensures OwnedAt(c', leader, xs, k) {
        assert OwnedAt(c, leader, c.full[i], k);
      }
    }
    ReplaceKeepsInv(c, c', leader, i, q, xs);
  }

  lemma SameLogKeepsOwn(c: Cluster, leader: Leaders, i: nat, q: Peer, ys: seq<Command>, k: nat)
    requires i < |c.peers| == |c.full| && c.peers[i].term <= q.term && NotReelected(c, i, q)
    requires q.role == Leader && leader(q.term) == i
    requires HeldElsewhere(c, i, ys) && 0 < k < |ys| && ys[k].term == q.term && OwnedAt(c, leader, ys, k)
    ensures k < |c.full[i]| && c.full[i][k] == ys[k]
  {
    HeldCases(c, i, ys);
  }

  /** The server itself changes, its full log does not. */
  lemma SameLogKeepsInv(c: Cluster, c': Cluster, leader: Leaders, i: nat, q: Peer)
    requires Inv(c, leader) && i < |c.peers| == |c.full| && Replaces(c, c', i, q, c.full[i])
    requires Retains(q, c.full[i]) && Base(q.log) <= q.commit && c.peers[i].term <= q.term && NotReelected(c, i, q)
    ensures Inv(c', leader)
  {
    var xs := c.full[i];
    InvAt(c, leader, i);
    hide Inv, HeldElsewhere, Agree, Retains, NotReelected;
    assert KeepsOwn(c, leader, i, q, xs) by {
      if q.role == Leader && leader(q.term) == i {
        forall ys: seq<Command>, k | HeldElsewhere(c, i, ys) && 0 < k < |ys| && ys[k].term == q.term
          ensures k < |xs| && xs[k] == ys[k]
        {
          assert OwnedAt(c, leader, ys, k);
          SameLogKeepsOwn(c, leader, i, q, ys, k);
        }
      }
    }
    assert Owned(c', leader, xs) by {
      forall k | 0 < k < |xs| ensures OwnedAt(c', leader, xs, k) {
        assert OwnedAt(c, leader, xs, k);
      }
    }
    ReplaceKeepsInv(c, c', leader, i, q, xs);
  }

  lemma DeliverKeepsInv(c: Cluster, c': Cluster, leader: Leaders, i: nat, p: Packet)
    requires Inv(c, leader) && DeliverStep(c, c', i, p) && SafeToTruncate(c, leader, i, p)
    ensures Inv(c', leader)
  {
    var q := Appended(c.peers[i], Wire(p));
    InvAt(c, leader, i);
    RetainsContiguous(c.peers[i], c.full[i]);
    if p.term < c.peers[i].term {
      RefusedBranch(c.peers[i], Wire(p));
      hide Inv, Retains, Owned, HeldElsewhere, AppendOutcome;
      SameLogKeepsInv(c, c', leader, i, q);
    } else {
      DeliverRetains(c, leader, i, p);
      AcceptedIsNonempty(c.peers[i], Wire(p));
      hide Inv, Retains, Owned, HeldElsewhere, AppendOutcome;
      match OutcomeOf(c, i, p) {
        case Mismatch(_) =>
          MismatchCut(c.peers[i], Wire(p));
          TruncateKeepsInv(c, c', leader, i, p.prev, q);
        case Accepted(log) =>
          AcceptedTerm(c.peers[i], Wire(p));
          if log == c.peers[i].log {
            SameLogKeepsInv(c, c', leader, i, q);
          } else {
            AcceptKeepsInv(c, c', leader, i, p, q);
          }
        case _ =>
          SameLogKeepsInv(c, c', leader, i, q);
      }
    }
  }

  lemma AcceptedTerm(q: Peer, a: AppendArgs)
    requires Contiguous(q.log) && AppendOutcome(q.term, q.log, a).Accepted?
    ensures a.term >= q.term
  {}

  lemma CompactKeepsInv(c: Cluster, c': Cluster, leader: Leaders, i: nat, index: int)
    requires Inv(c, leader) && CompactStep(c, c', i, index)
    ensures Inv(c', leader)
  {
    var q := Compacted(c.peers[i], index);
    InvAt(c, leader, i);
    RetainsContiguous(c.peers[i], c.full[i]);
    CompactKeepsOffsets(c.peers[i], index, index);
    assert Retains(q, c.full[i]) by {
      if q.log != c.peers[i].log {
        assert q.log == c.full[i][index..];
      }
    }
    assert c'.full == c.full[i := c.full[i]];
    hide Inv, Retains;
    SameLogKeepsInv(c, c', leader, i, q);
  }

  lemma OtherKeepsInv(c: Cluster, c': Cluster, leader: Leaders, i: nat, q: Peer)
    requires Inv(c, leader) && OtherStep(c, c', i, q)
    ensures Inv(c', leader)
  {
    InvAt(c, leader, i);
    assert c'.full == c.full[i := c.full[i]];
    SameLogKeepsInv(c, c', leader, i, q);
  }

  lemma NextKeepsInv(c: Cluster, c': Cluster, leader: Leaders)
    requires Inv(c, leader) && Next(c, c', leader)
    ensures Inv(c', leader)
  {
    hide Inv, StartStep, SendStep, CompactStep, OtherStep, SafeToTruncate;
    if i, command :| StartStep(c, c', leader, i, command) {
      StartKeepsInv(c, c', leader, i, command);
    } else if i, prev :| SendStep(c, c', leader, i, prev) {
      SendKeepsInv(c, c', leader, i, prev);
    } else if i, p :| DeliverStep(c, c', i, p) && SafeToTruncate(c, leader, i, p) {
      DeliverKeepsInv(c, c', leader, i, p);
    } else if i, index :| CompactStep(c, c', i, index) {
      CompactKeepsInv(c, c', leader, i, index);
    } else {
      var i, q :| OtherStep(c, c', i, q);
      OtherKeepsInv(c, c', leader, i, q);
    }
  }

  lemma InitialInv(c: Cluster, leader: Leaders)
    requires Initial(c)
    ensures Inv(c, leader)
  {}

  lemma {:induction false} RunKeepsInv(run: seq<Cluster>, leader: Leaders, k: nat)
    requires IsRun(run, leader) && k < |run|
    ensures Inv(run[k], leader)
  {
    hide Inv, Next, Initial;
    if k == 0 {
      InitialInv(run[0], leader);
    } else {
      RunKeepsInv(run, leader, k - 1);
      assert Next(run[k - 1], run[k], leader);
      NextKeepsInv(run[k - 1], run[k], leader);
    }
  }

  lemma AgreeUpTo(xs: seq<Command>, ys: seq<Command>, index: nat, upTo: nat)
    requires Agree(xs, ys) && index <= upTo < |xs| && upTo < |ys| && xs[upTo].term == ys[upTo].term
    ensures xs[index] == ys[index]
  {}

  /** What the invariant says about one server's log and any log held anywhere. */
  lemma RetainedMatches(c: Cluster, leader: Leaders, i: nat, ys: seq<Command>, index: int, upTo: int)
    requires Inv(c, leader) && i < |c.peers| && Held(c, ys)
    ensures var a := c.peers[i].log;
      && Contiguous(a) && 0 <= Base(a)
      && (Base(a) <= index <= upTo <= Last(a) && upTo < |ys| && a[LocalIndex(a, upTo)].term == ys[upTo].term
          ==> a[LocalIndex(a, index)] == ys[index])
  {
    InvAt(c, leader, i);
    var xs, a := c.full[i], c.peers[i].log;
    RetainsContiguous(c.peers[i], xs);
    assert Held(c, xs);
    assert Agree(xs, ys);
    hide Inv, Held, HeldElsewhere, Owned, Agree;
    if Base(a) <= index <= upTo <= Last(a) && upTo < |ys| && a[LocalIndex(a, upTo)].term == ys[upTo].term {
      AgreeUpTo(xs, ys, index, upTo);
    }
  }

  /** Log Matching: in every state of every run, whenever two servers retain entries with the same
      index and term, they agree on every index up to there that both retain. */
  lemma LogMatchingOverRuns(run: seq<Cluster>, leader: Leaders, s: nat, i: nat, j: nat, index: int, upTo: int)
    requires IsRun(run, leader) && s < |run| && i < |run[s].peers| && j < |run[s].peers|
    ensures var a, b := run[s].peers[i].log, run[s].peers[j].log;
      && Contiguous(a) && Contiguous(b)
      && (Base(a) <= index <= upTo <= Last(a) && Base(b) <= index && upTo <= Last(b)
          && a[LocalIndex(a, upTo)].term == b[LocalIndex(b, upTo)].term
          ==> a[LocalIndex(a, index)] == b[LocalIndex(b, index)])
  {
    var c := run[s];
    RunKeepsInv(run, leader, s);
    InvAt(c, leader, j);
    RetainsContiguous(c.peers[j], c.full[j]);
    assert Held(c, c.full[j]);
    hide IsRun, Inv, Held, HeldElsewhere, Owned, Agree, Contiguous;
    RetainedMatches(c, leader, i, c.full[j], index, upTo);
  }

  /** The same between a message in flight and any server. */
  lemma MessagesMatchLogs(run: seq<Cluster>, leader: Leaders, s: nat, i: nat, p: Packet, index: int, upTo: int)
    requires IsRun(run, leader) && s < |run| && i < |run[s].peers| && p in run[s].sent
    ensures p.prev < |p.log|
    ensures var a, m := run[s].peers[i].log, Wire(p);
      && Contiguous(a)
      && (Base(a) <= index <= upTo <= Last(a) && m.prevIndex < index && upTo <= m.prevIndex + |m.entries|
          && a[LocalIndex(a, upTo)].term == m.entries[upTo - m.prevIndex - 1].term
          ==> a[LocalIndex(a, index)] == m.entries[index - m.prevIndex - 1])
  {
    var c := run[s];
    RunKeepsInv(run, leader, s);
    assert PacketOk(leader, p) && Held(c, p.log);
    hide IsRun, Inv, Held, Contiguous;
    RetainedMatches(c, leader, i, p.log, index, upTo);
    WireEntry(p, index);
    WireEntry(p, upTo);
  }

  /** And between two messages in flight. */
  lemma MessagesMatchMessages(run: seq<Cluster>, leader: Leaders, s: nat, p: Packet, r: Packet, index: int, upTo: int)
    requires IsRun(run, leader) && s < |run| && p in run[s].sent && r in run[s].sent
    ensures p.prev < |p.log| && r.prev < |r.log|
    ensures var m, n := Wire(p), Wire(r);
      && m.prevIndex < index <= upTo <= m.prevIndex + |m.entries| && n.prevIndex < index && upTo <= n.prevIndex + |n.entries|
      && m.entries[upTo - m.prevIndex - 1].term == n.entries[upTo - n.prevIndex - 1].term
      ==> m.entries[index - m.prevIndex - 1] == n.entries[index - n.prevIndex - 1]
  {
    hide *;
    RunKeepsInv(run, leader, s);
    PacketsAgree(run[s], leader, p, r);
    WireEntry(p, index);
    WireEntry(p, upTo);
    WireEntry(r, index);
    WireEntry(r, upTo);
    if p.prev < index <= upTo < |p.log| && r.prev < index && upTo < |r.log| && p.log[upTo].term == r.log[upTo].term {
      AgreeUpTo(p.log, r.log, index, upTo);
    }
  }

  lemma PacketsAgree(c: Cluster, leader: Leaders, p: Packet, r: Packet)
    requires Inv(c, leader) && p in c.sent && r in c.sent
    ensures p.prev < |p.log| && r.prev < |r.log| && Agree(p.log, r.log)
  {
    hide Agree;
    assert PacketOk(leader, p) && PacketOk(leader, r) && Held(c, p.log) && Held(c, r.log);
  }

  lemma WireEntry(p: Packet, k: int)
    requires p.prev < |p.log|
    ensures Wire(p).prevIndex == p.prev && |Wire(p).entries| == |p.log| - p.prev - 1
    ensures p.prev < k < |p.log| ==> Wire(p).entries[k - p.prev - 1] == p.log[k]
  {}

  // ---------------------------------------------------------------- commit only what was verified

  /** A follower raises its commit index only over entries that equal the sender's, although it clamps
      to its own last entry, which may lie beyond what the message covers. */
  lemma CommitsOnlyVerified(run: seq<Cluster>, leader: Leaders, s: nat, c': Cluster, i: nat, p: Packet, k: int)
    requires IsRun(run, leader) && s < |run| && DeliverStep(run[s], c', i, p) && p.commit < |p.log|
    requires run[s].peers[i].commit < k <= c'.peers[i].commit
    ensures var log := c'.peers[i].log;
      Contiguous(log) && Base(log) <= k <= Last(log) && 0 <= k < |p.log| && log[LocalIndex(log, k)] == p.log[k]
  {
    hide IsRun, Inv;
    RunKeepsInv(run, leader, s);
    DeliverKeepsInv(run[s], c', leader, i, p);
    CommitStepVerified(run[s], c', leader, i, p, k);
  }

  lemma CommitStepVerified(c: Cluster, c': Cluster, leader: Leaders, i: nat, p: Packet, k: int)
    requires Inv(c, leader) && Inv(c', leader) && DeliverStep(c, c', i, p) && p.commit < |p.log|
    requires c.peers[i].commit < k <= c'.peers[i].commit
    ensures var log := c'.peers[i].log;
      Contiguous(log) && Base(log) <= k <= Last(log) && 0 <= k < |p.log| && log[LocalIndex(log, k)] == p.log[k]
  {
    hide *;
    DeliveredFacts(c, c', leader, i, p);
    WireFields(p);
    EndTermOfWire(p);
    RaisedCommitIsCovered(c.peers[i], Wire(p), k);
    RetainedMatches(c', leader, i, p.log, k, |p.log| - 1);
  }

  lemma DeliveredFacts(c: Cluster, c': Cluster, leader: Leaders, i: nat, p: Packet)
    requires Inv(c, leader) && DeliverStep(c, c', i, p)
    ensures i < |c.peers| == |c'.peers| && p.prev < |p.log| && c'.peers[i] == Appended(c.peers[i], Wire(p))
    ensures Contiguous(c.peers[i].log) && Base(c.peers[i].log) <= c.peers[i].commit
    ensures Held(c', p.log) && WellNumbered(Wire(p))
    ensures AgreesOnBase(c.peers[i].log, Wire(p)) || Wire(p).term < c.peers[i].term
  {
    InvAt(c, leader, i);
    assert Held(c, p.log) && Held(c', p.log);
    assert Numbered(p.log);
    hide Inv, Held, Retains, Owned;
    WireIsWellNumbered(p);
  }

  lemma EndTermOfWire(p: Packet)
    requires p.prev < |p.log|
    ensures EndTerm(Wire(p)) == p.log[|p.log| - 1].term && p.prev + |Wire(p).entries| == |p.log| - 1
  {}

  ghost function EndTerm(a: AppendArgs): int {
    if a.entries == [] then a.prevTerm else a.entries[|a.entries| - 1].term
  }

  /** Seen from the receiver alone: a raised commit index stays within the message, whose last entry is
      in the log. */
  lemma RaisedCommitIsCovered(q: Peer, a: AppendArgs, k: int)
    requires Contiguous(q.log) && WellNumbered(a) && (AgreesOnBase(q.log, a) || a.term < q.term)
    requires Base(q.log) <= q.commit < k <= Appended(q, a).commit && a.leaderCommit <= a.prevIndex + |a.entries|
    ensures var log, end := Appended(q, a).log, a.prevIndex + |a.entries|;
      && Contiguous(log) && Base(log) == Base(q.log) && Base(log) <= k <= end <= Last(log)
      && log[LocalIndex(log, end)].term == EndTerm(a)
  {}

  /** And it raises it as far as it may: a follower that accepts a message whose sender's commit index lies
      within its log, and above the follower's, ends with exactly that commit index. */
  lemma CommitsAllAnnounced(run: seq<Cluster>, leader: Leaders, s: nat, c': Cluster, i: nat, p: Packet)
    requires IsRun(run, leader) && s < |run| && DeliverStep(run[s], c', i, p) && p.commit < |p.log|
    requires OutcomeOf(run[s], i, p).Accepted?
    ensures c'.peers[i].commit == if run[s].peers[i].commit < p.commit then p.commit else run[s].peers[i].commit
  {
    hide IsRun, Inv;
    RunKeepsInv(run, leader, s);
    AcceptedCommitStep(run[s], c', leader, i, p);
  }

  lemma AcceptedCommitStep(c: Cluster, c': Cluster, leader: Leaders, i: nat, p: Packet)
    requires Inv(c, leader) && DeliverStep(c, c', i, p) && p.commit < |p.log| && OutcomeOf(c, i, p).Accepted?
    ensures c'.peers[i].commit == if c.peers[i].commit < p.commit then p.commit else c.peers[i].commit
  {
    assert OutcomeOf(c, i, p) == AppendOutcome(c.peers[i].term, c.peers[i].log, Wire(p));
    hide *;
    DeliveredFacts(c, c', leader, i, p);
    WireFields(p);
    EndTermOfWire(p);
    AcceptedIff(c.peers[i], Wire(p));
    AcceptedEffect(c.peers[i], Wire(p));
    AcceptedCommit(c.peers[i], Wire(p));
  }

  ghost predicate RiseIsJustified(c: Cluster, c': Cluster, i: nat)
    requires i < |c.peers| == |c'.peers|
  {
    c.peers[i].commit < c'.peers[i].commit ==>
      || MajorityRule(c.peers[i], c'.peers[i].commit)
      || (exists p :: DeliverStep(c, c', i, p) && OutcomeOf(c, i, p).Accepted? && c'.peers[i].commit <= p.commit)
  }

  lemma QuietSteps(c: Cluster, c': Cluster, leader: Leaders, i: nat, k: nat)
    requires i < |c.peers| == |c'.peers|
    requires (exists command :: StartStep(c, c', leader, k, command)) || (exists prev :: SendStep(c, c', leader, k, prev))
      || (exists index :: CompactStep(c, c', k, index))
    ensures c'.peers[i].commit == c.peers[i].commit
  {}

  lemma OtherRise(c: Cluster, c': Cluster, k: nat, q: Peer, i: nat)
    requires OtherStep(c, c', k, q) && i < |c.peers| == |c'.peers|
    ensures RiseIsJustified(c, c', i)
  {
    hide NotReelected, MajorityRule;
  }

  lemma DeliverRise(c: Cluster, c': Cluster, k: nat, p: Packet, i: nat)
    requires DeliverStep(c, c', k, p) && i < |c.peers| == |c'.peers|
    ensures RiseIsJustified(c, c', i)
  {
    RisingDelivery(c.peers[k], Wire(p));
    assert Wire(p).leaderCommit == p.commit;
    hide AppendOutcome, Appended, MajorityRule;
    if c.peers[i].commit < c'.peers[i].commit {
      assert i == k;
    }
  }

  /** Every rise of a commit index in a run comes from an accepted message that announces at least as much or
      from the majority rule. */
  lemma EveryRise(c: Cluster, c': Cluster, leader: Leaders, i: nat)
    requires Next(c, c', leader) && i < |c.peers| == |c'.peers|
    ensures RiseIsJustified(c, c', i)
  {
    hide StartStep, SendStep, CompactStep, OtherStep, SafeToTruncate, MajorityRule, AppendOutcome, Appended;
    if k, p :| DeliverStep(c, c', k, p) && SafeToTruncate(c, leader, k, p) {
      DeliverRise(c, c', k, p, i);
    } else if k, q :| OtherStep(c, c', k, q) {
      OtherRise(c, c', k, q, i);
    } else if k, command :| StartStep(c, c', leader, k, command) {
      QuietSteps(c, c', leader, i, k);
    } else if k, prev :| SendStep(c, c', leader, k, prev) {
      QuietSteps(c, c', leader, i, k);
    } else {
      var k: nat, index :| CompactStep(c, c', k, index);
      QuietSteps(c, c', leader, i, k);
    }
  }

  lemma RisingDelivery(q: Peer, a: AppendArgs)
    requires Contiguous(q.log)
    ensures Appended(q, a).commit > q.commit ==> AppendOutcome(q.term, q.log, a).Accepted? && Appended(q, a).commit <= a.leaderCommit
  {}

  // ---------------------------------------------------------------- when a delivery lowers no commit index

  /** A message whose sender's commit index lay within its log lowers no commit index. */
  lemma DeliveryKeepsCommit(run: seq<Cluster>, leader: Leaders, s: nat, c': Cluster, i: nat, p: Packet)
    requires IsRun(run, leader) && s < |run| && DeliverStep(run[s], c', i, p) && p.commit < |p.log|
    ensures c'.peers[i].commit >= run[s].peers[i].commit
  {
    hide *;
    RunKeepsInv(run, leader, s);
    DeliveredFacts(run[s], c', leader, i, p);
    WireFields(p);
    EndTermOfWire(p);
    HonestMessageKeepsCommit(run[s].peers[i], Wire(p));
  }

  ghost predicate CommitsWithinLogs(c: Cluster) {
    forall i | 0 <= i < |c.peers| :: c.peers[i].log != [] && c.peers[i].commit <= Last(c.peers[i].log)
  }

  lemma NewlySent(c: Cluster, c': Cluster, leader: Leaders, p: Packet)
    requires Inv(c, leader) && Next(c, c', leader) && CommitsWithinLogs(c) && p in c'.sent && p !in c.sent
    ensures p.commit < |p.log|
  {
    var i: nat, prev: nat :| SendStep(c, c', leader, i, prev);
    InvAt(c, leader, i);
    hide Inv, Owned, HeldElsewhere, Agree, Next;
    RetainsContiguous(c.peers[i], c.full[i]);
  }

  lemma {:induction false} SentWithinLog(run: seq<Cluster>, leader: Leaders, s: nat, p: Packet)
    requires IsRun(run, leader) && s < |run| && p in run[s].sent
    requires forall k | 0 <= k < s :: CommitsWithinLogs(run[k])
    ensures p.commit < |p.log|
  {
    hide Inv, Next, CommitsWithinLogs;
    if s > 0 {
      if p in run[s - 1].sent {
        SentWithinLog(run, leader, s - 1, p);
      } else {
        RunKeepsInv(run, leader, s - 1);
        assert Next(run[s - 1], run[s], leader);
        NewlySent(run[s - 1], run[s], leader, p);
      }
    }
  }

  /** As long as no server's commit index has ever exceeded its log, no delivery lowers one. */
  lemma CommitNeverFalls(run: seq<Cluster>, leader: Leaders, s: nat, c': Cluster, i: nat, p: Packet)
    requires IsRun(run, leader) && s < |run| && DeliverStep(run[s], c', i, p)
    requires forall k | 0 <= k < s :: CommitsWithinLogs(run[k])
    ensures c'.peers[i].commit >= run[s].peers[i].commit
  {
    assert p in run[s].sent;
    hide *;
    SentWithinLog(run, leader, s, p);
    DeliveryKeepsCommit(run, leader, s, c', i, p);
  }

  lemma WireIsWellNumbered(p: Packet)
    requires Numbered(p.log) && p.prev < |p.log|
    ensures WellNumbered(Wire(p))
  {}

  // ---------------------------------------------------------------- the truncation guard is exact

  ghost predicate Continues(run: seq<Cluster>, c: Cluster, leader: Leaders) {
    run != [] && run[0] == c && forall k | 0 <= k < |run| - 1 :: Next(run[k], run[k + 1], leader)
  }

  ghost predicate AlwaysMatches(c: Cluster, leader: Leaders) {
    forall run | Continues(run, c, leader) :: LogsMatch(run[|run| - 1])
  }

  lemma {:induction false} InvImpliesAlways(c: Cluster, leader: Leaders, run: seq<Cluster>, k: nat)
    requires Inv(c, leader) && Continues(run, c, leader) && k < |run|
    ensures Inv(run[k], leader)
  {
    hide Inv, Next;
    if k > 0 {
      InvImpliesAlways(c, leader, run, k - 1);
      NextKeepsInv(run[k - 1], run[k], leader);
    }
  }

  ghost predicate CanStart(c: Cluster, leader: Leaders, i: nat) {
    && IsLeader(c, leader, i) && |c.full| == |c.peers|
    && var q := c.peers[i];
       q.log != [] && i < |q.nextIndex| && i < |q.matchIndex| && q.me == i
  }

  /** A leader can fill its log up to any length with one and the same command. */
  lemma {:induction false} StartUntil(c: Cluster, leader: Leaders, i: nat, command: int, length: nat) returns (run: seq<Cluster>)
    requires CanStart(c, leader, i) && |c.full[i]| <= length
    ensures Continues(run, c, leader)
    ensures var d := run[|run| - 1];
      && |d.full| == |c.full| && d.sent == c.sent && (forall j | 0 <= j < |d.full| && j != i :: d.full[j] == c.full[j])
      && |d.full[i]| == length && d.full[i][..|c.full[i]|] == c.full[i]
      && (forall k | |c.full[i]| <= k < length :: d.full[i][k] == Command(k, command, c.peers[i].term))
    decreases length - |c.full[i]|
  {
    if |c.full[i]| == length {
      run := [c];
    } else {
      var q := c.peers[i];
      var e := Command(|c.full[i]|, command, q.term);
      var c1 := c.(peers := c.peers[i := Started(q, command)], full := c.full[i := c.full[i] + [e]]);
      assert StartStep(c, c1, leader, i, command);
      assert Next(c, c1, leader);
      var tail := StartUntil(c1, leader, i, command, length);
      hide Next, Started, StartStep;
      run := [c] + tail;
      LongerRun(c, c1, leader, tail);
      var d, n := tail[|tail| - 1], |c.full[i]|;
      assert d.full[i][..n] == d.full[i][..n + 1][..n] == c.full[i];
      assert d.full[i][n] == d.full[i][..n + 1][n] == e;
    }
  }

  lemma LongerRun(c: Cluster, c1: Cluster, leader: Leaders, tail: seq<Cluster>)
    requires Next(c, c1, leader) && Continues(tail, c1, leader)
    ensures Continues([c] + tail, c, leader)
  {}

  /** A leader can get ready to append. */
  lemma MakeReady(c: Cluster, leader: Leaders, i: nat) returns (c': Cluster)
    requires IsLeader(c, leader, i) && |c.peers| == |c.full| && c.peers[i].log != []
    requires Base(c.peers[i].log) <= c.peers[i].commit
    ensures Next(c, c', leader) && CanStart(c', leader, i)
    ensures c'.full == c.full && c'.sent == c.sent && |c'.peers| == |c.peers|
    ensures c'.peers[i].term == c.peers[i].term && c'.peers[i].log == c.peers[i].log && c'.peers[i].role == Leader
  {
    var ones := seq(i + 1, _ => 1);
    var q := c.peers[i].(me := i, nextIndex := ones, matchIndex := ones);
    c' := c.(peers := c.peers[i := q]);
    assert OtherStep(c, c', i, q);
  }

  /** The way Log Matching is lost: the leader of a term drops an entry of that term that somebody else
      holds, stays leader of the term, and fills the same index again. */
  lemma UnsafeTruncationBreaks(c: Cluster, c1: Cluster, leader: Leaders, i: nat, p: Packet, ys: seq<Command>, k: nat)
    requires Inv(c, leader) && DeliverStep(c, c1, i, p) && IsLeader(c, leader, i) && OutcomeOf(c, i, p).Mismatch?
    requires HeldElsewhere(c, i, ys) && p.prev <= k < |ys| && ys[k].term == c.peers[i].term
    ensures !AlwaysMatches(c1, leader)
  {
    TruncatedByDelivery(c, c1, leader, i, p);
    ReplaceHeld(c, c1, i, c1.peers[i], c1.full[i], ys);
    hide Inv, Next, AppendOutcome, DeliverStep, AlwaysMatches, Agree, OutcomeOf, HeldElsewhere, CanStart;
    var c2 := MakeReady(c1, leader, i);
    HeldElsewhereSame(c1, c2, i, ys);
    RefillBreaks(c1, c2, leader, i, ys, k);
  }

  lemma HeldElsewhereSame(c: Cluster, d: Cluster, i: nat, ys: seq<Command>)
    requires HeldElsewhere(c, i, ys) && d.sent == c.sent && d.full == c.full
    ensures HeldElsewhere(d, i, ys)
  {}

  lemma TruncatedByDelivery(c: Cluster, c1: Cluster, leader: Leaders, i: nat, p: Packet)
    requires Inv(c, leader) && DeliverStep(c, c1, i, p) && OutcomeOf(c, i, p).Mismatch?
    ensures |c1.peers| == |c1.full| == |c.peers| && |c1.full[i]| == p.prev
    ensures c1.peers[i].term == c.peers[i].term && c1.peers[i].role == c.peers[i].role
    ensures c1.peers[i].log != [] && Base(c1.peers[i].log) <= c1.peers[i].commit
    ensures Replaces(c, c1, i, c1.peers[i], c1.full[i])
  {
    InvAt(c, leader, i);
    RetainsContiguous(c.peers[i], c.full[i]);
    MismatchCut(c.peers[i], Wire(p));
    DeliverRetains(c, leader, i, p);
    AcceptedIsNonempty(c.peers[i], Wire(p));
  }

  lemma RefillBreaks(c1: Cluster, c2: Cluster, leader: Leaders, i: nat, ys: seq<Command>, k: nat)
    requires Next(c1, c2, leader) && CanStart(c2, leader, i) && HeldElsewhere(c2, i, ys)
    requires |c2.full[i]| <= k < |ys| && ys[k].term == c2.peers[i].term
    ensures !AlwaysMatches(c1, leader)
  {
    hide Next;
    var run := StartUntil(c2, leader, i, ys[k].command + 1, k + 1);
    var d := run[|run| - 1];
    assert Held(d, ys) by {
      HeldByOthers(c2, d, i, ys);
    }
    assert Held(d, d.full[i]);
    assert !Agree(d.full[i], ys) by {
      assert d.full[i][..k + 1][k] != ys[..k + 1][k];
    }
    hide Held, Agree, Continues;
    LongerRun(c1, c2, leader, run);
    assert !LogsMatch(d);
    assert ([c1] + run)[|run|] == d;
  }

  lemma HeldByOthers(c: Cluster, d: Cluster, i: nat, ys: seq<Command>)
    requires HeldElsewhere(c, i, ys) && d.sent == c.sent && |d.full| == |c.full|
    requires forall j | 0 <= j < |d.full| && j != i :: d.full[j] == c.full[j]
    ensures Held(d, ys)
  {}

  /** When a server handles a message, Log Matching survives every continuation of the run if and only
      if the truncation guard holds. */
  lemma GuardIsExact(c: Cluster, c1: Cluster, leader: Leaders, i: nat, p: Packet)
    requires Inv(c, leader) && DeliverStep(c, c1, i, p)
    ensures AlwaysMatches(c1, leader) <==> SafeToTruncate(c, leader, i, p)
  {
    if SafeToTruncate(c, leader, i, p) {
      DeliverKeepsInv(c, c1, leader, i, p);
      forall run | Continues(run, c1, leader) ensures LogsMatch(run[|run| - 1]) {
        InvImpliesAlways(c1, leader, run, |run| - 1);
      }
    } else {
      hide Inv, DeliverStep, AlwaysMatches, HeldElsewhere;
      var ys: seq<Command> :| HeldElsewhere(c, i, ys) && !NoneFrom(ys, p.prev, c.peers[i].term);
      var k :| p.prev <= k < |ys| && ys[k].term == c.peers[i].term;
      UnsafeTruncationBreaks(c, c1, leader, i, p, ys, k);
    }
  }

  // ---------------------------------------------------------------- the guard a server can check

  /** The cut at `prev` removes no entry of the own term from the own log. */
  ghost predicate KeepsOwnTerm(q: Peer, prev: int)
    requires Contiguous(q.log)
  {
    forall k | prev <= k <= Last(q.log) && Base(q.log) <= k :: q.log[LocalIndex(q.log, k)].term != q.term
  }

  /** The guard in terms of the receiver alone: its own log, term and role, and the message. */
  ghost predicate LocalGuard(q: Peer, leader: Leaders, i: nat, p: Packet)
    requires Contiguous(q.log) && p.prev < |p.log|
  {
    AppendOutcome(q.term, q.log, Wire(p)).Mismatch? && q.role == Leader && leader(q.term) == i ==> KeepsOwnTerm(q, p.prev)
  }

  /** The local guard is enough. */
  lemma KeepingOwnEntriesIsSafe(c: Cluster, leader: Leaders, i: nat, p: Packet)
    requires Inv(c, leader) && i < |c.peers| && p in c.sent && p.prev < |p.log| && Contiguous(c.peers[i].log)
    requires LocalGuard(c.peers[i], leader, i, p)
    ensures SafeToTruncate(c, leader, i, p)
  {
    if OutcomeOf(c, i, p).Mismatch? && IsLeader(c, leader, i) {
      InvAt(c, leader, i);
      RetainsContiguous(c.peers[i], c.full[i]);
      MismatchIsInside(c, leader, i, p);
      hide AppendOutcome, Inv, Agree, Retains, Contiguous, Owned, KeepsOwnTerm, NoneFrom, HeldElsewhere;
      forall ys: seq<Command> | HeldElsewhere(c, i, ys) ensures NoneFrom(ys, p.prev, c.peers[i].term) {
        NoneElsewhere(c, leader, i, p.prev, ys);
      }
    }
  }

  /** What others hold of the led term, the leader holds too. */
  lemma NoneElsewhere(c: Cluster, leader: Leaders, i: nat, prev: nat, ys: seq<Command>)
    requires |c.peers| == |c.full| && IsLeader(c, leader, i) && Owned(c, leader, ys) && prev > 0
    requires Retains(c.peers[i], c.full[i]) && Contiguous(c.peers[i].log) && Base(c.peers[i].log) <= prev
    requires KeepsOwnTerm(c.peers[i], prev)
    ensures NoneFrom(ys, prev, c.peers[i].term)
  {
    var q, xs := c.peers[i], c.full[i];
    RetainsContiguous(q, xs);
    hide Retains, Contiguous;
    forall k | prev <= k < |ys| ensures ys[k].term != q.term {
      assert OwnedAt(c, leader, ys, k);
      assert k < |xs| ==> q.log[LocalIndex(q.log, k)] == xs[k];
    }
  }

  lemma MismatchAt(q: Peer, a: AppendArgs)
    requires Contiguous(q.log) && AppendOutcome(q.term, q.log, a).Mismatch?
    ensures Base(q.log) <= a.prevIndex <= Last(q.log) && q.log[LocalIndex(q.log, a.prevIndex)].term != a.prevTerm
  {}

  lemma SentIsNumbered(c: Cluster, leader: Leaders, p: Packet)
    requires Inv(c, leader) && p in c.sent
    ensures Numbered(p.log)
  {
    assert Held(c, p.log);
    hide Numbered, Owned, Agree, Retains, Held, LogsMatch;
  }

  /** The first entry of a numbered log has the sentinel's term. */
  lemma FirstTerm(xs: seq<Command>)
    requires Numbered(xs)
    ensures xs != [] && xs[0].term == SENTINEL.term
  {}

  /** A mismatch lies behind the sentinel, at an index the receiver retains. */
  lemma MismatchIsInside(c: Cluster, leader: Leaders, i: nat, p: Packet)
    requires Inv(c, leader) && i < |c.peers| && p in c.sent && p.prev < |p.log| && Contiguous(c.peers[i].log)
    requires OutcomeOf(c, i, p).Mismatch?
    ensures 0 < p.prev && Base(c.peers[i].log) <= p.prev <= Last(c.peers[i].log)
  {
    assert OutcomeOf(c, i, p) == AppendOutcome(c.peers[i].term, c.peers[i].log, Wire(p));
    hide *;
    InvAt(c, leader, i);
    SentIsNumbered(c, leader, p);
    RetainsContiguous(c.peers[i], c.full[i]);
    RetainsNumbered(c.peers[i], c.full[i]);
    WireFields(p);
    MismatchAt(c.peers[i], Wire(p));
    FirstTerm(c.full[i]);
    FirstTerm(p.log);
  }

  /** Whatever the other servers and the network do first: as long as server i's log, term and role are
      as they are now, handling `p` endangers no continuation. */
  ghost predicate SafeWhateverElse(c: Cluster, leader: Leaders, i: nat, p: Packet)
    requires i < |c.peers|
  {
    forall run: seq<Cluster>, c1 | Continues(run, c, leader) && Unchanged(c, run[|run| - 1], i)
                                   && DeliverStep(run[|run| - 1], c1, i, p) :: AlwaysMatches(c1, leader)
  }

  ghost predicate Unchanged(c: Cluster, d: Cluster, i: nat)
    requires i < |c.peers|
  {
    && i < |d.peers| && d.peers[i].log == c.peers[i].log
    && d.peers[i].term == c.peers[i].term && d.peers[i].role == c.peers[i].role
  }

  /** No weaker local guard will do: handling the message is safe whatever the rest of the cluster has
      done in the meantime if and only if the guard on the receiver's own log holds. */
  lemma LocalGuardIsExact(c: Cluster, c1: Cluster, leader: Leaders, i: nat, p: Packet)
    requires Inv(c, leader) && DeliverStep(c, c1, i, p)
    ensures SafeWhateverElse(c, leader, i, p) <==> LocalGuard(c.peers[i], leader, i, p)
  {
    hide *;
    DeliveredFacts(c, c1, leader, i, p);
    if LocalGuard(c.peers[i], leader, i, p) {
      LocalGuardSuffices(c, leader, i, p);
    } else {
      LocalGuardIsNeeded(c, c1, leader, i, p);
    }
  }

  lemma LocalGuardSuffices(c: Cluster, leader: Leaders, i: nat, p: Packet)
    requires Inv(c, leader) && i < |c.peers| && Contiguous(c.peers[i].log) && p.prev < |p.log|
    requires LocalGuard(c.peers[i], leader, i, p)
    ensures SafeWhateverElse(c, leader, i, p)
  {
    forall run: seq<Cluster>, c1 | Continues(run, c, leader) && Unchanged(c, run[|run| - 1], i)
                                   && DeliverStep(run[|run| - 1], c1, i, p)
      ensures AlwaysMatches(c1, leader)
    {
      var d := run[|run| - 1];
      assert LocalGuard(d.peers[i], leader, i, p) && p in d.sent;
      hide *;
      InvImpliesAlways(c, leader, run, |run| - 1);
      DeliveredFacts(d, c1, leader, i, p);
      KeepingOwnEntriesIsSafe(d, leader, i, p);
      GuardIsExact(d, c1, leader, i, p);
    }
  }

  /** A leader can send what it holds, its own log, term and role unchanged. */
  lemma ReadyAndSent(c: Cluster, leader: Leaders, i: nat, k: nat) returns (run: seq<Cluster>)
    requires Inv(c, leader) && IsLeader(c, leader, i) && c.peers[i].log != []
    requires Base(c.peers[i].log) <= k <= Last(c.peers[i].log)
    ensures Continues(run, c, leader)
    ensures var e := run[|run| - 1];
      && Inv(e, leader) && Unchanged(c, e, i) && c.sent <= e.sent && e.full == c.full && |c.full| == |c.peers|
      && HeldElsewhere(e, i, c.full[i])
  {
    InvAt(c, leader, i);
    hide Inv, Next, Retains, Owned, Agree;
    var d := MakeReady(c, leader, i);
    var sent := Packet(d.peers[i].term, i, d.full[i], k, d.peers[i].commit);
    var e := d.(sent := d.sent + {sent});
    assert sent in e.sent;
    SendIsStep(d, e, leader, i, k);
    hide SendStep, HeldElsewhere, CanStart;
    run := [c, d, e];
    NextKeepsInv(c, d, leader);
    NextKeepsInv(d, e, leader);
  }

  lemma SendIsStep(c: Cluster, c': Cluster, leader: Leaders, i: nat, prev: nat)
    requires SendStep(c, c', leader, i, prev)
    ensures Next(c, c', leader)
  {}

  /** Otherwise the server may just have sent the entry that the cut removes. */
  lemma LocalGuardIsNeeded(c: Cluster, c1: Cluster, leader: Leaders, i: nat, p: Packet)
    requires Inv(c, leader) && DeliverStep(c, c1, i, p) && !LocalGuard(c.peers[i], leader, i, p)
    ensures !SafeWhateverElse(c, leader, i, p)
  {
    InvAt(c, leader, i);
    RetainsContiguous(c.peers[i], c.full[i]);
    var q := c.peers[i];
    var k :| p.prev <= k <= Last(q.log) && Base(q.log) <= k && q.log[LocalIndex(q.log, k)].term == q.term;
    assert k < |c.full[i]| && c.full[i][k].term == q.term;
    hide Inv, Continues, AlwaysMatches, HeldElsewhere, AppendOutcome, Retains, Owned, Agree;
    var run := ReadyAndSent(c, leader, i, k);
    var e := run[|run| - 1];
    var e1 := e.(peers := e.peers[i := Appended(e.peers[i], Wire(p))], full := e.full[i := FullAfter(e, i, p)]);
    assert DeliverStep(e, e1, i, p);
    hide DeliverStep;
    UnsafeTruncationBreaks(e, e1, leader, i, p, c.full[i], k);
  }

  /** Without compaction the receiver's base entry is the sentinel, on which every message agrees. */
  lemma UncompactedAgreesOnBase(c: Cluster, leader: Leaders, i: nat, p: Packet)
    requires Inv(c, leader) && i < |c.peers| && p in c.sent && c.peers[i].log != [] && Base(c.peers[i].log) == 0
    ensures p.prev < |p.log| && AgreesOnBase(c.peers[i].log, Wire(p))
  {
    InvAt(c, leader, i);
    assert PacketOk(leader, p) && Held(c, p.log);
  }
}
