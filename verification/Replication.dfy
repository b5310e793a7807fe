/** What a leader may conclude from the replies to AppendEntries (src/raft/raft.go:627-698, 741-753, 917-926).

    The runs are those of LogMatching with replies: a success reply is kept for ever and may be handled late,
    more than once or never. A leader's log is not cut in its own term (see LogMatching for what happens
    otherwise). */
module Replication {
  import opened Counting
  import opened LogMatching
  import opened Quorum
  import opened Raft

  /** A success reply. `held` is the server's whole log when it replied, `base` its base index then. */
  datatype Ack = Ack(packet: Packet, server: nat, held: seq<Command>, base: int)

  /** `asked` says for whom a message was built; `start` is each server's next index when it was last
      elected. */
  datatype Net = Net(c: Cluster, asked: set<(Packet, nat)>, acks: set<Ack>, start: seq<int>)

  // ---------------------------------------------------------------- steps

  ghost predicate Start(s: Net, s': Net, leader: Leaders, i: nat, command: int) {
    StartStep(s.c, s'.c, leader, i, command) && s' == s.(c := s'.c)
  }

  ghost function PacketOf(c: Cluster, i: nat, prev: nat): Packet
    requires i < |c.peers| == |c.full|
  {
    Packet(c.peers[i].term, i, c.full[i], prev, c.peers[i].commit)
  }

  /** The message for server `j`, from its next index on. */
  ghost predicate Send(s: Net, s': Net, leader: Leaders, i: nat, j: nat, prev: nat) {
    && SendStep(s.c, s'.c, leader, i, prev)
    && j < |s.c.peers[i].nextIndex| && j != i && s.c.peers[i].nextIndex[j] == prev + 1
    && s' == s.(c := s'.c, asked := s.asked + {(PacketOf(s.c, i, prev), j)})
  }

  ghost predicate Deliver(s: Net, s': Net, leader: Leaders, i: nat, p: Packet) {
    && DeliverStep(s.c, s'.c, i, p) && !(OutcomeOf(s.c, i, p).Mismatch? && IsLeader(s.c, leader, i))
    && s' == s.(c := s'.c, acks := if OutcomeOf(s.c, i, p).Accepted?
                                   then s.acks + {Ack(p, i, s'.c.full[i], Base(s.c.peers[i].log))} else s.acks)
  }

  ghost predicate WithPeer(s: Net, s': Net, i: nat, q: Peer)
    requires i < |s.c.peers|
  {
    s' == s.(c := s.c.(peers := s.c.peers[i := q]))
  }

  /** The leader handles a success reply of its own term. */
  ghost predicate Reply(s: Net, s': Net, leader: Leaders, i: nat, a: Ack) {
    && a in s.acks && a.packet.sender == i && IsLeader(s.c, leader, i) && s.c.peers[i].term == a.packet.term
    && a.server < |s.c.peers[i].nextIndex| && a.server < |s.c.peers[i].matchIndex|
    && WithPeer(s, s', i, Acknowledged(s.c.peers[i], a.server, |a.packet.log| - 1))
  }

  /** The leader handles a rejection of its own term: the next index goes back below the message. */
  ghost predicate Reject(s: Net, s': Net, leader: Leaders, i: nat, p: Packet, j: nat, next: int) {
    && (p, j) in s.asked && p.sender == i && IsLeader(s.c, leader, i) && s.c.peers[i].term == p.term
    && j < |s.c.peers[i].nextIndex| && next <= p.prev
    && WithPeer(s, s', i, BackedOff(s.c.peers[i], j, next))
  }

  /** The vote test makes a server leader of a term in which it has not sent anything yet. */
  ghost predicate Elect(s: Net, s': Net, leader: Leaders, i: nat, q: Peer) {
    && i < |s.c.peers| == |s.start| && s.c.peers[i].log != []
    && q == Tested(s.c.peers[i], |s.c.peers|) && q.role == Leader && s.c.peers[i].role != Leader
    && OtherStep(s.c, s.c.(peers := s.c.peers[i := q]), i, q)
    && (forall p | p in s.c.sent :: p.term != q.term)
    && s' == s.(c := s.c.(peers := s.c.peers[i := q]), start := s.start[i := Last(q.log) + 1])
  }

  /** Everything else: no server comes to lead a term, and a leader keeps its indices. */
  ghost predicate Other(s: Net, s': Net, leader: Leaders, i: nat, q: Peer) {
    && i < |s.c.peers| && OtherStep(s.c, s.c.(peers := s.c.peers[i := q]), i, q)
    && (q.role == Leader && leader(q.term) == i ==>
          s.c.peers[i].role == Leader && q.term == s.c.peers[i].term
          && q.nextIndex == s.c.peers[i].nextIndex && q.matchIndex == s.c.peers[i].matchIndex)
    && WithPeer(s, s', i, q)
  }

  ghost predicate Compact(s: Net, s': Net, i: nat, index: int) {
    CompactStep(s.c, s'.c, i, index) && s' == s.(c := s'.c)
  }

  ghost predicate Step(s: Net, s': Net, leader: Leaders) {
    || (exists i, command :: Start(s, s', leader, i, command))
    || (exists i, j, prev :: Send(s, s', leader, i, j, prev))
    || (exists i, p :: Deliver(s, s', leader, i, p))
    || (exists i, a :: Reply(s, s', leader, i, a))
    || (exists i, p, j, next :: Reject(s, s', leader, i, p, j, next))
    || (exists i, q :: Elect(s, s', leader, i, q))
    || (exists i, q :: Other(s, s', leader, i, q))
    || (exists i, index :: Compact(s, s', i, index))
  }

  ghost predicate Begins(s: Net, leader: Leaders) {
    && Initial(s.c) && s.asked == {} && s.acks == {} && |s.start| == |s.c.peers|
    && (forall i | 0 <= i < |s.c.peers| :: s.c.peers[i].role == Follower)
    && (forall t :: leader(t) < |s.c.peers|)
  }

  ghost predicate IsNetRun(run: seq<Net>, leader: Leaders) {
    run != [] && Begins(run[0], leader) && forall k | 0 <= k < |run| - 1 :: Step(run[k], run[k + 1], leader)
  }

  // ---------------------------------------------------------------- invariant

  /** The server held the sender's log, or had compacted past its end. */
  ghost predicate AckOk(s: Net, a: Ack) {
    && a.packet in s.c.sent && a.server != a.packet.sender
    && (a.packet.log <= a.held || |a.packet.log| <= a.base)
  }

  /** Server `j` has acknowledged everything up to `n` entries in the term. */
  ghost predicate Acked(s: Net, term: int, j: nat, n: int) {
    exists a :: a in s.acks && a.packet.term == term && a.server == j && n <= |a.packet.log|
  }

  ghost predicate NextOk(s: Net, i: nat, term: int, j: nat, next: int)
    requires i < |s.start|
  {
    next <= s.start[i] || Acked(s, term, j, next)
  }

  ghost predicate MatchOk(s: Net, i: nat, term: int, j: nat, matched: int)
    requires i < |s.c.full|
  {
    if j == i then matched < |s.c.full[i]| else matched <= 0 || Acked(s, term, j, matched + 1)
  }

  /** A leader's log contains everything it has sent in its term, and its indices stay below what was
      acknowledged. */
  ghost predicate LeaderOk(s: Net, i: nat)
    requires i < |s.c.peers| == |s.c.full| == |s.start|
  {
    var q := s.c.peers[i];
    && |q.nextIndex| == |q.matchIndex| == |s.c.peers| && s.start[i] <= |s.c.full[i]|
    && (forall p | p in s.c.sent && p.term == q.term :: s.start[i] <= |p.log| && p.log <= s.c.full[i])
    && (forall x | x in s.asked && x.0.term == q.term :: NextOk(s, i, q.term, x.1, x.0.prev + 1))
    && (forall j | 0 <= j < |q.nextIndex| && j != i :: NextOk(s, i, q.term, j, q.nextIndex[j]))
    && (forall j | 0 <= j < |q.matchIndex| :: MatchOk(s, i, q.term, j, q.matchIndex[j]))
  }

  ghost predicate NetInv(s: Net, leader: Leaders) {
    && Inv(s.c, leader) && |s.start| == |s.c.peers| && (forall t :: leader(t) < |s.c.peers|)
    && (forall p | p in s.c.sent :: p.term <= s.c.peers[leader(p.term)].term)
    && (forall x | x in s.asked :: x.0 in s.c.sent && x.1 != x.0.sender)
    && (forall a | a in s.acks :: AckOk(s, a))
    && (forall i | 0 <= i < |s.c.peers| && IsLeader(s.c, leader, i) :: LeaderOk(s, i))
  }

  // ---------------------------------------------------------------- one server acts

  ghost predicate SameIndices(q: Peer, q': Peer) {
    q'.term == q.term && q'.nextIndex == q.nextIndex && q'.matchIndex == q.matchIndex
  }

  /** What happened elsewhere: acknowledgements may have come, messages of other terms too. */
  ghost predicate Framed(s: Net, s': Net, j: nat)
    requires j < |s.c.peers| == |s.c.full| == |s.start|
  {
    && |s'.c.peers| == |s'.c.full| == |s'.start| == |s.c.peers|
    && SameIndices(s.c.peers[j], s'.c.peers[j]) && s'.c.full[j] == s.c.full[j] && s'.start[j] == s.start[j]
    && s.acks <= s'.acks
    && (forall p | p in s'.c.sent && p !in s.c.sent :: p.term != s.c.peers[j].term)
    && (forall x | x in s'.asked && x !in s.asked :: x.0.term != s.c.peers[j].term)
  }

  lemma AckedGrows(s: Net, s': Net, term: int, j: nat, n: int)
    requires s.acks <= s'.acks && Acked(s, term, j, n)
    ensures Acked(s', term, j, n)
  {}

  lemma FramedKeepsLeader(s: Net, s': Net, j: nat)
    requires j < |s.c.peers| == |s.c.full| == |s.start| && LeaderOk(s, j) && Framed(s, s', j)
    ensures LeaderOk(s', j)
  {
    forall term, k, n | Acked(s, term, k, n) ensures Acked(s', term, k, n) {
      AckedGrows(s, s', term, k, n);
    }
    hide Acked;
  }

  /** Only server `i` acted: what was sent is its own. */
  ghost predicate Acts(s: Net, s': Net, leader: Leaders, i: nat) {
    && i < |s.c.peers| == |s.c.full| == |s.start| == |s'.c.peers| == |s'.c.full| == |s'.start|
    && (forall j | 0 <= j < |s.c.peers| && j != i ::
          s'.c.peers[j] == s.c.peers[j] && s'.c.full[j] == s.c.full[j] && s'.start[j] == s.start[j])
    && s.c.peers[i].term <= s'.c.peers[i].term && s.acks <= s'.acks && s.c.sent <= s'.c.sent
    && (forall p | p in s'.c.sent && p !in s.c.sent :: leader(p.term) == i && p.term == s'.c.peers[i].term)
    && (forall x | x in s'.asked && x !in s.asked :: leader(x.0.term) == i && x.0 in s'.c.sent && x.1 != x.0.sender)
  }

  lemma OthersFramed(s: Net, s': Net, leader: Leaders, i: nat, j: nat)
    requires Acts(s, s', leader, i) && j < |s.c.peers| && j != i && IsLeader(s.c, leader, j)
    ensures Framed(s, s', j)
  {}

  lemma AssembleNet(s: Net, s': Net, leader: Leaders, i: nat)
    requires NetInv(s, leader) && Inv(s'.c, leader) && Acts(s, s', leader, i)
    requires IsLeader(s'.c, leader, i) ==> LeaderOk(s', i)
    requires forall a | a in s'.acks && a !in s.acks :: AckOk(s', a)
    ensures NetInv(s', leader)
  {
    hide Inv, LeaderOk;
    forall j | 0 <= j < |s'.c.peers| && IsLeader(s'.c, leader, j) ensures LeaderOk(s', j) {
      if j != i {
        OthersFramed(s, s', leader, i, j);
        FramedKeepsLeader(s, s', j);
      }
    }
  }

  lemma NetInvAt(s: Net, leader: Leaders, i: nat)
    requires NetInv(s, leader) && i < |s.c.peers|
    ensures Inv(s.c, leader) && |s.c.full| == |s.c.peers| == |s.start|
    ensures IsLeader(s.c, leader, i) ==> LeaderOk(s, i)
    ensures Retains(s.c.peers[i], s.c.full[i]) && Base(s.c.peers[i].log) <= s.c.peers[i].commit
    ensures forall p | p in s.c.sent :: PacketOk(leader, p) && p.term <= s.c.peers[leader(p.term)].term
  {
    InvAt(s.c, leader, i);
  }

  // ---------------------------------------------------------------- the steps

  lemma StartKeepsNet(s: Net, s': Net, leader: Leaders, i: nat, command: int)
    requires NetInv(s, leader) && Start(s, s', leader, i, command)
    ensures NetInv(s', leader)
  {
    NetInvAt(s, leader, i);
    StartKeepsInv(s.c, s'.c, leader, i, command);
    StartedLeader(s, s', leader, i, command);
    assert Acts(s, s', leader, i);
    hide *;
    AssembleNet(s, s', leader, i);
  }

  lemma StartedLeader(s: Net, s': Net, leader: Leaders, i: nat, command: int)
    requires |s.c.peers| == |s.c.full| == |s.start| && Start(s, s', leader, i, command) && LeaderOk(s, i)
    requires Retains(s.c.peers[i], s.c.full[i])
    ensures LeaderOk(s', i)
  {
    RetainsContiguous(s.c.peers[i], s.c.full[i]);
    hide Acked, Retains;
    assert forall term, j, n :: Acked(s', term, j, n) == Acked(s, term, j, n);
  }

  lemma SendKeepsNet(s: Net, s': Net, leader: Leaders, i: nat, j: nat, prev: nat)
    requires NetInv(s, leader) && Send(s, s', leader, i, j, prev)
    ensures NetInv(s', leader)
  {
    NetInvAt(s, leader, i);
    SendKeepsInv(s.c, s'.c, leader, i, prev);
    SendingLeader(s, s', leader, i, j, prev);
    assert Acts(s, s', leader, i);
    hide *;
    AssembleNet(s, s', leader, i);
  }

  lemma SendingLeader(s: Net, s': Net, leader: Leaders, i: nat, j: nat, prev: nat)
    requires |s.c.peers| == |s.c.full| == |s.start| && Send(s, s', leader, i, j, prev) && LeaderOk(s, i)
    ensures LeaderOk(s', i)
  {
    assert forall term, j, n :: Acked(s', term, j, n) == Acked(s, term, j, n);
    hide Acked;
    assert NextOk(s, i, s.c.peers[i].term, j, prev + 1);
  }

  lemma DeliverKeepsNet(s: Net, s': Net, leader: Leaders, i: nat, p: Packet)
    requires NetInv(s, leader) && Deliver(s, s', leader, i, p)
    ensures NetInv(s', leader)
  {
    NetInvAt(s, leader, i);
    assert SafeToTruncate(s.c, leader, i, p);
    assert PacketOk(leader, p);
    DeliverKeepsInv(s.c, s'.c, leader, i, p);
    AppendTerm(s.c.peers[i], Wire(p));
    assert Acts(s, s', leader, i);
    if IsLeader(s'.c, leader, i) {
      DeliveredLeader(s, s', leader, i, p);
      FramedKeepsLeader(s, s', i);
    }
    if OutcomeOf(s.c, i, p).Accepted? {
      AcceptedHolds(s.c, s'.c, leader, i, p);
    }
    hide Inv, Acts, LeaderOk, Appended, AppendOutcome, DeliverStep, SafeToTruncate, IsLeader;
    AssembleNet(s, s', leader, i);
  }

  lemma AppendTerm(q: Peer, a: AppendArgs)
    requires Contiguous(q.log)
    ensures q.term <= Appended(q, a).term && Appended(q, a).role == q.role
  {}

  /** A server that leads its term after handling a message has changed nothing. */
  lemma DeliveredLeader(s: Net, s': Net, leader: Leaders, i: nat, p: Packet)
    requires |s.c.peers| == |s.c.full| == |s.start| && Deliver(s, s', leader, i, p) && PacketOk(leader, p)
    requires IsLeader(s'.c, leader, i)
    ensures IsLeader(s.c, leader, i) && Framed(s, s', i)
  {}

  /** A server that accepts a message holds the sender's log up to its end, or had compacted past it. */
  lemma AcceptedHolds(c: Cluster, c': Cluster, leader: Leaders, i: nat, p: Packet)
    requires Inv(c, leader) && DeliverStep(c, c', i, p) && OutcomeOf(c, i, p).Accepted?
    ensures |c'.full| == |c.full| > i && (p.log <= c'.full[i] || |p.log| <= Base(c.peers[i].log))
  {
    InvAt(c, leader, i);
    assert HeldElsewhere(c, i, p.log);
    assert Agree(c.full[i], p.log);
    hide Inv, HeldElsewhere, Owned, Retains, Agree, Contiguous, AppendOutcome, Appended, AgreesOnBase;
    if OutcomeOf(c, i, p).log == c.peers[i].log && Base(c.peers[i].log) < |p.log| {
      CoveredIsHeld(c.peers[i], c.full[i], p);
    }
  }

  lemma CoveredIsHeld(q: Peer, xs: seq<Command>, p: Packet)
    requires Retains(q, xs) && Contiguous(q.log) && Agree(xs, p.log) && p.prev < |p.log| && Base(q.log) < |p.log|
    requires AppendOutcome(q.term, q.log, Wire(p)) == Accepted(q.log)
    ensures p.log <= xs
  {
    hide *;
    RetainsContiguous(q, xs);
    WireFields(p);
    EndTermOfWire(p);
    CoveredEnd(q, Wire(p));
    AgreeOnPrefix(xs, p.log, |p.log| - 1);
  }

  /** What is accepted without a change is in the log already, up to the last entry of the message. */
  lemma CoveredEnd(q: Peer, a: AppendArgs)
    requires Contiguous(q.log) && AppendOutcome(q.term, q.log, a) == Accepted(q.log)
    requires Base(q.log) <= a.prevIndex + |a.entries|
    ensures var end := a.prevIndex + |a.entries|; end <= Last(q.log) && q.log[LocalIndex(q.log, end)].term == EndTerm(a)
  {}

  lemma AgreeOnPrefix(xs: seq<Command>, ys: seq<Command>, n: nat)
    requires Agree(xs, ys) && n < |xs| && n == |ys| - 1 && xs[n].term == ys[n].term
    ensures ys <= xs
  {
    assert xs[..n + 1] == ys[..n + 1] == ys;
  }

  lemma ReplyKeepsNet(s: Net, s': Net, leader: Leaders, i: nat, a: Ack)
    requires NetInv(s, leader) && Reply(s, s', leader, i, a)
    ensures NetInv(s', leader)
  {
    NetInvAt(s, leader, i);
    assert AckOk(s, a);
    ReplyIsOther(s, s', leader, i, a);
    hide *;
    RepliedLeader(s, s', leader, i, a);
    OtherKeepsInv(s.c, s'.c, leader, i, Acknowledged(s.c.peers[i], a.server, |a.packet.log| - 1));
    AssembleNet(s, s', leader, i);
  }

  lemma ReplyIsOther(s: Net, s': Net, leader: Leaders, i: nat, a: Ack)
    requires Reply(s, s', leader, i, a) && |s.c.peers| == |s.c.full| == |s.start|
    requires Retains(s.c.peers[i], s.c.full[i]) && Base(s.c.peers[i].log) <= s.c.peers[i].commit
    ensures OtherStep(s.c, s'.c, i, Acknowledged(s.c.peers[i], a.server, |a.packet.log| - 1))
    ensures Acts(s, s', leader, i) && IsLeader(s.c, leader, i)
  {}

  /** The leader does not overrate a follower: its next index was at most where the term started, or
      acknowledged; and every message of the term reaches at least to the start. */
  lemma RepliedLeader(s: Net, s': Net, leader: Leaders, i: nat, a: Ack)
    requires |s.c.peers| == |s.c.full| == |s.start| && Reply(s, s', leader, i, a) && LeaderOk(s, i) && AckOk(s, a)
    ensures LeaderOk(s', i)
  {
    var q, term := s.c.peers[i], s.c.peers[i].term;
    assert forall term, j, n :: Acked(s', term, j, n) == Acked(s, term, j, n);
    assert Acked(s, term, a.server, |a.packet.log|);
    assert NextOk(s, i, term, a.server, q.nextIndex[a.server]);
    assert q.nextIndex[a.server] <= |a.packet.log| || Acked(s, term, a.server, q.nextIndex[a.server]);
    hide Acked, AckOk;
  }

  lemma RejectKeepsNet(s: Net, s': Net, leader: Leaders, i: nat, p: Packet, j: nat, next: int)
    requires NetInv(s, leader) && Reject(s, s', leader, i, p, j, next)
    ensures NetInv(s', leader)
  {
    NetInvAt(s, leader, i);
    var q := BackedOff(s.c.peers[i], j, next);
    assert OtherStep(s.c, s'.c, i, q);
    RejectedLeader(s, s', leader, i, p, j, next);
    assert Acts(s, s', leader, i);
    hide *;
    OtherKeepsInv(s.c, s'.c, leader, i, q);
    AssembleNet(s, s', leader, i);
  }

  lemma RejectedLeader(s: Net, s': Net, leader: Leaders, i: nat, p: Packet, j: nat, next: int)
    requires |s.c.peers| == |s.c.full| == |s.start| && Reject(s, s', leader, i, p, j, next) && LeaderOk(s, i)
    ensures LeaderOk(s', i)
  {
    assert forall term, j, n :: Acked(s', term, j, n) == Acked(s, term, j, n);
    assert NextOk(s, i, p.term, j, (p, j).0.prev + 1);
    assert Acked(s, p.term, j, p.prev + 1) ==> Acked(s, p.term, j, next);
    hide Acked;
  }

  lemma ElectKeepsNet(s: Net, s': Net, leader: Leaders, i: nat, q: Peer)
    requires NetInv(s, leader) && Elect(s, s', leader, i, q)
    ensures NetInv(s', leader)
  {
    NetInvAt(s, leader, i);
    RetainsContiguous(s.c.peers[i], s.c.full[i]);
    TestEffect(s.c.peers[i], |s.c.peers|);
    ElectedLeader(s, s', leader, i, q);
    assert Acts(s, s', leader, i);
    hide *;
    OtherKeepsInv(s.c, s'.c, leader, i, q);
    AssembleNet(s, s', leader, i);
  }

  lemma ElectedLeader(s: Net, s': Net, leader: Leaders, i: nat, q: Peer)
    requires NetInv(s, leader) && Elect(s, s', leader, i, q) && |s.c.full| == |s.c.peers|
    requires Last(s.c.peers[i].log) == |s.c.full[i]| - 1
    ensures LeaderOk(s', i)
  {
    TestEffect(s.c.peers[i], |s.c.peers|);
    assert forall x | x in s.asked :: x.0 in s.c.sent;
    hide Inv, Tested, OtherStep;
  }

  lemma OtherKeepsNet(s: Net, s': Net, leader: Leaders, i: nat, q: Peer)
    requires NetInv(s, leader) && Other(s, s', leader, i, q)
    ensures NetInv(s', leader)
  {
    NetInvAt(s, leader, i);
    assert Acts(s, s', leader, i);
    if IsLeader(s'.c, leader, i) {
      FramedKeepsLeader(s, s', i);
    }
    hide *;
    OtherKeepsInv(s.c, s'.c, leader, i, q);
    AssembleNet(s, s', leader, i);
  }

  lemma CompactKeepsNet(s: Net, s': Net, leader: Leaders, i: nat, index: int)
    requires NetInv(s, leader) && Compact(s, s', i, index)
    ensures NetInv(s', leader)
  {
    NetInvAt(s, leader, i);
    assert Acts(s, s', leader, i);
    if IsLeader(s'.c, leader, i) {
      FramedKeepsLeader(s, s', i);
    }
    hide *;
    CompactKeepsInv(s.c, s'.c, leader, i, index);
    AssembleNet(s, s', leader, i);
  }

  lemma StepKeepsNet(s: Net, s': Net, leader: Leaders)
    requires NetInv(s, leader) && Step(s, s', leader)
    ensures NetInv(s', leader)
  {
    hide NetInv, Start, Send, Deliver, Reply, Reject, Elect, Other, Compact;
    if i, command :| Start(s, s', leader, i, command) {
      StartKeepsNet(s, s', leader, i, command);
    } else if i, j, prev :| Send(s, s', leader, i, j, prev) {
      SendKeepsNet(s, s', leader, i, j, prev);
    } else if i, p :| Deliver(s, s', leader, i, p) {
      DeliverKeepsNet(s, s', leader, i, p);
    } else if i, a :| Reply(s, s', leader, i, a) {
      ReplyKeepsNet(s, s', leader, i, a);
    } else if i, p, j, next :| Reject(s, s', leader, i, p, j, next) {
      RejectKeepsNet(s, s', leader, i, p, j, next);
    } else if i, q :| Elect(s, s', leader, i, q) {
      ElectKeepsNet(s, s', leader, i, q);
    } else if i, q :| Other(s, s', leader, i, q) {
      OtherKeepsNet(s, s', leader, i, q);
    } else {
      var i, index :| Compact(s, s', i, index);
      CompactKeepsNet(s, s', leader, i, index);
    }
  }

  lemma BeginKeepsNet(s: Net, leader: Leaders)
    requires Begins(s, leader)
    ensures NetInv(s, leader)
  {
    InitialInv(s.c, leader);
    hide Inv;
  }

  lemma {:induction false} RunKeepsNet(run: seq<Net>, leader: Leaders, k: nat)
    requires IsNetRun(run, leader) && k < |run|
    ensures NetInv(run[k], leader)
  {
    hide NetInv, Step, Begins;
    if k == 0 {
      BeginKeepsNet(run[0], leader);
    } else {
      RunKeepsNet(run, leader, k - 1);
      StepKeepsNet(run[k - 1], run[k], leader);
    }
  }

  // ---------------------------------------------------------------- what a commit rests on

  /** Server `j` held the leader's entries up to index `r` when it replied in this term, or had compacted past
      that index. */
  ghost predicate HeldUpTo(s: Net, i: nat, j: nat, r: nat)
    requires i < |s.c.peers| == |s.c.full| && r < |s.c.full[i]|
  {
    exists a :: a in s.acks && a.server == j && a.packet.term == s.c.peers[i].term
                && (r < a.base || (r < |a.held| && a.held[..r + 1] == s.c.full[i][..r + 1]))
  }

  lemma MatchedIsHeld(s: Net, leader: Leaders, i: nat, j: nat, r: nat)
    requires NetInv(s, leader) && IsLeader(s.c, leader, i) && 0 < r
    requires j < |s.c.peers[i].matchIndex| && s.c.peers[i].matchIndex[j] >= r
    ensures |s.c.full| == |s.c.peers| && r < |s.c.full[i]| && j < |s.c.peers| && (j == i || HeldUpTo(s, i, j, r))
  {
    NetInvAt(s, leader, i);
    var m := s.c.peers[i].matchIndex[j];
    assert MatchOk(s, i, s.c.peers[i].term, j, m);
    if j != i {
      var a :| a in s.acks && a.packet.term == s.c.peers[i].term && a.server == j && m + 1 <= |a.packet.log|;
      assert AckOk(s, a);
      assert a.packet.log <= s.c.full[i];
      hide Inv, LeaderOk;
      var log := a.packet.log;
      assert log[..r + 1] == s.c.full[i][..r + 1];
      assert log <= a.held ==> a.held[..r + 1] == log[..r + 1];
    }
  }

  /** In every run, the value that `findMajority` returns to a leader is an index of its log up to which a
      majority of the servers, itself aside, held its entries when they replied in this term. */
  lemma MajorityHeldTheEntries(run: seq<Net>, leader: Leaders, k: nat, i: nat, r: nat)
    requires IsNetRun(run, leader) && k < |run| && IsLeader(run[k].c, leader, i)
    requires 0 < r && IsMajorityValue(run[k].c.peers[i].matchIndex, r)
    ensures var c := run[k].c;
      && |c.full| == |c.peers| && r < |c.full[i]|
      && exists q :: Majority(q, |c.peers|) && forall j | j in q :: j == i || HeldUpTo(run[k], i, j, r)
  {
    var s := run[k];
    RunKeepsNet(run, leader, k);
    NetInvAt(s, leader, i);
    var xs := s.c.peers[i].matchIndex;
    assert |xs| == |s.c.peers|;
    ReachingCount(xs, r);
    hide NetInv, Inv, LeaderOk, IsNetRun, HeldUpTo, IsLeader, Retains;
    var q := Reaching(xs, r);
    assert Majority(q, |xs|);
    forall j | j in q ensures r < |s.c.full[i]| && (j == i || HeldUpTo(s, i, j, r)) {
      MatchedIsHeld(s, leader, i, j, r);
    }
    var v :| v in q;
  }

  /** So `checkCommitIndex` looks up an entry that the leader retains. */
  lemma CommitCandidateIsRetained(run: seq<Net>, leader: Leaders, k: nat, i: nat, r: int)
    requires IsNetRun(run, leader) && k < |run| && IsLeader(run[k].c, leader, i)
    requires IsMajorityValue(run[k].c.peers[i].matchIndex, r) && r > run[k].c.peers[i].commit
    ensures var log := run[k].c.peers[i].log; Contiguous(log) && Base(log) <= r <= Last(log)
  {
    RunKeepsNet(run, leader, k);
    NetInvAt(run[k], leader, i);
    RetainsContiguous(run[k].c.peers[i], run[k].c.full[i]);
    hide NetInv, Inv, IsNetRun, IsLeader, Retains, HeldUpTo, IsMajorityValue, LeaderOk;
    MajorityHeldTheEntries(run, leader, k, i, r);
  }

  /** The majority behind index `r` of server `i`'s log. */
  ghost predicate MajorityHeld(s: Net, i: nat, r: int)
    requires i < |s.c.peers|
  {
    && |s.c.full| == |s.c.peers| && 0 <= r < |s.c.full[i]|
    && exists q :: Majority(q, |s.c.peers|) && forall j | j in q :: j == i || HeldUpTo(s, i, j, r)
  }

  lemma ReplyIsNext(s: Net, s': Net, leader: Leaders, i: nat, a: Ack)
    requires NetInv(s, leader) && Reply(s, s', leader, i, a)
    ensures |s'.c.peers| == |s.c.peers| && Next(s.c, s'.c, leader)
  {
    NetInvAt(s, leader, i);
    hide NetInv, Inv, LeaderOk;
    ReplyIsOther(s, s', leader, i, a);
  }

  lemma RejectIsNext(s: Net, s': Net, leader: Leaders, i: nat, p: Packet, j: nat, next: int)
    requires NetInv(s, leader) && Reject(s, s', leader, i, p, j, next)
    ensures |s'.c.peers| == |s.c.peers| && Next(s.c, s'.c, leader)
  {
    NetInvAt(s, leader, i);
    assert OtherStep(s.c, s'.c, i, BackedOff(s.c.peers[i], j, next));
  }

  lemma PlainStepIsNext(s: Net, s': Net, leader: Leaders)
    requires (exists i, command :: Start(s, s', leader, i, command)) || (exists i, j, prev :: Send(s, s', leader, i, j, prev))
      || (exists i, p :: Deliver(s, s', leader, i, p)) || (exists i, q :: Elect(s, s', leader, i, q))
      || (exists i, q :: Other(s, s', leader, i, q)) || (exists i, index :: Compact(s, s', i, index))
    ensures |s'.c.peers| == |s.c.peers| && Next(s.c, s'.c, leader)
  {
    hide AppendOutcome, Appended, IsMajorityValue, Started, Tested, Compacted;
  }

  lemma StepIsNext(s: Net, s': Net, leader: Leaders)
    requires NetInv(s, leader) && Step(s, s', leader)
    ensures |s'.c.peers| == |s.c.peers| && Next(s.c, s'.c, leader)
  {
    hide NetInv, Next, Start, Send, Deliver, Reply, Reject, Elect, Other, Compact;
    if i: nat, a :| Reply(s, s', leader, i, a) {
      ReplyIsNext(s, s', leader, i, a);
    } else if i: nat, p, j: nat, next :| Reject(s, s', leader, i, p, j, next) {
      RejectIsNext(s, s', leader, i, p, j, next);
    } else {
      PlainStepIsNext(s, s', leader);
    }
  }

  /** Whenever a commit index rises in a run, an accepted message announced it, or the majority rule gave it;
      and if the server leads its term, a majority held its entries up to there when they replied. */
  lemma EveryRiseIsBacked(run: seq<Net>, leader: Leaders, k: nat, i: nat)
    requires IsNetRun(run, leader) && k + 1 < |run| && i < |run[k].c.peers|
    ensures |run[k + 1].c.peers| == |run[k].c.peers| && RiseIsJustified(run[k].c, run[k + 1].c, i)
    ensures var before, after := run[k].c.peers[i].commit, run[k + 1].c.peers[i].commit;
      before < after && MajorityRule(run[k].c.peers[i], after) && IsLeader(run[k].c, leader, i) ==> MajorityHeld(run[k], i, after)
  {
    var s, s' := run[k], run[k + 1];
    RunKeepsNet(run, leader, k);
    assert Step(s, s', leader);
    hide Step, IsNetRun, RiseIsJustified, Next;
    StepIsNext(s, s', leader);
    EveryRise(s.c, s'.c, leader, i);
    NetInvAt(s, leader, i);
    var r := s'.c.peers[i].commit;
    if s.c.peers[i].commit < r && MajorityRule(s.c.peers[i], r) && IsLeader(s.c, leader, i) {
      RetainsContiguous(s.c.peers[i], s.c.full[i]);
      hide NetInv, Inv, LeaderOk, Retains, IsLeader, HeldUpTo;
      MajorityHeldTheEntries(run, leader, k, i, r);
    }
  }

  /** A rejection leaves the next index strictly below the one its message was built from, so a retry starts
      from an earlier entry. */
  lemma RejectionBacksOff(s: Net, s': Net, leader: Leaders, i: nat, p: Packet, j: nat, next: int)
    requires Reject(s, s', leader, i, p, j, next)
    ensures i < |s'.c.peers| && j < |s'.c.peers[i].nextIndex| && s'.c.peers[i].nextIndex[j] < p.prev + 1
    ensures forall l | 0 <= l < |s'.c.peers[i].nextIndex| && l != j ::
      l < |s.c.peers[i].nextIndex| && s'.c.peers[i].nextIndex[l] == s.c.peers[i].nextIndex[l]
    ensures s'.c.peers[i].matchIndex == s.c.peers[i].matchIndex && s'.c.peers[i].log == s.c.peers[i].log
  {}

  // ---------------------------------------------------------------- a leader that is cut

  /** What the leader believes to be replicated is in its log and was held by the server in question. */
  ghost predicate MatchesHold(s: Net, i: nat)
    requires i < |s.c.peers| == |s.c.full|
  {
    forall j, r: nat | 0 <= j < |s.c.peers[i].matchIndex| && 0 < r <= s.c.peers[i].matchIndex[j] ::
      MatchHolds(s, i, j, r)
  }

  ghost predicate MatchHolds(s: Net, i: nat, j: nat, r: nat)
    requires i < |s.c.peers| == |s.c.full|
  {
    r < |s.c.full[i]| && (j == i || HeldUpTo(s, i, j, r))
  }

  lemma CutHolds(s: Net, s': Net, i: nat, j: nat, r: nat, n: nat)
    requires i < |s.c.peers| == |s.c.full| == |s'.c.peers| == |s'.c.full| && s'.acks == s.acks
    requires s'.c.peers[i].term == s.c.peers[i].term && n <= |s.c.full[i]| && s'.c.full[i] == s.c.full[i][..n]
    requires MatchHolds(s, i, j, r) && r < n
    ensures MatchHolds(s', i, j, r)
  {
    assert s'.c.full[i][..r + 1] == s.c.full[i][..r + 1];
  }

  /** When a mismatch cuts a leader, its MatchIndex stays right exactly when the cut lies above all of it. */
  lemma CutKeepsMatchesIff(s: Net, s': Net, leader: Leaders, i: nat, p: Packet)
    requires NetInv(s, leader) && IsLeader(s.c, leader, i) && DeliverStep(s.c, s'.c, i, p) && s' == s.(c := s'.c)
    requires OutcomeOf(s.c, i, p).Mismatch?
    ensures |s'.c.peers| == |s'.c.full| == |s.c.peers|
    ensures MatchesHold(s', i) <==> forall j | 0 <= j < |s.c.peers[i].matchIndex| :: s.c.peers[i].matchIndex[j] < p.prev
  {
    NetInvAt(s, leader, i);
    TruncatedByDelivery(s.c, s'.c, leader, i, p);
    MismatchIsInside(s.c, leader, i, p);
    RetainsContiguous(s.c.peers[i], s.c.full[i]);
    CutIndices(s.c, s'.c, i, p);
    hide NetInv, Inv, DeliverStep, OutcomeOf, AppendOutcome, Retains, IsLeader, HeldUpTo, LeaderOk, Contiguous;
    var xs := s.c.peers[i].matchIndex;
    if forall j | 0 <= j < |xs| :: xs[j] < p.prev {
      forall j, r: nat | 0 <= j < |xs| && 0 < r <= xs[j] ensures MatchHolds(s', i, j, r) {
        MatchedIsHeld(s, leader, i, j, r);
        CutHolds(s, s', i, j, r, p.prev);
      }
    } else {
      var j :| 0 <= j < |xs| && xs[j] >= p.prev;
      assert !MatchHolds(s', i, j, xs[j]);
    }
  }

  lemma CutIndices(c: Cluster, c': Cluster, i: nat, p: Packet)
    requires DeliverStep(c, c', i, p) && OutcomeOf(c, i, p).Mismatch? && p.prev <= |c.full[i]|
    ensures i < |c.peers| == |c'.peers| == |c'.full| && c'.peers[i].matchIndex == c.peers[i].matchIndex
    ensures c'.full[i] == c.full[i][..p.prev]
  {}
}
