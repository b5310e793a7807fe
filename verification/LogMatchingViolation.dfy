/** Three concrete runs in which the mismatch branch (src/raft/raft.go:412-418) does harm although each
    term has one appending and sending server: it shortens a leader's log inside its own term, after
    which Log Matching can be lost; it empties a compacted log; and it cuts committed entries, after which
    a commit index falls. Entries are committed once two of the three servers hold them. That a server
    without them leads the next term is what stale votes can lead to (see LeaderRace). */
module LogMatchingViolation {
  import opened Raft
  import opened LogMatching
  import opened Quorum

  /** Server 0 leads terms 1 and 4; server 1 leads every other term. */
  const LEADER: Leaders := t => if t == 1 || t == 4 then 0 else 1

  function MakePeer(me: nat, role: Role, term: int, log: seq<Command>): Peer {
    Peer(me, role, term, NOBODY, 0, log, 0, 0, [1, 1, 1], [0, 0, 0])
  }

  const X: Command := Command(1, 7, 1)
  const Y: Command := Command(1, 8, 2)

  /** Server 0's message carrying X, and server 1's first heartbeat of term 3. */
  const FIRST: Packet := Packet(1, 0, [SENTINEL, X], 0, 0)
  const SECOND: Packet := Packet(3, 1, [SENTINEL, Y], 1, 0)

  /** Server 0, leader of term 1, has appended X and sent it. Server 1 has appended Y as leader of term 2,
      was elected again in term 3 and has sent its first heartbeat. Server 2 has seen nothing. */
  function Before(zero: Peer, one: Peer): Cluster {
    Cluster([zero, one, MakePeer(2, Follower, 0, [SENTINEL])],
            [[SENTINEL, X], [SENTINEL, Y], [SENTINEL]], {FIRST, SECOND})
  }

  function Zero(): Peer {
    Peer(0, Leader, 1, NOBODY, 0, [SENTINEL, X], 0, 0, [2, 1, 1], [1, 0, 0])
  }

  function One(): Peer {
    Peer(1, Leader, 3, NOBODY, 0, [SENTINEL, Y], 0, 0, [1, 2, 1], [0, 1, 0])
  }

  function Start0(): Cluster {
    Cluster([MakePeer(0, Follower, 0, [SENTINEL]), MakePeer(1, Follower, 0, [SENTINEL]), MakePeer(2, Follower, 0, [SENTINEL])],
            [[SENTINEL], [SENTINEL], [SENTINEL]], {})
  }

  /** The harmless steps up to there, all of them covered by the theorem. */
  function Prefix(): seq<Cluster> {
    var two, s := MakePeer(2, Follower, 0, [SENTINEL]), [SENTINEL];
    var one0 := MakePeer(1, Follower, 0, [SENTINEL]);
    [ Start0(),
      Cluster([MakePeer(0, Leader, 1, s), one0, two], [s, s, s], {}),
      Cluster([Zero(), one0, two], [[SENTINEL, X], s, s], {}),
      Cluster([Zero(), one0, two], [[SENTINEL, X], s, s], {FIRST}),
      Cluster([Zero(), MakePeer(1, Leader, 2, s), two], [[SENTINEL, X], s, s], {FIRST}),
      Cluster([Zero(), One().(term := 2), two], [[SENTINEL, X], [SENTINEL, Y], s], {FIRST}),
      Cluster([Zero(), One(), two], [[SENTINEL, X], [SENTINEL, Y], s], {FIRST}),
      Before(Zero(), One()) ]
  }

  lemma StartsOfTheRun()
    ensures Started(MakePeer(0, Leader, 1, [SENTINEL]), 7) == Zero()
    ensures Started(MakePeer(1, Leader, 2, [SENTINEL]), 8) == One().(term := 2)
  {}

  lemma FirstHalf()
    ensures var r := Prefix();
      Next(r[0], r[1], LEADER) && Next(r[1], r[2], LEADER) && Next(r[2], r[3], LEADER)
  {
    var r := Prefix();
    StartsOfTheRun();
    assert [SENTINEL] + [X] == [SENTINEL, X];
    assert OtherStep(r[0], r[1], 0, MakePeer(0, Leader, 1, [SENTINEL]));
    assert StartStep(r[1], r[2], LEADER, 0, 7);
    assert SendStep(r[2], r[3], LEADER, 0, 0);
  }

  lemma SecondHalf()
    ensures var r := Prefix();
      Next(r[3], r[4], LEADER) && Next(r[4], r[5], LEADER) && Next(r[5], r[6], LEADER) && Next(r[6], r[7], LEADER)
  {
    var r := Prefix();
    StartsOfTheRun();
    assert [SENTINEL] + [Y] == [SENTINEL, Y];
    assert OtherStep(r[3], r[4], 1, MakePeer(1, Leader, 2, [SENTINEL]));
    assert StartStep(r[4], r[5], LEADER, 1, 8);
    assert OtherStep(r[5], r[6], 1, One());
    assert SendStep(r[6], r[7], LEADER, 1, 1);
  }

  lemma PrefixIsRun()
    ensures IsRun(Prefix(), LEADER)
  {
    FirstHalf();
    SecondHalf();
    hide Next;
    var r := Prefix();
    forall k | 0 <= k < |r| - 1 ensures Next(r[k], r[k + 1], LEADER) {
      assert k in {0, 1, 2, 3, 4, 5, 6};
    }
  }

  /** Delivering the heartbeat empties server 0's log but leaves it leader of term 1. */
  function After(): Cluster {
    Before(Zero(), One()).(peers := [Zero().(log := [SENTINEL]), One(), MakePeer(2, Follower, 0, [SENTINEL])],
                           full := [[SENTINEL], [SENTINEL, Y], [SENTINEL]])
  }

  lemma HeartbeatTruncates()
    ensures DeliverStep(Before(Zero(), One()), After(), 0, SECOND)
    ensures Contiguous(Zero().log) && OutcomeOf(Before(Zero(), One()), 0, SECOND).Mismatch?
  {
    assert Wire(SECOND).entries == [];
    assert AppendOutcome(1, Zero().log, Wire(SECOND)) == Mismatch(1);
    assert Zero().log[..1] == [SENTINEL];
    assert [SENTINEL, X][..1] == [SENTINEL];
  }

  /** Then server 0 appends another command at index 1 of term 1, while its old message still carries X. */
  lemma LogMatchingIsLost()
    ensures exists run, c' ::
      && IsRun(run, LEADER) && DeliverStep(run[|run| - 1], c', 0, SECOND)
      && !AlwaysMatches(c', LEADER)
  {
    PrefixIsRun();
    HeartbeatTruncates();
    var c := Before(Zero(), One());
    var run := Prefix();
    assert run[|run| - 1] == c;
    RunKeepsInv(run, LEADER, |run| - 1);
    assert HeldElsewhere(c, 0, FIRST.log) by {
      assert FIRST in c.sent;
    }
    assert FIRST.log[1].term == 1;
    hide IsRun, Inv, DeliverStep, AlwaysMatches, HeldElsewhere, OutcomeOf;
    UnsafeTruncationBreaks(c, After(), LEADER, 0, SECOND, FIRST.log, 1);
  }

  // ---------------------------------------------------------------- replicating and committing X

  lemma ExtendRun(run: seq<Cluster>, c: Cluster)
    requires IsRun(run, LEADER) && Next(run[|run| - 1], c, LEADER)
    ensures IsRun(run + [c], LEADER)
  {
    hide Next;
  }

  /** A run that ends in `c`. */
  ghost predicate Reaches(c: Cluster) {
    exists run :: IsRun(run, LEADER) && run[|run| - 1] == c
  }

  lemma ReachesNext(c: Cluster, c': Cluster)
    requires Reaches(c) && Next(c, c', LEADER)
    ensures Reaches(c')
  {
    var run :| IsRun(run, LEADER) && run[|run| - 1] == c;
    hide Next, IsRun;
    ExtendRun(run, c');
    assert (run + [c'])[|run|] == c';
  }

  function Two(log: seq<Command>, commit: int): Peer {
    MakePeer(2, Follower, 1, log).(commit := commit)
  }

  /** Server 0 has sent X to server 2, which has taken it; two of three servers hold it. */
  function Replicated(): Cluster {
    Cluster([Zero(), MakePeer(1, Follower, 0, [SENTINEL]), Two([SENTINEL, X], 0)],
            [[SENTINEL, X], [SENTINEL], [SENTINEL, X]], {FIRST})
  }

  lemma SentIsReached()
    ensures Reaches(Prefix()[3])
  {
    PrefixIsRun();
    var run := Prefix()[..4];
    hide Next;
    assert IsRun(run, LEADER) && run[|run| - 1] == Prefix()[3];
  }

  lemma ReplicatedByDelivery()
    ensures Next(Prefix()[3], Replicated(), LEADER)
  {
    var c, two := Prefix()[3], MakePeer(2, Follower, 0, [SENTINEL]);
    assert Wire(FIRST) == AppendArgs(1, 0, 0, 0, [X], 0);
    assert [SENTINEL][..1] + [X] == [SENTINEL, X];
    assert Appended(two, Wire(FIRST)) == Two([SENTINEL, X], 0);
    assert FullAfter(c, 2, FIRST) == [SENTINEL, X];
    assert DeliverStep(c, Replicated(), 2, FIRST);
  }

  lemma ReplicatedIsReached()
    ensures Reaches(Replicated())
  {
    SentIsReached();
    ReplicatedByDelivery();
    assert |Prefix()| > 3;
    hide *;
    ReachesNext(Prefix()[3], Replicated());
  }

  lemma MajorityOfTwo(r: int)
    requires r > 0
    ensures IsMajorityValue([r, 0, r], r)
  {
    hide CountAtLeast;
    forall v ensures CountAtLeast([r, 0, r], v) == (if v <= r then 2 else 0) + if v <= 0 then 1 else 0 {
      CountOfThree(r, v);
    }
  }

  lemma CountOfThree(r: int, v: int)
    ensures CountAtLeast([r, 0, r], v) == (if v <= r then 2 else 0) + if v <= 0 then 1 else 0
  {
    assert [r, 0, r] == [r, 0] + [r] && [r, 0] == [r] + [0];
    CountConcat([r, 0], [r], v);
    CountConcat([r], [0], v);
    assert [r][..0] == [] && [0][..0] == [];
  }

  /** Server 0 leads term 1 and knows that server 2 has X. */
  function Informed(log: seq<Command>): Peer {
    Peer(0, Leader, 1, NOBODY, 0, log, 0, 0, [2, 1, 2], [1, 0, 1])
  }

  function Known(): Cluster {
    Replicated().(peers := Replicated().peers[0 := Informed([SENTINEL, X])])
  }

  lemma ReplyInforms()
    ensures Acknowledged(Zero(), 2, 1) == Informed([SENTINEL, X]) && Next(Replicated(), Known(), LEADER)
  {
    assert OtherStep(Replicated(), Known(), 0, Informed([SENTINEL, X]));
  }

  lemma KnownIsReached()
    ensures Reaches(Known())
  {
    hide *;
    ReplicatedIsReached();
    ReplyInforms();
    ReachesNext(Replicated(), Known());
  }

  /** Server 0 has committed X: a majority has acknowledged it in this term. */
  function Committed(): Cluster {
    Known().(peers := Known().peers[0 := Informed([SENTINEL, X]).(commit := 1)])
  }

  lemma CommitX()
    ensures Next(Known(), Committed(), LEADER)
  {
    MajorityOfTwo(1);
    hide IsMajorityValue;
    assert MajorityRule(Informed([SENTINEL, X]), 1);
    assert OtherStep(Known(), Committed(), 0, Informed([SENTINEL, X]).(commit := 1));
  }

  lemma CommittedIsReached()
    ensures Reaches(Committed())
  {
    hide *;
    KnownIsReached();
    CommitX();
    ReachesNext(Known(), Committed());
  }

  /** Server 1's first heartbeat of term 2, right behind Y. */
  const AT_ONE: Packet := Packet(2, 1, [SENTINEL, Y], 1, 0)

  /** Server 1 leads term 2, has appended Y and sent its heartbeat. */
  function WithOtherLeader(c: Cluster): Cluster
    requires |c.peers| == |c.full| == 3
  {
    Cluster(c.peers[1 := One().(term := 2)], c.full[1 := [SENTINEL, Y]], c.sent + {AT_ONE})
  }

  lemma OtherLeaderIsReached(c: Cluster)
    requires Reaches(c) && |c.peers| == |c.full| == 3
    requires c.peers[1] == MakePeer(1, Follower, 0, [SENTINEL]) && c.full[1] == [SENTINEL]
    ensures Reaches(WithOtherLeader(c))
  {
    var q := MakePeer(1, Leader, 2, [SENTINEL]);
    var c1 := c.(peers := c.peers[1 := q]);
    var c2 := c1.(peers := c1.peers[1 := One().(term := 2)], full := c.full[1 := [SENTINEL, Y]]);
    StartsOfTheRun();
    assert [SENTINEL] + [Y] == [SENTINEL, Y];
    assert OtherStep(c, c1, 1, q);
    assert StartStep(c1, c2, LEADER, 1, 8);
    assert SendStep(c2, WithOtherLeader(c), LEADER, 1, 1);
    assert Next(c, c1, LEADER) && Next(c1, c2, LEADER) && Next(c2, WithOtherLeader(c), LEADER);
    hide Next, Reaches, WithOtherLeader;
    ReachesNext(c, c1);
    ReachesNext(c1, c2);
    ReachesNext(c2, WithOtherLeader(c));
  }

  // ---------------------------------------------------------------- an emptied log

  /** Server 0 after committing X and compacting up to it. */
  function Compact(): Peer {
    Informed([X]).(commit := 1)
  }

  function Compacting(): Cluster {
    Committed().(peers := Committed().peers[0 := Compact()])
  }

  lemma CompactingStep()
    ensures Next(Committed(), Compacting(), LEADER)
  {
    assert [SENTINEL, X][1..] == [X];
    assert CompactStep(Committed(), Compacting(), 0, 1);
  }

  lemma CompactingShape()
    ensures var c := Compacting();
      && |c.peers| == |c.full| == 3
      && c.peers[1] == MakePeer(1, Follower, 0, [SENTINEL]) && c.full[1] == [SENTINEL]
    ensures var c := WithOtherLeader(Compacting()); c.peers != [] && c.peers[0] == Compact() && AT_ONE in c.sent
  {}

  lemma HeartbeatAtBase()
    ensures Contiguous(Compact().log) && WellNumbered(Wire(AT_ONE)) && !AgreesOnBase(Compact().log, Wire(AT_ONE))
    ensures Appended(Compact(), Wire(AT_ONE)).log == []
  {
    assert Wire(AT_ONE) == AppendArgs(2, 1, 1, 2, [], 0);
  }

  /** A run ends with a message in flight that contradicts server 0's base entry, and handling it leaves
      server 0 with no log at all. */
  lemma CompactedLogIsEmptied() returns (c: Cluster)
    ensures Reaches(c) && AT_ONE in c.sent && c.peers != []
    ensures Contiguous(c.peers[0].log) && Appended(c.peers[0], Wire(AT_ONE)).log == []
  {
    CompactingShape();
    hide *;
    c := WithOtherLeader(Compacting());
    CommittedIsReached();
    CompactingStep();
    ReachesNext(Committed(), Compacting());
    OtherLeaderIsReached(Compacting());
    HeartbeatAtBase();
  }

  // ---------------------------------------------------------------- a falling commit index

  const W: Command := Command(2, 5, 1)

  /** Server 0's message carrying W and the commit of X. */
  const THIRD: Packet := Packet(1, 0, [SENTINEL, X, W], 1, 1)

  /** Server 0's first heartbeat of term 4, with nothing but the sentinel and commit index 2. */
  const LAST: Packet := Packet(4, 0, [SENTINEL], 0, 2)

  /** Server 0 after appending W; `known` tells whether server 2 has acknowledged it. */
  function ZeroWith(role: Role, term: int, log: seq<Command>, commit: int, known: bool): Peer {
    Peer(0, role, term, NOBODY, 0, log, commit, 0, [3, 1, if known then 3 else 2], [2, 0, if known then 2 else 1])
  }

  /** Two servers hold X and W; server 0 has committed both and stepped down, server 2 has committed X. */
  function BothCommitted(): Cluster {
    Cluster([ZeroWith(Follower, 1, [SENTINEL, X, W], 2, true), MakePeer(1, Follower, 0, [SENTINEL]), Two([SENTINEL, X, W], 1)],
            [[SENTINEL, X, W], [SENTINEL], [SENTINEL, X, W]], {FIRST, THIRD})
  }

  /** W appended and sent by server 0. */
  function Appending(zero: Peer, sent: set<Packet>): Cluster {
    Cluster([zero, MakePeer(1, Follower, 0, [SENTINEL]), Two([SENTINEL, X], 0)],
            [[SENTINEL, X, W], [SENTINEL], [SENTINEL, X]], sent)
  }

  lemma AppendAndSendW()
    ensures var zero := ZeroWith(Leader, 1, [SENTINEL, X, W], 1, false);
      && Next(Committed(), Appending(zero, {FIRST}), LEADER)
      && Next(Appending(zero, {FIRST}), Appending(zero, {FIRST, THIRD}), LEADER)
  {
    var zero := ZeroWith(Leader, 1, [SENTINEL, X, W], 1, false);
    assert [SENTINEL, X] + [W] == [SENTINEL, X, W];
    assert Started(Informed([SENTINEL, X]).(commit := 1), 5) == zero;
    assert StartStep(Committed(), Appending(zero, {FIRST}), LEADER, 0, 5);
    assert {FIRST} + {THIRD} == {FIRST, THIRD};
    assert SendStep(Appending(zero, {FIRST}), Appending(zero, {FIRST, THIRD}), LEADER, 0, 1);
  }

  /** What server 2 holds after taking W, with server 0 as given. */
  function Taken(zero: Peer): Cluster {
    BothCommitted().(peers := BothCommitted().peers[0 := zero])
  }

  lemma TakeW()
    ensures var zero := ZeroWith(Leader, 1, [SENTINEL, X, W], 1, false);
      Next(Appending(zero, {FIRST, THIRD}), Taken(zero), LEADER)
  {
    var zero := ZeroWith(Leader, 1, [SENTINEL, X, W], 1, false);
    var c := Appending(zero, {FIRST, THIRD});
    assert Wire(THIRD) == AppendArgs(1, 0, 1, 1, [W], 1);
    assert [SENTINEL, X][..2] + [W] == [SENTINEL, X, W];
    assert Appended(Two([SENTINEL, X], 0), Wire(THIRD)) == Two([SENTINEL, X, W], 1);
    assert FullAfter(c, 2, THIRD) == [SENTINEL, X, W];
    assert DeliverStep(c, Taken(zero), 2, THIRD);
  }

  /** Server 2 acknowledges W, and server 0 commits it and steps down. */
  lemma CommitW()
    ensures var zero, known := ZeroWith(Leader, 1, [SENTINEL, X, W], 1, false), ZeroWith(Leader, 1, [SENTINEL, X, W], 1, true);
      && Acknowledged(zero, 2, 2) == known
      && Next(Taken(zero), Taken(known), LEADER) && Next(Taken(known), Taken(known.(commit := 2)), LEADER)
      && Next(Taken(known.(commit := 2)), BothCommitted(), LEADER)
  {
    var zero, known := ZeroWith(Leader, 1, [SENTINEL, X, W], 1, false), ZeroWith(Leader, 1, [SENTINEL, X, W], 1, true);
    MajorityOfTwo(2);
    hide IsMajorityValue;
    assert known.matchIndex == [2, 0, 2];
    assert MajorityRule(known, 2);
    assert OtherStep(Taken(zero), Taken(known), 0, known);
    assert OtherStep(Taken(known), Taken(known.(commit := 2)), 0, known.(commit := 2));
    assert OtherStep(Taken(known.(commit := 2)), BothCommitted(), 0, ZeroWith(Follower, 1, [SENTINEL, X, W], 2, true));
  }

  lemma BothCommittedIsReached()
    ensures Reaches(BothCommitted())
  {
    var zero, known := ZeroWith(Leader, 1, [SENTINEL, X, W], 1, false), ZeroWith(Leader, 1, [SENTINEL, X, W], 1, true);
    CommittedIsReached();
    AppendAndSendW();
    TakeW();
    CommitW();
    hide *;
    ReachesNext(Committed(), Appending(zero, {FIRST}));
    ReachesNext(Appending(zero, {FIRST}), Appending(zero, {FIRST, THIRD}));
    ReachesNext(Appending(zero, {FIRST, THIRD}), Taken(zero));
    ReachesNext(Taken(zero), Taken(known));
    ReachesNext(Taken(known), Taken(known.(commit := 2)));
    ReachesNext(Taken(known.(commit := 2)), BothCommitted());
  }

  /** Server 1's heartbeat cuts both logs behind the sentinel; the commit indices stay. */
  function Cut(zero: Peer, log0: seq<Command>, two: Peer, log2: seq<Command>, sent: set<Packet>): Cluster {
    Cluster([zero, One().(term := 2), two], [log0, [SENTINEL, Y], log2], sent)
  }

  const IN_FLIGHT: set<Packet> := {FIRST, THIRD, AT_ONE}

  lemma CutPeer(q: Peer)
    requires q.term == 1 && q.log == [SENTINEL, X, W]
    ensures Contiguous(q.log) && AppendOutcome(q.term, q.log, Wire(AT_ONE)) == Mismatch(1)
    ensures Appended(q, Wire(AT_ONE)) == q.(log := [SENTINEL]) && AgreesOnBase(q.log, Wire(AT_ONE))
  {
    assert Wire(AT_ONE) == AppendArgs(2, 1, 1, 2, [], 0);
    assert [SENTINEL, X, W][..1] == [SENTINEL];
  }

  lemma CutBoth()
    ensures var zero, two, long := ZeroWith(Follower, 1, [SENTINEL, X, W], 2, true), Two([SENTINEL, X, W], 1), [SENTINEL, X, W];
      && WithOtherLeader(BothCommitted()) == Cut(zero, long, two, long, IN_FLIGHT)
      && Next(Cut(zero, long, two, long, IN_FLIGHT),
              Cut(zero.(log := [SENTINEL]), [SENTINEL], two, long, IN_FLIGHT), LEADER)
      && Next(Cut(zero.(log := [SENTINEL]), [SENTINEL], two, long, IN_FLIGHT),
              Cut(zero.(log := [SENTINEL]), [SENTINEL], two.(log := [SENTINEL]), [SENTINEL], IN_FLIGHT), LEADER)
  {
    var zero, two, long := ZeroWith(Follower, 1, [SENTINEL, X, W], 2, true), Two([SENTINEL, X, W], 1), [SENTINEL, X, W];
    var c := Cut(zero, long, two, long, IN_FLIGHT);
    var c1 := Cut(zero.(log := [SENTINEL]), [SENTINEL], two, long, IN_FLIGHT);
    var c2 := Cut(zero.(log := [SENTINEL]), [SENTINEL], two.(log := [SENTINEL]), [SENTINEL], IN_FLIGHT);
    CutPeer(zero);
    CutPeer(two);
    assert long[..1] == [SENTINEL];
    assert {FIRST, THIRD} + {AT_ONE} == IN_FLIGHT;
    hide Appended, AppendOutcome, AgreesOnBase;
    assert DeliverStep(c, c1, 0, AT_ONE) && DeliverStep(c1, c2, 2, AT_ONE);
  }

  lemma LeadAgain()
    ensures var zero, two := ZeroWith(Follower, 1, [SENTINEL], 2, true), Two([SENTINEL], 1);
      var lead := zero.(role := Leader, term := 4);
      && Next(Cut(zero, [SENTINEL], two, [SENTINEL], IN_FLIGHT), Cut(lead, [SENTINEL], two, [SENTINEL], IN_FLIGHT), LEADER)
      && Next(Cut(lead, [SENTINEL], two, [SENTINEL], IN_FLIGHT),
              Cut(lead, [SENTINEL], two, [SENTINEL], IN_FLIGHT + {LAST}), LEADER)
  {
    var zero, two := ZeroWith(Follower, 1, [SENTINEL], 2, true), Two([SENTINEL], 1);
    var lead := zero.(role := Leader, term := 4);
    assert OtherStep(Cut(zero, [SENTINEL], two, [SENTINEL], IN_FLIGHT), Cut(lead, [SENTINEL], two, [SENTINEL], IN_FLIGHT), 0, lead);
    assert SendStep(Cut(lead, [SENTINEL], two, [SENTINEL], IN_FLIGHT),
                    Cut(lead, [SENTINEL], two, [SENTINEL], IN_FLIGHT + {LAST}), LEADER, 0, 0);
  }

  lemma HeartbeatLowersCommit()
    ensures Contiguous([SENTINEL]) && Appended(Two([SENTINEL], 1), Wire(LAST)).commit == 0
  {
    assert Wire(LAST) == AppendArgs(4, 0, 0, 0, [], 2);
  }

  /** A run ends with a message in flight that lowers server 2's commit index from 1 to 0. */
  lemma CommitFallsInRun() returns (c: Cluster)
    ensures Reaches(c) && LAST in c.sent && |c.peers| == 3 && Contiguous(c.peers[2].log)
    ensures c.peers[2].commit == 1 && Appended(c.peers[2], Wire(LAST)).commit == 0
  {
    var zero, two, long := ZeroWith(Follower, 1, [SENTINEL, X, W], 2, true), Two([SENTINEL, X, W], 1), [SENTINEL, X, W];
    var cut0, cut2 := ZeroWith(Follower, 1, [SENTINEL], 2, true), Two([SENTINEL], 1);
    var lead := cut0.(role := Leader, term := 4);
    BothCommittedIsReached();
    CutBoth();
    LeadAgain();
    HeartbeatLowersCommit();
    c := Cut(lead, [SENTINEL], cut2, [SENTINEL], IN_FLIGHT + {LAST});
    hide Reaches, Next, Appended, Contiguous, Wire;
    OtherLeaderIsReached(BothCommitted());
    ReachesNext(Cut(zero, long, two, long, IN_FLIGHT), Cut(cut0, [SENTINEL], two, long, IN_FLIGHT));
    ReachesNext(Cut(cut0, [SENTINEL], two, long, IN_FLIGHT), Cut(cut0, [SENTINEL], cut2, [SENTINEL], IN_FLIGHT));
    ReachesNext(Cut(cut0, [SENTINEL], cut2, [SENTINEL], IN_FLIGHT), Cut(lead, [SENTINEL], cut2, [SENTINEL], IN_FLIGHT));
    ReachesNext(Cut(lead, [SENTINEL], cut2, [SENTINEL], IN_FLIGHT), c);
  }

  // ---------------------------------------------------------------- a commit that nobody else holds

  lemma HeartbeatCutsLeader(q: Peer)
    requires q.term == 1 && q.log == [SENTINEL, X]
    ensures Contiguous(q.log) && AppendOutcome(q.term, q.log, Wire(AT_ONE)) == Mismatch(1)
    ensures Appended(q, Wire(AT_ONE)) == q.(log := [SENTINEL]) && AgreesOnBase(q.log, Wire(AT_ONE))
  {
    assert Wire(AT_ONE) == AppendArgs(2, 1, 1, 2, [], 0);
    assert [SENTINEL, X][..1] == [SENTINEL];
  }

  function KnownCut(): Cluster {
    Cluster([Informed([SENTINEL]), One().(term := 2), Two([SENTINEL, X], 0)],
            [[SENTINEL], [SENTINEL, Y], [SENTINEL, X]], {FIRST, AT_ONE})
  }

  function KnownBefore(): Cluster {
    Cluster([Informed([SENTINEL, X]), One().(term := 2), Two([SENTINEL, X], 0)],
            [[SENTINEL, X], [SENTINEL, Y], [SENTINEL, X]], {FIRST, AT_ONE})
  }

  lemma KnownWithLeader()
    ensures WithOtherLeader(Known()) == KnownBefore()
  {
    assert {FIRST} + {AT_ONE} == {FIRST, AT_ONE};
  }

  lemma LeaderIsCut()
    ensures DeliverStep(KnownBefore(), KnownCut(), 0, AT_ONE)
  {
    var c, q := KnownBefore(), Informed([SENTINEL, X]);
    HeartbeatCutsLeader(q);
    assert c.peers[0] == q && AT_ONE in c.sent;
    assert OutcomeOf(c, 0, AT_ONE) == Mismatch(1);
    assert FullAfter(c, 0, AT_ONE) == [SENTINEL] by {
      assert [SENTINEL, X][..1] == [SENTINEL];
    }
    hide Appended, AppendOutcome, AgreesOnBase, Contiguous, Wire, FullAfter, OutcomeOf;
    assert KnownCut().peers == c.peers[0 := q.(log := [SENTINEL])];
    assert KnownCut().full == c.full[0 := [SENTINEL]];
  }

  /** `q` finds a majority for index `r` in its own term, where `other` holds another entry of that term. */
  ghost predicate CommitsUnheld(q: Peer, other: Peer, r: nat) {
    && IsMajorityValue(q.matchIndex, r) && q.commit < r && r < |q.log| && r < |other.log|
    && q.log[r].index == other.log[r].index == r && q.log[r].term == other.log[r].term == q.term
    && q.log[r] != other.log[r]
  }

  lemma RefillIsCommitted()
    ensures CommitsUnheld(Started(Informed([SENTINEL]), 9), Two([SENTINEL, X], 0), 1)
  {
    var q := Started(Informed([SENTINEL]), 9);
    assert q.matchIndex == [1, 0, 1];
    assert q.log == [SENTINEL, Command(1, 9, 1)];
    hide IsMajorityValue;
    MajorityOfTwo(1);
  }

  /** MatchIndex outlives the cut: server 0 leads term 1 and knows that server 2 holds index 1 when server 1's
      heartbeat cuts its log. It appends another command there, finds a majority for index 1 in its own term
      and so commits an entry that differs from the one server 2 holds. */
  lemma CutLeaderCommitsUnheld() returns (c: Cluster, c1: Cluster)
    ensures Reaches(c) && DeliverStep(c, c1, 0, AT_ONE) && |c1.peers| == 3 && IsLeader(c1, LEADER, 0)
    ensures var q := c1.peers[0]; q.log != [] && q.me < |q.nextIndex| && q.me < |q.matchIndex|
    ensures CommitsUnheld(Started(c1.peers[0], 9), c1.peers[2], 1)
  {
    KnownShape();
    hide *;
    c, c1 := WithOtherLeader(Known()), KnownCut();
    KnownIsReached();
    OtherLeaderIsReached(Known());
    KnownWithLeader();
    LeaderIsCut();
    RefillIsCommitted();
  }

  lemma KnownShape()
    ensures var c := Known();
      && |c.peers| == |c.full| == 3
      && c.peers[1] == MakePeer(1, Follower, 0, [SENTINEL]) && c.full[1] == [SENTINEL]
    ensures var c1, q := KnownCut(), Informed([SENTINEL]);
      && |c1.peers| == 3 && c1.peers[0] == q && c1.peers[2] == Two([SENTINEL, X], 0) && IsLeader(c1, LEADER, 0)
      && q.log != [] && q.me < |q.nextIndex| && q.me < |q.matchIndex|
  {}
}
