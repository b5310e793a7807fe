/** Election safety over runs of campaigns, vote requests, replies, AppendEntries traffic, step-downs and
    crashes (src/raft/raft.go:184-212, 250-290, 363-453, 563-599, 854-901).

    A request carries arbitrary last-log values, so nothing here depends on the logs. Requests may be
    delivered late, twice or never; a call returns at most once to its caller. */
module Election {
  import opened Counting
  import opened Quorum
  import opened Raft

  /** One outstanding RequestVote RPC. */
  datatype Call = Call(candidate: nat, term: int, voter: nat)

  datatype Answer = Answer(call: Call, reply: VoteReply)

  /** What `persist` writes, as far as votes are concerned. */
  datatype Saved = Saved(term: int, votedFor: int)

  /** The rest are history variables: `ballots` is every server's vote per term, `supporters` the voters a
      candidate has counted, `campaigned` the term of each server's last campaign, and `won` every
      (term, server) that the vote test made a leader in the term it had campaigned in. */
  datatype State = State(peers: seq<Peer>, disk: seq<Saved>, calls: set<Call>, answers: set<Answer>,
                         ballots: map<(nat, int), nat>, supporters: seq<set<nat>>, campaigned: seq<int>,
                         won: set<(int, nat)>)

  ghost predicate Sized(s: State, i: nat) {
    i < |s.peers| == |s.disk| == |s.supporters| == |s.campaigned|
  }

  // ---------------------------------------------------------------- steps

  ghost predicate Initial(s: State) {
    && |s.peers| == |s.disk| == |s.supporters| == |s.campaigned|
    && s.calls == {} && s.answers == {} && s.ballots == map[] && s.won == {}
    && (forall i | 0 <= i < |s.peers| ::
          && s.peers[i].me == i && s.peers[i].log != [] && s.peers[i].role == Follower && s.campaigned[i] == 0
          && s.peers[i].term == 0 && s.peers[i].votedFor == NOBODY && s.disk[i] == Saved(0, NOBODY))
  }

  ghost function Persisted(p: Peer): Saved {
    Saved(p.term, p.votedFor)
  }

  ghost function CallsOf(i: nat, term: int, n: nat): set<Call> {
    set j | j in Ids(n) && j != i :: Call(i, term, j)
  }

  ghost predicate Campaign(s: State, s': State, i: nat) {
    && Sized(s, i)
    && var p := Campaigning(s.peers[i]);
       s' == s.(peers := s.peers[i := p], disk := s.disk[i := Persisted(p)],
                calls := s.calls + CallsOf(i, p.term, |s.peers|), campaigned := s.campaigned[i := p.term],
                ballots := s.ballots[(i, p.term) := i], supporters := s.supporters[i := {i}])
  }

  ghost predicate Vote(s: State, s': State, c: Call, lastIndex: int, lastTerm: int) {
    && c in s.calls && Sized(s, c.voter) && s.peers[c.voter].log != []
    && var (p, reply) := Voted(s.peers[c.voter], VoteArgs(c.term, c.candidate, lastIndex, lastTerm));
       s' == s.(peers := s.peers[c.voter := p], disk := s.disk[c.voter := Persisted(p)],
                answers := s.answers + {Answer(c, reply)},
                ballots := if reply.granted then s.ballots[(c.voter, c.term) := c.candidate] else s.ballots)
  }

  /** The call returns to its caller, for good. */
  ghost predicate Return(s: State, s': State, a: Answer) {
    && a in s.answers && a.call in s.calls && Sized(s, a.call.candidate)
    && var i := a.call.candidate;
       var p := Counted(s.peers[i], a.call.term, a.reply);
       s' == s.(peers := s.peers[i := p], disk := s.disk[i := Persisted(p)], calls := s.calls - {a.call},
                supporters := if p.votes > s.peers[i].votes then s.supporters[i := s.supporters[i] + {a.call.voter}]
                              else s.supporters)
  }

  /** Still in the term of its last campaign and not back to follower. */
  ghost predicate Standing(s: State, i: nat)
    requires i < |s.peers| == |s.campaigned|
  {
    s.peers[i].role != Follower && s.campaigned[i] == s.peers[i].term
  }

  /** `testLeader` in the term of the campaign. Who turns leader by it has won. */
  ghost predicate Test(s: State, s': State, i: nat) {
    && Sized(s, i) && Standing(s, i) && s.peers[i].log != []
    && var p := Tested(s.peers[i], |s.peers|);
       s' == s.(peers := s.peers[i := p],
                won := if p.role == Leader && s.peers[i].role != Leader then s.won + {(p.term, i)} else s.won)
  }

  /** AppendEntries traffic. The handler raises the term and may change the log and the commit index, but
      leaves role, vote and votes alone; a reply of a newer term makes a follower without a vote. */
  ghost predicate Hear(s: State, s': State, i: nat, q: Peer) {
    && Sized(s, i) && q.log != []
    && (Heard(s.peers[i], q) || Outdated(s.peers[i], q))
    && s' == s.(peers := s.peers[i := q], disk := s.disk[i := Persisted(q)])
  }

  ghost predicate Heard(p: Peer, q: Peer) {
    q == p.(term := q.term, log := q.log, commit := q.commit) && q.term >= p.term
  }

  ghost predicate Outdated(p: Peer, q: Peer) {
    q == p.(role := Follower, term := q.term, votedFor := NOBODY) && q.term > p.term
  }

  /** The server has not voted in its term, or only for itself and without winning. */
  ghost predicate MayForget(s: State, i: nat)
    requires i < |s.peers|
  {
    var t := s.peers[i].term;
    (i, t) in s.ballots ==> s.ballots[(i, t)] == i && (t, i) !in s.won
  }

  /** `updateToFollower`, which clears the vote and saves nothing. */
  ghost predicate StepDown(s: State, s': State, i: nat) {
    && Sized(s, i) && MayForget(s, i)
    && s' == s.(peers := s.peers[i := SteppedDown(s.peers[i])])
  }

  /** Memory is lost, the disk is read back, and the old instance's calls never return. */
  ghost predicate Crash(s: State, s': State, i: nat) {
    && Sized(s, i) && s.peers[i].log != []
    && var p := Restarted(s.peers[i].(term := s.disk[i].term, votedFor := s.disk[i].votedFor));
       s' == s.(peers := s.peers[i := p], calls := set c | c in s.calls && c.candidate != i)
  }

  ghost predicate Next(s: State, s': State) {
    || (exists i :: Campaign(s, s', i))
    || (exists c, lastIndex, lastTerm :: Vote(s, s', c, lastIndex, lastTerm))
    || (exists a :: Return(s, s', a))
    || (exists i :: Test(s, s', i))
    || (exists i, q :: Hear(s, s', i, q))
    || (exists i :: StepDown(s, s', i))
    || (exists i :: Crash(s, s', i))
  }

  ghost predicate IsRun(run: seq<State>) {
    run != [] && Initial(run[0]) && forall k | 0 <= k < |run| - 1 :: Next(run[k], run[k + 1])
  }

  /** The AppendEntries handler is such a step for every message that leaves a log. */
  lemma AppendIsHeard(p: Peer, a: AppendArgs)
    requires Contiguous(p.log) && WellNumbered(a) && (AgreesOnBase(p.log, a) || a.term < p.term)
    ensures Heard(p, Appended(p, a)) && Appended(p, a).log != []
  {
    OffsetsSurviveIff(p, a);
  }

  // ---------------------------------------------------------------- invariant

  /** The vote of `v` in term `t` is its own, and `v` has not won `t` and never will. */
  ghost predicate Spare(s: State, v: nat, t: int)
    requires v < |s.peers| == |s.campaigned|
  {
    && (v, t) in s.ballots && s.ballots[(v, t)] == v && (t, v) !in s.won
    && !(Standing(s, v) && s.peers[v].term == t)
  }

  /** Every vote of `v` is of the past, or is the one `v` remembers or may forget. */
  ghost predicate VotesRecorded(s: State, v: nat, saved: Saved)
    requires v < |s.peers| == |s.campaigned|
  {
    forall t | (v, t) in s.ballots :: t < saved.term || (t == saved.term && (saved.votedFor == s.ballots[(v, t)] || Spare(s, v, t)))
  }

  ghost predicate Backed(ballots: map<(nat, int), nat>, q: set<nat>, t: int, i: nat) {
    forall v | v in q :: (v, t) in ballots && ballots[(v, t)] == i
  }

  /** The count of a standing server is the number of its supporters, each of whom voted for it in this term
      and has no call open any more. */
  ghost predicate CountIsBacked(s: State, i: nat)
    requires i < |s.peers| == |s.supporters| == |s.campaigned|
  {
    var p, q := s.peers[i], s.supporters[i];
    Standing(s, i) ==>
      && p.votes == |q| && q <= Ids(|s.peers|) && Backed(s.ballots, q, p.term, i)
      && (forall v | v in q :: Call(i, p.term, v) !in s.calls)
  }

  /** Nobody votes for a server in a term beyond its last campaign, and a candidate has not won its term. */
  ghost predicate CampaignsLead(s: State, i: nat)
    requires i < |s.peers| == |s.campaigned|
  {
    && s.campaigned[i] <= s.peers[i].term
    && (forall x | x in s.ballots && s.ballots[x] == i :: x.1 <= s.campaigned[i])
    && (forall t | (t, i) in s.won :: t <= s.campaigned[i])
    && (s.peers[i].role == Candidate ==> s.peers[i].votedFor == i && (s.peers[i].term, i) !in s.won)
  }

  ghost predicate WonBacked(s: State, t: int, i: nat) {
    exists q :: Majority(q, |s.peers|) && Backed(s.ballots, q, t, i)
  }

  ghost predicate CallOk(s: State, c: Call) {
    c.candidate < |s.peers| == |s.campaigned| && c.voter < |s.peers| && c.voter != c.candidate
    && c.term <= s.campaigned[c.candidate]
  }

  ghost predicate AnswerOk(s: State, a: Answer) {
    && a.call.voter < |s.peers| && a.call.voter != a.call.candidate
    && (a.reply.granted ==> Backed(s.ballots, {a.call.voter}, a.call.term, a.call.candidate))
  }

  ghost predicate PeerOk(s: State, i: nat)
    requires Sized(s, i)
  {
    && s.peers[i].me == i && s.peers[i].log != [] && s.disk[i].term == s.peers[i].term
    && VotesRecorded(s, i, Persisted(s.peers[i])) && VotesRecorded(s, i, s.disk[i])
    && CountIsBacked(s, i) && CampaignsLead(s, i)
  }

  ghost predicate Inv(s: State) {
    && |s.peers| == |s.disk| == |s.supporters| == |s.campaigned|
    && (forall i | 0 <= i < |s.peers| :: PeerOk(s, i))
    && (forall c | c in s.calls :: CallOk(s, c))
    && (forall a | a in s.answers :: AnswerOk(s, a))
    && (forall w | w in s.won :: WonBacked(s, w.0, w.1))
  }

  lemma InvAt(s: State, i: nat)
    requires Inv(s) && i < |s.peers|
    ensures Sized(s, i) && PeerOk(s, i)
    ensures forall c | c in s.calls :: CallOk(s, c)
  {}

  // ---------------------------------------------------------------- one peer changes

  /** A vote of `i` that is new or replaces its own spare one, for a server that has campaigned in that term. */
  ghost predicate BallotsChange(s: State, s': State, i: nat)
    requires i < |s.peers| == |s.campaigned| == |s'.campaigned|
  {
    && (forall x | x in s.ballots :: x in s'.ballots && (s'.ballots[x] == s.ballots[x] || (x.0 == i && Spare(s, i, x.1))))
    && (forall x | x in s'.ballots && (x !in s.ballots || s'.ballots[x] != s.ballots[x]) ::
          x.0 == i && s'.ballots[x] < |s.peers| && x.1 <= s'.campaigned[s'.ballots[x]])
  }

  /** Only peer `i` changed: new ballots, calls and wins are its own. */
  ghost predicate Changes(s: State, s': State, i: nat, p: Peer) {
    && Sized(s, i) && Sized(s', i) && s'.peers == s.peers[i := p]
    && (forall j | 0 <= j < |s.peers| && j != i ::
          s'.disk[j] == s.disk[j] && s'.supporters[j] == s.supporters[j] && s'.campaigned[j] == s.campaigned[j])
    && s.campaigned[i] <= s'.campaigned[i] && BallotsChange(s, s', i)
    && s.won <= s'.won && (forall w | w in s'.won && w !in s.won :: w.1 == i)
    && (forall c | c in s'.calls && c !in s.calls :: c.candidate == i)
  }

  lemma OtherPeerOk(s: State, s': State, i: nat, p: Peer, j: nat)
    requires Changes(s, s', i, p) && j < |s.peers| && j != i && PeerOk(s, j)
    ensures PeerOk(s', j)
  {
    OtherVotes(s, s', i, p, j);
    OtherCount(s, s', i, p, j);
    OtherCampaign(s, s', i, p, j);
    hide VotesRecorded, CountIsBacked, CampaignsLead;
  }

  lemma OtherVotes(s: State, s': State, i: nat, p: Peer, j: nat)
    requires Changes(s, s', i, p) && j < |s.peers| && j != i && PeerOk(s, j)
    ensures VotesRecorded(s', j, Persisted(s'.peers[j])) && VotesRecorded(s', j, s'.disk[j])
  {
    hide CountIsBacked, CampaignsLead;
    forall t | (j, t) in s'.ballots ensures (j, t) in s.ballots && (Spare(s, j, t) ==> Spare(s', j, t)) {
      hide VotesRecorded;
    }
  }

  lemma OtherCount(s: State, s': State, i: nat, p: Peer, j: nat)
    requires Changes(s, s', i, p) && j < |s.peers| && j != i && PeerOk(s, j)
    ensures CountIsBacked(s', j)
  {
    hide VotesRecorded, CampaignsLead;
  }

  lemma OtherCampaign(s: State, s': State, i: nat, p: Peer, j: nat)
    requires Changes(s, s', i, p) && j < |s.peers| && j != i && PeerOk(s, j)
    ensures CampaignsLead(s', j)
  {
    hide VotesRecorded, CountIsBacked, Spare;
  }

  lemma WonStaysBacked(s: State, s': State, i: nat, p: Peer, t: int, w: nat)
    requires Changes(s, s', i, p) && (t, w) in s.won && WonBacked(s, t, w)
    ensures WonBacked(s', t, w)
  {
    var q :| Majority(q, |s.peers|) && Backed(s.ballots, q, t, w);
    assert Backed(s'.ballots, q, t, w);
  }

  lemma AnswerStaysOk(s: State, s': State, i: nat, p: Peer, a: Answer)
    requires Changes(s, s', i, p) && AnswerOk(s, a)
    ensures AnswerOk(s', a)
  {}

  lemma AssembleInv(s: State, s': State, i: nat, p: Peer)
    requires Inv(s) && Changes(s, s', i, p) && PeerOk(s', i)
    requires forall c | c in s'.calls && c !in s.calls :: CallOk(s', c)
    requires forall a | a in s'.answers && a !in s.answers :: AnswerOk(s', a)
    requires forall w | w in s'.won && w !in s.won :: WonBacked(s', w.0, w.1)
    ensures Inv(s')
  {
    hide PeerOk, WonBacked, AnswerOk, BallotsChange;
    forall j | 0 <= j < |s'.peers| ensures PeerOk(s', j) {
      if j != i {
        OtherPeerOk(s, s', i, p, j);
      }
    }
    forall a | a in s'.answers ensures AnswerOk(s', a) {
      if a in s.answers {
        AnswerStaysOk(s, s', i, p, a);
      }
    }
    forall w | w in s'.won ensures WonBacked(s', w.0, w.1) {
      if w in s.won {
        WonStaysBacked(s, s', i, p, w.0, w.1);
      }
    }
  }

  // ---------------------------------------------------------------- the steps keep the invariant

  lemma CampaignKeepsInv(s: State, s': State, i: nat)
    requires Inv(s) && Campaign(s, s', i)
    ensures Inv(s')
  {
    InvAt(s, i);
    var p := Campaigning(s.peers[i]);
    assert (i, p.term) !in s.ballots;
    hide Inv;
    assert Changes(s, s', i, p);
    assert CountIsBacked(s', i) by {
      assert |{i}| == 1;
    }
    assert VotesRecorded(s', i, Persisted(p)) && CampaignsLead(s', i);
    hide Changes, VotesRecorded, CountIsBacked, CampaignsLead;
    AssembleInv(s, s', i, p);
  }

  lemma VoteKeepsInv(s: State, s': State, c: Call, lastIndex: int, lastTerm: int)
    requires Inv(s) && Vote(s, s', c, lastIndex, lastTerm)
    ensures Inv(s')
  {
    InvAt(s, c.voter);
    assert CallOk(s, c);
    var (p, reply) := Voted(s.peers[c.voter], VoteArgs(c.term, c.candidate, lastIndex, lastTerm));
    assert s'.won == s.won && s'.calls == s.calls && s'.answers == s.answers + {Answer(c, reply)};
    hide *;
    VoteIsChange(s, s', c, lastIndex, lastTerm);
    VotePeerOk(s, s', c, lastIndex, lastTerm);
    AssembleInv(s, s', c.voter, p);
  }

  lemma VoteIsChange(s: State, s': State, c: Call, lastIndex: int, lastTerm: int)
    requires Vote(s, s', c, lastIndex, lastTerm) && PeerOk(s, c.voter) && CallOk(s, c)
    ensures var (p, reply) := Voted(s.peers[c.voter], VoteArgs(c.term, c.candidate, lastIndex, lastTerm));
      Changes(s, s', c.voter, p) && AnswerOk(s', Answer(c, reply))
  {
    hide CountIsBacked;
  }

  lemma VotePeerOk(s: State, s': State, c: Call, lastIndex: int, lastTerm: int)
    requires Vote(s, s', c, lastIndex, lastTerm) && PeerOk(s, c.voter) && CallOk(s, c)
    ensures Sized(s', c.voter) && PeerOk(s', c.voter)
  {
    var (p, reply) := Voted(s.peers[c.voter], VoteArgs(c.term, c.candidate, lastIndex, lastTerm));
    assert VotesRecorded(s', c.voter, Persisted(p));
    assert CountIsBacked(s', c.voter);
    assert CampaignsLead(s', c.voter);
    hide VotesRecorded, CountIsBacked, CampaignsLead;
  }

  lemma ReturnKeepsInv(s: State, s': State, a: Answer)
    requires Inv(s) && Return(s, s', a)
    ensures Inv(s')
  {
    var i := a.call.candidate;
    InvAt(s, i);
    assert AnswerOk(s, a) && CallOk(s, a.call);
    assert s'.won == s.won && s'.answers == s.answers && s'.calls <= s.calls;
    hide *;
    ReturnIsChange(s, s', a);
    ReturnPeerOk(s, s', a);
    AssembleInv(s, s', i, Counted(s.peers[i], a.call.term, a.reply));
  }

  lemma ReturnIsChange(s: State, s': State, a: Answer)
    requires Return(s, s', a)
    ensures Changes(s, s', a.call.candidate, Counted(s.peers[a.call.candidate], a.call.term, a.reply))
  {}

  lemma ReturnPeerOk(s: State, s': State, a: Answer)
    requires Return(s, s', a) && AnswerOk(s, a) && CallOk(s, a.call) && PeerOk(s, a.call.candidate)
    ensures Sized(s', a.call.candidate) && PeerOk(s', a.call.candidate)
  {
    var i := a.call.candidate;
    CountedIsBacked(s, s', a);
    hide CountIsBacked;
    assert VotesRecorded(s', i, Persisted(s'.peers[i]));
    assert CampaignsLead(s', i);
    hide VotesRecorded, CampaignsLead;
  }

  lemma CountedIsBacked(s: State, s': State, a: Answer)
    requires Return(s, s', a) && AnswerOk(s, a) && CallOk(s, a.call)
    requires PeerOk(s, a.call.candidate)
    ensures CountIsBacked(s', a.call.candidate)
  {
    hide VotesRecorded;
  }

  lemma TestKeepsInv(s: State, s': State, i: nat)
    requires Inv(s) && Test(s, s', i)
    ensures Inv(s')
  {
    InvAt(s, i);
    var p := Tested(s.peers[i], |s.peers|);
    TestEffect(s.peers[i], |s.peers|);
    hide Inv, Tested;
    assert Changes(s, s', i, p);
    assert (p.term, i) in s'.won && (p.term, i) !in s.won ==> WonBacked(s', p.term, i) by {
      assert 2 * p.votes > |s.peers| ==> Majority(s.supporters[i], |s.peers|);
    }
    assert VotesRecorded(s', i, Persisted(p)) && VotesRecorded(s', i, s'.disk[i]);
    assert CountIsBacked(s', i) && CampaignsLead(s', i);
    hide Changes, VotesRecorded, CountIsBacked, CampaignsLead, WonBacked;
    AssembleInv(s, s', i, p);
  }

  lemma HearKeepsInv(s: State, s': State, i: nat, q: Peer)
    requires Inv(s) && Hear(s, s', i, q)
    ensures Inv(s')
  {
    InvAt(s, i);
    hide Inv;
    assert Changes(s, s', i, q);
    assert VotesRecorded(s', i, Persisted(q));
    assert CountIsBacked(s', i) && CampaignsLead(s', i);
    hide Changes, VotesRecorded, CountIsBacked, CampaignsLead;
    AssembleInv(s, s', i, q);
  }

  lemma StepDownKeepsInv(s: State, s': State, i: nat)
    requires Inv(s) && StepDown(s, s', i)
    ensures Inv(s')
  {
    InvAt(s, i);
    var p := SteppedDown(s.peers[i]);
    hide Inv;
    assert Changes(s, s', i, p);
    assert VotesRecorded(s', i, Persisted(p)) && VotesRecorded(s', i, s'.disk[i]);
    assert CountIsBacked(s', i) && CampaignsLead(s', i);
    hide Changes, VotesRecorded, CountIsBacked, CampaignsLead;
    AssembleInv(s, s', i, p);
  }

  /** A candidate may always step down. */
  lemma CandidateMayForget(s: State, i: nat)
    requires Inv(s) && i < |s.peers| && s.peers[i].role == Candidate
    ensures MayForget(s, i)
  {
    InvAt(s, i);
  }

  /** Forgetting the vote loses no vote that counts, now or later, exactly when the server may forget it. */
  lemma ForgettingIsSafeIff(s: State, s': State, i: nat)
    requires Inv(s) && i < |s.peers| && s' == s.(peers := s.peers[i := SteppedDown(s.peers[i])])
    ensures |s'.campaigned| == |s'.peers|
    ensures VotesRecorded(s', i, Persisted(s'.peers[i])) <==> MayForget(s, i)
  {
    InvAt(s, i);
  }

  lemma CrashKeepsInv(s: State, s': State, i: nat)
    requires Inv(s) && Crash(s, s', i)
    ensures Inv(s')
  {
    InvAt(s, i);
    var p := Restarted(s.peers[i].(term := s.disk[i].term, votedFor := s.disk[i].votedFor));
    hide Inv;
    assert Changes(s, s', i, p);
    assert VotesRecorded(s', i, Persisted(p)) && VotesRecorded(s', i, s'.disk[i]);
    assert CountIsBacked(s', i) && CampaignsLead(s', i);
    hide Changes, VotesRecorded, CountIsBacked, CampaignsLead;
    AssembleInv(s, s', i, p);
  }

  lemma NextKeepsInv(s: State, s': State)
    requires Inv(s) && Next(s, s')
    ensures Inv(s')
  {
    hide Inv, Campaign, Vote, Return, Test, Hear, StepDown, Crash;
    if i :| Campaign(s, s', i) {
      CampaignKeepsInv(s, s', i);
    } else if c, lastIndex, lastTerm :| Vote(s, s', c, lastIndex, lastTerm) {
      VoteKeepsInv(s, s', c, lastIndex, lastTerm);
    } else if a :| Return(s, s', a) {
      ReturnKeepsInv(s, s', a);
    } else if i :| Test(s, s', i) {
      TestKeepsInv(s, s', i);
    } else if i, q :| Hear(s, s', i, q) {
      HearKeepsInv(s, s', i, q);
    } else if i :| StepDown(s, s', i) {
      StepDownKeepsInv(s, s', i);
    } else {
      var i :| Crash(s, s', i);
      CrashKeepsInv(s, s', i);
    }
  }

  lemma InitialInv(s: State)
    requires Initial(s)
    ensures Inv(s)
  {}

  lemma {:induction false} RunKeepsInv(run: seq<State>, k: nat)
    requires IsRun(run) && k < |run|
    ensures Inv(run[k])
  {
    hide Inv, Next, Initial;
    if k == 0 {
      InitialInv(run[0]);
    } else {
      RunKeepsInv(run, k - 1);
      NextKeepsInv(run[k - 1], run[k]);
    }
  }

  /** Election safety: in every run the vote test makes at most one server a leader of a term. */
  lemma OneWinnerPerTerm(run: seq<State>, k: nat, t: int, i: nat, j: nat)
    requires IsRun(run) && k < |run| && (t, i) in run[k].won && (t, j) in run[k].won
    ensures i == j
  {
    RunKeepsInv(run, k);
    var s := run[k];
    assert WonBacked(s, t, i) && WonBacked(s, t, j);
    hide Inv, IsRun;
    var a :| Majority(a, |s.peers|) && Backed(s.ballots, a, t, i);
    var b :| Majority(b, |s.peers|) && Backed(s.ballots, b, t, j);
    var v := MajoritiesMeet(a, b, |s.peers|);
  }
}
