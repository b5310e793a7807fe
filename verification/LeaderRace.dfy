/** `testLeader` (src/raft/raft.go:894-901) looks at the votes only, neither at the role nor at the term in which
    they were given. The main loop has seen the Candidate state before it calls it (src/raft/raft.go:974-993),
    but without holding the lock in between, and AppendEntries moves a candidate to another term without
    touching its votes (src/raft/raft.go:393, 442). Here is what the votes are worth by then. */
module LeaderRace {
  import opened Counting
  import opened Election
  import opened Quorum
  import opened Raft

  lemma ForeignTermIsNotBacked(s: State, i: nat)
    requires i < |s.peers| == |s.campaigned| && CampaignsLead(s, i) && s.campaigned[i] != s.peers[i].term
    ensures !WonBacked(s, s.peers[i].term, i)
  {
    forall q | Majority(q, |s.peers|) ensures !Backed(s.ballots, q, s.peers[i].term, i) {
      var v :| v in q;
    }
  }

  lemma StandingIsBacked(s: State, i: nat)
    requires i < |s.peers| == |s.supporters| == |s.campaigned| && CountIsBacked(s, i)
    requires Standing(s, i) && 2 * s.peers[i].votes > |s.peers|
    ensures WonBacked(s, s.peers[i].term, i)
  {
    assert Majority(s.supporters[i], |s.peers|);
  }

  /** In every run, a server that the test makes a leader has the votes of a majority in its current term if and
      only if that is the term of its last campaign. (The main loop, which alone calls both, does not call
      `testLeader` right after `updateToFollower`, so a follower in the term of its campaign does not test.) */
  lemma TestIsRightIff(run: seq<State>, k: nat, i: nat)
    requires IsRun(run) && k < |run| && i < |run[k].peers| && run[k].peers[i].log != []
    requires run[k].peers[i].role != Leader && Tested(run[k].peers[i], |run[k].peers|).role == Leader
    ensures |run[k].campaigned| == |run[k].peers|
    ensures run[k].peers[i].role != Follower || run[k].campaigned[i] != run[k].peers[i].term ==>
      (WonBacked(run[k], run[k].peers[i].term, i) <==> run[k].campaigned[i] == run[k].peers[i].term)
  {
    TestEffect(run[k].peers[i], |run[k].peers|);
    VotesAreRightIff(run, k, i);
  }

  /** The same for every server with more than half the votes, leaders included. */
  lemma VotesAreRightIff(run: seq<State>, k: nat, i: nat)
    requires IsRun(run) && k < |run| && i < |run[k].peers| && 2 * run[k].peers[i].votes > |run[k].peers|
    ensures |run[k].campaigned| == |run[k].peers|
    ensures run[k].peers[i].role != Follower || run[k].campaigned[i] != run[k].peers[i].term ==>
      (WonBacked(run[k], run[k].peers[i].term, i) <==> run[k].campaigned[i] == run[k].peers[i].term)
  {
    var s := run[k];
    RunKeepsInv(run, k);
    InvAt(s, i);
    assert CampaignsLead(s, i) && CountIsBacked(s, i);
    hide Inv, IsRun, WonBacked, CampaignsLead, CountIsBacked;
    if s.campaigned[i] != s.peers[i].term {
      ForeignTermIsNotBacked(s, i);
    } else if s.peers[i].role != Follower {
      StandingIsBacked(s, i);
    }
  }

  // ---------------------------------------------------------------- building runs of three servers

  ghost predicate Three(s: State) {
    |s.peers| == |s.disk| == |s.supporters| == |s.campaigned| == 3
  }

  ghost function AfterCampaign(s: State, i: nat): State
    requires Three(s) && i < 3
  {
    var p := Campaigning(s.peers[i]);
    s.(peers := s.peers[i := p], disk := s.disk[i := Persisted(p)], calls := s.calls + CallsOf(i, p.term, |s.peers|),
       campaigned := s.campaigned[i := p.term], ballots := s.ballots[(i, p.term) := i],
       supporters := s.supporters[i := {i}])
  }

  /** `c.voter` grants its vote: its log is as short as the candidate's. */
  ghost function AfterVote(s: State, c: Call): State
    requires Three(s) && c.voter < 3
  {
    var p := s.peers[c.voter].(role := Follower, term := c.term, votedFor := c.candidate);
    s.(peers := s.peers[c.voter := p], disk := s.disk[c.voter := Persisted(p)],
       answers := s.answers + {Answer(c, VoteReply(0, true))}, ballots := s.ballots[(c.voter, c.term) := c.candidate])
  }

  ghost function AfterReturn(s: State, c: Call): State
    requires Three(s) && c.candidate < 3
  {
    var i := c.candidate;
    var p := s.peers[i].(votes := s.peers[i].votes + 1);
    s.(peers := s.peers[i := p], disk := s.disk[i := Persisted(p)], calls := s.calls - {c},
       supporters := s.supporters[i := s.supporters[i] + {c.voter}])
  }

  lemma CampaignIsStep(s: State, i: nat, voter: nat)
    requires Three(s) && i < 3 && voter < 3 && voter != i
    ensures var s' := AfterCampaign(s, i);
      && Next(s, s') && Three(s') && s'.peers == s.peers[i := Campaigning(s.peers[i])]
      && s'.campaigned == s.campaigned[i := s.peers[i].term + 1] && s'.won == s.won
      && Call(i, s.peers[i].term + 1, voter) in s'.calls
  {
    assert Campaign(s, AfterCampaign(s, i), i);
    assert voter in Ids(3);
  }

  lemma VoteIsStep(s: State, c: Call)
    requires Three(s) && c.voter < 3 && c in s.calls && s.peers[c.voter].log == [SENTINEL] && s.peers[c.voter].term < c.term
    ensures var s' := AfterVote(s, c);
      && Next(s, s') && Three(s') && Answer(c, VoteReply(0, true)) in s'.answers && c in s'.calls
      && s'.peers == s.peers[c.voter := s.peers[c.voter].(role := Follower, term := c.term, votedFor := c.candidate)]
      && s'.campaigned == s.campaigned && s'.won == s.won
  {
    assert Vote(s, AfterVote(s, c), c, 0, 0);
  }

  lemma ReturnIsStep(s: State, c: Call)
    requires Three(s) && c.candidate < 3 && c in s.calls && Answer(c, VoteReply(0, true)) in s.answers
    requires s.peers[c.candidate].role == Candidate && s.peers[c.candidate].term == c.term
    ensures var s' := AfterReturn(s, c);
      && Next(s, s') && Three(s') && s'.campaigned == s.campaigned && s'.won == s.won
      && s'.peers == s.peers[c.candidate := s.peers[c.candidate].(votes := s.peers[c.candidate].votes + 1)]
  {
    assert Return(s, AfterReturn(s, c), Answer(c, VoteReply(0, true)));
  }

  /** A run that ends in `s`. */
  ghost predicate Reaches(s: State) {
    exists run :: IsRun(run) && run[|run| - 1] == s
  }

  lemma ReachesNext(s: State, s': State)
    requires Reaches(s) && Next(s, s')
    ensures Reaches(s')
  {
    var run :| IsRun(run) && run[|run| - 1] == s;
    hide Next;
    assert IsRun(run + [s']) && (run + [s'])[|run|] == s';
  }

  function Member(me: nat, role: Role, term: int, votedFor: int, votes: int): Peer {
    Peer(me, role, term, votedFor, votes, [SENTINEL], 0, 0, [1, 1, 1], [0, 0, 0])
  }

  ghost function Beginning(): State {
    var peers := [Member(0, Follower, 0, NOBODY, 0), Member(1, Follower, 0, NOBODY, 0), Member(2, Follower, 0, NOBODY, 0)];
    State(peers, [Saved(0, NOBODY), Saved(0, NOBODY), Saved(0, NOBODY)], {}, {}, map[], [{}, {}, {}], [0, 0, 0], {})
  }

  lemma BeginningIsReached()
    ensures Reaches(Beginning()) && Three(Beginning())
  {
    assert IsRun([Beginning()]);
  }

  /** One candidate asks one voter and counts its vote. */
  lemma Canvass(s: State, i: nat, voter: nat) returns (s3: State)
    requires Reaches(s) && Three(s) && i < 3 && voter < 3 && voter != i
    requires s.peers[voter].log == [SENTINEL] && s.peers[voter].term <= s.peers[i].term
    ensures Reaches(s3) && Three(s3) && s3.campaigned == s.campaigned[i := s.peers[i].term + 1] && s3.won == s.won
    ensures s3.peers == s.peers[i := Campaigning(s.peers[i]).(votes := 2)]
                               [voter := s.peers[voter].(role := Follower, term := s.peers[i].term + 1, votedFor := i)]
  {
    hide Next, AfterCampaign, AfterVote, AfterReturn, Reaches;
    var c := Call(i, s.peers[i].term + 1, voter);
    CampaignIsStep(s, i, voter);
    var s1 := AfterCampaign(s, i);
    ReachesNext(s, s1);
    VoteIsStep(s1, c);
    var s2 := AfterVote(s1, c);
    ReachesNext(s1, s2);
    ReachesNextReturn(s2, c);
    s3 := AfterReturn(s2, c);
  }

  lemma ReachesNextReturn(s: State, c: Call)
    requires Reaches(s) && Three(s) && c.candidate < 3 && c in s.calls && Answer(c, VoteReply(0, true)) in s.answers
    requires s.peers[c.candidate].role == Candidate && s.peers[c.candidate].term == c.term
    ensures var s' := AfterReturn(s, c);
      && Reaches(s') && Three(s') && s'.campaigned == s.campaigned && s'.won == s.won
      && s'.peers == s.peers[c.candidate := s.peers[c.candidate].(votes := s.peers[c.candidate].votes + 1)]
  {
    hide Next, AfterReturn, Reaches;
    ReturnIsStep(s, c);
    ReachesNext(s, AfterReturn(s, c));
  }

  /** Passing the test in the term of the campaign. */
  lemma Elect(s: State, i: nat) returns (s': State)
    requires Reaches(s) && Three(s) && i < 3 && Standing(s, i) && s.peers[i].votes == 2 && s.peers[i].log != []
    requires s.peers[i].role == Candidate
    ensures Reaches(s') && Three(s') && s'.won == s.won + {(s.peers[i].term, i)} && s'.campaigned == s.campaigned
    ensures s'.peers == s.peers[i := Tested(s.peers[i], 3)] && s'.peers[i].role == Leader
  {
    s' := s.(peers := s.peers[i := Tested(s.peers[i], 3)], won := s.won + {(s.peers[i].term, i)});
    assert Test(s, s', i);
    assert Next(s, s');
    hide Next, Reaches;
    ReachesNext(s, s');
  }

  // ---------------------------------------------------------------- two leaders in one term

  /** Server 0 collects a majority in term 1 and has not tested it when server 2, in its second campaign, gets
      the vote of `voter` and wins term 2. */
  lemma VotesLeftOver(voter: nat) returns (s: State)
    requires voter < 2
    ensures Reaches(s) && Three(s) && (2, 2) in s.won
    ensures s.peers[2].role == Leader && s.peers[2].term == 2
    ensures s.peers[0] == if voter == 0 then Member(0, Follower, 2, 2, 2) else Member(0, Candidate, 1, 0, 2)
  {
    BeginningIsReached();
    hide Reaches, Three, Next;
    s := Canvass(Beginning(), 0, 1);
    CampaignIsStep(s, 2, 0);
    ReachesNext(s, AfterCampaign(s, 2));
    s := AfterCampaign(s, 2);
    hide AfterCampaign;
    s := Canvass(s, 2, voter);
    s := Elect(s, 2);
  }

  /** A run in which server 2 wins term 2, and server 0, a follower of term 2 by then, still passes its test:
      it becomes a second leader of term 2. */
  lemma TwoLeadersInOneTerm() returns (s: State)
    ensures Reaches(s) && |s.peers| == 3 && (2, 2) in s.won && s.peers[2].role == Leader && s.peers[2].term == 2
    ensures s.peers[0].role == Follower && s.peers[0].term == 2 && s.peers[0].log != []
    ensures Tested(s.peers[0], 3).role == Leader && Tested(s.peers[0], 3).term == 2
  {
    s := VotesLeftOver(0);
  }

  /** The first heartbeat of term 2. */
  const HEARTBEAT: AppendArgs := AppendArgs(2, 2, 0, 0, [], 0)

  lemma HeartbeatMovesCandidate()
    ensures Contiguous([SENTINEL])
    ensures Appended(Member(0, Candidate, 1, 0, 2), HEARTBEAT) == Member(0, Candidate, 2, 0, 2)
  {
    var p := Member(0, Candidate, 1, 0, 2);
    assert Contiguous(p.log) && Covered(p.log, HEARTBEAT);
    hide Covered, AppendOutcome, Appended, Contiguous;
    CoveredBranch(p, HEARTBEAT);
  }

  /** The same through AppendEntries: server 0 is still a candidate when server 2's heartbeat moves it to
      term 2 with the votes of term 1, and they make it a second leader of term 2. */
  lemma CandidateLeadsForeignTerm() returns (s: State)
    ensures Reaches(s) && |s.peers| == 3 && (2, 2) in s.won && s.peers[2].role == Leader && s.peers[2].term == 2
    ensures s.peers[0].role == Candidate && s.peers[0].term == 2 && s.peers[0].log != []
    ensures Tested(s.peers[0], 3).role == Leader && Tested(s.peers[0], 3).term == 2
  {
    var before := VotesLeftOver(1);
    HeartbeatMovesCandidate();
    var q := Appended(before.peers[0], HEARTBEAT);
    s := before.(peers := before.peers[0 := q], disk := before.disk[0 := Persisted(q)]);
    assert Hear(before, s, 0, q);
    assert Next(before, s);
    hide Next, Reaches;
    ReachesNext(before, s);
  }

  /** Why a leader must not forget its vote: server 0 has won term 1, server 2 is a candidate of term 1, and
      after `updateToFollower` server 0 grants server 2 its vote, a second one in term 1, which makes server 2
      a leader of term 1 too. */
  lemma ForgottenVoteElectsTwo() returns (s: State, c: Call)
    ensures Reaches(s) && |s.peers| == 3 && (1, 0) in s.won && s.peers[0].role == Leader && s.peers[0].term == 1
    ensures c in s.calls && c == Call(2, 1, 0) && s.peers[0].log != [] && s.peers[2].log != []
    ensures !Voted(s.peers[0], VoteArgs(1, 2, 0, 0)).1.granted
    ensures var (voter, reply) := Voted(SteppedDown(s.peers[0]), VoteArgs(1, 2, 0, 0));
      var second := Tested(Counted(s.peers[2], 1, reply), 3);
      reply.granted && second.role == Leader && second.term == 1
  {
    BeginningIsReached();
    hide Reaches, Three, Next;
    s := Canvass(Beginning(), 0, 1);
    s := Elect(s, 0);
    CampaignIsStep(s, 2, 0);
    ReachesNext(s, AfterCampaign(s, 2));
    s := AfterCampaign(s, 2);
    c := Call(2, 1, 0);
  }
}
