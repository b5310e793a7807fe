/** The Raft object of src/raft/raft.go: its handlers update the fields in place, and each is proved to
    do what the corresponding function on `Peer` says. */
module RaftServer {
  import opened Quorum
  import opened Raft

  class Server {
    const me: nat
    var role: Role
    var term: int
    var votedFor: int
    var votes: int
    var log: seq<Command>
    var commit: int
    var applied: int
    var nextIndex: seq<int>
    var matchIndex: seq<int>

    ghost function View(): Peer
      reads this
    {
      Peer(me, role, term, votedFor, votes, log, commit, applied, nextIndex, matchIndex)
    }

    /** `Make` without persisted state. */
    constructor (me: nat, peers: nat)
      ensures View() == Peer(me, Follower, 0, NOBODY, 0, [SENTINEL], 0, 0, seq(peers, _ => 1), seq(peers, _ => 0))
      ensures Contiguous(log)
    {
      this.me, role, term, votedFor, votes := me, Follower, 0, NOBODY, 0;
      log, commit, applied := [SENTINEL], 0, 0;
      nextIndex, matchIndex := seq(peers, _ => 1), seq(peers, _ => 0);
    }

    /** `Make` on a peer whose term, vote and log were read back from stable storage. */
    constructor Restart(before: Peer)
      requires Contiguous(before.log)
      ensures View() == Restarted(before) && Contiguous(log)
      ensures term == before.term && votedFor == before.votedFor && log == before.log && role == Follower && votes == 0
      ensures commit == applied == before.log[0].index
    {
      me, role, votes := before.me, Follower, 0;
      term, votedFor, log := before.term, before.votedFor, before.log;
      commit := before.log[0].index;
      applied := before.log[0].index;
      nextIndex, matchIndex := seq(|before.nextIndex|, _ => 1), seq(|before.matchIndex|, _ => 0);
    }

    // -------------------------------------------------------------- AppendEntries

    /** The entry scan of `testStaleRPC`; entries in front of the base are skipped. */
    method TestStaleRPC(a: AppendArgs) returns (theSame: bool)
      requires Contiguous(log) && a.prevIndex + |a.entries| <= Last(log)
      ensures theSame <==> Covered(log, a)
      ensures theSame <==> MatchesPrevious(log, a) && Takes(log, a)
    {
      CoveredIsTaken(log, a);
      hide MatchesPrevious, Takes;
      var index := LocalIndex(log, a.prevIndex);
      if index >= 0 {
        if log[index].term != a.prevTerm {
          return false;
        }
      }
      theSame := true;
      var i := 0;
      while i < |a.entries|
        invariant 0 <= i <= |a.entries| && theSame
        invariant forall k | 0 <= k < i && index + k + 1 >= 0 :: log[index + k + 1] == a.entries[k]
      {
        if index + i + 1 >= 0 {
          if log[index + i + 1] != a.entries[i] {
            return false;
          }
        }
        i := i + 1;
      }
    }

    /** The first index of the run of equal terms that ends at `index`; indices up to the base are
        returned as they are. */
    method GetIndexBeforeTerm(index: int) returns (first: int)
      requires Contiguous(log) && index <= Last(log)
      ensures StartsTerm(log, index, first)
      ensures first <= index && (index <= Base(log) ==> first == index)
      ensures forall k | Base(log) < index && first <= k <= index ::
        Base(log) <= k && log[LocalIndex(log, k)].term == log[LocalIndex(log, index)].term
      ensures Base(log) < index ==> first == Base(log) || (Base(log) < first && log[LocalIndex(log, first - 1)].term != log[LocalIndex(log, index)].term)
    {
      var local := LocalIndex(log, index);
      if local <= 0 {
        return index;
      }
      var t := log[local].term;
      var i := local;
      while i >= 0 && log[i].term == t
        invariant -1 <= i <= local
        invariant forall k | i < k <= local :: log[k].term == t
      {
        i := i - 1;
      }
      return RealIndex(log, i + 1);
    }

    method AppendEntries(a: AppendArgs) returns (reply: AppendReply)
      requires Contiguous(log)
      modifies this
      ensures View() == Appended(old(View()), a)
      ensures reply.success <==> AppendOutcome(old(term), old(log), a).Accepted?
      ensures reply.term == if a.term < old(term) then old(term) else 0
      ensures AppendOutcome(old(term), old(log), a).Refused? || reply.success ==> reply.nextIndex == 0
      ensures AppendOutcome(old(term), old(log), a).TooShort? ==> reply.nextIndex == Last(old(log)) < a.prevIndex
      ensures AppendOutcome(old(term), old(log), a).Mismatch? ==>
        a.prevIndex <= Last(old(log)) && StartsTerm(old(log), a.prevIndex, reply.nextIndex)
    {
      assert log != [];
      hide Covered, Contiguous, AppendOutcome, Appended, NewCommit, StartsTerm, Spliced;
      reply := AppendReply(0, false, 0);
      if a.term < term {
        RefusedBranch(View(), a);
        reply := reply.(term := term);
        return;
      }
      var stale := false;
      if a.prevIndex + |a.entries| <= Last(log) {
        stale := TestStaleRPC(a);
      }
      if stale {
        CoveredBranch(View(), a);
        UpdateCommit(a.leaderCommit);
        term := a.term;
        reply := reply.(success := true);
        return;
      }
      if Last(log) < a.prevIndex {
        TooShortBranch(View(), a);
        reply := reply.(nextIndex := Last(log));
        return;
      }
      IndexConversions(log, a.prevIndex, 0);
      var matching := LocalIndex(log, a.prevIndex);
      if matching > -1 && log[matching].term != a.prevTerm {
        MismatchBranch(View(), a);
        var next := GetIndexBeforeTerm(a.prevIndex);
        reply := reply.(nextIndex := next);
        log := log[..matching];
        return;
      }
      SpliceBranch(View(), a);
      TakeEntries(a, matching);
      reply := reply.(success := true);
    }

    /** The accepting branch: overwrite from the matching entry on. */
    method TakeEntries(a: AppendArgs, matching: int)
      requires Contiguous(log) && a.prevIndex <= Last(log) && matching == LocalIndex(log, a.prevIndex)
      requires matching < 0 ==> -matching - 1 < |a.entries|
      modifies this
      ensures log == Spliced(old(log), a) && log != []
      ensures View() == old(View()).(log := log, term := a.term, commit := NewCommit(old(commit), a.leaderCommit, Last(log)))
    {
      if matching + 1 > 0 {
        log := log[..matching + 1] + a.entries;
      } else {
        log := a.entries[-matching - 1..];
      }
      UpdateCommit(a.leaderCommit);
      term := a.term;
    }

    method UpdateCommit(leaderCommit: int)
      requires log != []
      modifies this`commit
      ensures commit == NewCommit(old(commit), leaderCommit, Last(log))
      ensures leaderCommit <= old(commit) ==> commit == old(commit)
      ensures leaderCommit > old(commit) ==>
        commit <= leaderCommit && commit <= Last(log) && (commit == leaderCommit || commit == Last(log))
    {
      var highestIndex := Last(log);
      if leaderCommit > commit {
        if leaderCommit > highestIndex {
          commit := highestIndex;
        } else {
          commit := leaderCommit;
        }
      }
    }

    // -------------------------------------------------------------- the leader's side

    /** Returns the index the command will have if it is ever committed. */
    method Start(command: int) returns (index: int, t: int, isLeader: bool)
      requires log != [] && me < |nextIndex| && me < |matchIndex|
      modifies this
      ensures isLeader == (old(role) == Leader)
      ensures !isLeader ==> View() == old(View()) && index == t == -1
      ensures isLeader ==> View() == Started(old(View()), command) && index == Last(log) && t == old(term)
      ensures isLeader ==>
        && log == old(log) + [Command(Last(old(log)) + 1, command, old(term))]
        && nextIndex == old(nextIndex)[me := index + 1] && matchIndex == old(matchIndex)[me := index]
        && term == old(term) && role == old(role) && commit == old(commit) && votedFor == old(votedFor)
    {
      if role != Leader {
        return -1, -1, false;
      }
      index := Last(log) + 1;
      log := log + [Command(index, command, term)];
      nextIndex := nextIndex[me := index + 1];
      matchIndex := matchIndex[me := index];
      return index, term, true;
    }

    /** The message for a follower, when its next index lies inside the retained log. */
    method BuildAppendEntries(server: nat) returns (a: AppendArgs)
      requires Contiguous(log) && server < |nextIndex| && Base(log) < nextIndex[server] <= Last(log) + 1
      ensures a == Message(View(), nextIndex[server])
      ensures a.term == term && a.leaderId == me && a.leaderCommit == commit && a.prevIndex == nextIndex[server] - 1
      ensures a.prevTerm == log[LocalIndex(log, a.prevIndex)].term && |a.entries| == Last(log) - a.prevIndex
      ensures forall i | 0 <= i < |a.entries| :: a.entries[i] == log[LocalIndex(log, a.prevIndex + 1 + i)]
    {
      var prev := nextIndex[server] - 1;
      var localPrev := LocalIndex(log, prev);
      var prevTerm := 0;
      if localPrev >= 0 {
        prevTerm := log[localPrev].term;
      }
      var entries: seq<Command> := [];
      if |log| - 1 > localPrev {
        entries := log[localPrev + 1..];
      }
      a := AppendArgs(term, me, prev, prevTerm, entries, commit);
    }

    /** The reply half of `sendSingleAppendEntries`. On success the follower is known to match up to one
        before its next index, which never moves below what the message reached. */
    method HandleAppendReply(server: nat, sentTerm: int, a: AppendArgs, reply: AppendReply)
      requires Contiguous(log) && server < |nextIndex| && server < |matchIndex|
      requires role == Leader && term == sentTerm && !reply.success && reply.term <= term ==> a.prevIndex <= Last(log)
      modifies this
      ensures old(role) != Leader || old(term) != sentTerm ==> View() == old(View())
      ensures old(role) == Leader && old(term) == sentTerm && reply.success ==>
        View() == Acknowledged(old(View()), server, a.prevIndex + |a.entries|)
      ensures old(role) == Leader && old(term) == sentTerm && !reply.success && reply.term > old(term) ==>
        View() == old(View()).(role := Follower, term := reply.term, votedFor := NOBODY)
      ensures old(role) == Leader && old(term) == sentTerm && !reply.success && reply.term <= old(term) ==>
        exists first :: StartsTerm(old(log), a.prevIndex, first) && View() == BackedOff(old(View()), server, Min(first, reply.nextIndex))
      ensures old(role) == Leader && old(term) == sentTerm && reply.success ==>
        && nextIndex == old(nextIndex)[server := nextIndex[server]] && matchIndex == old(matchIndex)[server := nextIndex[server] - 1]
        && a.prevIndex + |a.entries| < nextIndex[server] && old(nextIndex)[server] <= nextIndex[server]
        && (nextIndex[server] == a.prevIndex + |a.entries| + 1 || nextIndex[server] == old(nextIndex)[server])
        && role == Leader && term == old(term) && log == old(log) && commit == old(commit)
      ensures old(role) == Leader && old(term) == sentTerm && !reply.success && reply.term <= old(term) ==>
        && nextIndex == old(nextIndex)[server := nextIndex[server]] && matchIndex == old(matchIndex)
        && nextIndex[server] <= a.prevIndex && nextIndex[server] <= reply.nextIndex
        && role == Leader && term == old(term) && log == old(log) && commit == old(commit)
    {
      if role != Leader || term != sentTerm {
        return;
      }
      if !reply.success {
        if reply.term > term {
          term := reply.term;
          role := Follower;
          votedFor := NOBODY;
        } else {
          var tmp := GetIndexBeforeTerm(a.prevIndex);
          if tmp < reply.nextIndex {
            nextIndex := nextIndex[server := tmp];
          } else {
            nextIndex := nextIndex[server := reply.nextIndex];
          }
          assert View() == BackedOff(old(View()), server, Min(tmp, reply.nextIndex));
        }
      } else {
        var tmp := a.prevIndex + |a.entries| + 1;
        if nextIndex[server] < tmp {
          nextIndex := nextIndex[server := tmp];
        }
        matchIndex := matchIndex[server := nextIndex[server] - 1];
      }
    }

    /** The leader commits the majority value when that entry is of its own term. */
    method CheckCommitIndex()
      requires Contiguous(log) && matchIndex != []
      requires forall r | IsMajorityValue(matchIndex, r) && r > commit :: Base(log) <= r <= Last(log)
      modifies this`commit
      ensures commit == old(commit) ||
        (commit > old(commit) && IsMajorityValue(matchIndex, commit) && Base(log) <= commit <= Last(log)
         && log[LocalIndex(log, commit)].term == term)
      ensures forall r | IsMajorityValue(matchIndex, r) && r > old(commit) && Base(log) <= r <= Last(log)
                         && log[LocalIndex(log, r)].term == term :: commit == r
    {
      var majority := FindMajority(matchIndex);
      forall r | IsMajorityValue(matchIndex, r) ensures r == majority {
        MajorityValueUnique(matchIndex, r, majority);
      }
      if commit < majority {
        var local := LocalIndex(log, majority);
        if log[local].term == term {
          commit := majority;
        }
      }
    }

    method StartSnapshot(index: int)
      requires Contiguous(log)
      modifies this
      ensures View() == Compacted(old(View()), index) && Contiguous(log)
      ensures Base(old(log)) < index <= Last(old(log)) ==> Base(log) == index && Last(log) == Last(old(log))
      ensures !(Base(old(log)) < index <= Last(old(log))) ==> log == old(log)
      ensures |log| <= |old(log)| && log == old(log)[|old(log)| - |log|..]
    {
      CompactKeepsOffsets(View(), index, index);
      var baseIndex := Base(log);
      var lastIndex := Last(log);
      if index <= baseIndex || index > lastIndex {
        return;
      }
      log := log[LocalIndex(log, index)..];
    }

    // -------------------------------------------------------------- elections

    method UpdateBeforeRequestVote()
      modifies this
      ensures View() == Campaigning(old(View()))
      ensures role == Candidate && term == old(term) + 1 && votedFor == me && votes == 1 && log == old(log)
    {
      role := Candidate;
      term := term + 1;
      votedFor := me;
      votes := 1;
    }

    method RequestVote(a: VoteArgs) returns (reply: VoteReply)
      requires log != []
      modifies this
      ensures (View(), reply) == Voted(old(View()), a)
      ensures reply.granted <==>
        && (a.term > old(term) || (a.term == old(term) && old(votedFor) == NOBODY))
        && (a.lastTerm > LastTerm(log) || (a.lastTerm == LastTerm(log) && a.lastIndex >= Last(log)))
      ensures reply.granted ==> term == a.term && votedFor == a.candidateId
      ensures a.term <= old(term) ==> term == old(term) && role == old(role)
      ensures a.term > old(term) ==> term == a.term && role == Follower
      ensures !reply.granted ==> votedFor == if a.term > old(term) then NOBODY else old(votedFor)
      ensures reply.term == if a.term < old(term) || a.lastTerm < LastTerm(log) || (a.lastTerm == LastTerm(log) && a.lastIndex < Last(log))
                            then term else 0
      ensures log == old(log) && votes == old(votes) && commit == old(commit)
    {
      reply := VoteReply(0, false);
      if a.term < term {
        return reply.(term := term);
      }
      if a.term > term {
        term := a.term;
        role := Follower;
        votedFor := NOBODY;
      }
      if a.lastTerm < LastTerm(log) {
        return reply.(term := term);
      } else if a.lastTerm == LastTerm(log) {
        if a.lastIndex < Last(log) {
          return reply.(term := term);
        }
      }
      if votedFor == NOBODY {
        votedFor := a.candidateId;
        return reply.(granted := true);
      }
    }

    method HandleVoteReply(sentTerm: int, reply: VoteReply)
      modifies this
      ensures View() == Counted(old(View()), sentTerm, reply)
      ensures old(role) != Candidate || old(term) != sentTerm ==> View() == old(View())
      ensures old(role) == Candidate && old(term) == sentTerm && reply.granted ==>
        votes == old(votes) + 1 && role == Candidate && term == old(term) && votedFor == old(votedFor)
      ensures old(role) == Candidate && old(term) == sentTerm && !reply.granted ==>
        && votes == old(votes) && term == (if reply.term > old(term) then reply.term else old(term))
        && (reply.term > old(term) ==> role == Follower && votedFor == NOBODY)
        && (reply.term <= old(term) ==> View() == old(View()))
    {
      if role != Candidate || term != sentTerm {
        return;
      }
      if reply.granted {
        votes := votes + 1;
      } else if reply.term > term {
        term := reply.term;
        role := Follower;
        votedFor := NOBODY;
      }
    }

    method UpdateToFollower()
      modifies this
      ensures View() == SteppedDown(old(View()))
      ensures role == Follower && votedFor == NOBODY && term == old(term) && votes == old(votes) && log == old(log)
    {
      role := Follower;
      votedFor := NOBODY;
    }

    method TestLeader(peers: nat)
      requires log != []
      modifies this
      ensures View() == Tested(old(View()), peers)
      ensures role == Leader <==> old(role) == Leader || 2 * old(votes) > peers
      ensures 2 * old(votes) > peers ==>
        |nextIndex| == |matchIndex| == peers && forall j | 0 <= j < peers :: nextIndex[j] == Last(log) + 1 && matchIndex[j] == 0
      ensures 2 * old(votes) <= peers ==> View() == old(View())
      ensures term == old(term) && votedFor == old(votedFor) && votes == old(votes) && log == old(log) && commit == old(commit)
    {
      if votes > peers / 2 {
        role := Leader;
        var next := Last(log) + 1;
        nextIndex := seq(peers, _ => next);
        matchIndex := seq(peers, _ => 0);
        assert nextIndex == Tested(old(View()), peers).nextIndex;
      }
    }
  }
}
