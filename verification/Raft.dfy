/** One Raft peer (src/raft/raft.go): the log, its index arithmetic and the handlers that touch it.

    Every handler of the original runs under the peer's lock, so each is one step here. Commands are
    compared only for equality; integers stand for them. */
module Raft {

  datatype Command = Command(index: int, command: int, term: int)

  /** The entry every log starts with. */
  const SENTINEL: Command := Command(0, 0, 0)

  const NOBODY: int := -1

  datatype Role = Leader | Follower | Candidate

  datatype Peer = Peer(me: nat, role: Role, term: int, votedFor: int, votes: int, log: seq<Command>,
                       commit: int, applied: int, nextIndex: seq<int>, matchIndex: seq<int>)

  datatype AppendArgs = AppendArgs(term: int, leaderId: int, prevIndex: int, prevTerm: int,
                                   entries: seq<Command>, leaderCommit: int)

  datatype AppendReply = AppendReply(term: int, success: bool, nextIndex: int)

  datatype VoteArgs = VoteArgs(term: int, candidateId: int, lastIndex: int, lastTerm: int)

  datatype VoteReply = VoteReply(term: int, granted: bool)

  // ---------------------------------------------------------------- indices

  /** The log is non-empty and its entries are numbered consecutively from the base. */
  ghost predicate Contiguous(log: seq<Command>) {
    log != [] && forall i | 0 <= i < |log| :: log[i].index == log[0].index + i
  }

  function Base(log: seq<Command>): int
    requires log != []
  {
    log[0].index
  }

  function Last(log: seq<Command>): int
    requires log != []
  {
    log[|log| - 1].index
  }

  function LastTerm(log: seq<Command>): int
    requires log != []
  {
    log[|log| - 1].term
  }

  function RealIndex(log: seq<Command>, raw: int): int
    requires log != []
  {
    raw + Base(log)
  }

  function LocalIndex(log: seq<Command>, index: int): int
    requires log != []
  {
    index - Base(log)
  }

  /** The two conversions are inverse, and a retained real index finds the entry of that number. */
  lemma IndexConversions(log: seq<Command>, index: int, raw: int)
    requires Contiguous(log)
    ensures RealIndex(log, LocalIndex(log, index)) == index && LocalIndex(log, RealIndex(log, raw)) == raw
    ensures Base(log) <= index <= Last(log) <==> 0 <= LocalIndex(log, index) < |log|
    ensures Base(log) <= index <= Last(log) ==> log[LocalIndex(log, index)].index == index
  {}

  /** `first` is where the run of equal terms ending at `index` starts; indices up to the base stand for
      themselves. */
  ghost predicate StartsTerm(log: seq<Command>, index: int, first: int)
    requires Contiguous(log) && index <= Last(log)
    ensures StartsTerm(log, index, first) ==> first <= index
  {
    if index <= Base(log) then first == index
    else
      && Base(log) <= first <= index
      && (forall k | first <= k <= index :: log[LocalIndex(log, k)].term == log[LocalIndex(log, index)].term)
      && (Base(log) < first ==> log[LocalIndex(log, first - 1)].term != log[LocalIndex(log, index)].term)
  }

  // ---------------------------------------------------------------- AppendEntries

  /** `testStaleRPC`: every entry of the message that falls into the log is already there. */
  ghost predicate Covered(log: seq<Command>, a: AppendArgs)
    requires Contiguous(log) && a.prevIndex + |a.entries| <= Last(log)
  {
    var index := LocalIndex(log, a.prevIndex);
    && (index >= 0 ==> log[index].term == a.prevTerm)
    && (forall i | 0 <= i < |a.entries| && index + i + 1 >= 0 :: log[index + i + 1] == a.entries[i])
  }

  datatype Outcome = Refused | TooShort | Mismatch(cut: nat) | Accepted(log: seq<Command>)

  /** The branches of AppendEntries and the log they leave. */
  ghost function AppendOutcome(term: int, log: seq<Command>, a: AppendArgs): Outcome
    requires Contiguous(log)
  {
    var local := LocalIndex(log, a.prevIndex);
    if a.term < term then Refused
    else if a.prevIndex + |a.entries| <= Last(log) && Covered(log, a) then Accepted(log)
    else if Last(log) < a.prevIndex then TooShort
    else if local >= 0 && log[local].term != a.prevTerm then Mismatch(local)
    else if local >= 0 then Accepted(log[..local + 1] + a.entries)
    else if -local - 1 <= |a.entries| then Accepted(a.entries[-local - 1..])
    else Accepted([])
  }

  function Min(a: int, b: int): int {
    if a < b then a else b
  }

  /** Follower commit rule: raise to the leader's value, but not past the own last entry. */
  function NewCommit(commit: int, leaderCommit: int, highest: int): int {
    if leaderCommit > commit then Min(leaderCommit, highest) else commit
  }

  /** The peer after handling the message. A mismatch shortens the log but leaves the term and the
      role alone, whatever the message's term. */
  ghost function Appended(p: Peer, a: AppendArgs): Peer
    requires Contiguous(p.log)
  {
    match AppendOutcome(p.term, p.log, a)
    case Refused => p
    case TooShort => p
    case Mismatch(cut) => if cut <= |p.log| then p.(log := p.log[..cut]) else p
    case Accepted(log) =>
      if log == [] then p
      else p.(log := log, term := a.term, commit := NewCommit(p.commit, a.leaderCommit, Last(log)))
  }

  // The branches one by one.

  lemma RefusedBranch(p: Peer, a: AppendArgs)
    requires Contiguous(p.log) && a.term < p.term
    ensures AppendOutcome(p.term, p.log, a) == Refused && Appended(p, a) == p
  {}

  lemma CoveredBranch(p: Peer, a: AppendArgs)
    requires Contiguous(p.log) && a.term >= p.term && a.prevIndex + |a.entries| <= Last(p.log) && Covered(p.log, a)
    ensures AppendOutcome(p.term, p.log, a) == Accepted(p.log)
    ensures Appended(p, a) == p.(term := a.term, commit := NewCommit(p.commit, a.leaderCommit, Last(p.log)))
  {}

  lemma TooShortBranch(p: Peer, a: AppendArgs)
    requires Contiguous(p.log) && a.term >= p.term && Last(p.log) < a.prevIndex
    ensures AppendOutcome(p.term, p.log, a) == TooShort && Appended(p, a) == p
  {}

  lemma MismatchBranch(p: Peer, a: AppendArgs)
    requires Contiguous(p.log) && a.term >= p.term && Base(p.log) <= a.prevIndex <= Last(p.log)
    requires p.log[LocalIndex(p.log, a.prevIndex)].term != a.prevTerm
    ensures AppendOutcome(p.term, p.log, a) == Mismatch(LocalIndex(p.log, a.prevIndex))
    ensures Appended(p, a) == p.(log := p.log[..LocalIndex(p.log, a.prevIndex)])
  {}

  ghost function Spliced(log: seq<Command>, a: AppendArgs): seq<Command>
    requires Contiguous(log) && a.prevIndex <= Last(log)
    requires LocalIndex(log, a.prevIndex) < 0 ==> -LocalIndex(log, a.prevIndex) - 1 <= |a.entries|
  {
    var local := LocalIndex(log, a.prevIndex);
    if local >= 0 then log[..local + 1] + a.entries else a.entries[-local - 1..]
  }

  lemma SpliceBranch(p: Peer, a: AppendArgs)
    requires Contiguous(p.log) && a.term >= p.term && a.prevIndex <= Last(p.log)
    requires !(a.prevIndex + |a.entries| <= Last(p.log) && Covered(p.log, a))
    requires Base(p.log) <= a.prevIndex ==> p.log[LocalIndex(p.log, a.prevIndex)].term == a.prevTerm
    ensures LocalIndex(p.log, a.prevIndex) < 0 ==> -LocalIndex(p.log, a.prevIndex) - 1 < |a.entries|
    ensures Spliced(p.log, a) != [] && AppendOutcome(p.term, p.log, a) == Accepted(Spliced(p.log, a))
    ensures Appended(p, a) == p.(log := Spliced(p.log, a), term := a.term,
                                 commit := NewCommit(p.commit, a.leaderCommit, Last(Spliced(p.log, a))))
  {}

  /** Entries numbered on from the previous index, as every leader sends them. */
  ghost predicate WellNumbered(a: AppendArgs) {
    forall i | 0 <= i < |a.entries| :: a.entries[i].index == a.prevIndex + 1 + i
  }

  /** The message does not contradict the receiver's base entry. */
  ghost predicate AgreesOnBase(log: seq<Command>, a: AppendArgs)
    requires log != []
  {
    a.prevIndex == Base(log) ==> a.prevTerm == log[0].term
  }

  /** Beyond the base the slice expressions are in range and the accepted log is not empty. */
  lemma AcceptedIsNonempty(p: Peer, a: AppendArgs)
    requires Contiguous(p.log)
    ensures AppendOutcome(p.term, p.log, a).Accepted? ==> AppendOutcome(p.term, p.log, a).log != []
    ensures AppendOutcome(p.term, p.log, a).Mismatch? ==> AppendOutcome(p.term, p.log, a).cut < |p.log|
    ensures var local := LocalIndex(p.log, a.prevIndex);
      local < 0 && AppendOutcome(p.term, p.log, a).Accepted? && AppendOutcome(p.term, p.log, a).log != p.log ==>
        AppendOutcome(p.term, p.log, a).log == a.entries[-local - 1..]
  {}

  /** The index-offset invariant survives AppendEntries for messages that agree on the base entry. */
  lemma AppendKeepsOffsets(p: Peer, a: AppendArgs)
    requires Contiguous(p.log) && WellNumbered(a) && AgreesOnBase(p.log, a)
    ensures Contiguous(Appended(p, a).log) && Base(Appended(p, a).log) == Base(p.log)
    ensures Appended(p, a).term >= p.term
    ensures p.commit >= Base(p.log) ==> Appended(p, a).commit >= Base(p.log)
  {}

  /** And only for those: a mismatch at the base entry leaves an empty log, on which the next handler
      call panics. */
  lemma OffsetsSurviveIff(p: Peer, a: AppendArgs)
    requires Contiguous(p.log) && WellNumbered(a)
    ensures Contiguous(Appended(p, a).log) <==> AgreesOnBase(p.log, a) || a.term < p.term
  {
    if AgreesOnBase(p.log, a) {
      AppendKeepsOffsets(p, a);
    }
  }

  // ---------------------------------------------------------------- what the handler does, index by index

  /** The entry that log and message have in common at a real index is the message's. */
  ghost predicate Takes(log: seq<Command>, a: AppendArgs)
    requires Contiguous(log)
  {
    forall i | 0 <= i < |a.entries| :: TakesAt(log, a, i)
  }

  ghost predicate TakesAt(log: seq<Command>, a: AppendArgs, i: nat)
    requires Contiguous(log) && i < |a.entries|
  {
    var index := a.prevIndex + 1 + i;
    Base(log) <= index <= Last(log) ==> log[LocalIndex(log, index)] == a.entries[i]
  }

  /** Up to `upTo` the new log has the old entries. */
  ghost predicate KeepsUpTo(log: seq<Command>, log': seq<Command>, upTo: int)
    requires Contiguous(log) && Contiguous(log') && Base(log') == Base(log)
  {
    forall k | Base(log) <= k <= upTo && k <= Last(log) && k <= Last(log') :: log'[LocalIndex(log', k)] == log[LocalIndex(log, k)]
  }

  /** The message is accepted exactly when it is of no older term and matches at its previous index. */
  lemma AcceptedIff(p: Peer, a: AppendArgs)
    requires Contiguous(p.log)
    ensures AppendOutcome(p.term, p.log, a).Accepted? <==> a.term >= p.term && MatchesPrevious(p.log, a)
  {}

  /** `testStaleRPC` in real indices. */
  lemma CoveredIsTaken(log: seq<Command>, a: AppendArgs)
    requires Contiguous(log) && a.prevIndex + |a.entries| <= Last(log)
    ensures Covered(log, a) <==> MatchesPrevious(log, a) && Takes(log, a)
  {
    if Covered(log, a) {
      forall i | 0 <= i < |a.entries| ensures TakesAt(log, a, i) {
        assert LocalIndex(log, a.prevIndex) + i + 1 >= 0 ==> log[LocalIndex(log, a.prevIndex) + i + 1] == a.entries[i];
      }
    }
    if MatchesPrevious(log, a) && Takes(log, a) {
      forall i | 0 <= i < |a.entries| && LocalIndex(log, a.prevIndex) + i + 1 >= 0
        ensures log[LocalIndex(log, a.prevIndex) + i + 1] == a.entries[i]
      {
        assert TakesAt(log, a, i);
      }
    }
  }

  /** Where the spliced log has its entries from. */
  lemma SplicedAt(log: seq<Command>, a: AppendArgs, k: int)
    requires Contiguous(log) && a.prevIndex <= Last(log)
    requires LocalIndex(log, a.prevIndex) < 0 ==> -LocalIndex(log, a.prevIndex) - 1 < |a.entries|
    ensures |Spliced(log, a)| == a.prevIndex + |a.entries| + 1 - Base(log) > 0
    ensures Base(log) <= k <= a.prevIndex + |a.entries| ==>
      Spliced(log, a)[k - Base(log)] == if k <= a.prevIndex then log[k - Base(log)] else a.entries[k - a.prevIndex - 1]
  {}

  lemma SplicedOffsets(log: seq<Command>, a: AppendArgs)
    requires Contiguous(log) && WellNumbered(a) && a.prevIndex <= Last(log)
    requires LocalIndex(log, a.prevIndex) < 0 ==> -LocalIndex(log, a.prevIndex) - 1 < |a.entries|
    ensures var log' := Spliced(log, a);
      Contiguous(log') && Base(log') == Base(log) && Last(log') == a.prevIndex + |a.entries|
  {
    hide Spliced;
    SplicedAt(log, a, Base(log));
    forall i | 0 <= i < |Spliced(log, a)| ensures Spliced(log, a)[i].index == Base(log) + i {
      SplicedAt(log, a, Base(log) + i);
    }
  }

  lemma SplicedTakesAt(log: seq<Command>, a: AppendArgs, i: nat)
    requires Contiguous(log) && WellNumbered(a) && a.prevIndex <= Last(log) && i < |a.entries|
    requires LocalIndex(log, a.prevIndex) < 0 ==> -LocalIndex(log, a.prevIndex) - 1 < |a.entries|
    ensures Contiguous(Spliced(log, a)) && TakesAt(Spliced(log, a), a, i)
  {
    hide Spliced, Contiguous, WellNumbered;
    SplicedOffsets(log, a);
    SplicedAt(log, a, a.prevIndex + 1 + i);
  }

  lemma SplicedTakes(log: seq<Command>, a: AppendArgs)
    requires Contiguous(log) && WellNumbered(a) && a.prevIndex <= Last(log)
    requires LocalIndex(log, a.prevIndex) < 0 ==> -LocalIndex(log, a.prevIndex) - 1 < |a.entries|
    ensures Contiguous(Spliced(log, a)) && Takes(Spliced(log, a), a)
  {
    hide Spliced, Contiguous, WellNumbered, TakesAt;
    SplicedOffsets(log, a);
    forall i | 0 <= i < |a.entries| ensures TakesAt(Spliced(log, a), a, i) {
      SplicedTakesAt(log, a, i);
    }
  }

  lemma SplicedKeeps(log: seq<Command>, a: AppendArgs)
    requires Contiguous(log) && WellNumbered(a) && a.prevIndex <= Last(log)
    requires LocalIndex(log, a.prevIndex) < 0 ==> -LocalIndex(log, a.prevIndex) - 1 < |a.entries|
    ensures Contiguous(Spliced(log, a)) && Base(Spliced(log, a)) == Base(log) && KeepsUpTo(log, Spliced(log, a), a.prevIndex)
  {
    assert log != [];
    hide Spliced, Contiguous, WellNumbered;
    SplicedOffsets(log, a);
    SplicedAt(log, a, Base(log));
    var log' := Spliced(log, a);
    forall k | Base(log) <= k <= a.prevIndex && k <= Last(log) && k <= Last(log')
      ensures log'[LocalIndex(log', k)] == log[LocalIndex(log, k)]
    {
      SplicedAt(log, a, k);
    }
  }

  /** Then the log takes every entry of the message, keeps its own up to the previous index, and ends where the
      message ends, unless it had all of it before; nothing but log, term and commit index changes. */
  lemma AcceptedEffect(p: Peer, a: AppendArgs)
    requires Contiguous(p.log) && WellNumbered(a) && a.term >= p.term && MatchesPrevious(p.log, a)
    ensures var q := Appended(p, a);
      && Contiguous(q.log) && Base(q.log) == Base(p.log) && Takes(q.log, a) && KeepsUpTo(p.log, q.log, a.prevIndex)
      && q == p.(term := a.term, log := q.log, commit := q.commit)
      && a.prevIndex + |a.entries| <= Last(q.log)
      && (if a.prevIndex + |a.entries| <= Last(p.log) && Takes(p.log, a) then q.log == p.log
          else Last(q.log) == a.prevIndex + |a.entries|)
  {
    if a.prevIndex + |a.entries| <= Last(p.log) && Takes(p.log, a) {
      CoveredIsTaken(p.log, a);
      CoveredBranch(p, a);
      hide AppendOutcome, Appended, Covered, Takes, NewCommit;
    } else {
      if a.prevIndex + |a.entries| <= Last(p.log) {
        CoveredIsTaken(p.log, a);
      }
      SpliceBranch(p, a);
      hide AppendOutcome, Appended, Covered, NewCommit, Spliced, Takes, KeepsUpTo;
      SplicedOffsets(p.log, a);
      SplicedTakes(p.log, a);
      SplicedKeeps(p.log, a);
    }
  }

  /** A refused or premature message changes nothing, and a mismatch cuts exactly the entries from the
      previous index on. */
  lemma RejectedEffect(p: Peer, a: AppendArgs)
    requires Contiguous(p.log) && WellNumbered(a) && AgreesOnBase(p.log, a)
    requires a.term < p.term || !MatchesPrevious(p.log, a)
    ensures var q := Appended(p, a);
      if a.term < p.term || a.prevIndex > Last(p.log) then q == p
      else
        && q == p.(log := q.log) && Contiguous(q.log) && Base(q.log) == Base(p.log)
        && Last(q.log) == a.prevIndex - 1 && KeepsUpTo(p.log, q.log, a.prevIndex)
  {}

  /** After accepting, the commit index is the old one or, if the message announces more, the largest index
      that is both announced and in the log. */
  lemma AcceptedCommit(p: Peer, a: AppendArgs)
    requires Contiguous(p.log) && AppendOutcome(p.term, p.log, a).Accepted?
    ensures var q := Appended(p, a);
      && q.log != []
      && (a.leaderCommit <= p.commit ==> q.commit == p.commit)
      && (a.leaderCommit > p.commit ==>
            q.commit <= a.leaderCommit && q.commit <= Last(q.log) && (q.commit == a.leaderCommit || q.commit == Last(q.log)))
  {}

  // ---------------------------------------------------------------- the follower's commit index

  /** The message matches at its previous index, as far as the receiver can tell. */
  ghost predicate MatchesPrevious(log: seq<Command>, a: AppendArgs)
    requires Contiguous(log)
  {
    a.prevIndex <= Last(log) && (Base(log) <= a.prevIndex ==> log[LocalIndex(log, a.prevIndex)].term == a.prevTerm)
  }

  /** The last index after accepting: the own one when the message brings nothing new. */
  ghost function EndAfter(log: seq<Command>, a: AppendArgs): int
    requires Contiguous(log)
  {
    if a.prevIndex + |a.entries| <= Last(log) && Covered(log, a) then Last(log) else a.prevIndex + |a.entries|
  }

  /** Exactly when handling a message lowers the commit index: it is accepted, it asks for more than is
      committed, and the log it leaves ends below what was committed. */
  lemma CommitFallsIff(p: Peer, a: AppendArgs)
    requires Contiguous(p.log) && WellNumbered(a)
    ensures Appended(p, a).commit < p.commit <==>
      && a.term >= p.term && a.leaderCommit > p.commit && MatchesPrevious(p.log, a) && EndAfter(p.log, a) < p.commit
  {}

  /** So no message whose sender has its commit index within its own log lowers it. */
  lemma HonestMessageKeepsCommit(p: Peer, a: AppendArgs)
    requires Contiguous(p.log) && WellNumbered(a) && a.leaderCommit <= a.prevIndex + |a.entries|
    ensures Appended(p, a).commit >= p.commit
  {
    CommitFallsIff(p, a);
  }

  /** But some message does: the receiver's committed entry 2 was cut off earlier, and a heartbeat that
      announces commit index 3 lowers its commit index from 2 to 1. */
  lemma CommitCanFall(p: Peer)
    requires p.log == [SENTINEL, Command(1, 0, 1)] && p.commit == 2 && p.term <= 2
    ensures Contiguous(p.log) && Appended(p, AppendArgs(2, 1, 1, 1, [], 3)).commit == 1
  {}

  /** Where a commit index beyond the own log comes from: exactly a mismatch at or below it, or an
      accepted message that ends below it and does not ask for more. */
  lemma CommitLeavesLogIff(p: Peer, a: AppendArgs)
    requires Contiguous(p.log) && WellNumbered(a) && AgreesOnBase(p.log, a) && p.commit <= Last(p.log)
    ensures Appended(p, a).log != []
    ensures Appended(p, a).commit > Last(Appended(p, a).log) <==>
      && a.term >= p.term
      && if MatchesPrevious(p.log, a) then EndAfter(p.log, a) < p.commit && a.leaderCommit <= p.commit
         else a.prevIndex <= p.commit
  {
    AppendKeepsOffsets(p, a);
  }

  // ---------------------------------------------------------------- Start, StartSnapshot, restart

  function Started(p: Peer, command: int): Peer
    requires p.log != [] && p.me < |p.nextIndex| && p.me < |p.matchIndex|
  {
    var index := Last(p.log) + 1;
    p.(log := p.log + [Command(index, command, p.term)],
       nextIndex := p.nextIndex[p.me := index + 1],
       matchIndex := p.matchIndex[p.me := index])
  }

  function Compacted(p: Peer, index: int): Peer
    requires p.log != []
  {
    if index <= Base(p.log) || index > Last(p.log) || !(0 <= LocalIndex(p.log, index) <= |p.log|) then p
    else p.(log := p.log[LocalIndex(p.log, index)..])
  }

  /** Back from stable storage: term, vote and log as saved, everything else as `Make` sets it. */
  function Restarted(p: Peer): Peer
    requires p.log != []
  {
    Peer(p.me, Follower, p.term, p.votedFor, 0, p.log, Base(p.log), Base(p.log),
         seq(|p.nextIndex|, _ => 1), seq(|p.matchIndex|, _ => 0))
  }

  lemma StartKeepsOffsets(p: Peer, command: int)
    requires Contiguous(p.log) && p.me < |p.nextIndex| && p.me < |p.matchIndex|
    ensures Contiguous(Started(p, command).log) && Base(Started(p, command).log) == Base(p.log)
    ensures Last(Started(p, command).log) == Last(p.log) + 1
  {}

  /** A restart commits nothing: the commit index falls back to the base, and nothing counts as applied beyond
      it. Term, vote and log survive, the role and the votes do not. */
  lemma RestartEffect(p: Peer)
    requires Contiguous(p.log)
    ensures var q := Restarted(p);
      && q.term == p.term && q.votedFor == p.votedFor && q.log == p.log && q.me == p.me
      && q.role == Follower && q.votes == 0
      && q.applied == q.commit == p.log[0].index && (Base(p.log) <= p.commit ==> q.commit <= p.commit)
  {}

  /** Compaction moves the base to the given index, if that lies inside the log, and leaves every retained real
      index with its entry. */
  lemma CompactKeepsOffsets(p: Peer, index: int, retained: int)
    requires Contiguous(p.log)
    ensures var log := Compacted(p, index).log;
      && Contiguous(log) && Last(log) == Last(p.log) && Base(p.log) <= Base(log)
      && Base(log) == (if Base(p.log) < index <= Last(p.log) then index else Base(p.log))
      && (Base(log) <= retained <= Last(log) ==> log[LocalIndex(log, retained)] == p.log[LocalIndex(p.log, retained)])
  {}

  // ---------------------------------------------------------------- leader to follower

  /** The message `sendSingleAppendEntries` builds for a follower whose next index is `next`. */
  ghost function Message(p: Peer, next: int): AppendArgs
    requires Contiguous(p.log) && Base(p.log) < next <= Last(p.log) + 1
  {
    var local := LocalIndex(p.log, next - 1);
    AppendArgs(p.term, p.me, next - 1, p.log[local].term, p.log[local + 1..], p.commit)
  }

  /** A leader never asks a follower to commit more than the message lets it verify, as long as its own
      commit index lies within its log. */
  lemma MessageCoversCommit(p: Peer, next: int)
    requires Contiguous(p.log) && Base(p.log) < next <= Last(p.log) + 1
    ensures var a := Message(p, next);
      && WellNumbered(a) && a.prevIndex + |a.entries| == Last(p.log)
      && (p.commit <= Last(p.log) <==> a.leaderCommit <= a.prevIndex + |a.entries|)
  {}

  /** A success reply to a message that reached up to `reach`. */
  function Acknowledged(p: Peer, server: nat, reach: int): Peer
    requires server < |p.nextIndex| && server < |p.matchIndex|
  {
    var next := if p.nextIndex[server] < reach + 1 then reach + 1 else p.nextIndex[server];
    p.(nextIndex := p.nextIndex[server := next], matchIndex := p.matchIndex[server := next - 1])
  }

  /** A rejection that asks to go on from `next`. */
  function BackedOff(p: Peer, server: nat, next: int): Peer
    requires server < |p.nextIndex|
  {
    p.(nextIndex := p.nextIndex[server := next])
  }

  // ---------------------------------------------------------------- elections

  /** `updateBeforeRequestVote` after `setState(Candidate)`. */
  function Campaigning(p: Peer): Peer {
    p.(role := Candidate, term := p.term + 1, votedFor := p.me, votes := 1)
  }

  /** The first half of RequestVote: a newer term makes the peer a follower without a vote. */
  function CaughtUp(p: Peer, term: int): Peer {
    if term > p.term then p.(term := term, role := Follower, votedFor := NOBODY) else p
  }

  /** RequestVote. The reply's term is only filled in when the request is turned down for its term or
      its log. */
  function Voted(p: Peer, a: VoteArgs): (Peer, VoteReply)
    requires p.log != []
  {
    if a.term < p.term then (p, VoteReply(p.term, false))
    else
      var p1 := CaughtUp(p, a.term);
      if a.lastTerm < LastTerm(p.log) || (a.lastTerm == LastTerm(p.log) && a.lastIndex < Last(p.log))
      then (p1, VoteReply(p1.term, false))
      else if p1.votedFor == NOBODY then (p1.(votedFor := a.candidateId), VoteReply(0, true))
      else (p1, VoteReply(0, false))
  }

  /** The reply half of `sendSingleRequestVote`, for a request sent in `term`. */
  function Counted(p: Peer, term: int, r: VoteReply): Peer {
    if p.role != Candidate || p.term != term then p
    else if r.granted then p.(votes := p.votes + 1)
    else if r.term > p.term then p.(term := r.term, role := Follower, votedFor := NOBODY)
    else p
  }

  /** `updateToFollower`: the vote is forgotten inside the term. */
  function SteppedDown(p: Peer): Peer {
    p.(role := Follower, votedFor := NOBODY)
  }

  /** The test makes a leader on a strict majority of the votes, who starts with next indices behind its log
      and no match. */
  lemma TestEffect(p: Peer, n: nat)
    requires p.log != []
    ensures var q := Tested(p, n);
      && (q.role == Leader <==> p.role == Leader || 2 * p.votes > n)
      && q == p.(role := q.role, nextIndex := q.nextIndex, matchIndex := q.matchIndex)
      && (2 * p.votes > n ==> |q.nextIndex| == |q.matchIndex| == n
                              && forall j | 0 <= j < n :: q.nextIndex[j] == Last(p.log) + 1 && q.matchIndex[j] == 0)
      && (2 * p.votes <= n ==> q == p)
  {}

  /** `testLeader` in a cluster of `n`. It looks at the votes only, not at the role. */
  function Tested(p: Peer, n: nat): Peer
    requires p.log != []
  {
    if p.votes > n / 2
    then p.(role := Leader, nextIndex := seq(n, _ => Last(p.log) + 1), matchIndex := seq(n, _ => 0))
    else p
  }
}
