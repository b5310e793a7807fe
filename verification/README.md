# A verified model of the linearizability checker, the replicated store and the Raft log

This project models three parts of the repository in Dafny and proves what they are for.

**The linearizability checker** (`src/linearizability`). `checkSingle` searches depth-first for a legal
sequential order of a concurrent history, over a doubly linked list with dancing-links removal, an undo
stack, a bitset and a hash-bucketed cache. The model keeps the heap nodes, the in-place bitset words, the
cache and the loop, and proves that the search terminates and that its verdict is exactly "a
linearization exists". Around it stand the sorting of entries by time, the renumbering of events, the
key partition (with the locality theorem that justifies it) and the collector of parallel verdicts.

**The key-value state machine** (`src/kvraft/server.go`). A log with retried, duplicated and stale
entries has the effect of its first-time entries only; replaying across a snapshot is harmless; the
recorded answers are accepted by the checker's own model; and what clients observe is linearizable.

**The Raft log and votes** (`src/raft/raft.go`). Clusters with lost, late, repeated and reordered
messages, local compaction and crashes: Log Matching, commits only over verified entries, what a majority
held behind a commit, one winner per term and the index arithmetic.

## How it is organised

| file | content |
|---|---|
| `Counting.dfy` | cardinalities of finite sets of naturals |
| `Histories.dfy` | operations, models, the textbook definition of linearizability, one-step-at-a-time completions |
| `Bitset.dfy`, `Cache.dfy` | the bitset (with its SWAR population count) as a finite set; the bucketed cache as a set of pairs |
| `Entries.dfy` | `makeEntries`, `renumber`, `convertEntries`, well-formed entry lists |
| `Links.dfy`, `Nodes.dfy`, `LiveNodes.dfy` | dancing links on positions, on heap nodes, and against the undo stack |
| `Search.dfy`, `Checker.dfy` | the search invariant without the heap; `checkSingle` on the heap |
| `KvModel.dfy` | `KvModel`, `Partition`, locality |
| `CheckOperations.dfy`, `Collector.dfy` | the drivers; all interleavings of workers and collector |
| `KvServer.dfy`, `Service.dfy` | the replicated store; checker and store together |
| `Raft.dfy`, `RaftServer.dfy` | one peer as functions on a value; the object whose methods do just that |
| `LogMatching.dfy`, `LogMatchingViolation.dfy`, `Replication.dfy`, `Election.dfy`, `LeaderRace.dfy`, `Quorum.dfy` | runs of a cluster |

Methods that change state are specified by a function of the old state (`Appended`, `Voted`, `Applied`,
`Unlink`, ...), and the laws are proved about those functions.

## Main results

- `Checker.CheckSingle` / `Checker.Explore`: true comes with a legal order, false means that none exists or
  that the last reading of the kill flag found it set, for every history and every total step function.
  `Search.CacheHitIsRuledOut` is the reason the cache cannot hide a solution, `Search.PathConfigIsKnown` the
  reason the loop ends.
- `KvModel.Locality`: a multi-key history is linearizable if and only if each key's sub-history is.
- `CheckOperations.EveryInterleavingIsRight`: for every outcome of the sorts and every interleaving of the
  workers, their readings of the flag and the collector, the answer on a multi-key history is right.
  `CheckOperations.CheckKvOperations` is the whole checker in one of these interleavings.
- `KvModel.SequentialGets` / `KvModel.SequentialStoreGets`: what the checker's model rejects. A history without
  overlap is linearizable if and only if every get returns the last value put with everything appended since.
- `LogMatching.LogMatchingOverRuns` with `LogMatching.GuardIsExact` and `LogMatching.LocalGuardIsExact`: see
  the findings below.
- `LogMatching.CommitsOnlyVerified`, `LogMatching.CommitsAllAnnounced`, `LogMatching.CommitNeverFalls`,
  `Replication.MajorityHeldTheEntries`, `Replication.EveryRiseIsBacked`, `Election.OneWinnerPerTerm`, `LeaderRace.TestIsRightIff`, `Quorum.CommitQuorumsMeet`.
- `KvServer.ExactlyOnce`, `KvServer.OverlappingReplay`, `KvServer.AnswersAcceptedIff`, `KvServer.AnswersAreRecorded`,
  `KvServer.ServiceIsLinearizable`, `Service.CheckerAcceptsService`.

## Findings

- **Log Matching does not follow from one appending server per term.** When AppendEntries meets a term
  mismatch at `PrevLogIndex` (src/raft/raft.go:412-418) it shortens the log but neither raises
  `CurrentTerm` nor leaves the Leader state. A leader of term t that hears from a later term can so drop
  its own entries of term t, remain leader of t and fill the same indices again.
  `LogMatchingViolation.LogMatchingIsLost` is such a run. `LogMatching.GuardIsExact` gives the exact
  condition: Log Matching survives every continuation of a delivery if and only if the receiver is not
  leading its term or nobody else holds an entry of that term at or beyond the cut (`SafeToTruncate`).
  `LogMatching.LocalGuardIsExact` gives the exact condition that a server can check on its own log, term and
  role: the delivery is safe whatever the rest of the cluster does first if and only if the cut removes no
  entry of the term the server is leading (`LocalGuard`). Followers, restarted leaders included, truncate
  without harm.
- **A leader commits what nobody else holds.** After such a cut `MatchIndex` still counts what followers
  acknowledged before it. `LogMatchingViolation.CutLeaderCommitsUnheld` is a run in which the leader then
  finds a majority for an index at which another server holds a different entry of the same term. While no
  leader is cut in its own term, `Replication.MajorityHeldTheEntries` shows that the counted servers held
  the leader's entries when they replied; `Replication.CutKeepsMatchesIff` says that a cut leaves
  `MatchIndex` right if and only if `PrevLogIndex` exceeds all of it.
- **A mismatch at the base entry empties the log.** After compaction, a message with `PrevLogIndex` at the
  receiver's base and another term leaves `Log` empty and the next handler call panics.
  `Raft.OffsetsSurviveIff` gives the exact condition, and `LogMatchingViolation.CompactedLogIsEmptied` a run
  that ends with such a message in flight.
- **A follower's commit index can fall.** The commit rule clamps to the last own entry, which may lie below
  the old commit index (src/raft/raft.go:431-439). `Raft.CommitFallsIff` gives the exact condition,
  `Raft.CommitCanFall` an input and `LogMatchingViolation.CommitFallsInRun` a run. It takes a sender whose
  commit index exceeds its own log: `Raft.HonestMessageKeepsCommit` shows that no other message lowers a
  commit index, and `LogMatching.CommitNeverFalls` that no delivery does in a run in which no commit index
  has exceeded its log. `Raft.CommitLeavesLogIff` says which message brings a server into that state.
- **A server can lead a term it has not won.** `testLeader` looks at the votes and neither at the role nor at
  the term they were given in (src/raft/raft.go:894-901). The main loop calls it after reading the role
  without holding the lock in between (src/raft/raft.go:974-993), and AppendEntries moves a candidate to
  another term with its votes (src/raft/raft.go:393, 442). `LeaderRace.TwoLeadersInOneTerm` and
  `LeaderRace.CandidateLeadsForeignTerm` are runs after which a follower and a candidate pass the test in a
  term that another server has won. `LeaderRace.TestIsRightIff` gives the exact condition: the votes are of
  the current term if and only if that is the term of the server's last campaign.
- **A forgotten vote elects two.** `updateToFollower` clears the vote without a new term
  (src/raft/raft.go:887-892). `LeaderRace.ForgottenVoteElectsTwo` is a run in which a leader that steps down
  this way elects a second leader of its term. `Election.ForgettingIsSafeIff` gives the exact condition: no
  vote that counts is lost if and only if the server has not voted in its term, or only for itself and
  without winning. Candidates always meet it (`Election.CandidateMayForget`), and
  `Election.OneWinnerPerTerm` covers these step-downs.
- **Ties in time leave the verdict to the sort.** `sort.Sort` may place a return and a call with equal
  times either way. `Entries.SortIsIrrelevantIff`: every sort leads to the same verdict if and only if the
  reading in which such operations overlap and the one in which they do not (`Entries.Eager`) have the same
  verdict. `CheckOperations.TiesMatter` gives two sorts of one history on which the verdicts differ.
- **No partitions, no answer.** With an empty history and `KvModel` the collector waits forever
  (`Collector.BlocksWithoutPartitions`).

## Conditions

- Histories handed to the checker have Call < Return for each operation, and event histories are complete
  (`Entries.Matched`); otherwise `checkSingle` would take a call without a match for a return.
- `Step` is a total function and states are compared with equality, as with `ShallowEqual`.
- That a log entry is added after the client's call, and that an answer comes after its own and all earlier
  entries were added (`KvServer.ServedBy`), is assumed of the handlers and of Raft, not derived from them.
- In the Log Matching runs one server appends and sends in each term, a server does not come to lead a term
  again after it has appended in it, messages do not contradict a receiver's base entry unless they are
  refused for their term (always true without compaction, `LogMatching.UncompactedAgreesOnBase`), and only
  committed entries are compacted. Between messages a commit index rises by the majority rule of
  `checkCommitIndex` only. The runs with replies add that no leader is cut in its own term.
- In the election runs a server wins only in the term of its last campaign (the condition of
  `LeaderRace.TestIsRightIff`) and forgets its vote only under the condition of
  `Election.ForgettingIsSafeIff`.
- Each locked handler is one step. `Start` and the candidate's transition (state, term, vote and request)
  are one step each.

## Model

| member | source | states |
|---|---|---|
| Bitset.NewBitset | src/linearizability/bitset.go:8-15 | just enough 64-bit words for the bits, standing for the empty set |
| Bitset.Clone | src/linearizability/bitset.go:17-21 | a fresh array with the same words |
| Bitset.Set | src/linearizability/bitset.go:27-31 | the in-place update adds exactly one element |
| Bitset.Clear | src/linearizability/bitset.go:33-37 | the in-place update removes exactly one element |
| Bitset.Get | src/linearizability/bitset.go:39-42 | membership |
| Bitset.TopByteIsSum | src/linearizability/bitset.go:50-51 | in 64-bit arithmetic, the top byte of the product with 0x0101...01 is the sum of the eight bytes of a word whose bytes are below 16 |
| Bitset.WordPopulation | src/linearizability/bitset.go:47-51 | the masked sums and the top byte of the wrapping 64-bit product count the set bits of a word |
| Bitset.Popcnt | src/linearizability/bitset.go:44-54 | the cardinality of the set, for any length |
| Bitset.Hash | src/linearizability/bitset.go:56-62 | the cardinality as a 64-bit word, xor every word |
| Bitset.HashBits | src/linearizability/bitset.go:56-62 | each bit of the hash is that bit of the cardinality, flipped once for every word that has it set |
| Bitset.ElementsInjective | src/linearizability/bitset.go:64-74 | word slices of one length with equal sets are equal, which makes comparing words decide set equality |
| Bitset.Equals | src/linearizability/bitset.go:64-74 | true iff same length and same set |
| Cache.CacheContains | src/linearizability/linearizability.go:133-140 | true iff the (set, state) pair was inserted, whatever the hash collisions |
| Cache.CacheInsert | src/linearizability/linearizability.go:187-188 | adds exactly the entry's pair and keeps every entry in its own bucket |
| Histories.SearchDecidesLinearizability | src/linearizability/model.go:24-27 | the textbook definition (a real-time respecting order accepted step by step) holds iff a completion by minimal operations exists |
| Histories.RelaxingKeepsLinearizable | src/linearizability/model.go:3-8 | fewer real-time constraints keep a linearizable history linearizable |
| Histories.SequentialVerdict | src/linearizability/model.go:3-8 | a history without overlap is linearizable iff the model accepts it in the order of time |
| Entries.MakeEntries | src/linearizability/linearizability.go:37-49 | an outcome of sorting the calls and returns by time, whose order lies between the two readings of equal times; if every operation returns after its call, a well-formed list |
| Entries.SortedDescribes | src/linearizability/linearizability.go:37-49 | every outcome of the sort has one call and one later return per operation, with dense ids |
| Entries.BothReadingsAreSorts | src/linearizability/linearizability.go:33-35 | for every history some sort has exactly the precedences of times read as overlapping, and some sort exactly those of the stricter reading |
| Entries.SortIsIrrelevantIff | src/linearizability/linearizability.go:33-47 | every outcome of the sort leads to the same verdict iff the two readings have the same verdict |
| Entries.DescribedLength | src/linearizability/linearizability.go:168-169 | a well-formed list has two entries per operation, so length/2 is the number of bits needed |
| Entries.Renumber | src/linearizability/linearizability.go:81-95 | ids are renamed one-to-one onto 0..n-1, everything else kept |
| Entries.ConvertEntries | src/linearizability/linearizability.go:97-107 | entry by entry, with time -1 |
| Entries.RenumberedDescribes | src/linearizability/linearizability.go:81-107 | a complete event history, renumbered and converted, is a well-formed list |
| Links.UnlinkKeepsLinked | src/linearizability/linearizability.go:147-155 | removing a node links its nearest surviving neighbours to each other |
| Links.RelinkUndoesLast | src/linearizability/linearizability.go:157-165 | undoing the last removal restores all links as before it, also for adjacent nodes and the tail |
| Links.LiveList | src/linearizability/linearizability.go:189-210 | after any stack of removals a traversal meets exactly the original list minus the removed nodes |
| Nodes.InsertBefore | src/linearizability/linearizability.go:59-70 | the list with the node inserted in front of the mark |
| Nodes.Length | src/linearizability/linearizability.go:72-79 | the number of nodes |
| Nodes.MakeLinkedEntries | src/linearizability/linearizability.go:109-126 | for any entry list, nodes in entry order, each call node matched with the next return node of its id or with none |
| Nodes.ListedRepresents | src/linearizability/linearizability.go:109-126 | in a well-formed list every call node is matched with its own return node |
| Nodes.Lift | src/linearizability/linearizability.go:147-155 | the pointers become the links with call and return unlinked |
| Nodes.Unlift | src/linearizability/linearizability.go:157-165 | the pointers become exactly the links the matching lift started from |
| LiveNodes.LiftLinks | src/linearizability/linearizability.go:189-193 | lifting one more operation leads from the live list of the stack to that of the longer stack |
| LiveNodes.UnliftLinks | src/linearizability/linearizability.go:204-210 | unlifting the top leads back; stands alone, since Nodes.Unlift restores the links it was given |
| LiveNodes.CallHasSuccessor | src/linearizability/linearizability.go:195-198 | the cursor never runs off the list from a live call |
| LiveNodes.HeadLink | src/linearizability/linearizability.go:176-176 | the head has no successor iff every operation is on the stack |
| Search.FullPathIsLinearization | src/linearizability/linearizability.go:173-213 | soundness: a stack holding all operations is a linearization |
| Search.CacheHitIsRuledOut | src/linearizability/linearizability.go:184-196 | a cached configuration is on the stack or dead, and a hit is never on the stack, so skipping loses nothing |
| Search.ReturnReachedIsDead | src/linearizability/linearizability.go:200-203 | standing on a pending return with everything before it tried, no order exists from here |
| Search.SkipStep | src/linearizability/linearizability.go:194-199 | moving on from a refused or cached operation keeps the search invariant |
| Search.PushStep | src/linearizability/linearizability.go:186-193 | taking an operation keeps it and adds a new configuration out of a finite set |
| Search.PopStep | src/linearizability/linearizability.go:204-210 | backtracking keeps it: the configuration left is dead |
| Search.FailStep | src/linearizability/linearizability.go:201-203 | completeness: a pending return with an empty stack means not linearizable |
| Search.PathConfigIsKnown | src/linearizability/linearizability.go:176-212 | every configuration the search can cache lies in one finite set, which bounds the search |
| Checker.Explore | src/linearizability/linearizability.go:176-213 | the loop terminates; true comes with a legal order, false only if none exists or the last reading of the flag found it set, and no earlier reading did |
| Checker.Advance | src/linearizability/linearizability.go:191-193 | taking an operation sets its bit, unlinks its two nodes and keeps the search invariant |
| Checker.Backtrack | src/linearizability/linearizability.go:204-210 | undoing the top of the stack restores state, bits and links of the shorter stack and keeps the search invariant |
| Checker.CheckSingle | src/linearizability/linearizability.go:167-214 | the same for the whole function, from the list of any well-formed history |
| KvModel.Locality | src/linearizability/models.go:17-48 | the store history is linearizable iff every key's sub-history is under the one-key step |
| KvModel.Merge | src/linearizability/model.go:24-27 | per-key orders can always be merged into one that respects real time across keys |
| KvModel.Project | src/linearizability/model.go:24-27 | an order of the store projects to an order of every key |
| KvModel.Partition | src/linearizability/models.go:17-28 | the non-empty sub-histories of the distinct keys, in history order, none forgotten |
| KvModel.PartitionDecides | src/linearizability/model.go:24-27 | linearizable iff each partition is |
| KvModel.SequentialGets | src/linearizability/models.go:31-48 | without overlap, linearizable under the one-key step iff every get returns the last value put, followed by what was appended since, or starts from the empty string |
| KvModel.SequentialStoreGets | src/linearizability/models.go:17-48 | the same for the store, counting only requests on the get's own key |
| CheckOperations.CheckHistory | src/linearizability/linearizability.go:241-246 | one worker's verdict is right for the order its sort produced, unless the last reading of the flag found it set; so it is exact without ties and bracketed with them |
| CheckOperations.CheckKvOperations | src/linearizability/linearizability.go:229-270 | the verdict on a multi-key history, exact without ties and bracketed with them |
| CheckOperations.EveryInterleavingIsRight | src/linearizability/linearizability.go:229-270 | for every outcome of the sorts and every interleaving over the key partition the collector ends with the right answer for the store, exact without ties and bracketed with them |
| CheckOperations.CheckEvents | src/linearizability/linearizability.go:272-313 | for a complete event history and one partition, true iff its operations, which the events determine, are linearizable |
| CheckOperations.TiesMatter | src/linearizability/linearizability.go:33-35 | two sorts of one history on which the checker's verdicts differ |
| Collector.VerdictIsConjunction | src/linearizability/linearizability.go:235-270 | for every interleaving of readings, verdicts and receptions the collector ends with the conjunction of the right verdicts, and the flag is set only after a genuine false |
| Collector.NeverStuck | src/linearizability/linearizability.go:251-268 | until then some worker is still searching or can be received from |
| Collector.BlocksWithoutPartitions | src/linearizability/linearizability.go:253-268 | without partitions no step is possible |
| KvServer.KVServer.constructor | src/kvraft/server.go:238-239 | starts with empty maps |
| KvServer.KVServer.IsUpToDate | src/kvraft/server.go:74-80 | true iff the id exceeds the client's recorded one or there is none |
| KvServer.KVServer.Apply | src/kvraft/server.go:116-163 | the new maps field by field, and what is sent to a waiting handler: for a new id the value or error just recorded, for an outdated one the client's latest record, nothing for a repeated GET |
| KvServer.KVServer.CachedGet | src/kvraft/server.go:82-92 | the client's record, iff it is of that id |
| KvServer.KVServer.HandleSnapshot | src/kvraft/server.go:249-257 | both maps are replaced by the snapshot's |
| KvServer.KVServer.HandleLog | src/kvraft/server.go:258-259 | a sequence of entries is applied in order |
| KvServer.HistoryHoldsMaxima | src/kvraft/server.go:116-163 | after any log the history knows exactly its clients, each with its largest id |
| KvServer.ExactlyOnce | src/kvraft/server.go:116-163 | the record is the plain fold over just the entries whose id exceeds all earlier ones of the same client |
| KvServer.OutdatedMeansApplied | src/kvraft/server.go:169-173 | a request turned away as outdated is covered by an applied entry of that client |
| KvServer.OverlappingReplay | src/kvraft/server.go:249-267 | restoring the state after k entries and replaying from any earlier point equals applying the log once |
| KvServer.RefinesKvModel | src/kvraft/server.go:140-159 | for every log and key the checker's Step accepts the effective requests with the recorded answers and ends in the stored value |
| KvServer.AnswersAcceptedIff | src/kvraft/server.go:140-159 | with any other answers, it accepts them iff every get of the key reports the recorded result |
| KvServer.CachedReplyIsRecorded | src/kvraft/server.go:82-92 | a reply served from the history is the answer recorded for the entry with that id |
| KvServer.SentIsRecorded | src/kvraft/server.go:152-162 | for every log and effective entry with a channel, what is sent is what is recorded: the value before the entry for a GET, ErrNoKey for a missing key, OK for a write |
| KvServer.AnswersAreRecorded | src/kvraft/server.go:82-110 | however a request is answered, by the channel or from the history, the client sees the recorded result |
| KvServer.StoreAcceptsTrace | src/kvraft/server.go:140-159 | the same acceptance for the whole store |
| KvServer.ServiceIsLinearizable | src/kvraft/server.go:116-163 | operations answered in one of these ways, whose entries are added after their calls and answered after all earlier entries were added, form a linearizable history |
| Service.EagerServiceIsLinearizable | src/kvraft/server.go:116-163 | also when operations that touch at one instant count as ordered, if no answer comes at the instant an earlier entry is added |
| Service.CheckerAcceptsService | src/kvraft/test_test.go:418-418 | the checker accepts every such history, with or without ties |
| Raft.IndexConversions | src/raft/raft.go:105-113 | the two index conversions are inverse and find the entry of a retained index |
| Raft.AppendKeepsOffsets | src/raft/raft.go:402-427 | consecutive numbering and base survive AppendEntries, and the term does not fall |
| Raft.AcceptedIff | src/raft/raft.go:372-412 | a message is accepted iff it is of no older term and matches at its previous index, as far as that is retained |
| Raft.AcceptedEffect | src/raft/raft.go:380-445 | then the log takes every entry of the message and keeps its own before it, ends where the message ends unless it had all of it, and only log, term and commit index change |
| Raft.RejectedEffect | src/raft/raft.go:372-418 | otherwise nothing changes, or exactly the entries from the mismatch on are cut |
| Raft.AcceptedCommit | src/raft/raft.go:384-439 | after accepting, the commit index is the largest index both announced and in the log, if more than before is announced |
| Raft.CoveredIsTaken | src/raft/raft.go:338-358 | the stale test holds iff previous term and every common index agree |
| Raft.OffsetsSurviveIff | src/raft/raft.go:409-418 | they survive exactly when the message agrees on the base entry or is of an older term |
| Raft.StartKeepsOffsets | src/raft/raft.go:825-826 | and Start, which extends the log by one index |
| Raft.CompactKeepsOffsets | src/raft/raft.go:476-487 | and compaction, which moves the base to the given index if that lies inside the log and leaves every retained index with its entry |
| Raft.RestartEffect | src/raft/raft.go:199-212 | a restart keeps term, vote and log, raises no commit index and counts nothing beyond it as applied |
| Raft.TestEffect | src/raft/raft.go:894-901 | the vote test makes a leader iff more than half the votes are there, with next indices behind the log and no match |
| Raft.MessageCoversCommit | src/raft/raft.go:644-658 | a message reaches to the end of the sender's log, so LeaderCommit <= PrevLogIndex + len(Entries) iff the commit index lies within that log |
| Raft.CommitFallsIff | src/raft/raft.go:380-439 | handling a message lowers the commit index iff it is accepted, asks for more than is committed and leaves a log that ends below what was committed |
| Raft.HonestMessageKeepsCommit | src/raft/raft.go:380-439 | no message whose LeaderCommit lies within PrevLogIndex + len(Entries) lowers it |
| Raft.CommitCanFall | src/raft/raft.go:380-439 | a peer and a message that lowers its commit index from 2 to 1 |
| Raft.CommitLeavesLogIff | src/raft/raft.go:402-439 | the commit index comes to exceed the log exactly by a mismatch at or below it or by an accepted message that ends below it and asks for no more |
| RaftServer.Server.constructor | src/raft/raft.go:945-960 | the initial peer |
| RaftServer.Server.Restart | src/raft/raft.go:199-212 | term, vote and log as saved, commit and applied index at the base, follower without votes |
| RaftServer.Server.TestStaleRPC | src/raft/raft.go:338-358 | true iff everything in the message that falls into the log is already there |
| RaftServer.Server.GetIndexBeforeTerm | src/raft/raft.go:317-336 | the start of the run of equal terms, or the index itself up to the base |
| RaftServer.Server.AppendEntries | src/raft/raft.go:363-453 | the new peer branch by branch, and all fields of the reply of each branch |
| RaftServer.Server.UpdateCommit | src/raft/raft.go:431-439 | unchanged, or the largest index that is both announced and in the log |
| RaftServer.Server.Start | src/raft/raft.go:812-838 | a leader appends one entry of its term and returns its index; others change nothing |
| RaftServer.Server.BuildAppendEntries | src/raft/raft.go:644-658 | previous index and term, all entries after it, and the commit index |
| RaftServer.Server.HandleAppendReply | src/raft/raft.go:664-698 | success moves next index up to what the message reached and match index along with it, a newer term steps down, a rejection moves next index back to the start of the mismatching term or the follower's hint, whichever is smaller; nothing else changes |
| RaftServer.Server.CheckCommitIndex | src/raft/raft.go:741-753 | commits the majority value iff it is newer and its entry is of the current term |
| RaftServer.Server.StartSnapshot | src/raft/raft.go:469-488 | drops the entries before the index, if that lies inside the log |
| RaftServer.Server.UpdateBeforeRequestVote | src/raft/raft.go:854-862 | next term, own vote, one vote counted |
| RaftServer.Server.RequestVote | src/raft/raft.go:250-290 | grants iff term, log and earlier vote allow it, and records the vote |
| RaftServer.Server.HandleVoteReply | src/raft/raft.go:586-597 | counts a vote or steps down, only as candidate in the same term |
| RaftServer.Server.UpdateToFollower | src/raft/raft.go:887-892 | follower without a vote, in the same term |
| RaftServer.Server.TestLeader | src/raft/raft.go:894-901 | becomes leader iff more than half the votes are there, whatever the role |
| LogMatching.DeliverKeepsInv | src/raft/raft.go:363-453 | handling any message, however old, keeps the matching invariant if it does not cut a leader that others depend on |
| LogMatching.StartKeepsInv | src/raft/raft.go:823-830 | so does appending as the term's leader |
| LogMatching.SendKeepsInv | src/raft/raft.go:627-659 | and sending |
| LogMatching.PeerStepsAreOther | src/raft/raft.go:199-290 | in every reachable state campaigning, voting, counting, committing by the majority rule and restarting are steps of the runs, which let a commit index rise by that rule only; so is passing the vote test in a term of which nobody holds an entry |
| LogMatching.SentIsMessage | src/raft/raft.go:644-658 | what a step sends is what the message builder builds |
| LogMatching.UncompactedAgreesOnBase | src/raft/raft.go:956-957 | without compaction every message agrees on the receiver's base entry, the sentinel |
| LogMatching.LogMatchingOverRuns | src/raft/raft.go:338-453 | in every state of every run, equal index and term imply equal entries on every earlier index both servers retain |
| LogMatching.MessagesMatchLogs | src/raft/raft.go:627-659 | the same between a message in flight and any server |
| LogMatching.MessagesMatchMessages | src/raft/raft.go:627-659 | and between two messages in flight |
| LogMatching.CommitsOnlyVerified | src/raft/raft.go:380-439 | a follower raises its commit index only over entries equal to the sender's |
| LogMatching.CommitsAllAnnounced | src/raft/raft.go:380-439 | in every run a follower that accepts a message whose commit index lies within its log and above the follower's ends with exactly that commit index |
| LogMatching.EveryRise | src/raft/raft.go:741-753 | every step that raises a commit index is an accepted message announcing as much, or the majority rule with an entry of the own term |
| LogMatching.DeliveryKeepsCommit | src/raft/raft.go:380-439 | in every run a message whose sender's commit index lay within its log lowers no commit index |
| LogMatching.CommitNeverFalls | src/raft/raft.go:380-439 | in every run in which no commit index has exceeded its log no delivery lowers one |
| LogMatching.GuardIsExact | src/raft/raft.go:411-418 | for every delivery, Log Matching survives every continuation iff the receiver is not leading its term or the cut spares what others hold of it |
| LogMatching.UnsafeTruncationBreaks | src/raft/raft.go:411-418 | how it is lost otherwise: the leader fills the same index again |
| LogMatching.KeepingOwnEntriesIsSafe | src/raft/raft.go:411-418 | the guard holds if the cut removes no entry of the led term from the receiver's own log |
| LogMatching.LocalGuardIsExact | src/raft/raft.go:411-418 | a delivery is safe whatever the rest of the cluster does first iff the guard on the receiver's own log, term and role holds |
| LogMatchingViolation.LogMatchingIsLost | src/raft/raft.go:412-418 | a concrete run after which Log Matching can be lost |
| LogMatchingViolation.CompactedLogIsEmptied | src/raft/raft.go:409-418 | a concrete run with a majority commit and compaction that ends with a message in flight whose delivery leaves an empty log |
| LogMatchingViolation.CommitFallsInRun | src/raft/raft.go:431-439 | a concrete run that ends with a message in flight whose delivery lowers a commit index |
| LogMatchingViolation.CutLeaderCommitsUnheld | src/raft/raft.go:741-753 | a concrete run after which a leader finds a majority in its own term for an index at which a follower holds another entry |
| Replication.AcceptedHolds | src/raft/raft.go:338-453 | a server that accepts a message holds the sender's log up to its end, or had compacted past it |
| Replication.RepliedLeader | src/raft/raft.go:689-695 | MatchIndex never exceeds what the follower acknowledged in this term, although next index starts out as a guess |
| Replication.MajorityHeldTheEntries | src/raft/raft.go:741-753 | in every run the value findMajority returns is an index of the leader's log up to which a majority held its entries when they replied in this term, or had compacted past it |
| Replication.CommitCandidateIsRetained | src/raft/raft.go:747-748 | so checkCommitIndex looks up an entry the leader retains |
| Replication.EveryRiseIsBacked | src/raft/raft.go:741-753 | in every run a commit index rises by an accepted message or by the majority rule, and in the latter case a majority held the entries of a server that leads its term |
| Replication.RejectionBacksOff | src/raft/raft.go:678-687 | a rejection leaves the next index strictly below the rejected message's and changes nothing else |
| Replication.CutKeepsMatchesIff | src/raft/raft.go:412-418 | when a mismatch cuts a leader, its MatchIndex stays right iff PrevLogIndex exceeds all of it |
| Election.OneWinnerPerTerm | src/raft/raft.go:250-290 | in every run the vote test makes at most one server a leader of a term, across AppendEntries traffic, step-downs, crashes and restarts |
| Election.VoteKeepsInv | src/raft/raft.go:250-290 | a vote is the voter's only one in the term, except that a candidate that stepped down may vote again |
| Election.ReturnKeepsInv | src/raft/raft.go:577-599 | a standing candidate's count is the number of distinct voters that voted for it in this term |
| Election.TestKeepsInv | src/raft/raft.go:894-901 | whom the vote test makes a leader has the votes of a majority in its term |
| Election.CrashKeepsInv | src/raft/raft.go:199-212 | reading term and vote back from stable storage forgets no vote |
| Election.HearKeepsInv | src/raft/raft.go:363-453 | raising the term without touching role, vote and votes keeps the record of votes |
| Election.StepDownKeepsInv | src/raft/raft.go:887-892 | so does forgetting a vote that was not given in this term, or only to oneself and without winning |
| Election.ForgettingIsSafeIff | src/raft/raft.go:887-892 | forgetting the vote loses no vote that counts iff that condition holds |
| Election.CandidateMayForget | src/raft/raft.go:984-988 | a candidate, which is what the main loop steps down in an election, always meets it |
| Election.AppendIsHeard | src/raft/raft.go:363-453 | AppendEntries leaves role, vote and votes alone and does not lower the term |
| LeaderRace.TestIsRightIff | src/raft/raft.go:894-901 | in every run a server that the vote test makes a leader has a majority of its current term iff that is the term of its last campaign |
| LeaderRace.VotesAreRightIff | src/raft/raft.go:894-901 | the same for every server with more than half the votes |
| LeaderRace.TwoLeadersInOneTerm | src/raft/raft.go:974-993 | a run after which a follower passes the test in a term another server has won |
| LeaderRace.CandidateLeadsForeignTerm | src/raft/raft.go:442-442 | a run after which a candidate, moved on by AppendEntries, passes the test in a term another server has won |
| LeaderRace.ForgottenVoteElectsTwo | src/raft/raft.go:887-892 | a run in which a leader that forgets its vote elects a second leader of its term |
| Quorum.FindMajority | src/raft/raft.go:168-177 | the largest value that strictly more than half of the entries reach |
| Quorum.CommitQuorumsMeet | src/raft/raft.go:741-753 | the servers behind any two commits share one |

## Left out

- Election.StepDownKeepsInv: `updateToFollower` by a server that has voted for another or has won its term is not part of the runs, because it elects two (LeaderRace.ForgottenVoteElectsTwo).
- State-machine safety of Raft: it needs the leader uniqueness that the code does not provide at lock granularity.
- `InstallSnapshot` and its sender: the compared `SnapshotIndex` is never filled in, and the handler moves the commit index backwards.
- `CheckEvents` with a partition of events, and nonzero timeouts, where a positive verdict may be false.
- Custom `Equal` functions on states: states are compared with equality.
- Clerk retry loops, timers, goroutine lifetimes and liveness.
- src/labrpc and src/labgob: messages are values in a set, and encoding is the identity.
- src/shardmaster, src/shardkv and src/mapreduce, whose bodies are stubs or plain I/O, and src/main.
- Payload types: Raft commands are integers, compared for equality only.
- Nodes.Lift: the five pointer assignments are grouped into two calls of one helper that always tests for a missing successor.
- CheckOperations.CheckKvOperations: runs the workers one after the other; all interleavings are covered by CheckOperations.EveryInterleavingIsRight; it does not cover the empty history, on which the original waits forever.
- CheckOperations.EveryInterleavingIsRight: does not cover operations with Call >= Return, as for CheckOperations.CheckHistory.
- CheckOperations.CheckHistory: does not cover operations with Call >= Return, for which the sorted list may put a return before its call and `checkSingle` takes the unmatched call for a return.
- CheckOperations.CheckEvents: does not cover calls without a return (taken for returns, as above) or reused ids (two operations would share one bit), where the verdict is about no history.
- Checker.CheckSingle: starts from lists of well-formed histories only, for the same reason.
- KvServer.ServiceIsLinearizable: takes the times at which entries are added as given, and every effective entry belongs to an operation that has returned; the waiting of the client handlers is not modelled.
