# A replicated LRU cache, verified

The system is an LRU cache with expiry that is replicated with the Raft protocol (NuRaft). This project models its hard
parts in Dafny and proves what they promise. Every module follows one part of the system:

- **Raft.** `RaftHandlers` has what one server does on each event, `RaftProtocol` the cluster: N servers, a set of messages
  in flight, one atomic step per handler, any order of steps. `RaftHistory` defines the invariant over the state and a
  history of leaders, elections and acknowledgements; `RaftInvariance`, `RaftTouch`, `RaftElection`, `RaftReplication` and
  `RaftSteps` show that every step keeps it; `RaftSafety` draws Election Safety, Log Matching and Leader Completeness from
  it (sections 5.2, 5.3 and 5.4.1 of "In Search of an Understandable Consensus Algorithm"). `RaftServer` is the server as
  the source writes it, with fields and a log store changed in place, and each of its methods is proved to do what the
  protocol's function does. `CommitIndex`, `RaftCommit` and `RaftStale` treat the choice of the commit index,
  `RaftAgreement` what all servers then agree on, `RaftProgress` how a leader brings followers to its log and commits it,
  `RaftElectable` who can be elected, `RaftRecovery` that from every reachable state the cluster can go on,
  `CommitLoop` the handing of committed entries to the state machine.
- **Log store.** `LogStore` (with `Framing` for packs): a map with a dummy entry that behaves as a sequence at an offset.
- **Cache.** `Lru` is the cache as a plain sequence in recency order, `LruBounds` the bounds that follow and `LruLaw` what the
  order means: entries in order of last use, items as last written, no more evicted than must be. `CacheIndex`,
  `CacheRepair` and `CacheStorage` are the real containers: list, key map of iterators, expiry buckets and byte counter,
  proved to agree with each other and to refine the sequence. List iterators are node identities.
- **Snapshots.** `SnapshotChunks` encodes the frozen cache, `Overlay`, `EventLog` and `SnapshotStorage` are the overlay and
  its event log, and `CacheState` puts both together and proves the whole snapshot. `CacheWitness` has two short histories
  after which storage or events are inconsistent.
- **Smaller parts.** `ThreadPool` (the wakeup protocol at interleaving level), `Crc32` with `Gf2` and
  `Crc32Check` (slicing-by-8 against polynomial division), `Codec` and `CodecBuffers` (the nested snapshot message), `Layout`
  (its bytes by offset), `LittleEndian` and `Wrappers`.

`dafny verify dfyconfig.toml` checks the whole project.

Where the code does less than it promises, the code is modelled as it is:

- The commit rule does not look at the term of the entry it commits, and matched indexes are not reset when a server becomes
  leader. `CommittedEntryLost` gives a run of three servers that loses a committed entry; `OwnTermCommitIsKept` gives the
  condition under which a chosen index is safe: the entry is of the leader's own term and each server counted for it accepted
  it in that term. Neither half can go: `OwnTermEntryLost` (in `RaftStale`) loses an entry of the leader's own term through an
  old record. In the runs in which every decision meets the condition, `StateMachineSafety` and `CommitNeverFalls` hold for
  all servers, and `SoundRunCommits` is such a run that commits. A leader whose records are all of its term, and whose
  uncommitted entries are its own, decides that way (`LeaderCommits`).
- `insert_item` does not replace the iterators of a key that is still in the map, which a write reaches for an expired item
  that is not purged yet. Insertion and write are therefore consistent exactly when that is not so, and the contracts say
  "exactly"; `WriteOverExpired` reaches such a state from an empty cache.
- Events point to overlay items, so rewriting a key in a snapshot changes its earlier events. The log is faithful exactly
  when no key is rewritten with another item (`LogIsFaithful`), and `RewriteShowsThrough` shows a different outcome otherwise.
  In particular transparency holds when each key is written at most once.
- The documentation says that evictions are disabled during a snapshot. The overlay's `evict_lru_data(int)` has another
  signature than the base class's function and does not override it, so the overlay does evict, and an event may then point
  to a removed item. The model follows the code; the overlay stays consistent exactly when nothing has to be evicted, and
  `OverlayEvicts` reaches an inconsistent one from an empty cache.
- `commit_purge` compares against the end of a bucket that removing its last item erases. The model walks a copy of the
  bucket.
- `stop(true)` in a pool of one thread can lose a task whose `push` has queued it but not yet notified
  (`OverlappingPushIsLost`). `StopWaitsExactly` says in which states a call waits for every task. With one thread it does if
  all pushes have returned; with two or more it always does, as only one thread can hold the mutex (`WaitsWithTwo`).

Assumptions of the Raft model: a vote request and a vote response are each delivered at most once, since the server counts
responses without looking at who sent them; append requests and responses may be delayed, reordered and repeated. Quorums
are the default ones, membership is fixed, logs are not compacted, servers do not lose their state. Sizes and indexes are
unbounded integers. The CRC proofs hold for every byte width and every polynomial; `Ieee` is the one in use. The width of
size and time fields in chunks and the per-item overhead are parameters of the configuration.

## Model

| member | source | states |
|---|---|---|
| `CommitIndex.SortDescending` | libs/lrucache/libs/nuraft/src/handle_append_entries.cxx:1160-1217 | the index list is put in descending order |
| `CommitIndex.SortCount` | libs/lrucache/libs/nuraft/src/handle_append_entries.cxx:1160-1217 | sorting keeps, for every index, how many voters reach it |
| `CommitIndex.PickMeaning` | libs/lrucache/libs/nuraft/src/handle_append_entries.cxx:1160-1217 | position q of the sorted list is the greatest index more than q voters reach |
| `CommitIndex.ExpectedIsMajority` | libs/lrucache/libs/nuraft/src/raft_server.cxx:575-596 | an index is at most the chosen one exactly when a strict majority of voters reach it |
| `CommitIndex.HealthyQuorum` | libs/lrucache/libs/nuraft/src/handle_append_entries.cxx:1160-1217 | the full-consensus adjustment never lowers the position and stays inside the list |
| `CommitIndex.ExpectedCommittedLogIdx` | libs/lrucache/libs/nuraft/src/handle_append_entries.cxx:1160-1224 | the loop over peers returns the greatest index reached by more voters than the quorum position, and by a strict majority |
| `RaftSafety.ElectionSafety` | libs/lrucache/libs/nuraft/src/handle_vote.cxx:209-405 | in every run, two servers that lead the same term are the same server |
| `RaftSafety.LeaderAppendOnly` | libs/lrucache/libs/nuraft/src/handle_client_request.cxx:100-142 | in every run, while a server leads a term its log only grows |
| `RaftSafety.LogMatching` | libs/lrucache/libs/nuraft/src/handle_append_entries.cxx:618-838 | in every run, at any two moments, two logs with the same term at an index are equal up to that index |
| `RaftSafety.LeaderCompleteness` | libs/lrucache/libs/nuraft/src/handle_append_entries.cxx:618-912 | once a majority has accepted, in term t, an append of t's leader covering an entry of term t, every leader of a later term holds that prefix |
| `RaftSafety.AcceptedEntriesAgree` | libs/lrucache/libs/nuraft/src/handle_append_entries.cxx:895-912 | two indexes each accepted by a majority in its leader's own term never disagree on an entry |
| `RaftSafety.UpToDateHolds` | libs/lrucache/libs/nuraft/src/handle_vote.cxx:310-319 | a candidate that passes a voter's log test holds every own-term entry the voter has kept |
| `RaftElection.MajoritiesMeet` | libs/lrucache/libs/nuraft/src/raft_server.cxx:565-573 | two sets of more than half of n servers share a server |
| `RaftElection.FirstLeader` | libs/lrucache/libs/nuraft/src/handle_vote.cxx:366-405 | a candidate that reaches the election quorum has no earlier leader in its term |
| `RaftSteps.InitKeeps` | libs/lrucache/libs/nuraft/src/raft_server.cxx:143-150 | the initial state has an empty history that meets the whole invariant |
| `RaftSteps.TimeoutKeeps` | libs/lrucache/libs/nuraft/src/handle_vote.cxx:209-270 | starting an election keeps the invariant |
| `RaftSteps.ReceiveVoteReqKeeps` | libs/lrucache/libs/nuraft/src/handle_vote.cxx:292-364 | handling a vote request keeps the invariant |
| `RaftSteps.ReceiveVoteRespKeeps` | libs/lrucache/libs/nuraft/src/handle_vote.cxx:366-405 | counting a vote response, with the possible change to leader, keeps the invariant |
| `RaftSteps.ClientRequestKeeps` | libs/lrucache/libs/nuraft/src/handle_client_request.cxx:85-142 | a leader's own append keeps the invariant |
| `RaftSteps.SendAppendKeeps` | libs/lrucache/libs/nuraft/src/handle_append_entries.cxx:375-548 | sending any slice of a leader's log keeps the invariant |
| `RaftSteps.ReceiveAppendKeeps` | libs/lrucache/libs/nuraft/src/handle_append_entries.cxx:550-912 | handling an append request, however late or often, keeps the invariant |
| `RaftSteps.ReceiveAppendRespKeeps` | libs/lrucache/libs/nuraft/src/handle_append_entries.cxx:965-1010 | handling an append response keeps the invariant |
| `RaftSteps.StepDownKeeps` | libs/lrucache/libs/nuraft/src/raft_server.cxx:1319-1360 | a leader that becomes a follower keeps the invariant |
| `RaftSteps.StepKeeps` | libs/lrucache/libs/nuraft/src/raft_server.cxx:647-782 | every step of every server keeps the invariant and only extends the history |
| `RaftSteps.RunHistories` | libs/lrucache/libs/nuraft/src/raft_server.cxx:647-782 | every run carries histories that meet the invariant at each moment |
| `RaftReplication.AppendRuleEffect` | libs/lrucache/libs/nuraft/src/handle_append_entries.cxx:700-838 | after accepting a slice of the leader's log, the follower agrees with the leader up to its end and is otherwise unchanged or cut |
| `RaftReplication.AppendRuleKeeps` | libs/lrucache/libs/nuraft/src/handle_append_entries.cxx:700-838 | an accepted append never removes a prefix that follower and leader share |
| `RaftCommit.CountedIsMajority` | libs/lrucache/libs/nuraft/src/handle_append_entries.cxx:1160-1224 | the servers whose record reaches the chosen index are a majority |
| `RaftCommit.OwnTermCommitIsKept` | libs/lrucache/libs/nuraft/src/handle_append_entries.cxx:1160-1224 | if the entry at the chosen index is of the leader's own term and each server counted for it accepted it in that term, every later leader has the log up to it, whatever is recorded of the servers not counted |
| `RaftCommit.CommittedEntryLost` | libs/lrucache/libs/nuraft/src/handle_append_entries.cxx:1160-1224 | three servers: a leader of term 3 commits index 1 of term 1 and the leader of term 4 has another entry there, since the rule does not look at the entry's term |
| `RaftStale.OwnTermEntryLost` | libs/lrucache/libs/nuraft/src/raft_server.cxx:1010-1020 | five servers: a leader of term 3 commits an entry of its own term, counting what it recorded of a peer in term 1, and the leader of term 4 has another entry there |
| `RaftAgreement.SoundBacked` | libs/lrucache/libs/nuraft/src/handle_append_entries.cxx:1160-1224 | a decision for an own-term index that the counted servers accepted in that term rests on a majority |
| `RaftAgreement.LeaderHasBacked` | libs/lrucache/libs/nuraft/src/handle_append_entries.cxx:895-912 | a committed prefix that rests on an accepting majority is in the log of every leader of that term or a later one |
| `RaftAgreement.BackedAgree` | libs/lrucache/libs/nuraft/src/handle_append_entries.cxx:895-912 | of two such prefixes one is a prefix of the other |
| `RaftAgreement.NoRollback` | libs/lrucache/libs/nuraft/src/handle_append_entries.cxx:735-764 | accepting an append never rolls back a commit index within what follower and leader share |
| `RaftAgreement.AcceptBacked` | libs/lrucache/libs/nuraft/src/handle_append_entries.cxx:700-912 | after an accepted append the follower's commit index still rests on a majority and has not fallen |
| `RaftAgreement.StepBacked` | libs/lrucache/libs/nuraft/src/raft_server.cxx:647-782 | every step whose commit decisions are sound keeps all commit indexes resting on majorities |
| `RaftAgreement.StateMachineSafety` | libs/lrucache/libs/nuraft/src/handle_commit.cxx:41-58 | in every run whose leaders only decide on own-term indexes counted from that term, what any two servers have committed at any two moments is one a prefix of the other |
| `RaftAgreement.CommitNeverFalls` | libs/lrucache/libs/nuraft/src/handle_append_entries.cxx:735-764 | in those runs no commit index falls and no committed entry is replaced, although the code has a rollback |
| `RaftProgress.AppendMatching` | libs/lrucache/libs/nuraft/src/handle_append_entries.cxx:700-838 | a follower whose log matches the leader's holds the entries sent and still matches |
| `RaftProgress.RefusedOnce` | libs/lrucache/libs/nuraft/src/handle_append_entries.cxx:1025-1049 | a refused exchange leaves the leader and the follower's log as they were and moves the next index back by one, or at once to the end of the follower's log |
| `RaftProgress.AcceptedOnce` | libs/lrucache/libs/nuraft/src/handle_append_entries.cxx:1000-1023 | an accepted exchange moves the next index past the entries sent, which the follower then holds, records them, and passes on the commit index as far as they go |
| `RaftProgress.CatchUp` | libs/lrucache/libs/nuraft/src/handle_append_entries.cxx:965-1110 | exchanges with slices of any sizes end, after a bounded number, with the follower holding the leader's log and counted for it; each exchange is three steps of the protocol |
| `RaftProgress.ReadyAlways` | libs/lrucache/libs/nuraft/src/handle_append_entries.cxx:965-1110 | in every run a leader meets what the exchange needs with every server of a term not above its own |
| `RaftProgress.FollowerCatchesUp` | libs/lrucache/libs/nuraft/src/handle_append_entries.cxx:965-1110 | from every reachable state a leader can bring every such server to its whole log, within 3 * (min(next - 1, follower's length + 1) + leader's length + 2) steps |
| `RaftProgress.CountedChosen` | libs/lrucache/libs/nuraft/src/handle_append_entries.cxx:1160-1224 | an index recorded for a majority is at most the chosen one |
| `RaftProgress.SoundNow` | libs/lrucache/libs/nuraft/src/handle_append_entries.cxx:1160-1224 | a leader whose records are all of its term, and whose uncommitted entries are its own, decides soundly |
| `RaftProgress.ReplyGuarded` | libs/lrucache/libs/nuraft/src/handle_append_entries.cxx:965-1023 | handling a response of its term, such a leader decides soundly and stays such a leader |
| `RaftProgress.LeaderCommits` | libs/lrucache/libs/nuraft/src/handle_append_entries.cxx:1012-1015 | from every reachable state a leader with a majority of such servers can go on until its whole log is committed and they all hold it; if its records are all of its term and its uncommitted entries its own, every decision on the way is sound |
| `RaftProgress.SoundRunCommits` | libs/lrucache/libs/nuraft/src/handle_append_entries.cxx:1160-1224 | a run of three servers with sound decisions in which an entry is committed |
| `RaftElectable.VoteTestTotal` | libs/lrucache/libs/nuraft/src/handle_vote.cxx:310-319 | the vote test compares last terms and then lengths, and of any two logs at least one passes the other's test |
| `RaftElectable.LongerLogPasses` | libs/lrucache/libs/nuraft/src/handle_vote.cxx:310-319 | in every run a voter never refuses, for its log, a candidate whose log extends its own |
| `RaftElectable.VoteExactly` | libs/lrucache/libs/nuraft/src/handle_vote.cxx:292-364 | a vote is granted exactly if the priority allows it, the candidate's log is not behind, and the term is new or the vote free or already the candidate's |
| `RaftElectable.CollectVotes` | libs/lrucache/libs/nuraft/src/handle_vote.cxx:366-405 | asked servers that are willing grant their votes one by one, and the one that completes a majority makes the leader |
| `RaftElectable.BecomesLeader` | libs/lrucache/libs/nuraft/src/handle_vote.cxx:209-405 | from every reachable state a server whose log is not behind those of a majority leads any term above theirs after 1 + 2 * (n / 2) steps |
| `RaftRecovery.EveryoneCommits` | libs/lrucache/libs/nuraft/src/handle_append_entries.cxx:375-912 | from every reachable state a leader with a majority of servers of terms not above its own can commit its log on itself and on all of them |
| `RaftRecovery.Requested` | libs/lrucache/libs/nuraft/src/handle_client_request.cxx:85-142 | after a client request to a leader each payload is at its index in the leader's log |
| `RaftRecovery.ClientEntriesCommit` | libs/lrucache/libs/nuraft/src/handle_client_request.cxx:85-142 | from every reachable state the payloads a leader is given can be committed in order, on the leader and on every server of such a majority |
| `RaftRecovery.Recovers` | libs/lrucache/libs/nuraft/src/raft_server.cxx:647-782 | from every reachable state some server whose log is behind none can become leader, and all servers then hold and commit its log |
| `RaftRecovery.AloneCommits` | libs/lrucache/libs/nuraft/src/handle_append_entries.cxx:121-140 | a single server has committed its whole log at every moment of every run |
| `RaftServer.MatchLenIs` | libs/lrucache/libs/nuraft/src/handle_append_entries.cxx:714-725 | stopping at the first entry of another term finds the longest match |
| `RaftServer.AppendTwice` | libs/lrucache/libs/nuraft/src/handle_append_entries.cxx:700-838 | applying the entries of a request to a log a second time changes nothing |
| `RaftServer.AppendKeepsMatching` | libs/lrucache/libs/nuraft/src/handle_append_entries.cxx:700-838 | no entry before the first difference is dropped or changed |
| `RaftServer.AcceptTwice` | libs/lrucache/libs/nuraft/src/handle_append_entries.cxx:700-912 | accepting the same request twice equals accepting it once, commit and precommit indexes included |
| `RaftServer.HandledTwice` | libs/lrucache/libs/nuraft/src/handle_append_entries.cxx:550-940 | handling the same append request twice gives the same server and the same reply as handling it once, for every server and request, refusals included |
| `RaftServer.AppendHandledMeans` | libs/lrucache/libs/nuraft/src/handle_append_entries.cxx:550-940 | what handling an append request does to term, role, log, precommit and commit index and what it replies, for a clash, each refusal and an acceptance |
| `RaftServer.VoteCountedMeans` | libs/lrucache/libs/nuraft/src/handle_vote.cxx:366-405 | a vote response counts only in its own term and before the election is over, and more than half the votes make a leader with a new configuration entry |
| `RaftServer.RetriesNarrow` | libs/lrucache/libs/nuraft/src/handle_append_entries.cxx:431-446 | as many entries as allowed go out until the fifth repetition from one index, then one at a time |
| `RaftServer.RaftServer.constructor` | libs/lrucache/libs/nuraft/src/raft_server.cxx:143-150 | a new server is the initial server of the protocol |
| `RaftServer.RaftServer.UpdateTerm` | libs/lrucache/libs/nuraft/src/raft_server.cxx:1362-1393 | a higher term clears vote and counters and makes a follower; otherwise nothing changes; log and indexes stay |
| `RaftServer.RaftServer.TermForLog` | libs/lrucache/libs/nuraft/src/raft_server.cxx:1539-1566 | the term at an index, 0 at index 0 and past the end |
| `RaftServer.RaftServer.TryUpdatePrecommitIndex` | libs/lrucache/libs/nuraft/src/handle_append_entries.cxx:942-963 | the precommit index becomes the larger of the two |
| `RaftServer.RaftServer.Commit` | libs/lrucache/libs/nuraft/src/handle_commit.cxx:41-48 | the commit index only rises |
| `RaftServer.RaftServer.StoreLogEntry` | libs/lrucache/libs/nuraft/src/raft_server.cxx:1677-1705 | appends, or cuts the log at the index and stores there; a leader's configuration entry is precommitted |
| `RaftServer.RaftServer.BecomeLeader` | libs/lrucache/libs/nuraft/src/raft_server.cxx:987-1046 | refines the protocol's change to leader; every peer's next index becomes the end of the log before the new entry |
| `RaftServer.RaftServer.RestartPeers` | libs/lrucache/libs/nuraft/src/raft_server.cxx:1010-1020 | every peer's next index becomes the next slot, and nothing else of it changes |
| `RaftServer.RaftServer.InitiateVote` | libs/lrucache/libs/nuraft/src/handle_vote.cxx:209-252 | refines the protocol's election start, and sends exactly its requests |
| `RaftServer.RaftServer.RequestVotes` | libs/lrucache/libs/nuraft/src/handle_vote.cxx:254-289 | one request to every other server, with the last log index and term |
| `RaftServer.RaftServer.HandleVoteReq` | libs/lrucache/libs/nuraft/src/handle_vote.cxx:292-364 | refines the protocol's vote handling, state and reply; granted exactly if not denied, the log is not ahead of the candidate's, and the term is new or the vote free or the candidate's |
| `RaftServer.RaftServer.HandleVoteResp` | libs/lrucache/libs/nuraft/src/handle_vote.cxx:366-405 | refines the protocol's vote counting; leader exactly when the votes in its term are more than half |
| `RaftServer.RaftServer.HandleCliReq` | libs/lrucache/libs/nuraft/src/handle_client_request.cxx:85-142 | not-leader for another role or paused writes, term-mismatch for another expected term, and nothing changes; else every payload is appended in order with the leader's term |
| `RaftServer.RaftServer.AppendPayloads` | libs/lrucache/libs/nuraft/src/handle_client_request.cxx:112-142 | the stamping loop appends exactly the payloads, the i-th as an entry of the leader's term at the i-th index after the log |
| `RaftServer.RaftServer.SkipMatching` | libs/lrucache/libs/nuraft/src/handle_append_entries.cxx:704-725 | the skip loop stops exactly after the longest match by term |
| `RaftServer.RaftServer.OverwriteFrom` | libs/lrucache/libs/nuraft/src/handle_append_entries.cxx:787-811 | the overwrite loop leaves the kept prefix and the entries written |
| `RaftServer.RaftServer.AppendRest` | libs/lrucache/libs/nuraft/src/handle_append_entries.cxx:819-838 | the append loop adds the remaining entries in order |
| `RaftServer.RaftServer.Overwrite` | libs/lrucache/libs/nuraft/src/handle_append_entries.cxx:787-838 | both loops together give the kept prefix followed by the remaining entries |
| `RaftServer.RaftServer.RollBackCommit` | libs/lrucache/libs/nuraft/src/handle_append_entries.cxx:735-764 | both commit indexes are pulled back below an entry that will be overwritten, and only then |
| `RaftServer.RaftServer.StoreEntries` | libs/lrucache/libs/nuraft/src/handle_append_entries.cxx:700-838 | skip, rollback, overwrite and append together give the old log when it has the entries, else the matching prefix and the rest |
| `RaftServer.RaftServer.AcceptEntries` | libs/lrucache/libs/nuraft/src/handle_append_entries.cxx:700-912 | refines the protocol's acceptance, precommit and commit index included |
| `RaftServer.RaftServer.CheckLog` | libs/lrucache/libs/nuraft/src/handle_append_entries.cxx:618-630 | the log test passes exactly when the previous index is 0 or holds the given non-zero term |
| `RaftServer.RaftServer.Follow` | libs/lrucache/libs/nuraft/src/handle_append_entries.cxx:586-600 | takes the term, steps back from candidate, and reports a clash with a leader of the same term |
| `RaftServer.RaftServer.HandleAppendEntries` | libs/lrucache/libs/nuraft/src/handle_append_entries.cxx:550-940 | refines the protocol's append handling, state and reply, with refusals by term, by the log test and by the application's callback; which entries stand where afterwards, and the indexes |
| `RaftServer.RaftServer.CreateAppendReq` | libs/lrucache/libs/nuraft/src/handle_append_entries.cxx:375-548 | the protocol's request from the peer's next index, with as many entries as append size, retries and the peer's size hint allow; none if the next index is past the end |
| `RaftServer.RaftServer.FetchEntries` | libs/lrucache/libs/nuraft/src/handle_append_entries.cxx:446-458 | a prefix of the slice: all of it, none, or up to the entry that reaches the hint |
| `RaftServer.RaftServer.GetExpectedCommittedLogIdx` | libs/lrucache/libs/nuraft/src/handle_append_entries.cxx:1160-1224 | the index the majority rule picks from the records |
| `RaftServer.RaftServer.HandleAppendEntriesResp` | libs/lrucache/libs/nuraft/src/handle_append_entries.cxx:965-1127 | refines the protocol's response handling; the peer's hint and next index after acceptance, refusal and the order not to rewind, and whether to send again |
| `CommitLoop.StepKeeps` | libs/lrucache/libs/nuraft/src/handle_commit.cxx:160-269 | each step of each worker or handler that cuts nothing applied keeps the loop invariant; the state machine's index and the applied list only grow, and the commit index unless something committed is cut |
| `CommitLoop.AppliedInOrder` | libs/lrucache/libs/nuraft/src/handle_commit.cxx:160-269 | in every interleaving, with cuts of the log and the rollback they cause: the state machine is given 1, 2, 3, ... once each and never past the commit index or the last entry, at every moment, exactly if no cut reaches an applied entry |
| `CommitLoop.IndexesOnlyGrow` | libs/lrucache/libs/nuraft/src/handle_commit.cxx:41-58 | while no cut reaches what is applied the state machine's index never goes back and what was applied stays applied; while none reaches what is committed the commit index does not either |
| `CommitLoop.AllApplied` | libs/lrucache/libs/nuraft/src/handle_commit.cxx:160-269 | from every state of a run whose cuts spare what is applied, the workers can go on until everything committed and in the log is applied |
| `CommitLoop.HandedExactly` | libs/lrucache/libs/nuraft/src/handle_commit.cxx:205-269 | what a pass hands over is each entry once, in order, with its own index |
| `CommitLoop.Executor.HandOver` | libs/lrucache/libs/nuraft/src/handle_commit.cxx:205-269 | the loop hands over consecutive entries and stops at the commit index, the end of the log, an entry of term 0, or where a time limit or a pause stops it |
| `CommitLoop.Executor.CommitInBgExec` | libs/lrucache/libs/nuraft/src/handle_commit.cxx:160-269 | one pass, after moving up to the log start, hands over exactly the next entries with their indexes, up to where it is stopped |
| `LogStore.WriteKeeps` | libs/lrucache/src/raft/in_memory_log_store.cc:101-111 | writing keeps the indexes consecutive exactly when the index is in the store or next to it, or is the dummy's |
| `LogStore.CompactKeeps` | libs/lrucache/src/raft/in_memory_log_store.cc:264-280 | what remains after compaction is the tail of the entries |
| `LogStore.PackTouches` | libs/lrucache/src/raft/in_memory_log_store.cc:237-262 | a pack that touches or overlaps the entries gives the merged run |
| `LogStore.PackLeavesGap` | libs/lrucache/src/raft/in_memory_log_store.cc:237-262 | a pack that leaves a gap breaks consecutiveness |
| `LogStore.Store.constructor` | libs/lrucache/src/raft/in_memory_log_store.cc:26-37 | an empty store starts at 1 with a dummy of term 0 |
| `LogStore.Store.NextSlot` | libs/lrucache/src/raft/in_memory_log_store.cc:64-68 | start index plus number of entries |
| `LogStore.Store.LastEntry` | libs/lrucache/src/raft/in_memory_log_store.cc:74-83 | the last entry, or the dummy when there is none, even after compaction |
| `LogStore.Store.Append` | libs/lrucache/src/raft/in_memory_log_store.cc:85-99 | adds at the next slot and returns it |
| `LogStore.Store.EraseFrom` | libs/lrucache/src/raft/in_memory_log_store.cc:106-109 | exactly the entries below the index remain |
| `LogStore.Store.WriteAt` | libs/lrucache/src/raft/in_memory_log_store.cc:101-111 | cuts the sequence at the index and adds the entry; stays a sequence exactly for an index in range |
| `LogStore.Store.LogEntries` | libs/lrucache/src/raft/in_memory_log_store.cc:129-150 | the requested slice |
| `LogStore.Store.LogEntriesExt` | libs/lrucache/src/raft/in_memory_log_store.cc:152-181 | the shortest prefix of the slice that reaches the size hint; all without a hint, nothing for a negative one |
| `LogStore.Store.Batch` | libs/lrucache/src/raft/in_memory_log_store.cc:164-180 | the collecting loop stops with the entry that reaches the hint |
| `LogStore.Store.EntryAt` | libs/lrucache/src/raft/in_memory_log_store.cc:183-193 | the entry at the index, or the dummy |
| `LogStore.Store.TermAt` | libs/lrucache/src/raft/in_memory_log_store.cc:195-205 | its term, or the dummy's |
| `LogStore.Store.Pack` | libs/lrucache/src/raft/in_memory_log_store.cc:207-235 | the framed serialisations of the range, in order |
| `LogStore.Store.Place` | libs/lrucache/src/raft/in_memory_log_store.cc:237-252 | unpacking stores the entries at consecutive indexes |
| `LogStore.Store.FindFirst` | libs/lrucache/src/raft/in_memory_log_store.cc:254-261 | the store starts at its least index after 0, or at 1 |
| `LogStore.Store.ApplyPack` | libs/lrucache/src/raft/in_memory_log_store.cc:237-262 | merges the entries, and stays a sequence exactly when they touch or overlap it |
| `LogStore.Store.Compact` | libs/lrucache/src/raft/in_memory_log_store.cc:264-280 | drops entries up to the index; the store starts after it even past the end |
| `LogStore.Store.EraseUpTo` | libs/lrucache/src/raft/in_memory_log_store.cc:266-271 | exactly the entries outside the range remain |
| `LogStore.Store.CopyTo` | libs/lrucache/src/raft/in_memory_log_store.cc:207-262 | a pack of everything applied to an empty store restores the same entries at the same indexes |
| `Framing.ReadFirst` | libs/lrucache/src/raft/in_memory_log_store.cc:241-247 | reading a length and that many bytes gives back the first buffer and leaves the rest |
| `Framing.WriteFrame` | libs/lrucache/src/raft/in_memory_log_store.cc:222-234 | the writing loop produces the count and each buffer with its length |
| `LruBounds.EvictIsMinimal` | libs/lrucache/src/cache/cache_storage.cc:130-151 | eviction keeps a front part and the protected key, and is the shortest run of least recently used entries that frees enough, or all others |
| `LruBounds.EvictKeepsKey` | libs/lrucache/src/cache/cache_storage.cc:138-141 | the protected key survives with its item |
| `LruBounds.PutFits` | libs/lrucache/src/cache/cache_storage.cc:48-58 | a write of an item that fits alone leaves at most the cache size in use |
| `LruBounds.PutKeyed` | libs/lrucache/src/cache/cache_storage.cc:51-56 | a write keeps one entry per key exactly when the key is absent or its item unexpired |
| `LruBounds.CapacityBound` | libs/lrucache/src/cache/cache_storage.cc:29-59 | over every run of items that each fit, with no write to an expired unpurged key, memory stays within the cache size and keys unique |
| `LruBounds.DueExactly` | libs/lrucache/src/cache/cache_storage.cc:61-78 | a purge at time t >= 0 removes exactly the items that expired before the last purge mark, but before the first mark only those expired an interval before zero |
| `LruBounds.PurgeSoundAndTimely` | libs/lrucache/src/cache/cache_storage.cc:61-78 | a purge removes only expired items, and a survivor with a non-negative expiry expired no earlier than the last mark |
| `CacheIndex.KeyInMap` | libs/lrucache/src/cache/cache_storage.cc:161-170 | the map has a key exactly when the list does, and its iterator leads to that key's item |
| `CacheIndex.EraseIsWithout` | libs/lrucache/src/cache/cache_storage.cc:257-257 | erasing the node of a key removes exactly its entry from the sequence |
| `CacheRepair.RemoveKeeps` | libs/lrucache/src/cache/cache_storage.cc:246-268 | removing a key keeps list, map, buckets and counter in agreement |
| `CacheRepair.InsertKeeps` | libs/lrucache/src/cache/cache_storage.cc:187-222 | inserting keeps agreement exactly when the key was not in the map |
| `CacheRepair.UpdateKeeps` | libs/lrucache/src/cache/cache_storage.cc:224-307 | replacing an item, moving its node to the front and its slot to the right bucket keeps agreement |
| `CacheRepair.MoveBucket` | libs/lrucache/src/cache/cache_storage.cc:270-307 | moving a slot between buckets keeps every key in exactly its bucket and no bucket empty |
| `LruLaw.ReadMoves` | libs/lrucache/src/cache/cache_storage.cc:17-27 | a read finds exactly an unexpired entry of the key and then moves it to the front; any other read changes nothing |
| `LruLaw.PutIsMinimal` | libs/lrucache/src/cache/cache_storage.cc:48-58 | after a write the new entry is followed by the other keys of the longest front part for which the new size, less that of the old item, leaves room |
| `LruLaw.UseOrder` | libs/lrucache/src/cache/cache_storage.cc:17-59 | over every clean run and from every state, an entry stands before another exactly if its key was read or written later; unused ones keep their order behind |
| `LruLaw.LastWriteKept` | libs/lrucache/src/cache/cache_storage.cc:29-59 | every item held is that of the last accepted write of its key |
| `LruLaw.TotalInBytes` | libs/lrucache/src/cache/cache_storage.cc:309-321 | the memory counted is the bytes of keys and data and the overhead of each entry |
| `CacheStorage.Storage.constructor` | libs/lrucache/src/cache/cache_storage.hxx:20-22 | an empty storage is consistent |
| `CacheStorage.Storage.Clear` | libs/lrucache/src/cache/cache_storage.cc:153-159 | an empty, consistent storage |
| `CacheStorage.Storage.GetItem` | libs/lrucache/src/cache/cache_storage.cc:161-170 | the node of the unexpired item of the key, if any |
| `CacheStorage.Storage.RemoveItem` | libs/lrucache/src/cache/cache_storage.cc:246-268 | removes the key's entry from the sequence and every container, and returns the position after it |
| `CacheStorage.Storage.InsertItem` | libs/lrucache/src/cache/cache_storage.cc:187-222 | adds the entry in front; consistent exactly when the key was absent |
| `CacheStorage.Storage.UpdateItemExpiryBucket` | libs/lrucache/src/cache/cache_storage.cc:270-307 | moves the slot to the new expiry's bucket when that is another one |
| `CacheStorage.Storage.UpdateItem` | libs/lrucache/src/cache/cache_storage.cc:224-244 | puts the new item in front in place of the old one and stays consistent |
| `CacheStorage.Storage.MarkAsRecentlyUsed` | libs/lrucache/src/cache/cache_storage.cc:80-87 | moves the key's entry to the front |
| `CacheStorage.Storage.CommitRead` | libs/lrucache/src/cache/cache_storage.cc:17-27 | an unexpired entry of the key moves to the front and the others keep their order; without one nothing changes; result and code say which |
| `CacheStorage.Storage.GetRequiredMemory` | libs/lrucache/src/cache/cache_storage.cc:309-321 | the size of the new item less that of an unexpired old one |
| `CacheStorage.Storage.EvictBefore` | libs/lrucache/src/cache/cache_storage.cc:143-145 | removing the node before the walk leaves the same remaining work |
| `CacheStorage.Storage.EvictLruData` | libs/lrucache/src/cache/cache_storage.cc:130-151 | the sequence becomes the evicted one, and no node is new |
| `CacheStorage.Storage.EvictBack` | libs/lrucache/src/cache/cache_storage.cc:136-150 | the backward walk reaches the evicted sequence |
| `CacheStorage.Storage.CommitWrite` | libs/lrucache/src/cache/cache_storage.cc:29-59 | accepted exactly for a short enough key and an unexpired item; then the new entry is in front and no more of the least recently used others is gone than must be; consistent exactly unless an accepted write meets an expired unpurged item; codes for each refusal |
| `CacheStorage.Storage.PurgeBucket` | libs/lrucache/src/cache/cache_storage.cc:72-76 | empties and drops one bucket and removes only due items |
| `CacheStorage.Storage.CommitPurge` | libs/lrucache/src/cache/cache_storage.cc:61-78 | the sequence becomes the purged one and stays consistent |
| `CacheStorage.Storage.ReadSnapshotChunk` | libs/lrucache/src/cache/cache_storage.cc:89-128 | the bytes read encode the items from the index up to the first that does not fit, with the next index or -1 |
| `SnapshotChunks.StopIsGreatest` | libs/lrucache/src/cache/cache_storage.cc:97-102 | a chunk takes as many items as fit |
| `SnapshotChunks.AllRoundTrip` | libs/lrucache/src/cache/cache_state.hxx:94-104 | the encoding decodes to the same items in the same order |
| `SnapshotChunks.ReadingEnds` | libs/lrucache/src/cache/cache_state.hxx:105-116 | reading chunk after chunk reaches the end exactly when every item fits in one chunk |
| `SnapshotChunks.CopyItem` | libs/lrucache/src/cache/cache_storage.cc:104-120 | the five copies write the encoding of the item |
| `SnapshotChunks.CopyItems` | libs/lrucache/src/cache/cache_storage.cc:95-127 | the loop writes the items from the start up to the first that does not fit |
| `SnapshotChunks.FillChunk` | libs/lrucache/src/cache/cache_storage.cc:89-128 | a chunk of the given size, its content and the index to go on from |
| `Overlay.LogIsFaithful` | libs/lrucache/src/cache/snapshot_storage.cc:54-81 | the event log stands for the recorded commits exactly when no key is rewritten with another item |
| `Overlay.UnrecordedIsIdle` | libs/lrucache/src/cache/snapshot_storage.cc:5-19 | a commit that leaves no event would not have changed the cache |
| `Overlay.CoveredStep` | libs/lrucache/src/cache/snapshot_storage.cc:35-42 | every item direct application would hold is found by the overlay lookup |
| `Overlay.ReplayRun` | libs/lrucache/src/cache/cache_state.cc:77-99 | replaying the recorded commits equals applying all commits |
| `Overlay.ReplayEqualsDirect` | libs/lrucache/src/cache/cache_state.hxx:78-91 | replaying the event log gives the state of direct application, order and evictions included, when no key is rewritten with another item |
| `Overlay.RewriteShowsThrough` | libs/lrucache/src/cache/snapshot_storage.cc:61-78 | two writes of one key in a snapshot can make the replay keep an entry that direct application evicts |
| `Overlay.SnapshotReads` | libs/lrucache/src/cache/snapshot_storage.cc:35-42 | during a snapshot a read finds the item last written in it if that is unexpired, and otherwise exactly an unexpired one of the frozen cache |
| `Overlay.NeededInBytes` | libs/lrucache/src/cache/cache_storage.cc:309-321 | a write in a snapshot asks for its bytes less those of the item a reader would find |
| `Overlay.NothingEvicted` | libs/lrucache/src/cache/cache_storage.cc:130-151 | eviction leaves everything exactly when there is room or nothing but the key |
| `CacheWitness.WriteOverExpired` | libs/lrucache/src/cache/cache_storage.cc:38-58 | two writes of one key to an empty cache, the second after the item expired, leave the containers in disagreement |
| `CacheWitness.OverlayEvicts` | libs/lrucache/src/cache/snapshot_storage.cc:44-81 | two writes in a snapshot of an empty cache of size 1 leave an event that points to an evicted item |
| `EventLog.FrontTied` | libs/lrucache/src/cache/snapshot_storage.cc:61-78 | recording a write whose node is in front rewrites what earlier events of the key say, and nothing else |
| `EventLog.Dangling` | libs/lrucache/src/cache/snapshot_storage.cc:61-78 | an overlay node that leaves the list leaves an event pointing to nothing |
| `SnapshotStorage.StayOrLose` | libs/lrucache/src/cache/cache_storage.cc:130-151 | overlay eviction keeps the very nodes when there is room, and otherwise loses one |
| `SnapshotStorage.Snapshot.constructor` | libs/lrucache/src/cache/snapshot_storage.hxx:13-15 | a new overlay is empty and consistent |
| `SnapshotStorage.Snapshot.Clear` | libs/lrucache/src/cache/snapshot_storage.cc:29-33 | overlay and log are empty again |
| `SnapshotStorage.Snapshot.GetItem` | libs/lrucache/src/cache/snapshot_storage.cc:35-42 | the overlay's unexpired item, else the frozen storage's |
| `SnapshotStorage.Snapshot.CommitRead` | libs/lrucache/src/cache/snapshot_storage.cc:5-19 | records the read exactly when the lookup finds the key; changes nothing else |
| `SnapshotStorage.Snapshot.CommitPurge` | libs/lrucache/src/cache/snapshot_storage.cc:21-27 | records the purge; changes nothing else |
| `SnapshotStorage.Snapshot.GetRequiredMemory` | libs/lrucache/src/cache/cache_storage.cc:309-321 | the memory needed over the item the lookup finds |
| `SnapshotStorage.Snapshot.InsertItem` | libs/lrucache/src/cache/snapshot_storage.cc:54-64 | inserts and records; consistent exactly when the overlay lacked the key |
| `SnapshotStorage.Snapshot.UpdateItem` | libs/lrucache/src/cache/snapshot_storage.cc:66-81 | updates or inserts and records; consistent exactly unless the overlay's item has expired |
| `SnapshotStorage.Snapshot.MakeRoom` | libs/lrucache/src/cache/cache_storage.cc:130-151 | either the very nodes stay or one is lost |
| `SnapshotStorage.Snapshot.StoreItem` | libs/lrucache/src/cache/cache_storage.cc:51-56 | update or insert by what the lookup finds |
| `SnapshotStorage.Snapshot.WriteItem` | libs/lrucache/src/cache/cache_storage.cc:48-57 | consistent exactly when nothing is evicted and the overlay's item has not expired |
| `SnapshotStorage.Snapshot.CommitWrite` | libs/lrucache/src/cache/cache_storage.cc:29-59 | stays consistent exactly for a steady write, and then overlay and log are as specified, aliasing included |
| `CacheState.State.constructor` | libs/lrucache/src/cache/cache_state.hxx:16-20 | an empty cache with no snapshot in progress |
| `CacheState.State.CommitRead` | libs/lrucache/src/cache/cache_state.cc:40-47 | goes to the main storage, or during a snapshot to the overlay with the main storage unchanged |
| `CacheState.State.CommitWrite` | libs/lrucache/src/cache/cache_state.cc:49-58 | the same for writes, with exact conditions for consistency |
| `CacheState.State.CommitPurgeExpired` | libs/lrucache/src/cache/cache_state.cc:60-63 | the same for purges |
| `CacheState.State.CommitOne` | libs/lrucache/src/cache/cache_state.cc:40-63 | one clean commit does to the cache what the plain sequence does |
| `CacheState.State.RunCommits` | libs/lrucache/src/cache/cache_state.cc:40-63 | after every clean run the entries are in order of last use, each with its last written item, and the memory is the exact number of bytes, within the cache size if every item fits |
| `CacheState.State.BeginSnapshot` | libs/lrucache/src/cache/cache_state.cc:65-69 | only the flag changes |
| `CacheState.State.ReadSnapshotChunk` | libs/lrucache/src/cache/cache_state.cc:71-75 | a chunk of the main storage |
| `CacheState.State.Replay` | libs/lrucache/src/cache/cache_state.cc:82-94 | one event, read through its pointer, is applied to the main storage |
| `CacheState.State.EndSnapshot` | libs/lrucache/src/cache/cache_state.cc:77-99 | the main storage ends with the whole log applied, the overlay empty |
| `CacheState.State.CommitInSnapshot` | libs/lrucache/src/cache/cache_state.cc:40-63 | any steady commit leaves the main storage unchanged |
| `CacheState.State.ReadNext` | libs/lrucache/src/cache/cache_state.cc:71-75 | the next chunk continues the stream |
| `CacheState.State.RunSteps` | libs/lrucache/src/cache/cache_state.cc:40-75 | commits and chunk reads in any order: the chunks concatenate to a prefix of the frozen cache's encoding |
| `CacheState.State.TakeSnapshot` | libs/lrucache/src/cache/cache_state.hxx:78-123 | a whole snapshot under any interleaving: all items once and in order, ending with -1, and the cache as if there had been no snapshot |
| `ThreadPool.NotifyWakes` | libs/lrucache/libs/ctpl/ctpl_stl.h:196-197 | a notification leaves some worker awake |
| `ThreadPool.StepWakeful` | libs/lrucache/libs/ctpl/ctpl_stl.h:209-234 | every step keeps the wakeup invariant |
| `ThreadPool.NoLostWakeup` | libs/lrucache/libs/ctpl/ctpl_stl.h:189-234 | in every interleaving before a stop, a non-empty queue means a worker is awake or a pusher is yet to notify |
| `ThreadPool.RunAccounts` | libs/lrucache/libs/ctpl/ctpl_stl.h:43-64 | in every run tasks are taken in push order, each run or being run as often as taken |
| `ThreadPool.StepDrains` | libs/lrucache/libs/ctpl/ctpl_stl.h:209-234 | after a safe call of stop(true), every step leaves queued tasks an awake worker, or one asleep that is about to be woken |
| `ThreadPool.RunOneHolder` | libs/lrucache/libs/ctpl/ctpl_stl.h:225-227 | in every run at most one worker holds the mutex |
| `ThreadPool.StopWaitsForAll` | libs/lrucache/libs/ctpl/ctpl_stl.h:142-170 | stop(true), called in a safe state and with no later push, returns only after every pushed task was taken in order and ran exactly once, pushes that have yet to notify included |
| `ThreadPool.UnsafeCallLoses` | libs/lrucache/libs/ctpl/ctpl_stl.h:142-198 | from every other reachable state the call can return with the queue as it was, not empty |
| `ThreadPool.StopWaitsExactly` | libs/lrucache/libs/ctpl/ctpl_stl.h:142-170 | in every reachable state of a pool with workers: stop(true), called now, waits for all in every continuation exactly if nothing is queued or some worker is not about to test the flag |
| `ThreadPool.WaitsAfterPushes` | libs/lrucache/libs/ctpl/ctpl_stl.h:142-198 | with at least one worker it waits for all if every push has returned |
| `ThreadPool.SafeWithTwo` | libs/lrucache/libs/ctpl/ctpl_stl.h:225-227 | with two or more workers the call is safe in every reachable state |
| `ThreadPool.WaitsWithTwo` | libs/lrucache/libs/ctpl/ctpl_stl.h:142-170 | a pool of n threads waits for all in every run without later pushes exactly if n is at least 2 |
| `ThreadPool.OverlappingPushIsLost` | libs/lrucache/libs/ctpl/ctpl_stl.h:142-198 | one worker: a push still in progress when stop(true) is called can leave its task unrun |
| `Crc32.ShiftsLinear` | libs/lrucache/libs/nuraft/src/crc32.cxx:32-38 | shifting out bits is linear for exclusive or |
| `Crc32.EatByTable` | libs/lrucache/libs/nuraft/src/crc32.cxx:321-330 | one shift by a byte and one lookup shift out eight bits |
| `Crc32.TableIsAdvance` | libs/lrucache/libs/nuraft/src/crc32.cxx:39-53 | row r of the table is the effect of a byte followed by r more |
| `Crc32.ByteStep` | libs/lrucache/libs/nuraft/src/crc32.cxx:325-327 | one table step feeds one byte |
| `Crc32.FeedFour` | libs/lrucache/libs/nuraft/src/crc32.cxx:352-353 | four bytes fed one by one equal their word fed at once |
| `Crc32.SliceStep` | libs/lrucache/libs/nuraft/src/crc32.cxx:352-362 | eight lookups feed eight bytes |
| `Gf2.RemainderUnique` | libs/lrucache/libs/nuraft/src/crc32.cxx:321-330 | a polynomial over two elements has at most one remainder modulo a generator with leading coefficient 1 |
| `Crc32.ShiftsDivide` | libs/lrucache/libs/nuraft/src/crc32.cxx:321-330 | shifting out k bits multiplies by x to the k and takes the remainder |
| `Crc32.ChecksumIsRemainder` | libs/lrucache/libs/nuraft/src/crc32.cxx:321-330 | for every code, the complement of the checksum is the remainder, modulo the generator, of the bytes times x to the width plus the complement of the previous checksum times x to their length |
| `Crc32.ChecksumExactly` | libs/lrucache/libs/nuraft/src/crc32.cxx:321-330 | and a word is the checksum exactly if its complement is that remainder |
| `Crc32Check.CheckValue` | libs/lrucache/libs/nuraft/src/crc32.cxx:321-373 | with the polynomial in use, the digits 1 to 9 from 0 have the published checksum 0xCBF43926 |
| `Crc32.ChecksumChains` | libs/lrucache/libs/nuraft/src/crc32.cxx:321-330 | checking two pieces in turn equals checking them together |
| `Crc32.TakeBytes` | libs/lrucache/libs/nuraft/src/crc32.cxx:367-371 | the byte loop computes the bit-by-bit remainder |
| `Crc32.Bytewise` | libs/lrucache/libs/nuraft/src/crc32.cxx:321-330 | the bytewise form computes the checksum, whose complement is the remainder of the message modulo the generator, for every data, length and start value |
| `Crc32.SlicingBy8` | libs/lrucache/libs/nuraft/src/crc32.cxx:332-373 | so does the slicing-by-8 form |
| `LittleEndian.UnsignedRoundTrip` | libs/lrucache/libs/nuraft/src/buffer_serializer.cxx:276-294 | an unsigned number in range comes back from its bytes |
| `LittleEndian.SignedRoundTrip` | libs/lrucache/libs/nuraft/src/buffer.cxx:188-204 | a signed number in range comes back from its two's complement bytes |
| `LittleEndian.CopyBytes` | libs/lrucache/libs/nuraft/src/buffer.cxx:392-400 | the bytes are in place and all others unchanged |
| `Codec.ServerBack` | libs/lrucache/libs/nuraft/src/srv_config.cxx:30-59 | a server whose strings hold no zero byte comes back, and the rest is left |
| `Codec.ServersBack` | libs/lrucache/libs/nuraft/src/cluster_config.cxx:40-71 | so does a list of any length |
| `Codec.ConfigBack` | libs/lrucache/libs/nuraft/src/cluster_config.cxx:25-76 | so does a cluster configuration |
| `Codec.RequestBack` | libs/lrucache/libs/nuraft/src/snapshot_sync_req.cxx:32-59 | so does a whole request |
| `Codec.RequestNoNul` | libs/lrucache/libs/nuraft/src/srv_config.cxx:30-40 | whatever is read has no zero byte in its strings |
| `Codec.RequestRoundTrip` | libs/lrucache/libs/nuraft/src/snapshot_sync_req.cxx:32-59 | a request comes back exactly when no endpoint or auxiliary string holds a zero byte |
| `CodecBuffers.Buffer.constructor` | libs/lrucache/libs/nuraft/src/buffer.cxx:88-127 | an empty buffer of the size |
| `CodecBuffers.Buffer.Put` | libs/lrucache/libs/nuraft/src/buffer.cxx:287-401 | a put succeeds exactly when it fits, and then adds the bytes |
| `CodecBuffers.Alloc` | libs/lrucache/libs/nuraft/src/buffer.cxx:88-127 | a buffer below the size limit, else failure |
| `CodecBuffers.PutAll` | libs/lrucache/libs/nuraft/src/buffer.cxx:287-401 | parts put into a buffer of their exact size all fit and fill it |
| `CodecBuffers.SerializeServer` | libs/lrucache/libs/nuraft/src/srv_config.cxx:42-59 | the computed size is exact and the bytes are the encoding |
| `CodecBuffers.SerializeServers` | libs/lrucache/libs/nuraft/src/cluster_config.cxx:26-32 | the size summed over the servers is exact |
| `CodecBuffers.SerializeConfig` | libs/lrucache/libs/nuraft/src/cluster_config.cxx:25-49 | the computed size is exact and the bytes are the encoding |
| `CodecBuffers.SerializeSnapshot` | libs/lrucache/libs/nuraft/src/snapshot.cxx:41-51 | the same for a snapshot |
| `CodecBuffers.SerializeRequest` | libs/lrucache/libs/nuraft/src/snapshot_sync_req.cxx:50-59 | the same for a request |
| `CodecBuffers.Reader.constructor` | libs/lrucache/libs/nuraft/src/buffer_serializer.cxx:117-123 | reading starts at the first byte |
| `CodecBuffers.Reader.GetUnsigned` | libs/lrucache/libs/nuraft/src/buffer_serializer.cxx:276-294 | reads as specified, or fails its bounds check |
| `CodecBuffers.Reader.GetInt` | libs/lrucache/libs/nuraft/src/buffer_serializer.cxx:315-323 | reads as specified, or fails its bounds check |
| `CodecBuffers.Reader.GetByte` | libs/lrucache/libs/nuraft/src/buffer_serializer.cxx:257-264 | reads as specified, or fails its bounds check |
| `CodecBuffers.Reader.GetCString` | libs/lrucache/libs/nuraft/src/buffer_serializer.cxx:360-365 | reads up to the zero byte, or fails without one |
| `CodecBuffers.Reader.GetCounted` | libs/lrucache/libs/nuraft/src/buffer_serializer.cxx:347-351 | reads length and bytes, or fails its bounds check |
| `CodecBuffers.DeserializeServer` | libs/lrucache/libs/nuraft/src/srv_config.cxx:30-40 | on every input the reading function, failures included |
| `CodecBuffers.DeserializeServers` | libs/lrucache/libs/nuraft/src/cluster_config.cxx:67-71 | on every input the reading function |
| `CodecBuffers.DeserializeConfig` | libs/lrucache/libs/nuraft/src/cluster_config.cxx:56-76 | on every input the reading function |
| `CodecBuffers.DeserializeSnapshot` | libs/lrucache/libs/nuraft/src/snapshot.cxx:32-39 | on every input the reading function |
| `CodecBuffers.DeserializeRequest` | libs/lrucache/libs/nuraft/src/snapshot_sync_req.cxx:32-48 | on every input the reading function |
| `CodecBuffers.Transfer` | libs/lrucache/libs/nuraft/src/snapshot_sync_req.cxx:32-59 | serialising and deserialising gives the request back exactly when it is below the size limit and its strings hold no zero byte |
| `Layout.WordDigit` | libs/lrucache/libs/nuraft/src/buffer.cxx:319-343 | byte i of a number is its digit i in base 256, in two's complement |
| `Layout.ServerLayout` | libs/lrucache/libs/nuraft/src/srv_config.cxx:42-59 | the offset of every field of a serialised server, and its size |
| `Layout.ConfigLayout` | libs/lrucache/libs/nuraft/src/cluster_config.cxx:25-49 | the offset of every field of a cluster configuration |
| `Layout.ServersLayout` | libs/lrucache/libs/nuraft/src/cluster_config.cxx:44-46 | server i stands after the sizes of those before it |
| `Layout.SnapshotLayout` | libs/lrucache/libs/nuraft/src/snapshot.cxx:41-52 | the offset of every field of a snapshot |
| `Layout.RequestLayout` | libs/lrucache/libs/nuraft/src/snapshot_sync_req.cxx:50-59 | the offset of every field of a snapshot request |
| `Layout.ItemLayout` | libs/lrucache/src/cache/cache_state.hxx:94-104 | the offset of key size, key, data size, data and expiry of a chunk item |
| `Layout.ItemsLayout` | libs/lrucache/src/cache/cache_state.hxx:94-104 | item i of a stream stands after the sizes of those before it, most recently used first |
| `Layout.FrameLayout` | libs/lrucache/src/raft/in_memory_log_store.cc:207-235 | a pack holds the count, then each buffer after its length |

## Left out

- Raft membership changes, joining and leaving, and snapshot installation.
- Pre-vote, leadership transfer, timers, backoff and reconnection: an election may start at any time with any larger term.
- Vote priorities appear only as a free choice to refuse a vote.
- Custom quorum sizes and excluding snapshot receivers from the quorum.
- Crash and restart of servers, and the disk delay of the log store.
- Rollback and pre-commit callbacks of the state machine while an append request is handled: only the indexes are rolled back.
- Client callbacks and the delivery of commit results.
- RaftCommit.OwnTermCommitIsKept: one direction only; an index outside the condition may still survive in a particular run.
- RaftServer.RaftServer.HandleAppendEntries: the alternative of the log test for an index covered by a snapshot, as there are no snapshots in the Raft model.
- RaftServer.RaftServer.CreateAppendReq: the log always starts at index 1, so the snapshot and out-of-range notifications for compacted logs do not arise.
- RaftServer.RaftServer.GetExpectedCommittedLogIdx: full consensus among healthy members and the state machine's adjustment of the index; `CommitIndex.HealthyQuorum` treats the former by itself.
- RaftServer.RaftServer.HandleAppendEntriesResp: removal of a leaving peer and the hand-over of leadership; an accepted response with next index 0, which no server sends, records nothing.
- RaftProgress.LeaderCommits: that such a run exists, not that every run is one; delivery and timing are free in the model. The same holds of the theorems of `RaftElectable` and `RaftRecovery`.
- CommitLoop.AppliedInOrder: for runs without snapshot installation. `RaftAgreement.CommitNeverFalls` says when no committed entry is cut.
- CommitLoop.IndexesOnlyGrow: likewise.
- LogStore.Store.Place: requires a pack in the written format; the code reads any bytes without checks.
- LogStore.Store.ApplyPack: as for placing, and an index from 1 on, since index 0 is the dummy's; the codec of a single log entry is a parameter with an inverse.
- CacheStorage.Storage.PurgeBucket: walks a copy of the bucket, where the code compares against the end of a bucket it may have erased.
- Overlay.ReplayEqualsDirect: requires that no write meets an expired item that is not purged, as the main storage is not consistent after one.
- CacheState.State.RunCommits: likewise; what the storage does after such a write, with containers that disagree, is not modelled.
- CacheState.State.Replay: likewise, for the write of the replayed event.
- CacheState.State.EndSnapshot: likewise, for the writes of the log.
- CacheState.State.TakeSnapshot: likewise, and it requires that the overlay need not evict, as an event then points to a removed item.
- CodecBuffers.Reader.GetCString: a string without a terminating zero reads past the buffer in the code; here it fails.
- Resizing the thread pool and stop(false); a push after the call of stop(true) is excluded.
- Lifetimes of key strings that events point to: event keys are values here.
- The 2048 literal entries of the CRC table: the table is the one their comment defines.
- Machine overflow of sizes held in an int, locks and atomics outside the thread pool and the commit loop.
- Sockets, request dispatch, configuration files, logging and statistics.
