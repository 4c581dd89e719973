# Verified models of the replication, NFS and locking code

This project models five components of the repository in Dafny 4.11 and proves what they are for.
`dafny verify dfyconfig.toml` checks all of it.

* `raft/` - the Raft servers of `raft/`: elections, log replication, commit and quorums, for any number of
  servers over a network that loses, repeats and reorders messages (sections 5.2 to 5.4 and 6 of the Raft paper).
* `sessions/` - NFSv4.1 sessions of `pynfs/nfs4.1`: slots with wrapping sequence ids, the reply cache, and the
  client and session tables (sections 2.10.6 and 18.35 to 18.37 of RFC 5661).
* `pnfs/` - pNFS block volumes of `pynfs/nfs4.1`: mapping of offsets through slices, concatenations and stripes,
  the file that is read and written through that mapping, LAYOUTCOMMIT, and the device address dump.
* `locking/` - the reader/writer lock of `pynfs/nfs4.1/locking.py`.
* `nfs3/` - record marking and the directory list of `pynfs/nfs3` (section 11 of RFC 5531, section 3.3.16 of
  RFC 1813).

## How the models are built

Where the source changes an object in place, a class has its fields and its methods are proved to compute a
function of the old state (`RaftConsensus.RaftConsensus.HandleAppendEntries` computes
`RaftServer.HandleAppendEntries`, and so on). State machines then take those functions as steps, and the theorems
are about every run of the machine.

**Raft.** `RaftServer.dfy` has one function per handler, `RaftSystem.dfy` the steps of many servers and a set of
messages; a message once sent may be received at any later time, any number of times or never. Timeouts, which peer
is served next, `nextIndex` (any value from 1 to one past the log) and whether votes are withheld are left open. A
reply names the request it answers, as the source pairs them by message number. Every server starts in term 1 with
the same first CONFIGURATION entry, and no other membership is ever installed. The system carries a history that
nothing depends on - votes cast, elections won, log prefixes held - and `RaftHistory.dfy` is the argument about
that history alone: commitment by a majority, leader completeness by induction over terms. `RaftElection.dfy` and
`RaftReplication.dfy` show that every step of every server is one of the events that keep it in order.
`RaftSafety.dfy` has the theorems over runs, `RaftSteps.dfy` what each step decides and leaves, in terms of the state
before, and `RaftExample.dfy` a run of three servers that elects and commits. A `Crash` step restarts a server with its durable term and vote and an empty
log, as `init` does; election safety allows such steps, the log properties are for runs without them.

**Sessions.** A call has a position, its number on the slot without wrap-around; nobody in the model looks at it
except the bound on delay, which asks that a request does not arrive after its slot has moved on by 2^32 - 1 calls or
more. `SequenceIds.TakenForNewExactlyIf` shows that a longer delay does let an old request through again. Requests
may also be refused before their sequence id is looked at. Client and session records are referred to by their place
in the order of creation. `SessionAnswers.dfy` says of each operation what it answers exactly when, from the tables
before it alone.

**Volumes.** Well-formedness asks that slices lie inside their volume and that the members of a stripe have the same
size, a multiple of the stripe unit; the source assumes the latter (pynfs/nfs4.1/block.py:244).

## Where the text falls short of what it is for

The model has the intended behaviour at these places.

* raft/memorylog.py:52 keeps `lastIndex + startIndex + 1` entries; `lastIndex - startIndex + 1` is meant.
  `RaftAsWritten.MergesAsMeantExactlyIf` says exactly when the text still does what is meant: when no entry after the
  first one of the log has to be replaced.
* raft/raftconsensus.py:692-694 has the guard against standing for election without a configuration commented out.
  `RaftAsWritten.StandsAsMeantExactlyIf` and `RaftAsWritten.TwoBlankLeaders` say what that costs. The model has the
  guard. Put back as it stands, the guard would not fire: it compares `configuration.id` with None, and
  raft/configuration.py:66 and :100 set it to 0. The model's guard is that the log holds no configuration.
* raft/raftconsensus.py:246-275 builds the response to a vote request but returns nothing. The model sends it.
* raft/configuration.py:88 says `newServers` and raft/raftconsensus.py:622 says `lastSnapshotTerm` without `self.`.
* raft/raftconsensus.py:558 asserts that a reply is of the current term; a reply may be older. The model drops it.
* raft/raftconsensus.py:585-588 may set `nextIndex` beyond the log or leave it where it is; no safety property needs
  it, so it is left open.
* raft/server.py:126 resets a `snapshotFile` that no peer has; snapshots are not part of this model.

These are kept as they are and stated:

* pynfs/nfs4.1/fs.py:1203-1224 looks neither at the state of the extent it splits nor at where it ends;
  `LayoutCommit.UpdateConservesExactlyIf` has the exact condition. An update of length 0, which lines 1195-1201 let
  pass, leaves an empty extent in the list.
* pynfs/nfs4.1/nfs4server.py:498-501 frees a slot also when SEQUENCE failed. If another copy of that request is let
  through, the next call at the same position is taken for its retry: `Slots.FalseRetry` is such a run.
  `Slots.ExactlyOnce` holds without giving up; `Slots.AfterGivingUp` says exactly when the next call still gets its
  own reply.
* pynfs/nfs4.1/nfs4server.py:936-941 moves a client's CREATE_SESSION slot on before it looks at the principal, so a
  refusal uses the sequence id up: `SessionRuns.CreateOnlyOnce` and `SessionRuns.ToldIdIsGoodExactlyIf`.
* pynfs/nfs4.1/nfs4server.py:368-369 makes session ids of 32-bit sequence ids; `SessionRuns.CreateIsSoundExactlyIf`
  says when that overwrites a live session.
* The note at pynfs/nfs4.1/nfs4server.py:927-931 has a client id given out again after a reboot; the code does not do
  that, since `wipe` keeps the counter: `SessionRuns.ClientIdsNeverReused`.
* pynfs/nfs3/nfs3server.py:934-952 takes the server's one lock only for a record of several fragments.
  `SharedConnection.BothArriveExactlyIf` says when a record sent without it between the fragments of another still
  leaves both intact, `SharedConnection.CutArrivesExactlyIf` when one that a partial send has cut does.
* pynfs/nfs4.1/fs_base.py:66-85 does not look whether the data fit. `WriteLoop.WriteEndsExactlyIf`: a write ends
  normally exactly if they end inside the volume. Past its end `extent` raises RuntimeError in a Concat, in a Slice
  that ends with such a volume and in a Stripe whose first member is one (pynfs/nfs4.1/block.py:234-235); in every
  other volume it returns an empty stretch there (pynfs/nfs4.1/block.py:167-168) and the loop never ends.

## Model

| member | source | states |
|---|---|---|
| `Quorum.QuorumMinIsGreatest` | raft/configuration.py:46-55 | `quorumMin` is the greatest value that a majority of the servers reach |
| `Quorum.MajorityIsQuorum` | raft/configuration.py:35-44 | over distinct servers `quorumAll` holds exactly if those who say yes are more than half |
| `Quorum.QuorumsIntersect` | raft/configuration.py:35-44 | any two quorums of one configuration share a server |
| `Quorum.JointMinIsGreatest` | raft/configuration.py:86-96 | the TRANSITIONAL minimum is the greatest value that a majority of the old and one of the new servers reach |
| `Quorum.JointQuorumIntersects` | raft/configuration.py:86-90 | a joint quorum meets every majority of the old servers and every majority of the new ones |
| `Quorum.QuorumAll` | raft/configuration.py:35-44 | the counting loop decides majority; no servers count as agreed |
| `Quorum.ComputeQuorumMin` | raft/configuration.py:46-55 | the loop and the sort return the greatest value a majority reaches, 0 for no servers |
| `RaftLog.MergeFollowsLeader` | raft/raftconsensus.py:207-230 | offering a stretch of the leader's log leaves the log as it is, or exactly the leader's up to the end of the stretch |
| `RaftLog.MergeKeepsCommonPrefix` | raft/raftconsensus.py:207-230 | what a log has in common with the leader's survives the merge |
| `RaftLog.MemoryLog.Append` | raft/memorylog.py:13-17 | the entries are put at the end, and the first and last new index returned |
| `RaftLog.MemoryLog.GetEntry` | raft/memorylog.py:19-20 | an entry of the log by its index |
| `RaftLog.MemoryLog.TakeSync` | raft/memorylog.py:35-39 | a new sync up to the last index becomes the current one |
| `RaftLog.MemoryLog.DropSuffix` | raft/memorylog.py:47-52 | the entries up to the index stay (the slice that is meant) |
| `RaftLog.MemoryLog.GetLastLogIndex` | raft/memorylog.py:25-26 | the last index is the number of entries |
| `RaftHistory.LeaderCompleteness` | raft/raftconsensus.py:451-465 | what a majority holds of a leader's log, ending with an entry of its term, every leader of a later term stood for election with |
| `RaftHistory.CommittedAgree` | raft/raftconsensus.py:451-465 | two committed prefixes never disagree |
| `RaftHistory.UpToDateKeeps` | raft/raftconsensus.py:256-263 | a candidate whose log is up to date for a voter that has the committed entries has them too |
| `RaftHistory.CastVoteKeepsInv` | raft/raftconsensus.py:243-273 | giving a vote keeps the invariant of the history |
| `RaftHistory.ElectKeepsInv` | raft/raftconsensus.py:596-608 | winning an election with a quorum keeps it |
| `RaftHistory.ExtendKeepsInv` | raft/raftconsensus.py:481-491 | a leader's append keeps it |
| `RaftHistory.AcceptKeepsInv` | raft/raftconsensus.py:194-230 | merging a stretch of the leader's log keeps it |
| `RaftElection.StepKeepsElectionInv` | raft/raftconsensus.py:164-275 | every step of every server, crashes included, keeps what election safety rests on |
| `RaftElection.RunKeepsElectionInv` | raft/raftconsensus.py:664-720 | it holds in every state of every run |
| `RaftElection.LeadsForever` | raft/raftconsensus.py:596-608 | who has led a term is never forgotten |
| `RaftElection.ElectionSafety` | raft/raftconsensus.py:664-678 | at any two moments of any run, with crashes and restarts, whoever leads the same term is the same server |
| `RaftElection.LeaderIdAssertionHolds` | raft/raftconsensus.py:189-192 | the assertion that a known leader is the sender never fails |
| `RaftReplication.StepKeepsReplicationInv` | raft/raftconsensus.py:164-275 | every step but a crash keeps that leaders know what their peers and disks have and that commit indices are justified |
| `RaftReplication.RunKeepsReplicationInv` | raft/raftconsensus.py:164-275 | it holds in every state of every run without crashes |
| `RaftReplication.TruncationAssertionHolds` | raft/raftconsensus.py:216-225 | a truncation never reaches a committed entry |
| `RaftReplication.CommitInsideLog` | raft/raftconsensus.py:455-464 | what a leader would commit next is inside its log |
| `RaftSafety.LogMatching` | raft/raftconsensus.py:194-230 | two logs with an entry of equal term at the same index are identical up to that index |
| `RaftSafety.CommittedPrefixesAgree` | raft/raftconsensus.py:451-465 | what two servers count as committed at an index, at the same or different moments, is the same entry |
| `RaftSafety.LeadersHaveCommitted` | raft/raftconsensus.py:451-465 | what any server counts as committed is in the log of every leader of its or a later term from then on |
| `RaftSafety.LaterLeadersAreComplete` | raft/raftconsensus.py:256-269 | the same for later terms at any two moments of the run |
| `RaftSafety.LeaderAppendOnly` | raft/raftconsensus.py:481-491 | while a server leads a term its log only grows |
| `RaftSafety.AgreementIsReal` | raft/raftconsensus.py:563-568 | a leader's `lastAgreeIndex` of a peer in its term bounds a prefix the peer really has |
| `RaftSafety.IndexesInsideLog` | raft/raftconsensus.py:451-465 | `commitIndex`, `lastSyncedIndex` and the quorum minimum never exceed the log |
| `RaftSafety.CommitNeverFalls` | raft/raftconsensus.py:232-234 | commit indices and terms never fall |
| `RaftSafety.AppendAssertionsHold` | raft/raftconsensus.py:189-235 | none of the assertions of `handleAppendEntries` can fail on a request that can arrive |
| `RaftSteps.GrantsExactlyIf` | raft/raftconsensus.py:243-273 | a vote is granted exactly if not withheld, not for an older term, and given to the candidate before or still free and its log up to date; a vote given in a term stays |
| `RaftSteps.ElectedExactlyIf` | raft/raftconsensus.py:664-678 | a reply makes a leader exactly of a candidate of the term it answers, if with it the votes are a quorum |
| `RaftSteps.AcceptsExactlyIf` | raft/raftconsensus.py:175-230 | a request is accepted exactly if it is not of an older term and the previous entry is there; then the log holds the offered terms where they belong |
| `RaftSteps.ConfigurationInForce` | raft/configuration.py:166-189 | the configuration in force is the last one in the log, committed or not |
| `RaftSteps.CommitTravels` | raft/raftconsensus.py:232-234 | over any run: when a request of a leader is accepted, the receiver's commit index is the greater of its own before and of what the leader had committed, when it sent, of the stretch it sent |
| `RaftSteps.StepDownOutcome` | raft/raftconsensus.py:714-740 | a newer term is entered and stored without a vote and a leader; in any case the server follows and owes no sync |
| `RaftSteps.VoteRequestSays` | raft/raftconsensus.py:642-651 | a candidate asks in its own name and term, with the index and the term of its last entry |
| `RaftSteps.VoteRequestOutcome` | raft/raftconsensus.py:243-273 | a newer term is entered as a follower whether or not the vote is given; a request of an older term changes nothing; what was voted is stored |
| `RaftSteps.LeadershipOutcome` | raft/raftconsensus.py:596-608 | a new leader has an entry of its term on top of its log and knows nothing of its peers |
| `RaftSteps.CandidacyOutcome` | raft/raftconsensus.py:691-709 | the next term with the server's own vote, both stored, and every peer still to be asked; won at once exactly if one vote is a quorum |
| `RaftSteps.VoteReplyOutcome` | raft/raftconsensus.py:664-680 | stale replies change nothing, a newer term is entered as a follower, any other reply is noted; only a granted vote makes a leader |
| `RaftSteps.ReplicateOutcome` | raft/raftconsensus.py:631-634 | the entry goes to the end of the log in the leader's term, to be synced |
| `RaftSteps.RequestSays` | raft/raftconsensus.py:508-545 | a heartbeat says the entry before only; otherwise all entries from `nextIndex` on up to 128; and what the leader has committed of what the receiver will then have |
| `RaftSteps.AppendOutcome` | raft/raftconsensus.py:164-238 | an older term is refused and changes nothing; any other sender is followed in its term; on success the commit index rises to that of the request, on failure it stays |
| `RaftSteps.AppendReplyOutcome` | raft/raftconsensus.py:555-571 | a newer term makes the leader step down into it; success raises what the peer agrees on to the end of what was sent, or leaves it if higher; nothing else changes |
| `RaftSteps.CommitOutcome` | raft/raftconsensus.py:451-470 | a leader outside the configuration it has committed steps down into the next term; any other changes its commit index only |
| `RaftSteps.SyncOutcome` | raft/raftconsensus.py:353-365 | what was synced counts exactly if the term is still the same |
| `RaftSteps.RestartOutcome` | raft/raftconsensus.py:111-119 | term and vote are kept and nothing else |
| `RaftSteps.CommitsExactlyIf` | raft/raftconsensus.py:451-463 | a leader commits exactly the greatest index a majority has, if its entry is of the current term |
| `RaftExample.RunsCommit` | raft/raftconsensus.py:164-275 | a run of three servers in which a vote reply elects a leader, an append reply commits an entry of its term, and a further request commits it at a follower |
| `RaftAsWritten.TruncatesAsMeantExactlyIf` | raft/memorylog.py:47-52 | the slice as written keeps the right entries exactly if none or all are kept |
| `RaftAsWritten.MergesAsMeantExactlyIf` | raft/raftconsensus.py:207-230 | with the slice as written the collection loop merges as meant exactly if nothing after the first entry has to be replaced |
| `RaftAsWritten.ConflictStays` | raft/raftconsensus.py:216-227 | otherwise the conflicting entry stays although the request succeeds |
| `RaftAsWritten.StaleEntryStays` | raft/memorylog.py:47-52 | an example: the stale entry and its replacement both end up in the log |
| `RaftAsWritten.StandsAsMeantExactlyIf` | raft/raftconsensus.py:691-709 | without the guard an election starts as meant exactly if there is a configuration |
| `RaftAsWritten.BlankElectsItself` | raft/configuration.py:35-37 | a server without a configuration makes itself leader at once |
| `RaftAsWritten.TwoBlankLeaders` | raft/raftconsensus.py:691-709 | two such servers lead the same term |
| `RaftConsensus.RaftConsensus.StepDown` | raft/raftconsensus.py:714-740 | a higher term is taken and stored with no vote and no leader; the server is a follower and owes no sync |
| `RaftConsensus.RaftConsensus.Append` | raft/raftconsensus.py:481-495 | entries are appended; a leader queues a sync |
| `RaftConsensus.RaftConsensus.UpdateLogMetadata` | raft/raftconsensus.py:742-745 | term and vote are stored |
| `RaftConsensus.RaftConsensus.LastLogTerm` | raft/raftconsensus.py:616-623 | the term of the last entry, 0 for an empty log |
| `RaftConsensus.RaftConsensus.BeginRequestVote` | raft/server.py:114-116 | every peer is asked anew and has given no vote |
| `RaftConsensus.RaftConsensus.BeginLeadership` | raft/server.py:122-128 | nothing is known of any peer, and what the server has is synced |
| `RaftConsensus.RaftConsensus.QuorumHasVoted` | raft/configuration.py:86-90 | the configuration in force is asked for a quorum of votes |
| `RaftConsensus.RaftConsensus.BecomeLeader` | raft/raftconsensus.py:596-608 | the candidate leads its term, resets what it knows of its peers and appends an entry of the term |
| `RaftConsensus.RaftConsensus.StartNewElection` | raft/raftconsensus.py:691-709 | the next term is entered with a stored vote for itself, and led at once if that is a quorum; nothing happens without a configuration |
| `RaftConsensus.RaftConsensus.HandleRequestVote` | raft/raftconsensus.py:243-273 | the vote is given, and stored, exactly for an up-to-date log in the current term if none was given; withholding changes nothing |
| `RaftConsensus.RaftConsensus.HandleVoteReply` | raft/raftconsensus.py:664-680 | a reply of this candidacy is noted, a newer term steps down, a quorum leads |
| `RaftConsensus.RaftConsensus.Replicate` | raft/raftconsensus.py:631-634 | a leader appends the client's entry in its term |
| `RaftConsensus.RaftConsensus.MakeAppendRequest` | raft/raftconsensus.py:508-545 | the request has at most 128 entries from `nextIndex` on, the term before them, and a commit index inside them |
| `RaftConsensus.RaftConsensus.HandleAppendEntries` | raft/raftconsensus.py:164-238 | the whole handler, with its rejections, merge and commit |
| `RaftConsensus.RaftConsensus.CollectEntries` | raft/raftconsensus.py:207-230 | the loop that skips, truncates and collects merges as `Merge` says |
| `RaftConsensus.RaftConsensus.AdvanceCommittedId` | raft/raftconsensus.py:451-470 | the quorum minimum is committed exactly if it is news and of the current term |
| `RaftConsensus.RaftConsensus.HandleAppendReply` | raft/raftconsensus.py:555-571 | agreement advances only forward, and commit with it |
| `RaftConsensus.RaftConsensus.TakeLeaderSync` | raft/raftconsensus.py:353-357 | the disk thread takes a sync up to the end of the log |
| `RaftConsensus.RaftConsensus.FinishLeaderSync` | raft/raftconsensus.py:363-365 | the synced index counts only if the server still leads the same term |
| `RaftConsensus.RaftConsensus.Init` | raft/raftconsensus.py:111-119 | a restart restores the stored term and vote and nothing else |
| `BlockVolume.ResolveReachesDisk` | pynfs/nfs4.1/block.py:161-273 | in a well-formed tree every offset inside resolves to a byte inside a disk, which may be larger than its volume, and any other is a ValueError |
| `BlockVolume.ResolveInjective` | pynfs/nfs4.1/block.py:161-273 | in an alias-free tree two offsets never reach the same byte |
| `BlockVolume.SeparateDisksAliasFree` | pynfs/nfs4.1/block.py:161-273 | a tree whose branches use different disks is alias-free |
| `BlockVolume.StripeForward` | pynfs/nfs4.1/block.py:264-273 | the stripe arithmetic lands inside a member and `StripeOffset` undoes it |
| `BlockVolume.StripeBackward` | pynfs/nfs4.1/block.py:264-273 | every place inside a member is reached from exactly the offset `StripeOffset` names |
| `BlockVolume.ExtentAgreesWithResolve` | pynfs/nfs4.1/block.py:167-283 | `extent` returns a length n with 0 < n <= limit such that the next n offsets resolve to consecutive bytes of one disk |
| `BlockVolume.NothingAtTheEnd` | pynfs/nfs4.1/block.py:167-283 | at the end of a volume, or for a limit of 0, `extent` returns an empty stretch or, at the end of exactly the volumes of `RaisesAtEnd`, raises RuntimeError |
| `BlockVolume.ResolveInConcat` | pynfs/nfs4.1/block.py:214-225 | the loop with the running sum finds the part the offset is in |
| `BlockVolume.ExtentInConcat` | pynfs/nfs4.1/block.py:227-235 | so does the loop of `extent`, which cuts the limit at the end of the part |
| `VolumeBytes.ResolveIsListed` | pynfs/nfs4.1/block.py:161-273 | with the places of a volume listed without offset arithmetic - a disk from its start, a piece of a list, lists end to end, lists unit by unit in turn - `resolve` tells the entry at the offset |
| `VolumeBytes.ExtentEndsAtSeam` | pynfs/nfs4.1/block.py:167-283 | `extent` never crosses the end of a disk, slice, part or stripe unit, and stops nowhere else but at the limit |
| `LayoutFile.StretchIsFlat` | pynfs/nfs4.1/fs_base.py:53-64 | the bytes of a stretch on its disk are those of the flat array |
| `LayoutFile.StoreIsSplice` | pynfs/nfs4.1/fs_base.py:79-83 | storing on a stretch changes the flat array there and nowhere else |
| `LayoutFile.VolumeFile.Seek` | pynfs/nfs4.1/fs_base.py:31-43 | the position moves as asked or, out of bounds, not at all |
| `LayoutFile.VolumeFile.FindExtent` | pynfs/nfs4.1/block.py:34-38 | the extent at the position, with the limit of 2^64 |
| `LayoutFile.VolumeFile.Read` | pynfs/nfs4.1/fs_base.py:48-64 | returns exactly the bytes of the flat array at the position, as many as asked and there are, and moves past them |
| `LayoutFile.VolumeFile.ReadSegment` | pynfs/nfs4.1/fs_base.py:53-63 | one turn of the loop of read returns a non-empty piece of the flat array |
| `LayoutFile.VolumeFile.WriteSegment` | pynfs/nfs4.1/fs_base.py:79-83 | one turn of the loop writes a non-empty piece where it belongs |
| `LayoutFile.VolumeFile.Write` | pynfs/nfs4.1/fs_base.py:66-85 | splices what fits of any data into the flat array at the position, changes no byte of any disk that is not addressed, and says whether the loop ends, raises or stays where it is |
| `WriteLoop.WriteEndsExactlyIf` | pynfs/nfs4.1/fs_base.py:66-85 | a write ends normally exactly if the data end inside the volume; else it raises exactly if the volume raises at its end, and never ends otherwise |
| `WriteLoop.ReachesFate` | pynfs/nfs4.1/fs_base.py:70-83 | after enough turns the loop is where the closed form says, for ever |
| `LayoutCommit.UpdateConservesExactlyIf` | pynfs/nfs4.1/fs.py:1203-1224 | an update keeps the list contiguous over the same range, every block on its disk block, and makes exactly its blocks read-write if and only if it is not empty and ends inside the extent it starts in, and that was uninitialised or is covered whole |
| `LayoutCommit.CommitConserves` | pynfs/nfs4.1/fs.py:1203-1224 | a list of updates that lie apart inside uninitialised extents meets no error, conserves the mapping and marks exactly their blocks |
| `LayoutCommit.MarkedExactly` | pynfs/nfs4.1/fs.py:1203-1224 | a block is read-write afterwards exactly if it was or an update covers it |
| `LayoutCommit.UpdateOfWrittenExtentLosesState` | pynfs/nfs4.1/fs.py:1215-1224 | an example: committing one of two written blocks makes the other uninitialised |
| `LayoutCommit.EmptyUpdateBreaksList` | pynfs/nfs4.1/fs.py:1203-1224 | an update of length 0 leaves an empty extent in the list |
| `LayoutCommit.FindFinds` | pynfs/nfs4.1/fs.py:1207-1210 | the backward search finds the extent a block is in |
| `CommitBytes.CommitsExactlyTheBytes` | pynfs/nfs4.1/fs.py:1167-1231 | for aligned read-write updates inside the committed range, not empty, apart, and each by its byte offsets inside an uninitialised extent with the same mapping, the answer is Ok, every block keeps its disk block, and a block is read-write afterwards exactly if it was or an update covers its first byte; the size grows to the last byte written |
| `CommitBytes.BadLayoutExactlyIf` | pynfs/nfs4.1/fs.py:1167-1214 | NFS4ERR_BADLAYOUT exactly if type, alignment, range or state is wrong in bytes, or some update names another place on disk than the last extent that starts at or before it in the list the updates before it have left |
| `CommitBytes.ArgsOkExactlyIf` | pynfs/nfs4.1/fs.py:1168-1201 | the checks, which the source makes on blocks, in bytes |
| `CommitBytes.CommitExample` | pynfs/nfs4.1/fs.py:1203-1224 | the first of four uninitialised blocks is committed |
| `LayoutCommit.LayoutFSObj.CommitLayout` | pynfs/nfs4.1/fs.py:1167-1231 | the checks, the updates in turn up to the first error, and the new size |
| `LayoutCommit.LayoutFSObj.ApplyOne` | pynfs/nfs4.1/fs.py:1204-1224 | one update replaces the slice of the list in place or is refused |
| `LayoutCommit.LayoutFSObj.FindExtent` | pynfs/nfs4.1/fs.py:1207-1210 | the loop over the reversed list |
| `VolumeDump.DumpListsTheGraph` | pynfs/nfs4.1/block.py:87-97 | `_dump` lists exactly the volumes reachable from the root, each once, each after its parts, the root last |
| `VolumeDump.IndicesPointBackwards` | pynfs/nfs4.1/block.py:70-85 | every part of a listed volume has a smaller index |
| `VolumeDump.ComputeRemoveDups` | pynfs/nfs4.1/block.py:285-292 | the loop keeps first occurrences in order |
| `VolumeDump.ComputeDump` | pynfs/nfs4.1/block.py:87-97 | the loop over the parts |
| `RWLock.RunKeepsInv` | pynfs/nfs4.1/locking.py:90-162 | in every interleaving the counters count who wants and has the lock, and whoever sleeps has a reason to |
| `RWLock.WriterExcludesAll` | pynfs/nfs4.1/locking.py:146-156 | while a thread has the write lock no other has any lock |
| `RWLock.ReleasePicksTheHeldKind` | pynfs/nfs4.1/locking.py:109-115 | `release` always picks the kind the caller holds |
| `RWLock.NoLostWakeup` | pynfs/nfs4.1/locking.py:129-162 | if nobody holds the lock and a thread waits for it, some thread can run and get it: every waiting writer if there is one, else every waiting reader |
| `RWLock.StepKeepsCounts` | pynfs/nfs4.1/locking.py:129-162 | every step, upgrade and downgrade included, keeps the counters |
| `RWLock.StepKeepsExcluding` | pynfs/nfs4.1/locking.py:129-162 | every step keeps exclusion and the reasons for waiting |
| `RWLock.WhereItLeaves` | pynfs/nfs4.1/locking.py:97-162 | a thread that asks for the read lock, also by downgrading, has it unless another has or wants the write lock; one that asks for the write lock, also by upgrading, has it unless another holds the lock; otherwise it waits for just that; one that releases is idle |
| `RWLock.OthersStay` | pynfs/nfs4.1/locking.py:129-162 | no event moves another thread; the last reader's release, a writer's release and a downgrade wake the waiting ones and no other event does |
| `RWLock.RWLockState.StartRead` | pynfs/nfs4.1/locking.py:129-134 | a reader is counted and takes the lock or waits |
| `RWLock.RWLockState.ContinueRead` | pynfs/nfs4.1/locking.py:131-134 | one test of the loop of a waiting reader |
| `RWLock.RWLockState.ContinueWrite` | pynfs/nfs4.1/locking.py:152-156 | the tests of the two loops of a waiting writer |
| `RWLock.RWLockState.ReleaseWrite` | pynfs/nfs4.1/locking.py:158-162 | the counter falls and the inner lock is free |
| `RWLock.RWLockState.StartWrite` | pynfs/nfs4.1/locking.py:146-156 | a writer is counted and takes the lock or waits in one of two loops |
| `RWLock.RWLockState.ReleaseRead` | pynfs/nfs4.1/locking.py:136-144 | the counters fall; the last reader notifies |
| `RWLock.RWLockState.Release` | pynfs/nfs4.1/locking.py:109-115 | the reader count decides what is released |
| `RWLock.RWLockState.Upgrade` | pynfs/nfs4.1/locking.py:117-121 | the read lock is given up without notifying and the write lock asked for |
| `RWLock.RWLockState.Downgrade` | pynfs/nfs4.1/locking.py:123-127 | the write lock is given up and a read lock asked for |
| `RecordMarking.RoundTrip` | pynfs/nfs3/nfs3server.py:1072-1097 | the reader delivers exactly the records the writer was given, in order, however the stream was split |
| `RecordMarking.EveryRecordArrives` | pynfs/nfs3/nfs3server.py:1072-1097 | every record is delivered once and in order, one of four bytes as the command they spell most significant byte first and any other as a call, and nothing else is delivered, however the stream was split |
| `RecordMarking.FragmentOnTheWire` | pynfs/nfs3/nfs3server.py:945-948 | the top bit of the first byte says whether the fragment is the last, the other 31 bits of the first four bytes how long it is, and the chunk follows |
| `RecordMarking.CommandExample` | pynfs/nfs3/nfs3server.py:1090-1091 | the bytes 0 0 0 1 are command 1 |
| `RecordMarking.SplitDoesNotMatter` | pynfs/nfs3/nfs3server.py:1072-1083 | for any bytes at all, how they are split over reads makes no difference |
| `RecordMarking.PartOfTheStream` | pynfs/nfs3/nfs3server.py:1072-1097 | before the whole stream has come, the first of the records have been delivered |
| `RecordMarking.EncodingInjective` | pynfs/nfs3/nfs3server.py:934-947 | no two lists of records have the same stream, even with different fragment sizes |
| `SharedConnection.BothArriveExactlyIf` | pynfs/nfs3/nfs3server.py:934-952 | a record sent without the lock after k fragments of another leaves both intact exactly if k is none or all of them, or it is what was left of the other |
| `SharedConnection.MiddleIsSwallowed` | pynfs/nfs3/nfs3server.py:934-952 | otherwise the reader gets it as the end of the first part, and the rest as a record |
| `SharedConnection.SwallowedExample` | pynfs/nfs3/nfs3server.py:934-952 | an example of three different bytes |
| `SharedConnection.CutArrivesExactlyIf` | pynfs/nfs3/nfs3server.py:929-952 | two records of one fragment, one of them cut by a partial send, arrive exactly if the other commutes with what was sent of it before or after |
| `SharedConnection.CutExample` | pynfs/nfs3/nfs3server.py:929-952 | an example in which they do not |
| `SharedConnection.ShortestStream` | pynfs/nfs3/nfs3server.py:1072-1097 | the writer's one fragment for each record is the only stream of so few bytes that delivers the records |
| `RecordMarking.UnpackPack` | pynfs/nfs3/nfs3server.py:947-947 | the four-byte mark is read back as written |
| `RecordMarking.WriterThread.EventWrite` | pynfs/nfs3/nfs3server.py:923-957 | every record is written as its fragments through any partial sends, the buffers end empty and the lock is given back |
| `RecordMarking.WriterThread.NextBuffer` | pynfs/nfs3/nfs3server.py:934-947 | the next fragment and what remains make up the stream |
| `RecordMarking.ReaderState.TakeOne` | pynfs/nfs3/nfs3server.py:1080-1095 | the fragment at the front is taken; it ends no record and nothing is delivered, or it does and the record is delivered as a call or, of four bytes, as a command |
| `RecordMarking.ReaderState.EventRead` | pynfs/nfs3/nfs3server.py:1066-1097 | the loop takes every complete fragment and delivers every complete record |
| `DirList.ReturnedExactlyOnce` | pynfs/nfs3/fs.py:830-842 | an entry that is there throughout an enumeration by pages is returned exactly once |
| `DirList.NoCookieTwice` | pynfs/nfs3/fs.py:830-842 | no cookie is returned twice, whatever is entered and removed meanwhile |
| `DirList.CookieStaysValid` | pynfs/nfs3/fs.py:832-833 | the cookie a client goes on with is never refused |
| `DirList.ReadsExactlyAbove` | pynfs/nfs3/fs.py:830-842 | in every reachable state names are unique and the end of the list from the first higher cookie on is exactly the entries above the cookie |
| `DirList.PageGives` | pynfs/nfs3/fs.py:830-842 | a page has the entries above the client's cookie in order, as many as there is room for; the client goes on after the last and is finished exactly if that was the last of the list |
| `DirList.RemovedIsNotReturned` | pynfs/nfs3/fs.py:816-842 | over runs: a name removed before a page and not entered again is not in the page |
| `DirList.EnteredIsThere` | pynfs/nfs3/fs.py:803-814 | over runs: what is entered is there, last, with a cookie no entry had before |
| `DirList.ReturnedWasThere` | pynfs/nfs3/fs.py:830-842 | what is returned was in the directory during the enumeration |
| `DirList.HasUpToCookie` | pynfs/nfs3/fs.py:830-842 | of the entries that stay the client has exactly those up to its cookie |
| `DirList.RunKeepsInv` | pynfs/nfs3/fs.py:780-842 | names stay unique and cookies ascending over every run |
| `DirList.DirectoryList.Set` | pynfs/nfs3/fs.py:803-810 | the last entry has exactly the name, the handle and the next cookie; all other names keep their entries in order, although the list is cut while it is walked |
| `DirList.DirectoryList.NextCookie` | pynfs/nfs3/fs.py:812-814 | cookies are counted up |
| `DirList.DirectoryList.Keys` | pynfs/nfs3/fs.py:850-851 | the names in order, no two the same |
| `DirList.DirectoryList.Delete` | pynfs/nfs3/fs.py:816-822 | exactly the entry of the name goes, order and last cookie stay; false exactly if there is none |
| `DirList.DirectoryList.Find` | pynfs/nfs3/fs.py:796-828 | the one entry of the name, or none |
| `DirList.DirectoryList.ReadDir` | pynfs/nfs3/fs.py:830-842 | exactly the entries above the cookie, or an error for a cookie never given out |
| `SequenceIds.TakenForNewExactlyIf` | pynfs/nfs4.1/nfs4server.py:468-490 | a request is taken for new, or for a retry, exactly if it is a number of full wraps back from that |
| `SequenceIds.VerdictInTime` | pynfs/nfs4.1/nfs4server.py:468-490 | within the bound on delay the next position is new, the last a retry, any other out of order |
| `ReplyCache.RetrySaysTheSameExactlyIf` | pynfs/nfs4.1/nfs4commoncode.py:98-119 | a retry gets the results of the first reply exactly if caching was asked for or there is no more to say; else the first result and NFS4ERR_RETRY_UNCACHED_REP for the second operation |
| `ReplyCache.BothWellFormed` | pynfs/nfs4.1/nfs4commoncode.py:98-119 | sent and kept reply begin with the same result, fail at most at the end and say so in their status |
| `ReplyCache.OnlyTheLastFails` | pynfs/nfs4.1/nfs4server.py:817-848 | a compound has all its results exactly if none fails, else it ends with the first failure |
| `ReplyCache.CompoundArgResults.Append` | pynfs/nfs4.1/nfs4commoncode.py:76-83 | results, status and length are accumulated in step |
| `ReplyCache.PairedResults.Append` | pynfs/nfs4.1/nfs4commoncode.py:98-119 | the reply gets the result, the cache what is to be kept of it |
| `ReplyCache.PairedResults.RunCompound` | pynfs/nfs4.1/nfs4server.py:802-854 | the loop leaves the reply as sent and the cache as kept |
| `Slots.ExactlyOnce` | pynfs/nfs4.1/nfs4server.py:866-914 | if the client gives no call up, every reply whose SEQUENCE went well is of its call's only run: the first reply, or what was kept of it |
| `Slots.AtMostOnce` | pynfs/nfs4.1/nfs4server.py:468-490 | no call is let through twice, however often its request arrives |
| `Slots.SequenceIdsClose` | pynfs/nfs4.1/nfs4client.py:439-448 | the sequence ids of the two ends differ by at most one modulo 2^32 |
| `Slots.ReplyByFlag` | pynfs/nfs4.1/nfs4commoncode.py:98-119 | over runs without giving up: a reply whose SEQUENCE went well has all results of the run or, if the caller did not ask for caching and there is more than one, the result of SEQUENCE and NFS4ERR_RETRY_UNCACHED_REP |
| `Slots.CallMakes` | pynfs/nfs4.1/nfs4client.py:439-448 | a call is for the position after the last one completed and carries the caller's flag and tag |
| `Slots.ArrivalDoes` | pynfs/nfs4.1/nfs4server.py:468-490 | a request in time: the next position is let through with a new cache, the last one waits for its reply, an earlier one is out of order |
| `Slots.FinishDoes` | pynfs/nfs4.1/nfs4server.py:708-723 | the reply goes out with the result of SEQUENCE and the others up to the first failure, and its cache becomes valid |
| `Slots.RetryDoes` | pynfs/nfs4.1/nfs4server.py:724-728 | a waiting retry is answered with what its cache holds |
| `Slots.TakeDoes` | pynfs/nfs4.1/nfs4server.py:498-501 | a reply whose SEQUENCE went well completes the call; any other leaves the sequence id and frees the slot |
| `Slots.OutstandingIsServed` | pynfs/nfs4.1/nfs4server.py:468-490 | the outstanding request is new or a retry and is never told it is out of order |
| `Slots.AfterGivingUp` | pynfs/nfs4.1/nfs4server.py:498-501 | after a call was given up the next one is made for the same position; it is let through and gets its own reply exactly if when its request first arrives the two sequence ids are still equal |
| `Slots.FirstArrivalDecides` | pynfs/nfs4.1/nfs4server.py:468-490 | the first arrival of any request decides: it is let through, then or ever, exactly if the ids are equal at the position |
| `Slots.OwnReplyExactlyIf` | pynfs/nfs4.1/nfs4server.py:866-914 | in any run such a reply is of the call that was let through at the position |
| `Slots.SecondCallNeverRuns` | pynfs/nfs4.1/nfs4server.py:498-501 | a call made at a position where a given-up one was let through never runs |
| `Slots.FalseRetry` | pynfs/nfs4.1/nfs4server.py:498-501 | a run in which the client can take the kept reply of one call for that of the next |
| `Slots.RunKeepsInv` | pynfs/nfs4.1/nfs4server.py:716-728 | the invariant of client, server, caches, waiting retries and messages holds in every run |
| `Slots.Slot.Check` | pynfs/nfs4.1/nfs4server.py:468-490 | a new request gets a fresh cache and moves the slot on; a retry gets the cache there is; nothing else changes anything |
| `Slots.Slot.NextSeqid` | pynfs/nfs4.1/nfs4server.py:492-496 | the id the client uses next is the one the server expects next |
| `Slots.Slot.FinishCall` | pynfs/nfs4.1/nfs4server.py:498-501 | the sequence id moves on only if SEQUENCE went well; the slot is free either way |
| `Slots.Channel.ChooseSlot` | pynfs/nfs4.1/nfs4client.py:417-426 | a slot nobody was using, and no other is touched; none only if all are in use |
| `SessionIds.SessionIdsDiffer` | pynfs/nfs4.1/nfs4server.py:368-369 | different clients or sequence ids give different session ids |
| `SessionRuns.RunKeepsInv` | pynfs/nfs4.1/nfs4server.py:204-258 | the tables are consistent and no operation meets an unexpected exception while no client has had 2^32 CREATE_SESSIONs |
| `SessionTables.StepKeepsInv` | pynfs/nfs4.1/nfs4server.py:917-1112 | every operation keeps the tables consistent, unless a new session would get the id of a live one |
| `SessionRuns.RunIsWellTyped` | pynfs/nfs4.1/nfs4server.py:204-258 | references between clients and sessions stay in range in every run |
| `SessionRuns.TablesAgree` | pynfs/nfs4.1/nfs4server.py:217-254 | owner id and client id reach the same record, unconfirmed clients have no session, and a client lists exactly its sessions in the table |
| `SessionRuns.SessionsHaveClients` | pynfs/nfs4.1/nfs4server.py:970-971 | every session in the table belongs to a live client that lists it |
| `SessionRuns.ClientIdsNeverReused` | pynfs/nfs4.1/nfs4server.py:236-258 | in every run a client id means the same client for ever, across reboots of client and server |
| `SessionRuns.CreateIsSoundExactlyIf` | pynfs/nfs4.1/nfs4server.py:968-971 | making a session keeps the tables consistent exactly if no live session of the client is a number of full wraps old |
| `SessionTables.TakenExactlyIf` | pynfs/nfs4.1/nfs4server.py:366-369 | the next session id is taken exactly if there is such a session |
| `SessionTables.FreshBelowWrap` | pynfs/nfs4.1/nfs4server.py:366-369 | below 2^32 sessions of a client it is not |
| `SessionRuns.ExchangeFindsClient` | pynfs/nfs4.1/nfs4server.py:1032-1104 | a successful EXCHANGE_ID leaves a client of that owner, verifier and principal under both keys, and tells its id |
| `SessionRuns.ExchangeThenCreate` | pynfs/nfs4.1/nfs4server.py:917-975 | the sequence id EXCHANGE_ID tells lets the CREATE_SESSION through that confirms the client |
| `SessionRuns.ToldIdIsGoodExactlyIf` | pynfs/nfs4.1/nfs4server.py:1098-1104 | at any later moment that sequence id is good for its owner's CREATE_SESSION exactly as long as the client is there and no CREATE_SESSION of it was let through |
| `SessionRuns.CreateOnlyOnce` | pynfs/nfs4.1/nfs4server.py:936-946 | a CREATE_SESSION that was let through, even to be refused, does nothing when repeated |
| `SessionRuns.RebootedClientStartsAnew` | pynfs/nfs4.1/nfs4server.py:1067-1081 | a new verifier removes exactly the sessions of the client and starts it anew, unconfirmed |
| `SessionTables.ClientRebootTakesItsOwn` | pynfs/nfs4.1/nfs4server.py:1108-1112 | the loop over its sessions meets no missing key and takes out exactly those |
| `SessionRuns.DestroysExactlyOne` | pynfs/nfs4.1/nfs4server.py:1611-1623 | DESTROY_SESSION takes exactly the session it names, or nothing |
| `SessionAnswers.ExchangeAnswers` | pynfs/nfs4.1/nfs4server.py:1030-1106 | ExchangeOk exactly if the owner is new or unconfirmed and no update is asked for, or its client is confirmed, not denied, of the same principal, and for an update of the same verifier; each other answer exactly in its case, and then nothing changes |
| `SessionAnswers.ExchangeKeepsClient` | pynfs/nfs4.1/nfs4server.py:1066-1086 | a confirmed client that has not rebooted stays as it is, and its id is told |
| `SessionAnswers.ExchangeMakesClient` | pynfs/nfs4.1/nfs4server.py:1038-1081 | in any other case the next id goes to a new unconfirmed client of what the request says in the owner's place, and only the sessions of the owner's old client go |
| `SessionAnswers.CreateAnswers` | pynfs/nfs4.1/nfs4server.py:923-946 | each answer exactly in its case: unknown client, denied, repeated or misordered sequence id, unconfirmed client of another principal; else a session is made |
| `SessionAnswers.CreateMakesSession` | pynfs/nfs4.1/nfs4server.py:968-975 | the new session is in the table under the id of its client and sequence id, listed last by its client, which is then confirmed; nothing else changes |
| `SessionAnswers.DestroyAnswers` | pynfs/nfs4.1/nfs4server.py:1611-1623 | each answer exactly in its case, and what goes |
| `SessionAnswers.RebootForgets` | pynfs/nfs4.1/nfs4server.py:603-609 | no client and no session is known, and no id is given out again |
| `SessionAnswers.SessionExample` | pynfs/nfs4.1/nfs4server.py:917-1106 | from empty tables EXCHANGE_ID and CREATE_SESSION make a session that is there |
| `SessionTables.Server.AddClient` | pynfs/nfs4.1/nfs4server.py:236-254 | a new record under both keys with the next id, unless the owner is there |
| `SessionTables.Server.RemoveClient` | pynfs/nfs4.1/nfs4server.py:224-234 | both keys go and the record is frozen |
| `SessionTables.Server.RebootClient` | pynfs/nfs4.1/nfs4server.py:1108-1112 | the sessions leave the table one by one and the record starts over |
| `SessionTables.Server.Exchange` | pynfs/nfs4.1/nfs4server.py:1030-1104 | the nine cases of EXCHANGE_ID |
| `SessionTables.Server.Create` | pynfs/nfs4.1/nfs4server.py:923-975 | lookup, sequence id, confirmation and the new session |
| `SessionTables.Server.Destroy` | pynfs/nfs4.1/nfs4server.py:1611-1623 | lookup, the check of the place in the compound and the removal from both lists |
| `SessionTables.Server.Reboot` | pynfs/nfs4.1/nfs4server.py:603-609 | both tables are emptied, the id counter goes on |

## Left out

- Raft membership change as a running protocol: raft/raftconsensus.py:472-477 appends the next configuration without
  the guard of line 467, and raft/configuration.py:183-189 edits a dictionary while it walks it. Only the quorum
  facts of TRANSITIONAL configurations are proved.
- Raft snapshots and prefix truncation, catch-up, heartbeats and timers; applying entries, which
  raft/raftconsensus.py:501-502 does on append.
- Crashes in the log properties: entries are kept in memory only, so a server that restarts has lost them.
- ZeroMQ, threads as operating-system objects, protobuf and XDR encoding, the shelve file behind the metadata.
- How the leader's disk thread and `stepDown` wait for each other; a pending sync may end at any later time.
- NFSv4.1 file state, delegations and byte-range locks; SSV, GSS and state protection beyond a yes or no; binding
  of connections and the checks of request sizes, which are refusals here.
- A CREATE_SESSION after a SEQUENCE in one compound: pynfs/nfs4.1/nfs4server.py:936 puts the reply into the client's
  cache instead of the slot's, so a retry of that compound would wait for ever.
- A slot used by several threads of the client: pynfs/nfs4.1/nfs4client.py:491-509 repeats a request after
  NFS4ERR_DELAY although the slot was freed in between.
- SessionTables.Server: client and session records are kept as values in sequences, referred to by place, not as
  separate objects; aliasing beyond the two tables is not captured.
- Slots: client, server and network are one value; the in-place classes `Slot`, `Cache` and `Channel` are proved
  beside it.
- RaftConsensus.RaftConsensus.StepDown: does not model the timers and the wait for the disk thread.
- RaftConsensus.RaftConsensus.Append: does not model the callback on data and the configuration manager; the
  configuration in force is read off the log as the last one there, where raft/configuration.py:179-181 leaves the one
  its dictionary happens to yield last.
- RaftConsensus.RaftConsensus.BeginLeadership: does not model `nextIndex`, which is left open, and snapshot fields.
- RaftConsensus.RaftConsensus.QuorumHasVoted: asks a STABLE configuration, as membership never changes.
- RaftConsensus.RaftConsensus.Replicate: does not model the wait for the commit.
- RaftConsensus.RaftConsensus.HandleAppendReply: does not model `nextIndex` and the catch-up bookkeeping.
- LayoutCommit.LayoutFSObj.CommitLayout: does not model the decoding of the body and the error for a file without
  a layout.
- RecordMarking.WriterThread.EventWrite: runs one thread; what two threads do to each other is in SharedConnection,
  where sends of a record of several fragments are taken as whole.
- RecordMarking.ReaderState.EventRead: does not model what the server makes of a record, nor the asynchronous reads
  and writes it may start in between.
- ReplyCache.PairedResults.RunCompound: does not model a bad minor version or tag, nor a replay inside a compound.
- SessionTables.Server.RebootClient: does not model the client's open and lock state.
- SessionTables.Server.Exchange: does not model the checks of arguments and flags; state protection is a yes or no.
- SessionTables.Server.Create: does not model channels, connections and the back channel.
- Resizable files, holes and end-of-file extents of pynfs/nfs4.1/fs_base.py, whose helpers are not defined there;
  striped file layouts (pynfs/nfs4.1/fs.py:1514-1521 never advances); block allocation in `_get_layout`.
- Gaps (`None`) in a layout's extent list.
- A thread that holds a read lock and asks for another one, which pynfs/nfs4.1/locking.py:97-99 allows and which
  blocks for ever once a writer waits; or for the write lock, which the source says deadlocks; threads that release
  what they do not hold.
- The cookie a directory reply takes from the file handle (pynfs/nfs3/fs.py:791), which is the entry's as long as a
  handle is listed once; XDR sizes, so any number of entries may fit a page.
- Errors and end of the connection in the NFSv3 server.
- `hdfs/`, `spmc/`, `rws/`, `server/`, `cluster/` and generated code; bitmap and list conversions, which would only
  add easy members.
