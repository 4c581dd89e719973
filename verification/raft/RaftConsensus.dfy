/** The handlers of raft/raftconsensus.py as they run: on fields updated in place, with the source's
    loops. Each is proved to compute the function of RaftServer.dfy that the safety argument is about. */
module RaftConsensus {
  import opened Optional
  import opened RaftTypes
  import opened RaftLog
  import opened Quorum
  import Spec = RaftServer

  class RaftConsensus {
    const serverId: ServerId
    const log: MemoryLog
    var currentTerm: nat
    var votedFor: ServerId
    var role: Role
    var leaderId: ServerId
    var commitIndex: nat
    var lastSyncedIndex: nat
    var logSyncQueued: bool
    var pendingSync: Option<Spec.PendingSync>
    var peers: map<ServerId, Spec.Peer>
    var metadata: Spec.Metadata

    function State(): Spec.Server
      reads this, log
    {
      Spec.Server(serverId, currentTerm, votedFor, role, leaderId, commitIndex, log.entries, lastSyncedIndex,
                  logSyncQueued, pendingSync, peers, metadata)
    }

    ghost predicate Valid()
      reads this
    {
      role != Follower ==> currentTerm != 0
    }

    constructor (serverId: ServerId)
      ensures Valid() && fresh(log) && this.serverId == serverId
      ensures State() == Spec.Server(serverId, 0, 0, Follower, 0, 0, [], 0, false, None, map[], Spec.Metadata(0, 0))
    {
      this.serverId := serverId;
      log := new MemoryLog();
      currentTerm, votedFor, role, leaderId, commitIndex := 0, 0, Follower, 0, 0;
      lastSyncedIndex, logSyncQueued, pendingSync := 0, false, None;
      peers, metadata := map[], Spec.Metadata(0, 0);
    }

    method UpdateLogMetadata()
      modifies this`metadata
      ensures metadata == Spec.Metadata(currentTerm, votedFor)
    {
      metadata := Spec.Metadata(currentTerm, votedFor);
    }

    method StepDown(newTerm: nat)
      requires currentTerm <= newTerm
      modifies this, log`currentSync
      ensures Valid() && State() == Spec.StepDown(old(State()), newTerm)
    {
      if currentTerm < newTerm {
        currentTerm := newTerm;
        leaderId := 0;
        votedFor := 0;
        UpdateLogMetadata();
      }
      role := Follower;
      if logSyncQueued {
        var sync := log.TakeSync();
        logSyncQueued := false;
      }
    }

    method Append(newEntries: seq<Entry>)
      requires Valid() && forall e | e in newEntries :: e.term != 0
      modifies this, log
      ensures Valid() && State() == Spec.Append(old(State()), newEntries)
    {
      var first, last := log.Append(newEntries);
      if role == Leader {
        logSyncQueued := true;
      } else {
        var sync := log.TakeSync();
      }
    }

    method LastLogTerm() returns (term: nat)
      ensures term == LastTerm(log.entries)
    {
      var lastLogIndex := log.GetLastLogIndex();
      if lastLogIndex >= log.startIndex {
        term := log.GetEntry(lastLogIndex).term;
      } else {
        term := 0;
      }
    }

    // ----- elections -----

    method BeginRequestVote()
      modifies this`peers
      ensures peers == Spec.BeginRequestVote(old(peers))
    {
      var todo := peers.Keys;
      while todo != {}
        invariant todo <= peers.Keys == old(peers).Keys
        invariant forall p | p in todo :: peers[p] == old(peers)[p]
        invariant forall p | p in peers && p !in todo :: peers[p] == old(peers)[p].(requestVoteDone := false, haveVote := false)
      {
        var p :| p in todo;
        peers := peers[p := peers[p].(requestVoteDone := false, haveVote := false)];
        todo := todo - {p};
      }
    }

    method BeginLeadership()
      modifies this`peers, this`lastSyncedIndex
      ensures peers == Spec.BeginLeadership(old(peers)) && lastSyncedIndex == |log.entries|
    {
      lastSyncedIndex := log.GetLastLogIndex();
      var todo := peers.Keys;
      while todo != {}
        invariant todo <= peers.Keys == old(peers).Keys && lastSyncedIndex == |log.entries|
        invariant forall p | p in todo :: peers[p] == old(peers)[p]
        invariant forall p | p in peers && p !in todo :: peers[p] == old(peers)[p].(forceHeartbeat := true, lastAgreeIndex := 0)
      {
        var p :| p in todo;
        peers := peers[p := peers[p].(forceHeartbeat := true, lastAgreeIndex := 0)];
        todo := todo - {p};
      }
    }

    method BecomeLeader()
      requires Valid() && role == Candidate
      modifies this, log
      ensures Valid() && State() == Spec.BecomeLeader(old(State()))
    {
      role := Leader;
      leaderId := serverId;
      BeginLeadership();
      Append([Entry(currentTerm, Noop)]);
    }

    method QuorumHasVoted() returns (agreed: bool)
      ensures agreed == Spec.HasQuorum(State())
    {
      var members := Spec.CurrentMembers(State());
      var answers := [];
      for i := 0 to |members|
        invariant answers == Answers(members, Spec.VotersAmong(State(), members))[..i]
      {
        answers := answers + [Spec.HasVoteOf(State(), members[i])];
      }
      assert answers == Answers(members, Spec.VotersAmong(State(), members));
      agreed := QuorumAll(answers);
    }

    method StartNewElection()
      requires Valid() && role != Leader
      modifies this, log
      ensures Valid() && State() == Spec.StartNewElection(old(State()))
    {
      if LatestConfiguration(log.entries).None? {
        return;
      }
      currentTerm := currentTerm + 1;
      role := Candidate;
      leaderId := 0;
      votedFor := serverId;
      BeginRequestVote();
      UpdateLogMetadata();
      var agreed := QuorumHasVoted();
      if agreed {
        BecomeLeader();
      }
    }

    method HandleRequestVote(request: VoteRequest, withhold: bool) returns (response: VoteResponse)
      requires Valid()
      modifies this, log`currentSync
      ensures Valid() && (State(), response) == Spec.HandleRequestVote(old(State()), request, withhold)
    {
      if withhold {
        return VoteResponse(currentTerm, false);
      }
      if request.term > currentTerm {
        StepDown(request.term);
      }
      var lastLogIndex := log.GetLastLogIndex();
      var lastLogTerm := LastLogTerm();
      var logIsOk := request.lastLogTerm > lastLogTerm
                     || (request.lastLogTerm == lastLogTerm && request.lastLogIndex >= lastLogIndex);
      if request.term == currentTerm && logIsOk && votedFor == 0 {
        StepDown(currentTerm);
        votedFor := request.candidate;
        UpdateLogMetadata();
      }
      response := VoteResponse(currentTerm, request.term == currentTerm && votedFor == request.candidate);
    }

    method HandleVoteReply(peer: ServerId, request: VoteRequest, response: VoteResponse)
      requires Valid()
      modifies this, log
      ensures Valid() && State() == Spec.HandleVoteReply(old(State()), peer, request, response)
    {
      if currentTerm != request.term || role != Candidate || peer !in peers {
        return;
      }
      if response.term > currentTerm {
        StepDown(response.term);
      } else {
        peers := peers[peer := peers[peer].(requestVoteDone := true)];
        if response.granted {
          peers := peers[peer := peers[peer].(haveVote := true)];
          assert peers == old(peers)[peer := old(peers)[peer].(requestVoteDone := true, haveVote := true)];
          var agreed := QuorumHasVoted();
          if agreed {
            BecomeLeader();
          }
        }
      }
    }

    // ----- replication -----

    method Replicate(blob: string)
      requires Valid() && role == Leader
      modifies this, log
      ensures Valid() && State() == Spec.Replicate(old(State()), blob)
    {
      Append([Entry(currentTerm, Data(blob))]);
    }

    method MakeAppendRequest(peer: ServerId, nextIndex: nat) returns (request: AppendRequest)
      requires peer in peers && 1 <= nextIndex <= |log.entries| + 1
      ensures request == Spec.MakeAppendRequest(State(), peer, nextIndex)
    {
      var lastLogIndex := log.GetLastLogIndex();
      var prevLogIndex := nextIndex - 1;
      var prevLogTerm := 0;
      if prevLogIndex >= log.startIndex {
        prevLogTerm := log.GetEntry(prevLogIndex).term;
      }
      var entries := [];
      var numEntries := 0;
      if !peers[peer].forceHeartbeat {
        var entryId := nextIndex;
        while entryId <= lastLogIndex && numEntries < MAX_ENTRIES
          invariant numEntries == entryId - nextIndex && nextIndex <= entryId <= lastLogIndex + 1
          invariant numEntries <= MAX_ENTRIES
          invariant entries == log.entries[prevLogIndex..prevLogIndex + numEntries]
        {
          entries := entries + [log.GetEntry(entryId)];
          entryId := entryId + 1;
          numEntries := numEntries + 1;
        }
      }
      request := AppendRequest(serverId, currentTerm, prevLogTerm, prevLogIndex, entries,
                               Min(commitIndex, prevLogIndex + numEntries));
    }

    /** The source's assertions are the precondition; RaftSafety.AppendAssertionsHold proves it of every
        request that can arrive in a run without crashes. */
    method HandleAppendEntries(request: AppendRequest) returns (response: AppendResponse)
      requires Valid() && Spec.AppendAssertions(State(), request)
      modifies this, log
      ensures Valid() && (State(), response) == Spec.HandleAppendEntries(old(State()), request)
    {
      var lastLogIndex := log.GetLastLogIndex();
      if request.term < currentTerm {
        return AppendResponse(currentTerm, false, lastLogIndex);
      }
      StepDown(request.term);
      if leaderId == 0 {
        leaderId := request.leader;
      }
      response := AppendResponse(request.term, false, lastLogIndex);
      if request.prevLogIndex > log.GetLastLogIndex() {
        return;
      }
      if request.prevLogIndex >= log.startIndex && log.GetEntry(request.prevLogIndex).term != request.prevLogTerm {
        return;
      }
      response := AppendResponse(request.term, true, lastLogIndex);
      CollectEntries(request.prevLogIndex, request.entries);
      if commitIndex < request.commitIndex {
        commitIndex := request.commitIndex;
      }
    }

    /** The loop that skips entries the log has, cuts it at the first conflict and collects the rest. */
    method CollectEntries(prev: nat, offered: seq<Entry>)
      requires Valid() && role == Follower && prev <= |log.entries| && forall e | e in offered :: e.term != 0
      modifies this, log
      ensures Valid() && State() == old(State()).(log := Merge(old(log.entries), prev, offered))
    {
      ghost var was := log.entries;
      var entries := [];
      var entryId := prev;
      for i := 0 to |offered|
        invariant entryId == prev + i && State() == old(State()).(log := log.entries)
        invariant entries == [] ==> log.entries == was && entryId <= |was|
                                    && Merge(was, prev, offered) == Merge(was, entryId, offered[i..])
        invariant entries != [] ==> |log.entries| + |entries| == entryId
                                    && Merge(was, prev, offered) == log.entries + entries + offered[i..]
        invariant forall e | e in entries :: e in offered
      {
        var entry := offered[i];
        assert offered[i..] == [entry] + offered[i + 1..];
        entryId := entryId + 1;
        if log.GetLastLogIndex() >= entryId {
          if log.GetEntry(entryId).term == entry.term {
            continue;
          }
          log.DropSuffix(entryId - 1);
        }
        entries := entries + [entry];
      }
      if |entries| > 0 {
        Append(entries);
      }
    }

    // ----- commit -----

    method AdvanceCommittedId()
      requires Valid()
      modifies this, log`currentSync
      ensures Valid() && State() == Spec.AdvanceCommit(old(State()))
    {
      if role != Leader {
        return;
      }
      var members := Spec.CurrentMembers(State());
      var agreeIndexes := [];
      for i := 0 to |members|
        invariant agreeIndexes == Spec.AgreeIndexes(State(), members)[..i]
      {
        agreeIndexes := agreeIndexes + [Spec.AgreeIndex(State(), members[i])];
      }
      assert agreeIndexes == Spec.AgreeIndexes(State(), members);
      var newCommittedId := ComputeQuorumMin(agreeIndexes);
      if commitIndex >= newCommittedId || !Spec.EntryIsCurrent(State(), newCommittedId) {
        return;
      }
      commitIndex := newCommittedId;
      if commitIndex >= Spec.ConfigurationId(log.entries) && serverId !in members {
        StepDown(currentTerm + 1);
      }
    }

    method HandleAppendReply(peer: ServerId, request: AppendRequest, response: AppendResponse)
      requires Valid()
      modifies this, log`currentSync
      ensures Valid() && State() == Spec.HandleAppendReply(old(State()), peer, request, response)
    {
      if peer !in peers || response.term < currentTerm {
        return;
      }
      if response.term > currentTerm {
        StepDown(response.term);
      } else if response.success {
        var agreed := request.prevLogIndex + |request.entries|;
        peers := peers[peer := peers[peer].(forceHeartbeat := false)];
        if peers[peer].lastAgreeIndex <= agreed {
          peers := peers[peer := peers[peer].(lastAgreeIndex := agreed)];
          assert peers == old(peers)[peer := old(peers)[peer].(lastAgreeIndex := agreed, forceHeartbeat := false)];
          AdvanceCommittedId();
        }
      }
    }

    // ----- the leader's disk thread -----

    method TakeLeaderSync()
      requires Valid() && role == Leader && logSyncQueued
      modifies this, log`currentSync
      ensures Valid() && State() == Spec.BeginSync(old(State()))
    {
      var sync := log.TakeSync();
      logSyncQueued := false;
      pendingSync := Some(Spec.PendingSync(currentTerm, sync.lastIndex));
    }

    method FinishLeaderSync()
      requires Valid() && pendingSync.Some?
      modifies this, log`currentSync
      ensures Valid() && State() == Spec.EndSync(old(State()))
    {
      var sync := pendingSync.value;
      pendingSync := None;
      if role == Leader && currentTerm == sync.term {
        lastSyncedIndex := sync.lastIndex;
        AdvanceCommittedId();
      }
    }

    /** What `init` restores after a restart: the durable term and vote, and an empty log. */
    method Init()
      modifies this, log
      ensures Valid() && State() == Spec.Restart(old(State()))
    {
      log.DropSuffix(0);
      currentTerm, votedFor := metadata.currentTerm, metadata.votedFor;
      UpdateLogMetadata();
      role, leaderId, commitIndex := Follower, 0, 0;
      lastSyncedIndex, logSyncQueued, pendingSync := 0, false, None;
    }
  }
}
