/** What single steps of a Raft server decide, in terms of the state before. */
module RaftSteps {
  import opened Optional
  import opened RaftTypes
  import opened RaftLog
  import opened RaftServer
  import opened Quorum
  import opened RaftHistory
  import opened RaftSystem

  /** In the term of the request the vote has gone to this candidate, or is free and its log up to date. */
  predicate MayHaveVote(s: Server, req: VoteRequest) {
    if req.term == s.currentTerm && s.votedFor != 0 then s.votedFor == req.candidate
    else if s.log == [] then true
    else
      var last := s.log[|s.log| - 1].term;
      req.lastLogTerm > last || (req.lastLogTerm == last && req.lastLogIndex >= |s.log|)
  }

  /** A vote is granted exactly if none was withheld, the request is not from an older term, and in its term the
      vote has gone to this candidate before or is still free and the candidate's log up to date. */
  lemma GrantsExactlyIf(s: Server, req: VoteRequest, withhold: bool)
    requires req.candidate != 0
    ensures var (s', resp) := HandleRequestVote(s, req, withhold);
            && resp.granted == (!withhold && req.term >= s.currentTerm && MayHaveVote(s, req))
            && (resp.granted ==> s'.votedFor == req.candidate && s'.currentTerm == req.term)
            && (s.votedFor != 0 && s'.currentTerm == s.currentTerm ==> s'.votedFor == s.votedFor)
  {
  }

  /** The configuration in force is the last one in the log, committed or not. */
  lemma {:induction false} ConfigurationInForce(log: Log)
    ensures var n := ConfigurationId(log);
            && n <= |log|
            && (forall i | n <= i < |log| :: !log[i].payload.Configuration?)
            && (n > 0 ==> log[n - 1].payload.Configuration?
                          && LatestConfiguration(log) == Some(log[n - 1].payload.servers))
            && (n == 0 ==> LatestConfiguration(log) == None)
  {
    if log != [] && !log[|log| - 1].payload.Configuration? {
      ConfigurationInForce(log[..|log| - 1]);
    }
  }

  /** The members whose vote a server counts: its own if it gave it to itself, and those noted. */
  ghost function Voters(s: Server, members: seq<ServerId>): (voters: set<ServerId>)
    ensures voters <= Members(members)
  {
    set m | m in members && (if m == s.id then s.votedFor == s.id else m in s.peers && s.peers[m].haveVote)
  }

  /** The members that are known to have the log up to n: the leader as far as it is synced. */
  ghost function Have(s: Server, members: seq<ServerId>, n: nat): (have: set<ServerId>)
    ensures have <= Members(members)
  {
    set m | m in members
            && (if m == s.id then s.lastSyncedIndex >= n else m in s.peers && s.peers[m].lastAgreeIndex >= n)
  }

  /** A candidate turns leader exactly if it is still one in the term it asked for votes in, the reply grants
      the vote, and with it the votes are a quorum. */
  lemma ElectedExactlyIf(s: Server, p: ServerId, req: VoteRequest, resp: VoteResponse, members: seq<ServerId>)
    requires Distinct(members) && members != [] && p != s.id && s.role != Leader
    requires LatestConfiguration(s.log) == Some(members)
    ensures HandleVoteReply(s, p, req, resp).role == Leader
            <==> s.role == Candidate && s.currentTerm == req.term && p in s.peers && resp.term <= s.currentTerm
                 && resp.granted && IsQuorum(members, (Voters(s, members) + {p}) * Members(members))
  {
    if s.role == Candidate && p in s.peers {
      var s1 := s.(peers := s.peers[p := s.peers[p].(requestVoteDone := true, haveVote := true)]);
      SameVotersButOne(s, s1, p, members);
      MajorityIsQuorum(members, VotersAmong(s1, members));
    }
  }

  lemma SameVotersButOne(s: Server, s1: Server, p: ServerId, members: seq<ServerId>)
    requires p != s.id && p in s.peers
    requires s1 == s.(peers := s.peers[p := s.peers[p].(requestVoteDone := true, haveVote := true)])
    ensures VotersAmong(s1, members) * Members(members) == (Voters(s, members) + {p}) * Members(members)
  {
  }

  /** Of the indexes past its commit index, a leader commits exactly the greatest one that a majority has, and
      that only if its entry is of the leader's term. */
  lemma CommitsExactlyIf(s: Server, n: nat)
    requires s.role == Leader && CurrentMembers(s) != [] && n > s.commitIndex
    ensures var agreed := AgreeIndexes(s, CurrentMembers(s));
            AdvanceCommit(s).commitIndex == n
            <==> Majority(AtLeast(agreed, n)) && !Majority(AtLeast(agreed, n + 1))
                 && n <= |s.log| && s.log[n - 1].term == s.currentTerm
    ensures var members := CurrentMembers(s);
            Distinct(members) ==>
              (AdvanceCommit(s).commitIndex == n
               <==> IsQuorum(members, Have(s, members, n)) && !IsQuorum(members, Have(s, members, n + 1))
                    && n <= |s.log| && s.log[n - 1].term == s.currentTerm)
  {
    hide QuorumMin, IsQuorum, Majority, AtLeast, AgreeIndexes, CurrentMembers, Have;
    var members := CurrentMembers(s);
    QuorumMinIsGreatest(AgreeIndexes(s, members), n);
    QuorumMinIsGreatest(AgreeIndexes(s, members), n + 1);
    if Distinct(members) {
      HaveIsQuorum(s, members, n);
      HaveIsQuorum(s, members, n + 1);
    }
  }

  lemma HaveIsQuorum(s: Server, members: seq<ServerId>, n: nat)
    requires members != [] && Distinct(members) && n > 0
    ensures Majority(AtLeast(AgreeIndexes(s, members), n)) <==> IsQuorum(members, Have(s, members, n))
  {
    var have := Have(s, members, n);
    assert AtLeast(AgreeIndexes(s, members), n) == Answers(members, have);
    assert have * Members(members) == have;
    MajorityIsQuorum(members, have);
  }

  /** A request is accepted exactly if it is not from an older term and the log has the entry it builds on; then
      the log holds the offered entries where the request puts them. */
  lemma AcceptsExactlyIf(s: Server, req: AppendRequest)
    ensures var (s', resp) := HandleAppendEntries(s, req);
            && (resp.success <==> req.term >= s.currentTerm && req.prevLogIndex <= |s.log|
                                  && (req.prevLogIndex > 0 ==> s.log[req.prevLogIndex - 1].term == req.prevLogTerm))
            && (!resp.success ==> s'.log == s.log && s'.commitIndex == s.commitIndex)
            && (resp.success ==> Offered(s'.log, req))
  {
    hide Merge;
    if HasPrevious(s.log, req) {
      MergeHasTerms(s.log, req.prevLogIndex, req.entries);
    }
  }

  /** The terms of the offered entries, where they belong. */
  ghost predicate Offered(log: Log, req: AppendRequest) {
    && req.prevLogIndex + |req.entries| <= |log|
    && forall i | 0 <= i < |req.entries| :: log[req.prevLogIndex + i].term == req.entries[i].term
  }

  lemma {:induction false} MergeHasTerms(log: Log, prev: nat, entries: seq<Entry>)
    requires prev <= |log|
    ensures var merged := Merge(log, prev, entries);
            && prev + |entries| <= |merged| && merged[..prev] == log[..prev]
            && forall i | 0 <= i < |entries| :: merged[prev + i].term == entries[i].term
    decreases entries
  {
    if entries != [] && prev < |log| && log[prev].term == entries[0].term {
      MergeHasTerms(log, prev + 1, entries[1..]);
      var merged := Merge(log, prev + 1, entries[1..]);
      assert merged[prev] == merged[..prev + 1][prev] == log[prev];
      forall i | 0 <= i < |entries| ensures merged[prev + i].term == entries[i].term {
        if i > 0 {
          assert merged[prev + 1 + (i - 1)].term == entries[1..][i - 1].term;
        }
      }
      assert merged[..prev] == merged[..prev + 1][..prev];
    }
  }

  // ----- what each handler leaves -----

  /** A newer term is entered without a vote and without a leader, and stored; in any case the server follows. */
  lemma StepDownOutcome(s: Server, t: nat)
    requires s.currentTerm <= t
    ensures var s' := StepDown(s, t);
            && s'.currentTerm == t && s'.role == Follower && !s'.logSyncQueued
            && (s.currentTerm < t ==> s'.votedFor == 0 && s'.leaderId == 0 && s'.metadata == Metadata(t, 0))
            && (s.currentTerm == t ==> s'.votedFor == s.votedFor && s'.leaderId == s.leaderId && s'.metadata == s.metadata)
            && s'.log == s.log && s'.commitIndex == s.commitIndex && s'.peers == s.peers && s'.id == s.id
  {
  }

  /** A vote request of a newer term makes the server follow in that term, whether or not it gets the vote. The
      reply names the term the server is then in; what it voted is stored; nothing else changes. */
  lemma VoteRequestOutcome(s: Server, req: VoteRequest, withhold: bool)
    requires s.metadata == Metadata(s.currentTerm, s.votedFor)
    ensures var (s', resp) := HandleRequestVote(s, req, withhold);
            && (withhold || req.term < s.currentTerm ==> s' == s && !resp.granted)
            && (!withhold && req.term > s.currentTerm ==> s'.currentTerm == req.term && s'.role == Follower && s'.leaderId == 0)
            && (req.term <= s.currentTerm ==> s'.currentTerm == s.currentTerm)
            && (!resp.granted && s'.currentTerm > s.currentTerm ==> s'.votedFor == 0)
            && resp.term == s'.currentTerm && s'.metadata == Metadata(s'.currentTerm, s'.votedFor)
            && s'.log == s.log && s'.commitIndex == s.commitIndex && s'.peers == s.peers && s'.id == s.id
  {
    hide UpToDate;
  }

  /** What becoming leader means, however it came about: the term is led with an entry of the term on top of the
      log, the server's own log counts as synced up to it, and of its peers nothing is known. */
  lemma LeadershipOutcome(s: Server)
    ensures var s' := BecomeLeader(s);
            && s'.role == Leader && s'.leaderId == s.id && s'.currentTerm == s.currentTerm && s'.votedFor == s.votedFor
            && s'.log == s.log + [Entry(s.currentTerm, Noop)] && s'.lastSyncedIndex == |s.log| && s'.logSyncQueued
            && s'.commitIndex == s.commitIndex && s'.metadata == s.metadata && s'.peers.Keys == s.peers.Keys
            && forall p | p in s.peers :: s'.peers[p].forceHeartbeat && s'.peers[p].lastAgreeIndex == 0
  {
  }

  /** A candidacy: the next term, the server's own vote, both stored, and every peer still to be asked. It is won
      at once exactly if that one vote is a quorum. */
  lemma CandidacyOutcome(s: Server, members: seq<ServerId>)
    requires LatestConfiguration(s.log) == Some(members) && Distinct(members) && members != []
    ensures var s' := StartNewElection(s);
            && s'.currentTerm == s.currentTerm + 1 && s'.votedFor == s.id && s'.metadata == Metadata(s'.currentTerm, s.id)
            && s'.role == (if IsQuorum(members, {s.id} * Members(members)) then Leader else Candidate)
            && s'.commitIndex == s.commitIndex && s'.peers.Keys == s.peers.Keys
            && (forall p | p in s.peers :: !s'.peers[p].requestVoteDone && !s'.peers[p].haveVote)
            && (s'.role == Candidate ==> s'.log == s.log && s'.leaderId == 0)
  {
    hide HasQuorum, BecomeLeader, LatestConfiguration, BeginRequestVote, IsQuorum;
    var s1 := Persist(s.(currentTerm := s.currentTerm + 1, role := Candidate, leaderId := 0, votedFor := s.id,
                         peers := BeginRequestVote(s.peers)));
    NobodyAsked(s.peers);
    OwnVoteOnly(s1, members);
    LeadershipOutcome(s1);
    LeadersPeers(s1);
  }

  lemma NobodyAsked(peers: map<ServerId, Peer>)
    ensures BeginRequestVote(peers).Keys == peers.Keys
    ensures forall p | p in peers :: !BeginRequestVote(peers)[p].requestVoteDone && !BeginRequestVote(peers)[p].haveVote
  {
  }

  lemma LeadersPeers(s: Server)
    ensures forall p | p in s.peers :: p in BecomeLeader(s).peers
              && BecomeLeader(s).peers[p].requestVoteDone == s.peers[p].requestVoteDone
              && BecomeLeader(s).peers[p].haveVote == s.peers[p].haveVote
  {
  }

  lemma OwnVoteOnly(s: Server, members: seq<ServerId>)
    requires LatestConfiguration(s.log) == Some(members) && Distinct(members) && members != []
    requires s.votedFor == s.id && forall p | p in s.peers :: !s.peers[p].haveVote
    ensures HasQuorum(s) <==> IsQuorum(members, {s.id} * Members(members))
  {
    assert VotersAmong(s, members) * Members(members) == {s.id} * Members(members);
    MajorityIsQuorum(members, VotersAmong(s, members));
  }

  /** A reply to a candidacy that is over, or of an unknown peer, changes nothing. A newer term is entered as a
      follower. Otherwise the peer has answered, and if it granted its vote, that is noted: either nothing else
      changes or the server leads. */
  lemma VoteReplyOutcome(s: Server, p: ServerId, req: VoteRequest, resp: VoteResponse)
    ensures var s' := HandleVoteReply(s, p, req, resp);
            if s.currentTerm != req.term || s.role != Candidate || p !in s.peers then s' == s
            else if resp.term > s.currentTerm then
              s'.currentTerm == resp.term && s'.role == Follower && s'.votedFor == 0 && s'.metadata == Metadata(resp.term, 0)
            else
              && p in s'.peers && s'.peers[p].requestVoteDone && s'.currentTerm == s.currentTerm
              && s'.peers[p].haveVote == (resp.granted || s.peers[p].haveVote)
              && (forall q | q in s.peers && q != p && s'.role == Candidate :: q in s'.peers && s'.peers[q] == s.peers[q])
              && (s'.role == Candidate ==> s' == s.(peers := s'.peers))
              && (s'.role == Leader ==> resp.granted && s'.log == s.log + [Entry(s.currentTerm, Noop)])
              && s'.role in {Candidate, Leader}
  {
    hide HasQuorum;
  }

  /** A client's entry goes to the end of the leader's log in the leader's term, to be synced. */
  lemma ReplicateOutcome(s: Server, blob: string)
    requires s.role == Leader
    ensures Replicate(s, blob) == s.(log := s.log + [Entry(s.currentTerm, Data(blob))], logSyncQueued := true)
  {
  }

  /** A candidate asks in its own name and term, and says how far its log goes and the term that it ends with. */
  lemma VoteRequestSays(s: Server)
    ensures var req := MakeVoteRequest(s);
            && req.candidate == s.id && req.term == s.currentTerm && req.lastLogIndex == |s.log|
            && req.lastLogTerm == (if s.log == [] then 0 else s.log[|s.log| - 1].term)
  {
  }

  /** What a request says: nothing but the entry before for a heartbeat, else as many entries from nextIndex on as
      there are, up to 128; and what the leader has committed of what the receiver will then have. */
  lemma RequestSays(s: Server, p: ServerId, next: nat)
    requires p in s.peers && 1 <= next <= |s.log| + 1
    ensures var req, n := MakeAppendRequest(s, p, next), EntriesSent(s, p, next);
            && req.leader == s.id && req.term == s.currentTerm && req.prevLogIndex == next - 1
            && req.prevLogTerm == (if next == 1 then 0 else s.log[next - 2].term)
            && req.entries == s.log[next - 1..next - 1 + n]
            && req.commitIndex == Min(s.commitIndex, next - 1 + n)
  {
  }

  function EntriesSent(s: Server, p: ServerId, next: nat): (n: nat)
    requires p in s.peers && 1 <= next <= |s.log| + 1
    ensures next - 1 + n <= |s.log| && n <= 128
    ensures s.peers[p].forceHeartbeat ==> n == 0
    ensures !s.peers[p].forceHeartbeat ==> n == 128 || next - 1 + n == |s.log|
  {
    if s.peers[p].forceHeartbeat then 0 else Min(|s.log| + 1 - next, 128)
  }

  /** A request of an older term is refused with the server's own term and changes nothing. Any other makes the
      server follow its sender in its term; if it is accepted, the commit index rises to the request's. */
  lemma AppendOutcome(s: Server, req: AppendRequest)
    ensures var (s', resp) := HandleAppendEntries(s, req);
            if req.term < s.currentTerm then s' == s && !resp.success && resp.term == s.currentTerm
            else
              && s'.currentTerm == req.term && s'.role == Follower && resp.term == req.term
              && s'.leaderId == (if req.term > s.currentTerm || s.leaderId == 0 then req.leader else s.leaderId)
              && s'.votedFor == (if req.term > s.currentTerm then 0 else s.votedFor)
              && s'.commitIndex == (if resp.success && req.commitIndex > s.commitIndex then req.commitIndex else s.commitIndex)
              && s'.peers == s.peers && resp.lastLogIndex == |s.log|
  {
    hide Merge;
  }

  /** A reply of a newer term makes the leader step down into it; an older one, a refusal or one of an unknown peer
      changes nothing; otherwise the peer agrees up to the end of what was sent, or further if that is known, and
      is not forced a heartbeat any more. */
  lemma AppendReplyOutcome(s: Server, p: ServerId, req: AppendRequest, resp: AppendResponse)
    ensures var s', end := HandleAppendReply(s, p, req, resp), req.prevLogIndex + |req.entries|;
            if p !in s.peers || resp.term < s.currentTerm then s' == s
            else if resp.term > s.currentTerm then
              s'.currentTerm == resp.term && s'.role == Follower && s'.votedFor == 0 && s'.metadata == Metadata(resp.term, 0)
            else if !resp.success then s' == s
            else
              && p in s'.peers && !s'.peers[p].forceHeartbeat
              && s'.peers[p].lastAgreeIndex == (if end > s.peers[p].lastAgreeIndex then end else s.peers[p].lastAgreeIndex)
              && (forall q | q in s.peers && q != p :: q in s'.peers && s'.peers[q] == s.peers[q])
              && s'.log == s.log && s'.commitIndex >= s.commitIndex
              && (end >= s.peers[p].lastAgreeIndex ==> s' == AdvanceCommit(s.(peers := s'.peers)))
  {
    hide QuorumMin;
  }

  /** After a commit that reaches the configuration in force, a leader that is not part of it steps down into the
      next term; any other stays as it is. */
  lemma CommitOutcome(s: Server)
    requires s.role == Leader
    ensures var s' := AdvanceCommit(s);
            && s'.log == s.log && s'.peers == s.peers
            && (s'.commitIndex > s.commitIndex && s.id !in CurrentMembers(s) && s'.commitIndex >= ConfigurationId(s.log)
                ==> s'.currentTerm == s.currentTerm + 1 && s'.role == Follower)
            && (s'.commitIndex == s.commitIndex || s.id in CurrentMembers(s) || s'.commitIndex < ConfigurationId(s.log)
                ==> s' == s.(commitIndex := s'.commitIndex))
  {
    hide QuorumMin;
  }

  /** The disk thread takes what the log has, and when that is synced it counts exactly in the same leadership. */
  lemma SyncOutcome(s: Server)
    requires s.role == Leader
    ensures BeginSync(s) == s.(logSyncQueued := false, pendingSync := Some(PendingSync(s.currentTerm, |s.log|)))
    ensures s.pendingSync.Some? ==>
              EndSync(s) == (if s.pendingSync.value.term == s.currentTerm
                             then AdvanceCommit(s.(pendingSync := None, lastSyncedIndex := s.pendingSync.value.lastIndex))
                             else s.(pendingSync := None))
  {
    hide AdvanceCommit;
  }

  /** A restart keeps what was stored, the term and the vote, and nothing else. */
  lemma RestartOutcome(s: Server)
    ensures var s' := Restart(s);
            && s'.currentTerm == s.metadata.currentTerm && s'.votedFor == s.metadata.votedFor && s'.metadata == s.metadata
            && s'.role == Follower && s'.leaderId == 0 && s'.commitIndex == 0 && s'.log == [] && s'.pendingSync.None?
  {
  }

  // ----- how a commit reaches the followers -----

  /** Over any run: when a leader has sent a request and the receiver later accepts it, the receiver's commit
      index is the greater of its own before and of what the leader had committed of that stretch. */
  lemma CommitTravels(run: Run, i: nat, j: nat, a: ServerId, b: ServerId, next: nat, req: AppendRequest)
    requires IsRun(run) && i < j < |run.events|
    requires run.events[i] == SendAppend(a, b, next) && run.events[j] == ReceiveAppend(b, req)
    requires a in run.states[i].servers && EnabledAt(run.states[i].servers[a], run.events[i])
    requires Sent(run.states[i].servers[a], run.events[i]) == {AppendReq(b, req)}
    requires b in run.states[j].servers && HandleAppendEntries(run.states[j].servers[b], req).1.success
    ensures var leader, before := run.states[i].servers[a], run.states[j].servers[b];
            && b in run.states[j + 1].servers
            && run.states[j + 1].servers[b].commitIndex
               == Max(before.commitIndex, Min(leader.commitIndex, next - 1 + EntriesSent(leader, b, next)))
            && run.states[j + 1].servers[b].currentTerm == leader.currentTerm
  {
    hide Init, Watch, MakeAppendRequest, HandleAppendEntries;
    var leader, before := run.states[i].servers[a], run.states[j].servers[b];
    assert AppendReq(b, req) in {AppendReq(b, MakeAppendRequest(leader, b, next))};
    RequestSays(leader, b, next);
    AppendOutcome(before, req);
    assert Enabled(run.states[j], run.events[j]) && run.states[j + 1] == Next(run.states[j], run.events[j]);
  }
}
