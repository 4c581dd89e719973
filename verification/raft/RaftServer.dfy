/** raft/raftconsensus.py and raft/server.py: what each handler of one server computes, as functions of
    the server's state. The class in RaftConsensus.dfy runs the handlers in place and is proved to
    compute these functions; RaftSystem.dfy lets many servers take them as steps. */
module RaftServer {
  import opened Optional
  import opened RaftTypes
  import opened RaftLog
  import opened Quorum

  /** What a server keeps about another one. */
  datatype Peer = Peer(requestVoteDone: bool, haveVote: bool, forceHeartbeat: bool, lastAgreeIndex: nat)

  /** The durable pair behind log.metadata. */
  datatype Metadata = Metadata(currentTerm: nat, votedFor: ServerId)

  /** A sync the leader's disk thread has taken and not yet finished. */
  datatype PendingSync = PendingSync(term: nat, lastIndex: nat)

  datatype Server = Server(id: ServerId, currentTerm: nat, votedFor: ServerId, role: Role, leaderId: ServerId,
                           commitIndex: nat, log: Log, lastSyncedIndex: nat, logSyncQueued: bool,
                           pendingSync: Option<PendingSync>, peers: map<ServerId, Peer>, metadata: Metadata)

  // ----- votes and agreement, as the configuration asks for them -----

  function CurrentMembers(s: Server): seq<ServerId> {
    match LatestConfiguration(s.log)
    case None => []
    case Some(members) => members
  }

  predicate HasVoteOf(s: Server, m: ServerId) {
    if m == s.id then s.votedFor == s.id else m in s.peers && s.peers[m].haveVote
  }

  function VotersAmong(s: Server, members: seq<ServerId>): set<ServerId> {
    set m | m in members && HasVoteOf(s, m)
  }

  predicate HasQuorum(s: Server) {
    Majority(Answers(CurrentMembers(s), VotersAmong(s, CurrentMembers(s))))
  }

  function AgreeIndex(s: Server, m: ServerId): nat {
    if m == s.id then s.lastSyncedIndex else if m in s.peers then s.peers[m].lastAgreeIndex else 0
  }

  function AgreeIndexes(s: Server, members: seq<ServerId>): (values: seq<nat>)
    ensures |values| == |members|
  {
    seq(|members|, i requires 0 <= i < |members| => AgreeIndex(s, members[i]))
  }

  // ----- term changes -----

  function Persist(s: Server): Server {
    s.(metadata := Metadata(s.currentTerm, s.votedFor))
  }

  function StepDown(s: Server, newTerm: nat): Server
    requires s.currentTerm <= newTerm
  {
    var s1 := if s.currentTerm < newTerm
              then Persist(s.(currentTerm := newTerm, leaderId := 0, votedFor := 0)) else s;
    s1.(role := Follower, logSyncQueued := false)
  }

  function Append(s: Server, entries: seq<Entry>): Server {
    s.(log := s.log + entries, logSyncQueued := s.role == Leader || s.logSyncQueued)
  }

  // ----- elections -----

  function BeginLeadership(peers: map<ServerId, Peer>): map<ServerId, Peer> {
    map p | p in peers :: peers[p].(forceHeartbeat := true, lastAgreeIndex := 0)
  }

  function BeginRequestVote(peers: map<ServerId, Peer>): map<ServerId, Peer> {
    map p | p in peers :: peers[p].(requestVoteDone := false, haveVote := false)
  }

  function BecomeLeader(s: Server): Server {
    Append(s.(role := Leader, leaderId := s.id, lastSyncedIndex := |s.log|, peers := BeginLeadership(s.peers)),
           [Entry(s.currentTerm, Noop)])
  }

  /** A server without a configuration does not stand for election. */
  function StartNewElection(s: Server): Server {
    if LatestConfiguration(s.log).None? then s
    else
      var s1 := Persist(s.(currentTerm := s.currentTerm + 1, role := Candidate, leaderId := 0, votedFor := s.id,
                           peers := BeginRequestVote(s.peers)));
      if HasQuorum(s1) then BecomeLeader(s1) else s1
  }

  function MakeVoteRequest(s: Server): VoteRequest {
    VoteRequest(s.id, s.currentTerm, LastTerm(s.log), |s.log|)
  }

  function HandleRequestVote(s: Server, req: VoteRequest, withhold: bool): (Server, VoteResponse) {
    if withhold then (s, VoteResponse(s.currentTerm, false))
    else
      var s1 := if req.term > s.currentTerm then StepDown(s, req.term) else s;
      var s2 := if req.term == s1.currentTerm && UpToDate(req.lastLogTerm, req.lastLogIndex, s1.log) && s1.votedFor == 0
                then Persist(StepDown(s1, s1.currentTerm).(votedFor := req.candidate)) else s1;
      (s2, VoteResponse(s2.currentTerm, req.term == s2.currentTerm && s2.votedFor == req.candidate))
  }

  function HandleVoteReply(s: Server, peer: ServerId, req: VoteRequest, resp: VoteResponse): Server {
    if s.currentTerm != req.term || s.role != Candidate || peer !in s.peers then s
    else if resp.term > s.currentTerm then StepDown(s, resp.term)
    else
      var p := s.peers[peer].(requestVoteDone := true);
      if resp.granted then
        var s1 := s.(peers := s.peers[peer := p.(haveVote := true)]);
        if HasQuorum(s1) then BecomeLeader(s1) else s1
      else s.(peers := s.peers[peer := p])
  }

  // ----- replication -----

  function Replicate(s: Server, blob: string): Server {
    Append(s, [Entry(s.currentTerm, Data(blob))])
  }

  /** The request for the entries from nextIndex on, at most MAX_ENTRIES of them, none for a heartbeat. */
  function MakeAppendRequest(s: Server, peer: ServerId, nextIndex: nat): AppendRequest
    requires peer in s.peers && 1 <= nextIndex <= |s.log| + 1
  {
    var prev := nextIndex - 1;
    var entries := if s.peers[peer].forceHeartbeat then [] else s.log[prev..Min(|s.log|, prev + MAX_ENTRIES)];
    AppendRequest(s.id, s.currentTerm, LastTerm(s.log[..prev]), prev, entries, Min(s.commitIndex, prev + |entries|))
  }

  /** The previous entry the request names is there, with the term it names. */
  predicate HasPrevious(log: Log, req: AppendRequest) {
    req.prevLogIndex <= |log| && (req.prevLogIndex >= 1 ==> log[req.prevLogIndex - 1].term == req.prevLogTerm)
  }

  function HandleAppendEntries(s: Server, req: AppendRequest): (Server, AppendResponse) {
    if req.term < s.currentTerm then (s, AppendResponse(s.currentTerm, false, |s.log|))
    else
      var s1 := StepDown(s, req.term);
      var s2 := if s1.leaderId == 0 then s1.(leaderId := req.leader) else s1;
      if !HasPrevious(s2.log, req) then (s2, AppendResponse(req.term, false, |s.log|))
      else (s2.(log := Merge(s2.log, req.prevLogIndex, req.entries), commitIndex := Max(s2.commitIndex, req.commitIndex)),
            AppendResponse(req.term, true, |s.log|))
  }

  /** What handleAppendEntries asserts: a known leader is the sender, a conflict is past the commit
      index, entries have terms, and the commit index it ends with is inside the log. */
  predicate AppendAssertions(s: Server, req: AppendRequest) {
    req.term >= s.currentTerm ==>
      && StepDown(s, req.term).leaderId in {0, req.leader}
      && (forall e | e in req.entries :: e.term != 0)
      && (HasPrevious(s.log, req) ==>
            (forall i | req.prevLogIndex <= i < Min(|s.log|, req.prevLogIndex + |req.entries|)
                        && s.log[i].term != req.entries[i - req.prevLogIndex].term :: s.commitIndex <= i)
            && HandleAppendEntries(s, req).0.commitIndex <= |HandleAppendEntries(s, req).0.log|)
  }

  function AdvanceCommit(s: Server): Server {
    var members := CurrentMembers(s);
    var agreed := QuorumMin(AgreeIndexes(s, members));
    if s.role != Leader || s.commitIndex >= agreed || !EntryIsCurrent(s, agreed) then s
    else
      var s1 := s.(commitIndex := agreed);
      if agreed >= ConfigurationId(s.log) && s.id !in members then StepDown(s1, s1.currentTerm + 1) else s1
  }

  predicate EntryIsCurrent(s: Server, index: nat) {
    1 <= index <= |s.log| && s.log[index - 1].term == s.currentTerm
  }

  /** Index of the latest CONFIGURATION entry, 0 if there is none. */
  function ConfigurationId(log: Log): nat {
    if log == [] then 0
    else if log[|log| - 1].payload.Configuration? then |log|
    else ConfigurationId(log[..|log| - 1])
  }

  /** A reply with an older term than the server's is stale and dropped. */
  function HandleAppendReply(s: Server, peer: ServerId, req: AppendRequest, resp: AppendResponse): Server {
    if peer !in s.peers || resp.term < s.currentTerm then s
    else if resp.term > s.currentTerm then StepDown(s, resp.term)
    else if !resp.success then s
    else
      var end := req.prevLogIndex + |req.entries|;
      var p := s.peers[peer];
      if p.lastAgreeIndex > end then s.(peers := s.peers[peer := p.(forceHeartbeat := false)])
      else
        AdvanceCommit(s.(peers := s.peers[peer := p.(lastAgreeIndex := end, forceHeartbeat := false)]))
  }

  // ----- the leader's disk thread -----

  function BeginSync(s: Server): Server {
    s.(logSyncQueued := false, pendingSync := Some(PendingSync(s.currentTerm, |s.log|)))
  }

  function EndSync(s: Server): Server
    requires s.pendingSync.Some?
  {
    var sync := s.pendingSync.value;
    var s1 := s.(pendingSync := None);
    if s.role == Leader && s.currentTerm == sync.term then AdvanceCommit(s1.(lastSyncedIndex := sync.lastIndex)) else s1
  }

  // ----- restart -----

  /** What `init` restores: term and vote; entries live in memory and are gone. */
  function Restart(s: Server): Server {
    Server(s.id, s.metadata.currentTerm, s.metadata.votedFor, Follower, 0, 0, [], 0, false, None, s.peers, s.metadata)
  }
}
