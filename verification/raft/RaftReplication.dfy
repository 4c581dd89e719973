/** What every step of a run without crashes keeps about logs, agreement and commits: the servers'
    handlers take the events of RaftHistory, and their bookkeeping speaks the truth about it. */
module RaftReplication {
  import opened Optional
  import opened RaftTypes
  import opened RaftLog
  import opened RaftServer
  import opened Quorum
  import opened RaftHistory
  import opened RaftSystem
  import opened RaftElection

  // ----- a system as the history argument sees it -----

  function Seen(sys: System): Replicas {
    Replicas(map v | v in sys.servers :: sys.servers[v].currentTerm, map v | v in sys.servers :: sys.servers[v].log,
             sys.history.votes, sys.history.elections, sys.history.held)
  }

  function Record(r: Replicas): History {
    History(r.votes, r.elections, r.held)
  }

  /** The view after one server's step. */
  function SeenAfter(r: Replicas, members: seq<ServerId>, s: Server, s': Server, ev: Event): Replicas {
    Replicas(r.terms[s.id := s'.currentTerm], r.logs[s.id := s'.log],
             WatchVote(r.votes, s, s'), WatchLeader(r.elections, members, s, s'), WatchHeld(r.held, s, s', ev))
  }

  lemma SeenNext(sys: System, ev: Event)
    requires Enabled(sys, ev) && sys.servers[ev.at].id == ev.at
    ensures Seen(Next(sys, ev)) == SeenAfter(Seen(sys), sys.members, sys.servers[ev.at], After(sys.servers[ev.at], ev), ev)
  {
    hide After, Sent, WatchVote, WatchLeader, WatchHeld, EnabledAt, Delivered;
  }

  // ----- the invariant -----

  /** The first `index` entries of a log seen in term t are among those committed by a leader up to t. */
  ghost predicate CommitWitness(r: Replicas, members: seq<ServerId>, log: Log, t: nat, index: nat, u: nat, n: nat) {
    u <= t && index <= n && index <= |log| && Committed(r, members, u, n)
    && log[..index] == r.elections[u].log[..index]
  }

  ghost predicate CommitOk(r: Replicas, members: seq<ServerId>, log: Log, t: nat, index: nat) {
    index <= |log| && (index == 0 || exists u: nat, n: nat :: CommitWitness(r, members, log, t, index, u, n))
  }

  /** While a server leads, what it believes its peers and its disk have, they have. */
  ghost predicate LeaderOk(r: Replicas, s: Server) {
    var t := s.currentTerm;
    && t in r.elections && r.elections[t].leader == s.id && r.elections[t].log == s.log
    && At(s.id, t) in r.held && r.held[At(s.id, t)] == |s.log|
    && s.lastSyncedIndex <= |s.log|
    && (s.pendingSync.Some? && s.pendingSync.value.term == t ==> s.pendingSync.value.lastIndex <= |s.log|)
    && forall p | p in s.peers && p != s.id :: s.peers[p].lastAgreeIndex <= HeldAt(r, At(p, t))
  }

  ghost predicate BookkeepingOk(r: Replicas, s: Server) {
    && (s.role == Leader ==> LeaderOk(r, s))
    && (s.role == Candidate ==> At(s.id, s.currentTerm) in r.votes && r.votes[At(s.id, s.currentTerm)].log == s.log)
    && (s.pendingSync.Some? ==> s.pendingSync.value.term <= s.currentTerm)
    && (s.pendingSync.Some? && s.role == Candidate ==> s.pendingSync.value.term < s.currentTerm)
  }

  ghost predicate ServerLogOk(r: Replicas, members: seq<ServerId>, s: Server) {
    BookkeepingOk(r, s) && CommitOk(r, members, s.log, s.currentTerm, s.commitIndex)
  }

  /** A request carries a stretch of its leader's log and a commit index that is true of it. */
  ghost predicate RequestOk(r: Replicas, members: seq<ServerId>, req: AppendRequest) {
    && req.term in r.elections
    && var log := r.elections[req.term].log;
       var end := req.prevLogIndex + |req.entries|;
    && end <= |log| && req.entries == log[req.prevLogIndex..end]
    && req.prevLogTerm == LastTerm(log[..req.prevLogIndex])
    && req.commitIndex <= end && CommitOk(r, members, log, req.term, req.commitIndex)
  }

  ghost predicate MessageLogOk(r: Replicas, members: seq<ServerId>, m: Message) {
    match m
    case VoteReq(_, req) =>
      && At(req.candidate, req.term) in r.votes
      && var log := r.votes[At(req.candidate, req.term)].log;
         req.lastLogTerm == LastTerm(log) && req.lastLogIndex == |log|
    case VoteRep(_, _, _) => true
    case AppendReq(_, req) => RequestOk(r, members, req)
    case AppendRep(from, req, resp) =>
      resp.success ==> resp.term == req.term && req.prevLogIndex + |req.entries| <= HeldAt(r, At(from, req.term))
  }

  ghost predicate ReplicationInv(sys: System) {
    && Inv(Seen(sys), sys.members)
    && (forall v | v in sys.servers :: ServerLogOk(Seen(sys), sys.members, sys.servers[v]))
    && (forall m | m in sys.network :: MessageLogOk(Seen(sys), sys.members, m))
  }

  // ----- what a step of server v leaves alone -----

  ghost predicate HeldGrows(r: Replicas, r': Replicas) {
    forall k | k in r.held :: k in r'.held && r.held[k] <= r'.held[k]
  }

  ghost predicate Untouched(r: Replicas, r': Replicas, v: ServerId) {
    && Grows(r, r') && HeldGrows(r, r')
    && (forall b | b in r.votes :: b in r'.votes && r'.votes[b] == r.votes[b])
    && (forall u | u in r.elections && r.elections[u].leader != v :: r'.elections[u] == r.elections[u])
    && (forall k | k in r'.held && k.server != v :: k in r.held && r'.held[k] == r.held[k])
  }

  lemma CommittedStays(r: Replicas, r': Replicas, members: seq<ServerId>, u: nat, n: nat)
    requires Grows(r, r') && HeldGrows(r, r') && Committed(r, members, u, n)
    ensures Committed(r', members, u, n) && r'.elections[u].log[..n] == r.elections[u].log[..n]
  {
    var q :| HeldBy(r, members, q, u, n);
    assert HeldBy(r', members, q, u, n);
  }

  lemma CommitStays(r: Replicas, r': Replicas, members: seq<ServerId>, log: Log, log': Log, t: nat, t': nat, index: nat)
    requires Grows(r, r') && HeldGrows(r, r') && CommitOk(r, members, log, t, index)
    requires t <= t' && index <= |log'| && log'[..index] == log[..index]
    ensures CommitOk(r', members, log', t', index)
  {
    if index > 0 {
      var u: nat, n: nat :| CommitWitness(r, members, log, t, index, u, n);
      CommittedStays(r, r', members, u, n);
      assert r'.elections[u].log[..index] == r'.elections[u].log[..n][..index];
      assert r.elections[u].log[..index] == r.elections[u].log[..n][..index];
      assert CommitWitness(r', members, log', t', index, u, n);
    }
  }

  lemma OtherServerStaysOk(r: Replicas, r': Replicas, members: seq<ServerId>, s: Server, v: ServerId)
    requires Untouched(r, r', v) && s.id != v && ServerLogOk(r, members, s)
    ensures ServerLogOk(r', members, s)
  {
    CommitStays(r, r', members, s.log, s.log, s.currentTerm, s.currentTerm, s.commitIndex);
  }

  lemma MessageStaysOk(r: Replicas, r': Replicas, members: seq<ServerId>, m: Message, v: ServerId)
    requires Untouched(r, r', v) && MessageLogOk(r, members, m)
    ensures MessageLogOk(r', members, m)
  {
    if m.AppendReq? {
      var req := m.areq;
      var log, log' := r.elections[req.term].log, r'.elections[req.term].log;
      var end := req.prevLogIndex + |req.entries|;
      assert log'[req.prevLogIndex..end] == log[req.prevLogIndex..end];
      assert log'[..req.prevLogIndex] == log[..req.prevLogIndex];
      assert log'[..req.commitIndex] == log[..req.commitIndex];
      CommitStays(r, r', members, log, log', req.term, req.term, req.commitIndex);
    }
  }

  // ----- the steps -----

  /** One server in a system that satisfies both invariants. */
  ghost predicate Ready(r: Replicas, members: seq<ServerId>, s: Server) {
    && Inv(r, members) && Distinct(members) && members != [] && 0 !in members
    && s.id in r.logs && s.id in r.terms && r.logs[s.id] == s.log && r.terms[s.id] == s.currentTerm
    && ServerOk(Record(r), members, s, s.id) && ElectionsOk(Record(r), members)
    && ServerLogOk(r, members, s)
  }

  /** What a step has to leave behind. */
  ghost predicate Kept(r: Replicas, r': Replicas, members: seq<ServerId>, s': Server) {
    Inv(r', members) && Untouched(r, r', s'.id) && ServerLogOk(r', members, s')
  }

  lemma LogTerms(r: Replicas, members: seq<ServerId>, v: ServerId)
    requires Inv(r, members) && v in r.logs && v in r.terms
    ensures TermsUpTo(r.logs[v], r.terms[v])
  {
  }

  lemma NothingHeld(r: Replicas, members: seq<ServerId>, v: ServerId, t: nat)
    requires Inv(r, members) && t !in r.elections
    ensures At(v, t) !in r.held
  {
  }

  lemma UntouchedTwice(r: Replicas, r1: Replicas, r2: Replicas, v: ServerId)
    requires Untouched(r, r1, v) && Untouched(r1, r2, v)
    ensures Untouched(r, r2, v)
  {
  }

  lemma StepDownReady(r: Replicas, members: seq<ServerId>, s: Server, t: nat)
    requires Ready(r, members, s) && s.currentTerm <= t
    ensures Ready(Advance(r, s.id, t), members, StepDown(s, t)) && Untouched(r, Advance(r, s.id, t), s.id)
  {
    hide Inv, VotesInv, ElectionsInv, LogsInv, LogKeeps, VoteKeeps;
    var r' := Advance(r, s.id, t);
    AdvanceKeepsInv(r, members, s.id, t);
    StepDownOk(Record(r), members, s, t);
    CommitStays(r, r', members, s.log, s.log, s.currentTerm, t, s.commitIndex);
  }

  /** A candidate's vote opens its candidacy. */
  lemma StandReady(r: Replicas, members: seq<ServerId>, s: Server)
    requires Ready(r, members, s) && LatestConfiguration(s.log) == Some(members)
    ensures var r' := CastVote(Advance(r, s.id, s.currentTerm + 1), s.id, s.id, s.currentTerm + 1);
            Ready(r', members, Stand(s)) && Untouched(r, r', s.id)
  {
    hide Inv, VotesInv, ElectionsInv, LogsInv, LogKeeps, VoteKeeps, FixedMembership;
    var t := s.currentTerm + 1;
    var r1 := Advance(r, s.id, t);
    var r' := CastVote(r1, s.id, s.id, t);
    AdvanceKeepsInv(r, members, s.id, t);
    LogTerms(r, members, s.id);
    assert At(s.id, t) !in r.votes;
    CastVoteKeepsInv(r1, members, s.id, s.id);
    CandidateOk(Record(r), Record(r'), members, s);
    CommitStays(r, r', members, s.log, s.log, s.currentTerm, t, s.commitIndex);
  }

  lemma MayBecomeLeader(r: Replicas, members: seq<ServerId>, s: Server)
    requires Ready(r, members, s) && s.role == Candidate && HasQuorum(s)
    ensures MayElect(r, members, s.id, s.currentTerm, VotersAmong(s, members))
  {
    hide Inv, CommitOk;
    NoRival(Record(r), members, s);
    assert forall v | v in VotersAmong(s, members) :: VotedFor(Record(r), v, s.currentTerm, s.id);
  }

  lemma BecomeLeaderKept(r: Replicas, members: seq<ServerId>, s: Server)
    requires Ready(r, members, s) && s.role == Candidate && HasQuorum(s)
    ensures var r' := Elect(r, s.id, s.currentTerm, VotersAmong(s, members), Entry(s.currentTerm, Noop));
            Kept(r, r', members, BecomeLeader(s))
  {
    hide Inv, CommitOk, ServerOk, ElectionsOk;
    var t, voters, first := s.currentTerm, VotersAmong(s, members), Entry(s.currentTerm, Noop);
    MayBecomeLeader(r, members, s);
    ElectKeepsInv(r, members, s.id, t, voters, first);
    NothingHeld(r, members, s.id, t);
    var r' := Elect(r, s.id, t, voters, first);
    CommitBounded(r, members, s.log, t, s.commitIndex);
    CommitStays(r, r', members, s.log, s.log + [first], t, t, s.commitIndex);
  }

  lemma CommitBounded(r: Replicas, members: seq<ServerId>, log: Log, t: nat, index: nat)
    requires CommitOk(r, members, log, t, index)
    ensures index <= |log|
  {
  }

  lemma SameMap<V>(m: map<ServerId, V>, k: ServerId)
    requires k in m
    ensures m[k := m[k]] == m
  {
  }

  ghost predicate Shows(r: Replicas, s: Server) {
    s.id in r.logs && s.id in r.terms && r.logs[s.id] == s.log && r.terms[s.id] == s.currentTerm
  }

  function Candidacy(r: Replicas, s: Server): Replicas
    requires s.id in r.logs
  {
    CastVote(Advance(r, s.id, s.currentTerm + 1), s.id, s.id, s.currentTerm + 1)
  }

  lemma TimeoutSeen(r: Replicas, members: seq<ServerId>, s: Server, ev: Event)
    requires Shows(r, s) && s.id != 0 && s.role != Leader && ev.Timeout? && LatestConfiguration(s.log).Some?
    ensures SeenAfter(r, members, s, StartNewElection(s), ev)
            == if HasQuorum(Stand(s))
               then Elect(Candidacy(r, s), s.id, s.currentTerm + 1, VotersAmong(Stand(s), members),
                          Entry(s.currentTerm + 1, Noop))
               else Candidacy(r, s)
  {
    hide HasQuorum;
    var s' := StartNewElection(s);
    SameMap(r.logs, s.id);
    assert VotersAmong(s', members) == VotersAmong(Stand(s), members);
  }

  lemma UnchangedSeen(r: Replicas, members: seq<ServerId>, s: Server, ev: Event)
    requires Shows(r, s) && s.role != Leader && !ev.ReceiveAppend?
    ensures SeenAfter(r, members, s, s, ev) == r
  {
    SameMap(r.terms, s.id);
    SameMap(r.logs, s.id);
  }

  lemma TimeoutKept(r: Replicas, members: seq<ServerId>, s: Server, ev: Event)
    requires Ready(r, members, s) && s.role != Leader && ev.Timeout?
    ensures var s' := StartNewElection(s);
            Kept(r, SeenAfter(r, members, s, s', ev), members, s')
  {
    hide Inv, CommitOk, ElectionsOk, HasQuorum, SeenAfter, CastVote, Elect;
    LatestIsFixed(s.log, members);
    if LatestConfiguration(s.log).None? {
      UnchangedSeen(r, members, s, ev);
    } else {
      TimeoutSeen(r, members, s, ev);
      StandReady(r, members, s);
      if HasQuorum(Stand(s)) {
        BecomeLeaderKept(Candidacy(r, s), members, Stand(s));
        UntouchedTwice(r, Candidacy(r, s), SeenAfter(r, members, s, StartNewElection(s), ev), s.id);
      }
    }
  }

  /** Giving a vote asked for by a request that tells the truth about its sender. */
  lemma GiveVoteKept(r: Replicas, members: seq<ServerId>, s: Server, req: VoteRequest)
    requires Ready(r, members, s) && MessageLogOk(r, members, VoteReq(s.id, req))
    requires MessageOk(Record(r), members, VoteReq(s.id, req))
    requires req.term == s.currentTerm && UpToDate(req.lastLogTerm, req.lastLogIndex, s.log) && s.votedFor == 0
    ensures var s' := Persist(StepDown(s, s.currentTerm).(votedFor := req.candidate));
            Kept(r, CastVote(r, s.id, req.candidate, s.currentTerm), members, s')
  {
    hide Inv, FixedMembership, ElectionsOk;
    CastVoteKeepsInv(r, members, s.id, req.candidate);
    var r' := CastVote(r, s.id, req.candidate, s.currentTerm);
    CommitStays(r, r', members, s.log, s.log, s.currentTerm, s.currentTerm, s.commitIndex);
  }

  function CaughtUp(s: Server, t: nat): Server {
    if t > s.currentTerm then StepDown(s, t) else s
  }

  lemma RequestVoteSeen(r: Replicas, members: seq<ServerId>, s: Server, ev: Event)
    requires Shows(r, s) && ev.ReceiveVoteRequest? && !ev.withhold && ev.vreq.candidate != 0
    requires s.role == Leader ==> s.votedFor != 0
    ensures var s', s1 := HandleRequestVote(s, ev.vreq, ev.withhold).0, CaughtUp(s, ev.vreq.term);
            var r1 := Advance(r, s.id, s1.currentTerm);
            s' != s ==> SeenAfter(r, members, s, s', ev)
                        == if s' == s1 then r1 else CastVote(r1, s.id, ev.vreq.candidate, s1.currentTerm)
  {
    SameMap(r.terms, s.id);
    SameMap(r.logs, s.id);
  }

  lemma HandleRequestVoteKept(r: Replicas, members: seq<ServerId>, s: Server, ev: Event)
    requires Ready(r, members, s) && ev.ReceiveVoteRequest?
    requires MessageLogOk(r, members, VoteReq(s.id, ev.vreq)) && MessageOk(Record(r), members, VoteReq(s.id, ev.vreq))
    ensures var s' := HandleRequestVote(s, ev.vreq, ev.withhold).0;
            Kept(r, SeenAfter(r, members, s, s', ev), members, s')
  {
    hide Inv, CommitOk, ElectionsOk, SeenAfter, CastVote;
    var s' := HandleRequestVote(s, ev.vreq, ev.withhold).0;
    var r' := SeenAfter(r, members, s, s', ev);
    var s1 := CaughtUp(s, ev.vreq.term);
    var r1 := Advance(r, s.id, s1.currentTerm);
    if s' == s {
      LeaderUnchanged(r, members, s, ev);
    } else {
      RequestVoteSeen(r, members, s, ev);
      CaughtUpReady(r, members, s, ev.vreq.term);
      if s' != s1 {
        GiveVoteKept(r1, members, s1, ev.vreq);
        UntouchedTwice(r, r1, r', s.id);
      }
    }
  }

  lemma CaughtUpReady(r: Replicas, members: seq<ServerId>, s: Server, t: nat)
    requires Ready(r, members, s)
    ensures var s1 := CaughtUp(s, t);
            var r1 := Advance(r, s.id, s1.currentTerm);
            Ready(r1, members, s1) && Untouched(r, r1, s.id)
  {
    hide Inv, CommitOk, ServerOk, ElectionsOk;
    SameMap(r.terms, s.id);
    if t > s.currentTerm {
      StepDownReady(r, members, s, t);
    }
  }

  /** A step that changes nothing the history watches changes nothing in it. */
  lemma QuietSeen(r: Replicas, members: seq<ServerId>, s: Server, s': Server, ev: Event)
    requires Shows(r, s) && !ev.ReceiveAppend? && (s.role == Leader ==> LeaderOk(r, s))
    requires s'.log == s.log && s'.currentTerm == s.currentTerm && s'.votedFor == s.votedFor
    requires s'.role == Leader ==> s.role == Leader
    ensures SeenAfter(r, members, s, s', ev) == r
  {
    SameMap(r.terms, s.id);
    SameMap(r.logs, s.id);
    if s'.role == Leader {
      var e := r.elections[s.currentTerm];
      assert e.(log := s.log) == e;
      assert r.elections[s.currentTerm := e] == r.elections;
      assert r.held[At(s.id, s.currentTerm) := |s.log|] == r.held;
    }
  }

  lemma LeaderUnchanged(r: Replicas, members: seq<ServerId>, s: Server, ev: Event)
    requires Ready(r, members, s) && !ev.ReceiveAppend?
    ensures SeenAfter(r, members, s, s, ev) == r
  {
    hide Inv, CommitOk, ServerOk, ElectionsOk;
    QuietSeen(r, members, s, s, ev);
  }

  lemma StepDownSeen(r: Replicas, members: seq<ServerId>, s: Server, t: nat, ev: Event)
    requires Shows(r, s) && s.currentTerm < t && !ev.ReceiveAppend?
    ensures SeenAfter(r, members, s, StepDown(s, t), ev) == Advance(r, s.id, t)
  {
    SameMap(r.logs, s.id);
  }

  function WithVote(s: Server, p: ServerId, granted: bool): Server
    requires p in s.peers
  {
    var q := s.peers[p].(requestVoteDone := true);
    s.(peers := s.peers[p := if granted then q.(haveVote := true) else q])
  }

  lemma WithVoteReady(r: Replicas, members: seq<ServerId>, s: Server, p: ServerId, granted: bool)
    requires Ready(r, members, s) && s.role == Candidate && p in s.peers
    requires granted ==> VotedFor(Record(r), p, s.currentTerm, s.id)
    ensures Ready(r, members, WithVote(s, p, granted))
  {
    hide Inv, CommitOk, ElectionsOk;
    var s1 := WithVote(s, p, granted);
    assert forall m | m in members && HasVoteOf(s1, m) :: HasVoteOf(s, m) || (granted && m == p);
  }

  lemma ElectedSeen(r: Replicas, members: seq<ServerId>, s: Server, s1: Server, ev: Event)
    requires Shows(r, s) && s.role == Candidate && !ev.ReceiveAppend? && s1 == s.(peers := s1.peers)
    ensures SeenAfter(r, members, s, BecomeLeader(s1), ev)
            == Elect(r, s.id, s.currentTerm, VotersAmong(s1, members), Entry(s.currentTerm, Noop))
  {
    SameMap(r.terms, s.id);
    assert VotersAmong(BecomeLeader(s1), members) == VotersAmong(s1, members);
  }

  lemma HandleVoteReplyKept(r: Replicas, members: seq<ServerId>, s: Server, ev: Event)
    requires Ready(r, members, s) && ev.ReceiveVoteReply? && ev.vreq.candidate == s.id
    requires MessageOk(Record(r), members, VoteRep(ev.peer, ev.vreq, ev.vresp))
    ensures var s' := HandleVoteReply(s, ev.peer, ev.vreq, ev.vresp);
            Kept(r, SeenAfter(r, members, s, s', ev), members, s')
  {
    hide Inv, CommitOk, ServerOk, ElectionsOk, HasQuorum, SeenAfter, Elect, BecomeLeader;
    if s.currentTerm != ev.vreq.term || s.role != Candidate || ev.peer !in s.peers {
      LeaderUnchanged(r, members, s, ev);
    } else if ev.vresp.term > s.currentTerm {
      StepDownReady(r, members, s, ev.vresp.term);
      StepDownSeen(r, members, s, ev.vresp.term, ev);
    } else {
      var s1 := WithVote(s, ev.peer, ev.vresp.granted);
      WithVoteReady(r, members, s, ev.peer, ev.vresp.granted);
      if ev.vresp.granted && HasQuorum(s1) {
        BecomeLeaderKept(r, members, s1);
        ElectedSeen(r, members, s, s1, ev);
      } else {
        QuietSeen(r, members, s, s1, ev);
      }
    }
  }

  lemma ReplicateSeen(r: Replicas, members: seq<ServerId>, s: Server, ev: Event)
    requires Shows(r, s) && s.role == Leader && LeaderOk(r, s) && ev.ClientAppend?
    ensures SeenAfter(r, members, s, Replicate(s, ev.blob), ev)
            == Extend(r, s.id, s.currentTerm, Entry(s.currentTerm, Data(ev.blob)))
  {
    SameMap(r.terms, s.id);
  }

  lemma ReplicateKept(r: Replicas, members: seq<ServerId>, s: Server, ev: Event)
    requires Ready(r, members, s) && s.role == Leader && ev.ClientAppend?
    ensures var s' := Replicate(s, ev.blob);
            Kept(r, SeenAfter(r, members, s, s', ev), members, s')
  {
    hide Inv, CommitOk, ServerOk, ElectionsOk, SeenAfter;
    var e := Entry(s.currentTerm, Data(ev.blob));
    ReplicateSeen(r, members, s, ev);
    ExtendKeepsInv(r, members, s.id, s.currentTerm, e);
    var r' := Extend(r, s.id, s.currentTerm, e);
    CommitBounded(r, members, s.log, s.currentTerm, s.commitIndex);
    CommitStays(r, r', members, s.log, s.log + [e], s.currentTerm, s.currentTerm, s.commitIndex);
  }

  // ----- appending at a follower -----

  /** What a server has committed, the leader of its term has too. */
  lemma LeaderHasCommitted(r: Replicas, members: seq<ServerId>, log: Log, t: nat, index: nat)
    requires Inv(r, members) && t in r.elections && CommitOk(r, members, log, t, index)
    ensures index <= |r.elections[t].log| && log[..index] == r.elections[t].log[..index]
  {
    hide LogsInv, VotesInv, LogKeeps, VoteKeeps, Committed;
    if index > 0 {
      var u: nat, n: nat :| CommitWitness(r, members, log, t, index, u, n);
      CommittedShape(r, members, u, n);
      if u < t {
        LeaderCompleteness(r, members, u, n, t);
      }
      assert r.elections[u].log[..n] <= r.elections[t].log;
      assert log[..index] == r.elections[u].log[..n][..index];
    }
  }

  lemma CommittedShape(r: Replicas, members: seq<ServerId>, u: nat, n: nat)
    requires Committed(r, members, u, n)
    ensures u in r.elections && 1 <= n <= |r.elections[u].log|
  {
  }

  /** The request gives the log of term t's leader from prevLogIndex on, and the server may take it. */
  lemma RequestMayBeAccepted(r: Replicas, members: seq<ServerId>, s: Server, req: AppendRequest)
    requires Shows(r, s) && RequestOk(r, members, req) && req.term == s.currentTerm && HasPrevious(s.log, req)
    ensures MayAccept(r, s.id, req.term, req.prevLogIndex, |req.entries|)
    ensures Merge(s.log, req.prevLogIndex, req.entries)
            == Accept(r, s.id, req.term, req.prevLogIndex, |req.entries|).logs[s.id]
  {
    var prev, log := req.prevLogIndex, r.elections[req.term].log;
    if prev > 0 {
      assert LastTerm(log[..prev]) == log[prev - 1].term;
    }
  }

  /** After accepting, both the old commit index and the request's are true of the new log. */
  lemma AcceptedCommits(r: Replicas, members: seq<ServerId>, s: Server, req: AppendRequest)
    requires Inv(r, members) && Shows(r, s) && RequestOk(r, members, req) && req.term == s.currentTerm
    requires HasPrevious(s.log, req) && CommitOk(r, members, s.log, s.currentTerm, s.commitIndex)
    requires MayAccept(r, s.id, req.term, req.prevLogIndex, |req.entries|)
    ensures var r' := Accept(r, s.id, req.term, req.prevLogIndex, |req.entries|);
            CommitOk(r', members, r'.logs[s.id], req.term, Max(s.commitIndex, req.commitIndex))
    ensures s.log[..s.commitIndex] <= Accept(r, s.id, req.term, req.prevLogIndex, |req.entries|).logs[s.id]
  {
    hide Inv, CommitOk, GoodLog, Matching, Merge, Grows, HeldGrows;
    var t, prev, count := req.term, req.prevLogIndex, |req.entries|;
    var leaderLog := r.elections[t].log;
    var r' := Accept(r, s.id, t, prev, count);
    var log' := r'.logs[s.id];
    AcceptedPrefix(r, members, s.id, t, prev, count);
    AcceptedKeepsCommitted(r, members, s, req);
    AcceptGrows(r, s.id, t, prev, count);
    CommitBounded(r, members, s.log, t, s.commitIndex);
    if s.commitIndex >= req.commitIndex {
      CommitStays(r, r', members, s.log, log', t, t, s.commitIndex);
    } else {
      assert log'[..prev + count] == leaderLog[..prev + count];
      assert log'[..req.commitIndex] == leaderLog[..req.commitIndex];
      CommitStays(r, r', members, leaderLog, log', t, t, req.commitIndex);
    }
  }

  lemma AcceptGrows(r: Replicas, v: ServerId, t: nat, prev: nat, count: nat)
    requires v in r.logs && v in r.terms && MayAccept(r, v, t, prev, count)
    ensures Grows(r, Accept(r, v, t, prev, count)) && HeldGrows(r, Accept(r, v, t, prev, count))
  {
    hide Merge;
  }

  /** What the server counts as committed survives the merge. */
  lemma AcceptedKeepsCommitted(r: Replicas, members: seq<ServerId>, s: Server, req: AppendRequest)
    requires Inv(r, members) && Shows(r, s) && RequestOk(r, members, req) && req.term == s.currentTerm
    requires HasPrevious(s.log, req) && CommitOk(r, members, s.log, s.currentTerm, s.commitIndex)
    requires MayAccept(r, s.id, req.term, req.prevLogIndex, |req.entries|)
    ensures s.commitIndex <= |s.log|
    ensures s.log[..s.commitIndex] <= Accept(r, s.id, req.term, req.prevLogIndex, |req.entries|).logs[s.id]
  {
    hide Inv, CommitOk, GoodLog, Matching, Merge;
    var t, prev, count := req.term, req.prevLogIndex, |req.entries|;
    AcceptMatches(r, members, s.id, t, prev, count);
    LeaderHasCommitted(r, members, s.log, t, s.commitIndex);
    CommitBounded(r, members, s.log, t, s.commitIndex);
    MergeKeepsCommonPrefix(s.log, prev, count, r.elections[t].log, s.log[..s.commitIndex]);
  }

  lemma SamePrefix(a: Log, b: Log, n: nat)
    requires n <= |a| && n <= |b| && a[..n] == b[..n]
    ensures forall i | 0 <= i < n :: a[i] == b[i]
  {
    forall i | 0 <= i < n ensures a[i] == b[i] {
      assert a[..n][i] == b[..n][i];
    }
  }

  /** The assertion before a truncation holds: no committed entry is ever in conflict with a request. */
  lemma TruncationAssertionHolds(sys: System, v: ServerId, req: AppendRequest, i: nat)
    requires ElectionInv(sys) && ReplicationInv(sys) && v in sys.servers && AppendReq(v, req) in sys.network
    requires req.term >= sys.servers[v].currentTerm && HasPrevious(sys.servers[v].log, req)
    requires req.prevLogIndex <= i < req.prevLogIndex + |req.entries| && i < |sys.servers[v].log|
    requires sys.servers[v].log[i].term != req.entries[i - req.prevLogIndex].term
    ensures sys.servers[v].commitIndex <= i
  {
    hide Inv, CommitOk;
    var r, s := Seen(sys), sys.servers[v];
    assert ServerLogOk(r, sys.members, s) && MessageLogOk(r, sys.members, AppendReq(v, req));
    CommitBounded(r, sys.members, s.log, s.currentTerm, s.commitIndex);
    CommitStays(r, r, sys.members, s.log, s.log, s.currentTerm, req.term, s.commitIndex);
    LeaderHasCommitted(r, sys.members, s.log, req.term, s.commitIndex);
    assert req.entries[i - req.prevLogIndex] == r.elections[req.term].log[i];
    SamePrefix(s.log, r.elections[req.term].log, s.commitIndex);
  }

  lemma AppendSeen(r: Replicas, members: seq<ServerId>, s: Server, ev: Event)
    requires Shows(r, s) && ev.ReceiveAppend? && ev.areq.term >= s.currentTerm
    requires HasPrevious(s.log, ev.areq)
    requires RequestMayBeTaken(r, s, ev.areq)
    ensures SeenAfter(r, members, s, HandleAppendEntries(s, ev.areq).0, ev)
            == Accept(Advance(r, s.id, ev.areq.term), s.id, ev.areq.term, ev.areq.prevLogIndex, |ev.areq.entries|)
  {
    hide Merge, LastTerm;
  }

  ghost predicate RequestMayBeTaken(r: Replicas, s: Server, req: AppendRequest) {
    && s.id in r.logs && req.term in r.elections && req.prevLogIndex <= |r.logs[s.id]|
    && req.prevLogIndex + |req.entries| <= |r.elections[req.term].log|
    && req.entries == r.elections[req.term].log[req.prevLogIndex..req.prevLogIndex + |req.entries|]
  }

  lemma RejectedSeen(r: Replicas, members: seq<ServerId>, s: Server, ev: Event)
    requires Shows(r, s) && ev.ReceiveAppend? && !HandleAppendEntries(s, ev.areq).1.success
    requires s.role == Leader ==> LeaderOk(r, s)
    ensures SeenAfter(r, members, s, HandleAppendEntries(s, ev.areq).0, ev)
            == Advance(r, s.id, Max(s.currentTerm, ev.areq.term))
  {
    SameMap(r.terms, s.id);
    SameMap(r.logs, s.id);
    if s.role == Leader && ev.areq.term < s.currentTerm {
      var e := r.elections[s.currentTerm];
      assert e.(log := s.log) == e;
      assert r.elections[s.currentTerm := e] == r.elections;
      assert r.held[At(s.id, s.currentTerm) := |s.log|] == r.held;
    }
  }

  lemma HandleAppendEntriesKept(r: Replicas, members: seq<ServerId>, s: Server, ev: Event)
    requires Ready(r, members, s) && ev.ReceiveAppend? && RequestOk(r, members, ev.areq)
    ensures var s' := HandleAppendEntries(s, ev.areq).0;
            Kept(r, SeenAfter(r, members, s, s', ev), members, s')
  {
    hide Inv, CommitOk, ServerOk, ElectionsOk, SeenAfter, RequestOk, HasPrevious, Accept, Untouched;
    var req := ev.areq;
    var s' := HandleAppendEntries(s, req).0;
    if req.term < s.currentTerm {
      RejectedSeen(r, members, s, ev);
      CaughtUpReady(r, members, s, s.currentTerm);
    } else {
      var r1, s1 := Advance(r, s.id, req.term), StepDown(s, req.term);
      StepDownReady(r, members, s, req.term);
      if HasPrevious(s.log, req) {
        AcceptingKept(r, r1, members, s, s1, ev);
      } else {
        RejectedSeen(r, members, s, ev);
      }
    }
  }

  lemma AcceptingKept(r: Replicas, r1: Replicas, members: seq<ServerId>, s: Server, s1: Server, ev: Event)
    requires ev.ReceiveAppend? && s.currentTerm <= ev.areq.term && HasPrevious(s.log, ev.areq)
    requires Shows(r, s) && RequestOk(r, members, ev.areq)
    requires r1 == Advance(r, s.id, ev.areq.term) && s1 == StepDown(s, ev.areq.term)
    requires Ready(r1, members, s1) && Untouched(r, r1, s.id)
    ensures var s' := HandleAppendEntries(s, ev.areq).0;
            Kept(r, SeenAfter(r, members, s, s', ev), members, s')
  {
    hide Inv, CommitOk, ServerOk, ElectionsOk, SeenAfter, HasPrevious, Untouched;
    var req := ev.areq;
    var s' := HandleAppendEntries(s, req).0;
    RequestCarries(r, r1, members, req);
    RequestMayBeAccepted(r1, members, s1, req);
    AcceptedCommits(r1, members, s1, req);
    AcceptKeepsInv(r1, members, s.id, req.term, req.prevLogIndex, |req.entries|);
    AcceptUntouched(r1, members, s.id, req.term, req.prevLogIndex, |req.entries|);
    AppendSeen(r, members, s, ev);
    UntouchedTwice(r, r1, SeenAfter(r, members, s, s', ev), s.id);
  }

  lemma RequestCarries(r: Replicas, r1: Replicas, members: seq<ServerId>, req: AppendRequest)
    requires RequestOk(r, members, req) && r1 == r.(terms := r1.terms)
    ensures RequestOk(r1, members, req)
  {
    hide CommitOk;
    var log := r.elections[req.term].log;
    CommitStays(r, r1, members, log, log, req.term, req.term, req.commitIndex);
  }

  lemma AcceptUntouched(r: Replicas, members: seq<ServerId>, v: ServerId, t: nat, prev: nat, count: nat)
    requires v in r.logs && v in r.terms && MayAccept(r, v, t, prev, count)
    ensures Untouched(r, Accept(r, v, t, prev, count), v)
  {
  }

  // ----- committing at a leader -----

  /** The servers a leader counts when it advances its commit index. */
  function Agreeing(s: Server, members: seq<ServerId>, index: nat): set<ServerId> {
    set m | m in members && AgreeIndex(s, m) >= index
  }

  lemma AgreedQuorum(s: Server, members: seq<ServerId>)
    requires Distinct(members) && members != []
    ensures IsQuorum(members, Agreeing(s, members, QuorumMin(AgreeIndexes(s, members))))
  {
    var values := AgreeIndexes(s, members);
    var agreed := QuorumMin(values);
    var yes := Agreeing(s, members, agreed);
    QuorumMinIsGreatest(values, agreed);
    assert AtLeast(values, agreed) == Answers(members, yes);
    MajorityIsQuorum(members, yes);
    assert yes * Members(members) == yes;
  }

  /** What a leader finds agreed and of its own term is committed. */
  lemma AgreedIsCommitted(r: Replicas, members: seq<ServerId>, s: Server, n: nat)
    requires Distinct(members) && members != [] && s.role == Leader && LeaderOk(r, s)
    requires n == QuorumMin(AgreeIndexes(s, members)) && EntryIsCurrent(s, n)
    ensures Committed(r, members, s.currentTerm, n)
  {
    AgreedQuorum(s, members);
    var q := Agreeing(s, members, n);
    forall m | m in q ensures At(m, s.currentTerm) in r.held && r.held[At(m, s.currentTerm)] >= n {
      assert AgreeIndex(s, m) <= HeldAt(r, At(m, s.currentTerm));
    }
    assert HeldBy(r, members, q, s.currentTerm, n);
  }

  /** The assertion that the new commit index is inside the log holds. */
  lemma CommitInsideLog(r: Replicas, members: seq<ServerId>, s: Server)
    requires Inv(r, members) && members != [] && s.role == Leader && LeaderOk(r, s)
    ensures QuorumMin(AgreeIndexes(s, members)) <= |s.log|
  {
    AgreedQuorum(s, members);
    var n := QuorumMin(AgreeIndexes(s, members));
    MemberCount(members);
    var m :| m in Agreeing(s, members, n);
    assert n <= HeldAt(r, At(m, s.currentTerm));
  }

  lemma AdvanceCommitReady(r: Replicas, members: seq<ServerId>, s: Server)
    requires Ready(r, members, s)
    ensures ServerLogOk(r, members, AdvanceCommit(s))
    ensures AdvanceCommit(s) == s.(commitIndex := AdvanceCommit(s).commitIndex)
    ensures AdvanceCommit(s).commitIndex >= s.commitIndex
  {
    hide Inv, Committed, QuorumMin, ElectionsOk;
    var n := QuorumMin(AgreeIndexes(s, members));
    if s.role == Leader {
      assert CurrentMembers(s) == members;
      if EntryIsCurrent(s, n) {
        AgreedIsCommitted(r, members, s, n);
        assert CommitWitness(r, members, s.log, s.currentTerm, n, s.currentTerm, n);
      }
    }
  }

  lemma CommitSeen(r: Replicas, members: seq<ServerId>, s: Server, s1: Server, ev: Event)
    requires Ready(r, members, s) && Ready(r, members, s1) && !ev.ReceiveAppend?
    requires s1.log == s.log && s1.currentTerm == s.currentTerm && s1.votedFor == s.votedFor && s1.role == s.role
    requires s1.id == s.id
    ensures Kept(r, SeenAfter(r, members, s, AdvanceCommit(s1), ev), members, AdvanceCommit(s1))
  {
    hide Inv, CommitOk, ElectionsOk, ServerOk, AdvanceCommit;
    AdvanceCommitReady(r, members, s1);
    QuietSeen(r, members, s, AdvanceCommit(s1), ev);
  }

  lemma AgreeReady(r: Replicas, members: seq<ServerId>, s: Server, p: ServerId, q: Peer)
    requires Ready(r, members, s) && p in s.peers && q.haveVote == s.peers[p].haveVote
    requires s.role == Leader ==> p == s.id || q.lastAgreeIndex <= HeldAt(r, At(p, s.currentTerm))
    ensures Ready(r, members, s.(peers := s.peers[p := q]))
  {
    hide Inv, CommitOk, ElectionsOk;
    AgreementOk(Record(r), members, s, p, q);
    hide ServerOk;
  }

  lemma HandleAppendReplyKept(r: Replicas, members: seq<ServerId>, s: Server, ev: Event)
    requires Ready(r, members, s) && ev.ReceiveAppendReply?
    requires MessageLogOk(r, members, AppendRep(ev.peer, ev.areq, ev.aresp))
    ensures var s' := HandleAppendReply(s, ev.peer, ev.areq, ev.aresp);
            Kept(r, SeenAfter(r, members, s, s', ev), members, s')
  {
    hide Inv, CommitOk, ServerOk, ElectionsOk, SeenAfter, AdvanceCommit;
    var p, resp := ev.peer, ev.aresp;
    if p !in s.peers || resp.term < s.currentTerm || (resp.term == s.currentTerm && !resp.success) {
      LeaderUnchanged(r, members, s, ev);
    } else if resp.term > s.currentTerm {
      StepDownReady(r, members, s, resp.term);
      StepDownSeen(r, members, s, resp.term, ev);
    } else {
      var end := ev.areq.prevLogIndex + |ev.areq.entries|;
      var q := if s.peers[p].lastAgreeIndex > end then s.peers[p].(forceHeartbeat := false)
               else s.peers[p].(lastAgreeIndex := end, forceHeartbeat := false);
      AgreeReady(r, members, s, p, q);
      if s.peers[p].lastAgreeIndex > end {
        QuietSeen(r, members, s, s.(peers := s.peers[p := q]), ev);
      } else {
        CommitSeen(r, members, s, s.(peers := s.peers[p := q]), ev);
      }
    }
  }

  lemma SyncReady(r: Replicas, members: seq<ServerId>, s: Server, queued: bool, pending: Option<PendingSync>, synced: nat)
    requires Ready(r, members, s)
    requires s.role == Leader ==> synced <= |s.log|
    requires pending.Some? ==> pending.value.term <= s.currentTerm
    requires pending.Some? && s.role == Candidate ==> pending.value.term < s.currentTerm
    requires pending.Some? && s.role == Leader && pending.value.term == s.currentTerm ==> pending.value.lastIndex <= |s.log|
    ensures Ready(r, members, s.(logSyncQueued := queued, pendingSync := pending, lastSyncedIndex := synced))
  {
    hide Inv, CommitOk, ElectionsOk;
  }

  lemma DiskSyncKept(r: Replicas, members: seq<ServerId>, s: Server, ev: Event)
    requires Ready(r, members, s) && EnabledAt(s, ev) && (ev.DiskSyncBegin? || ev.DiskSyncEnd?)
    ensures Kept(r, SeenAfter(r, members, s, After(s, ev), ev), members, After(s, ev))
  {
    hide Inv, CommitOk, ServerOk, ElectionsOk, SeenAfter, AdvanceCommit;
    if ev.DiskSyncBegin? {
      var s1 := BeginSync(s);
      SyncReady(r, members, s, false, s1.pendingSync, s.lastSyncedIndex);
      QuietSeen(r, members, s, s1, ev);
    } else {
      var sync := s.pendingSync.value;
      if s.role == Leader && s.currentTerm == sync.term {
        SyncReady(r, members, s, s.logSyncQueued, None, sync.lastIndex);
        CommitSeen(r, members, s, s.(pendingSync := None, lastSyncedIndex := sync.lastIndex), ev);
      } else {
        SyncReady(r, members, s, s.logSyncQueued, None, s.lastSyncedIndex);
        QuietSeen(r, members, s, s.(pendingSync := None), ev);
      }
    }
  }

  // ----- messages sent -----

  lemma RequestIsOk(r: Replicas, members: seq<ServerId>, s: Server, p: ServerId, next: nat)
    requires LeaderOk(r, s) && CommitOk(r, members, s.log, s.currentTerm, s.commitIndex)
    requires p in s.peers && 1 <= next <= |s.log| + 1
    ensures RequestOk(r, members, MakeAppendRequest(s, p, next))
  {
    var req := MakeAppendRequest(s, p, next);
    if req.commitIndex > 0 {
      var u: nat, n: nat :| CommitWitness(r, members, s.log, s.currentTerm, s.commitIndex, u, n);
      assert s.log[..req.commitIndex] == s.log[..s.commitIndex][..req.commitIndex];
      assert r.elections[u].log[..req.commitIndex] == r.elections[u].log[..s.commitIndex][..req.commitIndex];
      assert CommitWitness(r, members, s.log, s.currentTerm, req.commitIndex, u, n);
    }
  }

  lemma SentLogOk(r: Replicas, members: seq<ServerId>, s: Server, ev: Event, m: Message)
    requires Ready(r, members, s) && EnabledAt(s, ev) && ev.at == s.id && m in Sent(s, ev)
    ensures MessageLogOk(SeenAfter(r, members, s, After(s, ev), ev), members, m)
  {
    hide Inv, CommitOk, ElectionsOk;
    if ev.SendAppend? {
      RequestIsOk(r, members, s, ev.peer, ev.nextIndex);
      LeaderUnchanged(r, members, s, ev);
    } else if ev.SendVoteRequest? {
      LeaderUnchanged(r, members, s, ev);
    }
  }

  // ----- every step -----

  lemma ServerReady(sys: System, v: ServerId)
    requires ElectionInv(sys) && ReplicationInv(sys) && v in sys.servers
    ensures sys.servers[v].id == v && Ready(Seen(sys), sys.members, sys.servers[v])
  {
    hide Inv, CommitOk, LeaderOk;
    assert ServerOk(sys.history, sys.members, sys.servers[v], v);
    assert Record(Seen(sys)) == sys.history;
    assert ServerLogOk(Seen(sys), sys.members, sys.servers[v]);
  }

  lemma StepKept(sys: System, ev: Event)
    requires ElectionInv(sys) && ReplicationInv(sys) && Enabled(sys, ev) && !ev.Crash?
    ensures var s, sys' := sys.servers[ev.at], Next(sys, ev);
            Kept(Seen(sys), Seen(sys'), sys.members, sys'.servers[ev.at])
  {
    hide Inv, CommitOk, ServerOk, ElectionsOk, SeenAfter, Kept, Ready;
    var r, s, members := Seen(sys), sys.servers[ev.at], sys.members;
    ServerReady(sys, ev.at);
    SeenNext(sys, ev);
    assert Record(r) == sys.history;
    match ev {
      case Timeout(_) => TimeoutKept(r, members, s, ev);
      case ReceiveVoteRequest(_, req, _) =>
        assert VoteReq(s.id, req) in sys.network;
        HandleRequestVoteKept(r, members, s, ev);
      case ReceiveVoteReply(_, p, req, resp) =>
        assert VoteRep(p, req, resp) in sys.network;
        HandleVoteReplyKept(r, members, s, ev);
      case ClientAppend(_, _) => ReplicateKept(r, members, s, ev);
      case ReceiveAppend(_, req) =>
        assert AppendReq(s.id, req) in sys.network;
        HandleAppendEntriesKept(r, members, s, ev);
      case ReceiveAppendReply(_, p, req, resp) =>
        assert AppendRep(p, req, resp) in sys.network;
        HandleAppendReplyKept(r, members, s, ev);
      case SendVoteRequest(_, _) => UnchangedKept(r, members, s, ev);
      case SendAppend(_, _, _) => UnchangedKept(r, members, s, ev);
      case _ => DiskSyncKept(r, members, s, ev);
    }
  }

  lemma UnchangedKept(r: Replicas, members: seq<ServerId>, s: Server, ev: Event)
    requires Ready(r, members, s) && !ev.ReceiveAppend?
    ensures Kept(r, SeenAfter(r, members, s, s, ev), members, s)
  {
    hide Inv, CommitOk, ServerOk, ElectionsOk, SeenAfter;
    LeaderUnchanged(r, members, s, ev);
  }

  /** Every step of a run without crashes keeps the invariant. */
  lemma StepKeepsReplicationInv(sys: System, ev: Event)
    requires ElectionInv(sys) && ReplicationInv(sys) && Enabled(sys, ev) && !ev.Crash?
    ensures ReplicationInv(Next(sys, ev))
  {
    hide Inv, CommitOk, ServerLogOk, MessageLogOk, Untouched, Ready, ServerOk;
    var sys' := Next(sys, ev);
    var r, r', members := Seen(sys), Seen(sys'), sys.members;
    ServerReady(sys, ev.at);
    StepKept(sys, ev);
    AfterKeepsId(sys.servers[ev.at], ev);
    forall v | v in sys'.servers ensures ServerLogOk(r', members, sys'.servers[v]) {
      if v != ev.at {
        ServerReady(sys, v);
        OtherServerStaysOk(r, r', members, sys.servers[v], ev.at);
      }
    }
    forall m | m in sys'.network ensures MessageLogOk(r', members, m) {
      if m in sys.network {
        MessageStaysOk(r, r', members, m, ev.at);
      } else {
        SeenNext(sys, ev);
        SentLogOk(r, members, sys.servers[ev.at], ev, m);
      }
    }
  }

  lemma AfterKeepsId(s: Server, ev: Event)
    requires EnabledAt(s, ev)
    ensures After(s, ev).id == s.id
  {
    hide HasQuorum, QuorumMin, Merge;
  }

  /** The initial view: everybody in term 1 with the same first entry, which all hold. */
  ghost predicate InitialView(r: Replicas, members: seq<ServerId>, first: Log) {
    && r.terms.Keys == Members(members) && r.logs.Keys == Members(members)
    && (forall v | v in r.logs :: r.logs[v] == first && r.terms[v] == 1)
    && r.votes == map[] && r.elections == map[1 := Election(0, {}, [], first)]
    && (forall k | k in r.held :: k.server in r.terms && k.term == 1 && r.held[k] == 1)
    && |first| == 1 && first[0].term == 1
  }

  lemma InitialViewInv(r: Replicas, members: seq<ServerId>, first: Log)
    requires InitialView(r, members, first) && Distinct(members)
    ensures Inv(r, members)
  {
    hide Lost;
    assert GoodLog(first, r.elections, 1) by {
      assert first[..1] == first;
    }
    assert LogsInv(r) && HeldInv(r);
    forall k, n: nat | k in r.held && n <= r.held[k] ensures Keeps(r, r.logs[k.server], k.term, n) {
      assert first[..n] <= first;
    }
  }

  lemma InitHistoryInv(sys: System)
    requires Init(sys)
    ensures Inv(Seen(sys), sys.members)
  {
    hide Inv;
    assert forall v | v in sys.servers :: sys.servers[v] == InitialServer(sys.members, v);
    InitialViewInv(Seen(sys), sys.members, [Bootstrap(sys.members)]);
  }

  lemma InitReplicationInv(sys: System)
    requires Init(sys)
    ensures ReplicationInv(sys)
  {
    hide Inv;
    InitHistoryInv(sys);
    assert forall v | v in sys.servers :: sys.servers[v] == InitialServer(sys.members, v);
  }

  lemma {:induction false} RunKeepsReplicationInv(run: Run, i: nat)
    requires IsRun(run) && CrashFree(run) && i < |run.states|
    ensures ElectionInv(run.states[i]) && ReplicationInv(run.states[i])
  {
    hide ElectionInv, ReplicationInv;
    RunKeepsElectionInv(run, i);
    if i == 0 {
      InitReplicationInv(run.states[0]);
    } else {
      RunKeepsReplicationInv(run, i - 1);
      StepKeepsReplicationInv(run.states[i - 1], run.events[i - 1]);
    }
  }
}
