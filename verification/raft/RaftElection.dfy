/** Election safety: at most one server ever leads in a term, also when servers crash and restart with
    their durable term and vote. */
module RaftElection {
  import opened Optional
  import opened RaftTypes
  import opened RaftLog
  import opened RaftServer
  import opened Quorum
  import opened RaftHistory
  import opened RaftSystem

  // ----- the invariant -----

  ghost predicate VotedFor(h: History, v: ServerId, t: nat, c: ServerId) {
    At(v, t) in h.votes && h.votes[At(v, t)].candidate == c
  }

  ghost predicate Leads(h: History, t: nat, c: ServerId) {
    t in h.elections && h.elections[t].leader == c
  }

  ghost predicate ServerOk(h: History, members: seq<ServerId>, s: Server, v: ServerId) {
    && s.id == v && v in members && s.currentTerm >= 1
    && s.metadata == Metadata(s.currentTerm, s.votedFor)
    && FixedMembership(s.log, members)
    && (if s.votedFor == 0 then At(v, s.currentTerm) !in h.votes else VotedFor(h, v, s.currentTerm, s.votedFor))
    && (forall b | b in h.votes && b.server == v :: b.term <= s.currentTerm)
    && (forall t | t in h.elections && h.elections[t].leader == v :: t <= s.currentTerm)
    && (s.role != Follower ==> s.votedFor == v && s.currentTerm > 1 && LatestConfiguration(s.log) == Some(members))
    && (s.role != Follower ==> forall m | m in members && HasVoteOf(s, m) :: VotedFor(h, m, s.currentTerm, v))
    && (s.role == Candidate ==> !Leads(h, s.currentTerm, v))
    && (s.role == Leader ==> Leads(h, s.currentTerm, v) && s.leaderId == v)
    && (s.leaderId != 0 ==> Leads(h, s.currentTerm, s.leaderId))
  }

  ghost predicate MessageOk(h: History, members: seq<ServerId>, m: Message) {
    match m
    case VoteReq(_, req) => VotedFor(h, req.candidate, req.term, req.candidate) && req.candidate != 0
    case VoteRep(from, req, resp) => resp.granted ==> VotedFor(h, from, req.term, req.candidate)
    case AppendReq(_, req) => Leads(h, req.term, req.leader) && req.leader != 0 && FixedMembership(req.entries, members)
    case AppendRep(_, _, _) => true
  }

  ghost predicate ElectionsOk(h: History, members: seq<ServerId>) {
    forall t | t in h.elections && t != 1 ::
      && IsQuorum(members, h.elections[t].voters)
      && forall v | v in h.elections[t].voters :: VotedFor(h, v, t, h.elections[t].leader)
  }

  ghost predicate ElectionInv(sys: System) {
    && Distinct(sys.members) && 0 !in sys.members && sys.members != []
    && sys.servers.Keys == Members(sys.members)
    && (forall v | v in sys.servers :: ServerOk(sys.history, sys.members, sys.servers[v], v))
    && (forall m | m in sys.network :: MessageOk(sys.history, sys.members, m))
    && ElectionsOk(sys.history, sys.members)
  }

  // ----- how one server's step changes the history -----

  /** Only server v's own votes and leaderships are added, in its new term. */
  ghost predicate RecordGrows(h: History, h': History, v: ServerId, t: nat) {
    && (forall b | b in h.votes :: b in h'.votes && h'.votes[b] == h.votes[b])
    && (forall b | b in h'.votes && b !in h.votes :: b == At(v, t))
    && (forall u | u in h.elections :: u in h'.elections && h'.elections[u].leader == h.elections[u].leader
                                       && h'.elections[u].voters == h.elections[u].voters
                                       && h'.elections[u].base == h.elections[u].base)
    && (forall u | u in h'.elections && u !in h.elections :: u == t && h'.elections[u].leader == v)
  }

  /** One server's step, seen from the elections: it stays in order, so does the history, and what it
      sends is justified. */
  ghost predicate StepOk(h: History, h': History, members: seq<ServerId>, s: Server, s': Server, sent: set<Message>) {
    && RecordGrows(h, h', s.id, s'.currentTerm)
    && ServerOk(h', members, s', s.id)
    && ElectionsOk(h', members)
    && forall m | m in sent :: MessageOk(h', members, m)
  }

  lemma OthersStayOk(h: History, h': History, members: seq<ServerId>, s: Server, v: ServerId, who: ServerId, t: nat)
    requires ServerOk(h, members, s, v) && RecordGrows(h, h', who, t) && who != v
    ensures ServerOk(h', members, s, v)
  {
  }

  lemma MessagesStayOk(h: History, h': History, members: seq<ServerId>, m: Message, who: ServerId, t: nat)
    requires MessageOk(h, members, m) && RecordGrows(h, h', who, t)
    ensures MessageOk(h', members, m)
  {
  }

  // ----- each handler -----

  /** A step that sets no vote and makes no leader leaves the record of elections as it was. */
  ghost predicate SameRecord(h: History, h': History) {
    && h'.votes == h.votes && h'.elections.Keys == h.elections.Keys
    && forall u | u in h.elections :: h'.elections[u] == h.elections[u].(log := h'.elections[u].log)
  }

  lemma SameRecordOk(h: History, h': History, members: seq<ServerId>, s: Server)
    requires SameRecord(h, h') && ElectionsOk(h, members)
    ensures ElectionsOk(h', members) && RecordGrows(h, h', s.id, s.currentTerm)
    ensures forall v, t, c :: VotedFor(h, v, t, c) <==> VotedFor(h', v, t, c)
    ensures forall t, c :: Leads(h, t, c) <==> Leads(h', t, c)
  {
  }

  lemma StepDownOk(h: History, members: seq<ServerId>, s: Server, t: nat)
    requires ServerOk(h, members, s, s.id) && s.currentTerm <= t
    ensures ServerOk(h, members, StepDown(s, t), s.id)
  {
  }

  /** A quorum's votes rule out that anybody else has led this term. */
  lemma NoRival(h: History, members: seq<ServerId>, s: Server)
    requires Distinct(members) && members != [] && ElectionsOk(h, members) && ServerOk(h, members, s, s.id)
    requires s.role == Candidate && HasQuorum(s)
    ensures s.currentTerm !in h.elections
    ensures IsQuorum(members, VotersAmong(s, members)) && s.id in VotersAmong(s, members)
  {
    var voters := VotersAmong(s, members);
    MajorityIsQuorum(members, voters);
    assert voters * Members(members) == voters;
    if s.currentTerm in h.elections {
      var m := QuorumsIntersect(members, voters, h.elections[s.currentTerm].voters);
      assert false;
    }
  }

  /** Becoming leader with a quorum's votes. */
  lemma BecomeLeaderOk(h: History, h': History, members: seq<ServerId>, s: Server, base: Log)
    requires Distinct(members) && members != [] && ElectionsOk(h, members) && ServerOk(h, members, s, s.id)
    requires s.role == Candidate && HasQuorum(s)
    requires h'.votes == h.votes
    requires h'.elections == h.elections[s.currentTerm := Election(s.id, VotersAmong(BecomeLeader(s), members),
                                                                   base, BecomeLeader(s).log)]
    ensures RecordGrows(h, h', s.id, s.currentTerm)
    ensures ServerOk(h', members, BecomeLeader(s), s.id) && ElectionsOk(h', members)
  {
    NoRival(h, members, s);
    LatestAfterAppend(s.log, Entry(s.currentTerm, Noop));
    assert VotersAmong(BecomeLeader(s), members) == VotersAmong(s, members);
  }

  /** The history after a step in which server s of the system became s'. */
  lemma WatchQuiet(h: History, members: seq<ServerId>, s: Server, s': Server, ev: Event)
    requires ServerOk(h, members, s, s.id)
    requires s'.role == Leader ==> s.role == Leader && s'.currentTerm == s.currentTerm
    requires s'.votedFor == 0 || (s'.votedFor == s.votedFor && s'.currentTerm == s.currentTerm)
    ensures SameRecord(h, Watch(h, members, s, s', ev))
  {
  }

  lemma NewVoteRecord(h: History, h': History, members: seq<ServerId>, v: ServerId, t: nat, vote: Vote)
    requires ElectionsOk(h, members) && At(v, t) !in h.votes
    requires h'.votes == h.votes[At(v, t) := vote] && h'.elections == h.elections
    ensures ElectionsOk(h', members) && RecordGrows(h, h', v, t)
    ensures forall m, u, c :: VotedFor(h, m, u, c) ==> VotedFor(h', m, u, c)
    ensures forall u, c :: Leads(h, u, c) <==> Leads(h', u, c)
  {
  }

  function Stand(s: Server): Server {
    Persist(s.(currentTerm := s.currentTerm + 1, role := Candidate, leaderId := 0, votedFor := s.id,
               peers := BeginRequestVote(s.peers)))
  }

  lemma CandidateOk(h: History, h': History, members: seq<ServerId>, s: Server)
    requires 0 !in members && ElectionsOk(h, members)
    requires ServerOk(h, members, s, s.id) && LatestConfiguration(s.log) == Some(members)
    requires h'.votes == h.votes[At(s.id, s.currentTerm + 1) := Vote(s.id, s.log)] && h'.elections == h.elections
    ensures ServerOk(h', members, Stand(s), s.id) && ElectionsOk(h', members)
    ensures RecordGrows(h, h', s.id, s.currentTerm + 1)
  {
    NewVoteRecord(h, h', members, s.id, s.currentTerm + 1, Vote(s.id, s.log));
    assert forall m | m in members && HasVoteOf(Stand(s), m) :: m == s.id;
  }

  /** The history right after a server has voted for itself in its next term. */
  function SelfVoted(h: History, s: Server): History {
    h.(votes := h.votes[At(s.id, s.currentTerm + 1) := Vote(s.id, s.log)])
  }

  lemma StandOk(h: History, members: seq<ServerId>, s: Server, ev: Event)
    requires Distinct(members) && members != [] && 0 !in members && ElectionsOk(h, members)
    requires ServerOk(h, members, s, s.id) && s.role != Leader && !ev.ReceiveAppend?
    requires LatestConfiguration(s.log) == Some(members) && !HasQuorum(Stand(s))
    ensures StepOk(h, Watch(h, members, s, Stand(s), ev), members, s, Stand(s), {})
  {
    hide HasQuorum, FixedMembership, ElectionsOk;
    CandidateOk(h, SelfVoted(h, s), members, s);
    SameRecordOk(SelfVoted(h, s), Watch(h, members, s, Stand(s), ev), members, Stand(s));
  }

  lemma StandAndWinOk(h: History, members: seq<ServerId>, s: Server, ev: Event)
    requires Distinct(members) && members != [] && 0 !in members && ElectionsOk(h, members)
    requires ServerOk(h, members, s, s.id) && s.role != Leader && !ev.ReceiveAppend?
    requires LatestConfiguration(s.log) == Some(members) && HasQuorum(Stand(s))
    ensures var s' := BecomeLeader(Stand(s)); StepOk(h, Watch(h, members, s, s', ev), members, s, s', {})
  {
    hide HasQuorum, FixedMembership, ElectionsOk, ServerOk, RecordGrows;
    var s' := BecomeLeader(Stand(s));
    var h' := Watch(h, members, s, s', ev);
    CandidateOk(h, SelfVoted(h, s), members, s);
    BecomeLeaderOk(SelfVoted(h, s), h', members, Stand(s), s.log);
    GrowsTwice(h, SelfVoted(h, s), h', s.id, s.currentTerm + 1);
  }

  lemma TimeoutOk(h: History, members: seq<ServerId>, s: Server, ev: Event)
    requires Distinct(members) && members != [] && 0 !in members && ElectionsOk(h, members)
    requires ServerOk(h, members, s, s.id) && s.role != Leader && !ev.ReceiveAppend?
    ensures var s' := StartNewElection(s);
            StepOk(h, Watch(h, members, s, s', ev), members, s, s', {})
  {
    hide HasQuorum, BecomeLeader;
    LatestIsFixed(s.log, members);
    if LatestConfiguration(s.log).None? {
      SameRecordOk(h, Watch(h, members, s, s, ev), members, s);
    } else if HasQuorum(Stand(s)) {
      StandAndWinOk(h, members, s, ev);
    } else {
      StandOk(h, members, s, ev);
    }
  }

  lemma GrowsTwice(h: History, h1: History, h2: History, v: ServerId, t: nat)
    requires RecordGrows(h, h1, v, t) && RecordGrows(h1, h2, v, t)
    ensures RecordGrows(h, h2, v, t)
  {
  }

  /** A server that has not voted in its term gives its vote. */
  lemma GiveVoteOk(h: History, h': History, members: seq<ServerId>, s: Server, c: ServerId, log: Log)
    requires 0 !in members && c != 0 && ElectionsOk(h, members)
    requires ServerOk(h, members, s, s.id) && s.votedFor == 0
    requires h'.votes == h.votes[At(s.id, s.currentTerm) := Vote(c, log)] && h'.elections == h.elections
    ensures var s' := Persist(StepDown(s, s.currentTerm).(votedFor := c));
            ServerOk(h', members, s', s.id) && VotedFor(h', s.id, s.currentTerm, c)
    ensures ElectionsOk(h', members) && RecordGrows(h, h', s.id, s.currentTerm)
  {
    NewVoteRecord(h, h', members, s.id, s.currentTerm, Vote(c, log));
  }

  lemma AnswerVoteOk(h: History, h': History, members: seq<ServerId>, s: Server, req: VoteRequest)
    requires 0 !in members && ElectionsOk(h, members) && ServerOk(h, members, s, s.id)
    requires req.candidate != 0
    requires h'.votes == WatchVote(h.votes, s, HandleRequestVote(s, req, false).0) && h'.elections == h.elections
    ensures var (s', resp) := HandleRequestVote(s, req, false);
            && RecordGrows(h, h', s.id, s'.currentTerm) && ServerOk(h', members, s', s.id) && ElectionsOk(h', members)
            && (resp.granted ==> VotedFor(h', s.id, req.term, req.candidate))
  {
    var s' := HandleRequestVote(s, req, false).0;
    var s1 := if req.term > s.currentTerm then StepDown(s, req.term) else s;
    if req.term > s.currentTerm {
      StepDownOk(h, members, s, req.term);
    }
    if s' == s1 {
      SameRecordServer(h, h', members, s1);
    } else {
      GiveVoteOk(h, h', members, s1, req.candidate, s.log);
    }
  }

  lemma HandleRequestVoteOk(h: History, members: seq<ServerId>, s: Server, ev: Event)
    requires 0 !in members && ElectionsOk(h, members)
    requires ServerOk(h, members, s, s.id) && ev.ReceiveVoteRequest? && ev.at == s.id
    requires MessageOk(h, members, VoteReq(s.id, ev.vreq))
    ensures var s' := HandleRequestVote(s, ev.vreq, ev.withhold).0;
            StepOk(h, Watch(h, members, s, s', ev), members, s, s', Sent(s, ev))
  {
    hide FixedMembership, UpToDate;
    var s' := HandleRequestVote(s, ev.vreq, ev.withhold).0;
    var h' := Watch(h, members, s, s', ev);
    if ev.withhold {
      WatchQuiet(h, members, s, s', ev);
      SameRecordOk(h, h', members, s);
      SameRecordServer(h, h', members, s);
    } else {
      var h1 := h'.(elections := h.elections);
      AnswerVoteOk(h, h1, members, s, ev.vreq);
      assert SameRecord(h1, h');
      SameRecordOk(h1, h', members, s');
      SameRecordServer(h1, h', members, s');
      GrowsTwice(h, h1, h', s.id, s'.currentTerm);
    }
  }

  /** A granted vote, noted. */
  lemma GrantOk(h: History, members: seq<ServerId>, s: Server, p: ServerId)
    requires ServerOk(h, members, s, s.id) && s.role == Candidate && p in s.peers
    requires VotedFor(h, p, s.currentTerm, s.id)
    ensures ServerOk(h, members, s.(peers := s.peers[p := s.peers[p].(requestVoteDone := true, haveVote := true)]), s.id)
  {
    hide FixedMembership, LatestConfiguration;
    var s1 := s.(peers := s.peers[p := s.peers[p].(requestVoteDone := true, haveVote := true)]);
    assert forall m | m in members && HasVoteOf(s1, m) :: HasVoteOf(s, m) || m == p;
  }

  lemma HandleVoteReplyOk(h: History, members: seq<ServerId>, s: Server, ev: Event)
    requires Distinct(members) && members != [] && 0 !in members && ElectionsOk(h, members)
    requires ServerOk(h, members, s, s.id) && ev.ReceiveVoteReply? && ev.vreq.candidate == s.id
    requires MessageOk(h, members, VoteRep(ev.peer, ev.vreq, ev.vresp))
    ensures var s' := HandleVoteReply(s, ev.peer, ev.vreq, ev.vresp);
            StepOk(h, Watch(h, members, s, s', ev), members, s, s', {})
  {
    hide HasQuorum, FixedMembership;
    var s' := HandleVoteReply(s, ev.peer, ev.vreq, ev.vresp);
    var h' := Watch(h, members, s, s', ev);
    if s.currentTerm == ev.vreq.term && s.role == Candidate && ev.peer in s.peers
       && ev.vresp.term <= s.currentTerm && ev.vresp.granted {
      var s1 := s.(peers := s.peers[ev.peer := s.peers[ev.peer].(requestVoteDone := true, haveVote := true)]);
      GrantOk(h, members, s, ev.peer);
      if HasQuorum(s1) {
        BecomeLeaderOk(h, h', members, s1, s.log);
      }
    }
  }

  lemma {:induction false} FixedMembershipMerge(log: Log, prev: nat, entries: seq<Entry>, members: seq<ServerId>)
    requires prev <= |log| && FixedMembership(log, members) && FixedMembership(entries, members)
    ensures FixedMembership(Merge(log, prev, entries), members)
    decreases entries
  {
    if entries != [] && prev < |log| && log[prev].term == entries[0].term {
      FixedMembershipMerge(log, prev + 1, entries[1..], members);
    }
  }

  lemma AppendedOk(h: History, members: seq<ServerId>, s: Server, req: AppendRequest)
    requires 0 !in members && ServerOk(h, members, s, s.id)
    requires MessageOk(h, members, AppendReq(s.id, req))
    ensures ServerOk(h, members, HandleAppendEntries(s, req).0, s.id)
  {
    if req.term >= s.currentTerm {
      StepDownOk(h, members, s, req.term);
      if HasPrevious(s.log, req) {
        FixedMembershipMerge(s.log, req.prevLogIndex, req.entries, members);
      }
    }
  }

  lemma SameRecordServer(h: History, h': History, members: seq<ServerId>, s: Server)
    requires SameRecord(h, h') && ServerOk(h, members, s, s.id)
    ensures ServerOk(h', members, s, s.id)
  {
  }

  lemma HandleAppendEntriesOk(h: History, members: seq<ServerId>, s: Server, ev: Event)
    requires 0 !in members && ElectionsOk(h, members)
    requires ServerOk(h, members, s, s.id) && ev.ReceiveAppend? && ev.at == s.id
    requires MessageOk(h, members, AppendReq(s.id, ev.areq))
    ensures var s' := HandleAppendEntries(s, ev.areq).0;
            StepOk(h, Watch(h, members, s, s', ev), members, s, s', Sent(s, ev))
  {
    var s' := HandleAppendEntries(s, ev.areq).0;
    var h' := Watch(h, members, s, s', ev);
    AppendedOk(h, members, s, ev.areq);
    WatchQuiet(h, members, s, s', ev);
    SameRecordOk(h, h', members, s');
    SameRecordServer(h, h', members, s');
  }

  /** The assertion on leaderId in handleAppendEntries holds: a known leader is the sender. */
  lemma LeaderIdAssertionHolds(sys: System, v: ServerId, req: AppendRequest)
    requires ElectionInv(sys) && v in sys.servers && AppendReq(v, req) in sys.network
    requires req.term >= sys.servers[v].currentTerm
    ensures StepDown(sys.servers[v], req.term).leaderId in {0, req.leader}
  {
    assert ServerOk(sys.history, sys.members, sys.servers[v], v);
    assert MessageOk(sys.history, sys.members, AppendReq(v, req));
  }

  /** Handlers that neither vote nor win: the term may rise and the server may become follower. */
  lemma QuietStepOk(h: History, members: seq<ServerId>, s: Server, s': Server, ev: Event)
    requires 0 !in members && ElectionsOk(h, members) && ServerOk(h, members, s, s.id)
    requires ServerOk(h, members, s', s.id)
    requires s'.role == Leader ==> s.role == Leader && s'.currentTerm == s.currentTerm
    requires s'.votedFor == 0 || (s'.votedFor == s.votedFor && s'.currentTerm == s.currentTerm)
    ensures var h' := Watch(h, members, s, s', ev);
            RecordGrows(h, h', s.id, s'.currentTerm) && ServerOk(h', members, s', s.id) && ElectionsOk(h', members)
    ensures forall m | MessageOk(h, members, m) :: MessageOk(Watch(h, members, s, s', ev), members, m)
  {
    var h' := Watch(h, members, s, s', ev);
    WatchQuiet(h, members, s, s', ev);
    SameRecordOk(h, h', members, s');
    SameRecordServer(h, h', members, s');
  }

  /** A step keeps its server in order and casts no vote. */
  ghost predicate QuietOk(h: History, members: seq<ServerId>, s: Server, s': Server) {
    && ServerOk(h, members, s', s.id)
    && (s'.role == Leader ==> s.role == Leader && s'.currentTerm == s.currentTerm)
    && (s'.votedFor == 0 || (s'.votedFor == s.votedFor && s'.currentTerm == s.currentTerm))
  }

  lemma AdvanceCommitOk(h: History, members: seq<ServerId>, s: Server)
    requires ServerOk(h, members, s, s.id)
    ensures QuietOk(h, members, s, AdvanceCommit(s))
  {
  }

  lemma EndSyncOk(h: History, members: seq<ServerId>, s: Server)
    requires ServerOk(h, members, s, s.id) && s.pendingSync.Some?
    ensures QuietOk(h, members, s, EndSync(s))
  {
    var s1 := s.(pendingSync := None, lastSyncedIndex := s.pendingSync.value.lastIndex);
    assert ServerOk(h, members, s1, s.id);
    AdvanceCommitOk(h, members, s1);
  }

  lemma AgreementOk(h: History, members: seq<ServerId>, s: Server, p: ServerId, q: Peer)
    requires ServerOk(h, members, s, s.id) && p in s.peers && q.haveVote == s.peers[p].haveVote
    ensures QuietOk(h, members, s, s.(peers := s.peers[p := q]))
  {
    var s1 := s.(peers := s.peers[p := q]);
    assert forall m :: HasVoteOf(s1, m) <==> HasVoteOf(s, m);
  }

  lemma HandleAppendReplyOk(h: History, members: seq<ServerId>, s: Server,
                            p: ServerId, req: AppendRequest, resp: AppendResponse)
    requires ServerOk(h, members, s, s.id)
    ensures QuietOk(h, members, s, HandleAppendReply(s, p, req, resp))
  {
    hide AdvanceCommit, FixedMembership;
    if p in s.peers && resp.term > s.currentTerm {
      StepDownOk(h, members, s, resp.term);
    } else if p in s.peers && resp.term == s.currentTerm && resp.success {
      var q := s.peers[p].(lastAgreeIndex := req.prevLogIndex + |req.entries|, forceHeartbeat := false);
      AgreementOk(h, members, s, p, q);
      AgreementOk(h, members, s, p, s.peers[p].(forceHeartbeat := false));
      AdvanceCommitOk(h, members, s.(peers := s.peers[p := q]));
    }
  }

  lemma OtherStepOk(h: History, members: seq<ServerId>, s: Server, ev: Event)
    requires 0 !in members && ElectionsOk(h, members) && ServerOk(h, members, s, s.id) && EnabledAt(s, ev)
    requires !ev.Timeout? && !ev.ReceiveVoteRequest? && !ev.ReceiveVoteReply? && !ev.ReceiveAppend?
    ensures QuietOk(h, members, s, After(s, ev))
  {
    match ev {
      case ClientAppend(_, blob) =>
        LatestAfterAppend(s.log, Entry(s.currentTerm, Data(blob)));
      case DiskSyncEnd(_) =>
        EndSyncOk(h, members, s);
      case ReceiveAppendReply(_, p, req, resp) =>
        HandleAppendReplyOk(h, members, s, p, req, resp);
      case _ =>
    }
  }

  lemma SentIsOk(h: History, members: seq<ServerId>, s: Server, ev: Event)
    requires 0 !in members && ServerOk(h, members, s, s.id) && EnabledAt(s, ev)
    requires ev.SendVoteRequest? || ev.SendAppend?
    ensures forall m | m in Sent(s, ev) :: MessageOk(h, members, m)
  {
  }

  lemma StepIsOk(sys: System, ev: Event)
    requires ElectionInv(sys) && Enabled(sys, ev)
    ensures var s, sys' := sys.servers[ev.at], Next(sys, ev);
            StepOk(sys.history, sys'.history, sys.members, s, sys'.servers[ev.at], Sent(s, ev))
  {
    var s, h, members := sys.servers[ev.at], sys.history, sys.members;
    assert ServerOk(h, members, s, ev.at);
    match ev {
      case Timeout(_) => TimeoutOk(h, members, s, ev);
      case ReceiveVoteRequest(v, req, _) => HandleRequestVoteOk(h, members, s, ev);
      case ReceiveVoteReply(v, p, req, resp) => HandleVoteReplyOk(h, members, s, ev);
      case ReceiveAppend(v, req) => HandleAppendEntriesOk(h, members, s, ev);
      case _ =>
        OtherStepOk(h, members, s, ev);
        QuietStepOk(h, members, s, After(s, ev), ev);
        if ev.SendVoteRequest? || ev.SendAppend? {
          SentIsOk(h, members, s, ev);
        }
    }
  }

  /** Every step keeps the invariant. */
  lemma StepKeepsElectionInv(sys: System, ev: Event)
    requires ElectionInv(sys) && Enabled(sys, ev)
    ensures ElectionInv(Next(sys, ev))
  {
    var sys' := Next(sys, ev);
    var t := sys'.servers[ev.at].currentTerm;
    assert ServerOk(sys.history, sys.members, sys.servers[ev.at], ev.at);
    StepIsOk(sys, ev);
    forall v | v in sys'.servers ensures ServerOk(sys'.history, sys.members, sys'.servers[v], v) {
      if v != ev.at {
        OthersStayOk(sys.history, sys'.history, sys.members, sys.servers[v], v, ev.at, t);
      }
    }
    forall m | m in sys'.network ensures MessageOk(sys'.history, sys.members, m) {
      if m in sys.network {
        MessagesStayOk(sys.history, sys'.history, sys.members, m, ev.at, t);
      }
    }
  }

  lemma InitElectionInv(sys: System)
    requires Init(sys)
    ensures ElectionInv(sys)
  {
    forall v | v in sys.servers ensures ServerOk(sys.history, sys.members, sys.servers[v], v) {
      assert sys.servers[v] == InitialServer(sys.members, v);
    }
  }

  // ----- over whole runs, crashes included -----

  lemma {:induction false} RunKeepsElectionInv(run: Run, i: nat)
    requires IsRun(run) && i < |run.states|
    ensures ElectionInv(run.states[i])
  {
    if i == 0 {
      InitElectionInv(run.states[0]);
    } else {
      RunKeepsElectionInv(run, i - 1);
      StepKeepsElectionInv(run.states[i - 1], run.events[i - 1]);
    }
  }

  /** Who led a term is never forgotten. */
  lemma {:induction false} LeadsForever(run: Run, i: nat, j: nat, t: nat, c: ServerId)
    requires IsRun(run) && i <= j < |run.states| && Leads(run.states[i].history, t, c)
    ensures Leads(run.states[j].history, t, c)
    decreases j
  {
    hide ElectionInv, After, Sent, Watch, ServerOk, ElectionsOk;
    if i < j {
      LeadsForever(run, i, j - 1, t, c);
      RunKeepsElectionInv(run, j - 1);
      StepIsOk(run.states[j - 1], run.events[j - 1]);
    }
  }

  /** Election safety: at any two moments of any run, whoever leads the same term is the same server. */
  lemma ElectionSafety(run: Run, i: nat, j: nat, a: ServerId, b: ServerId)
    requires IsRun(run) && i <= j < |run.states|
    requires a in run.states[i].servers && run.states[i].servers[a].role == Leader
    requires b in run.states[j].servers && run.states[j].servers[b].role == Leader
    requires run.states[i].servers[a].currentTerm == run.states[j].servers[b].currentTerm
    ensures a == b
  {
    var t := run.states[i].servers[a].currentTerm;
    RunKeepsElectionInv(run, i);
    RunKeepsElectionInv(run, j);
    assert ServerOk(run.states[i].history, run.states[i].members, run.states[i].servers[a], a);
    assert ServerOk(run.states[j].history, run.states[j].members, run.states[j].servers[b], b);
    LeadsForever(run, i, j, t, a);
  }
}
