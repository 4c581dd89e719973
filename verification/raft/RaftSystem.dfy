/** Many servers and a network that may lose, repeat and reorder. A message once sent can be received
    at any later time, any number of times or never. */
module RaftSystem {
  import opened Optional
  import opened RaftTypes
  import opened RaftLog
  import opened RaftServer
  import opened Quorum
  import opened RaftHistory

  /** A reply names the request it answers: the source matches the two by message number. */
  datatype Message =
    | VoteReq(to: ServerId, vreq: VoteRequest)
    | VoteRep(from: ServerId, vreq: VoteRequest, vresp: VoteResponse)
    | AppendReq(to: ServerId, areq: AppendRequest)
    | AppendRep(from: ServerId, areq: AppendRequest, aresp: AppendResponse)

  datatype History = History(votes: map<At, Vote>, elections: map<nat, Election>, held: map<At, nat>)

  datatype System = System(members: seq<ServerId>, servers: map<ServerId, Server>, network: set<Message>,
                           history: History)

  /** What can happen at one server. Timeouts, choices of peer and of nextIndex, and whether a vote is
      being withheld are left open. */
  datatype Event =
    | Timeout(at: ServerId)
    | SendVoteRequest(at: ServerId, peer: ServerId)
    | ReceiveVoteRequest(at: ServerId, vreq: VoteRequest, withhold: bool)
    | ReceiveVoteReply(at: ServerId, peer: ServerId, vreq: VoteRequest, vresp: VoteResponse)
    | ClientAppend(at: ServerId, blob: string)
    | DiskSyncBegin(at: ServerId)
    | DiskSyncEnd(at: ServerId)
    | SendAppend(at: ServerId, peer: ServerId, nextIndex: nat)
    | ReceiveAppend(at: ServerId, areq: AppendRequest)
    | ReceiveAppendReply(at: ServerId, peer: ServerId, areq: AppendRequest, aresp: AppendResponse)
    | Crash(at: ServerId)

  predicate EnabledAt(s: Server, ev: Event) {
    match ev
    case Timeout(_) => s.role != Leader
    case SendVoteRequest(_, p) => s.role == Candidate && p in s.peers && !s.peers[p].requestVoteDone
    case ClientAppend(_, _) => s.role == Leader
    case DiskSyncBegin(_) => s.role == Leader && s.logSyncQueued && s.pendingSync.None?
    case DiskSyncEnd(_) => s.pendingSync.Some?
    case SendAppend(_, p, next) => s.role == Leader && p in s.peers && 1 <= next <= |s.log| + 1
    case _ => true
  }

  predicate Delivered(ev: Event, network: set<Message>) {
    match ev
    case ReceiveVoteRequest(v, req, _) => VoteReq(v, req) in network
    case ReceiveVoteReply(v, p, req, resp) => VoteRep(p, req, resp) in network && req.candidate == v
    case ReceiveAppend(v, req) => AppendReq(v, req) in network
    case ReceiveAppendReply(v, p, req, resp) => AppendRep(p, req, resp) in network && req.leader == v
    case _ => true
  }

  predicate Enabled(sys: System, ev: Event) {
    ev.at in sys.servers && EnabledAt(sys.servers[ev.at], ev) && Delivered(ev, sys.network)
  }

  function After(s: Server, ev: Event): Server
    requires EnabledAt(s, ev)
  {
    match ev
    case Timeout(_) => StartNewElection(s)
    case ReceiveVoteRequest(_, req, withhold) => HandleRequestVote(s, req, withhold).0
    case ReceiveVoteReply(_, p, req, resp) => HandleVoteReply(s, p, req, resp)
    case ClientAppend(_, blob) => Replicate(s, blob)
    case DiskSyncBegin(_) => BeginSync(s)
    case DiskSyncEnd(_) => EndSync(s)
    case ReceiveAppend(_, req) => HandleAppendEntries(s, req).0
    case ReceiveAppendReply(_, p, req, resp) => HandleAppendReply(s, p, req, resp)
    case Crash(_) => Restart(s)
    case _ => s
  }

  function Sent(s: Server, ev: Event): set<Message>
    requires EnabledAt(s, ev)
  {
    match ev
    case SendVoteRequest(_, p) => {VoteReq(p, MakeVoteRequest(s))}
    case ReceiveVoteRequest(v, req, withhold) => {VoteRep(v, req, HandleRequestVote(s, req, withhold).1)}
    case SendAppend(_, p, next) => {AppendReq(p, MakeAppendRequest(s, p, next))}
    case ReceiveAppend(v, req) => {AppendRep(v, req, HandleAppendEntries(s, req).1)}
    case _ => {}
  }

  // ----- the history, kept by watching one server change -----

  /** A vote is recorded when votedFor is set. */
  function WatchVote(votes: map<At, Vote>, s: Server, s': Server): map<At, Vote> {
    if s'.votedFor != 0 && (s'.votedFor != s.votedFor || s'.currentTerm != s.currentTerm)
    then votes[At(s.id, s'.currentTerm) := Vote(s'.votedFor, s.log)]
    else votes
  }

  /** An election is recorded when a server turns leader; afterwards the leader's log is followed. */
  function WatchLeader(elections: map<nat, Election>, members: seq<ServerId>, s: Server, s': Server): map<nat, Election> {
    if s'.role != Leader then elections
    else if s.role != Leader
    then elections[s'.currentTerm := Election(s.id, VotersAmong(s', members), s.log, s'.log)]
    else if s'.currentTerm in elections
    then elections[s'.currentTerm := elections[s'.currentTerm].(log := s'.log)]
    else elections
  }

  /** How much of the leader's log the server has just shown to have: all of it if it is the leader,
      and what an accepted request covered. */
  function WatchHeld(held: map<At, nat>, s: Server, s': Server, ev: Event): map<At, nat> {
    var k := At(s.id, s'.currentTerm);
    if s'.role == Leader then held[k := |s'.log|]
    else if ev.ReceiveAppend? && HandleAppendEntries(s, ev.areq).1.success
    then held[k := Max(if k in held then held[k] else 0, ev.areq.prevLogIndex + |ev.areq.entries|)]
    else held
  }

  function Watch(h: History, members: seq<ServerId>, s: Server, s': Server, ev: Event): History {
    History(WatchVote(h.votes, s, s'), WatchLeader(h.elections, members, s, s'), WatchHeld(h.held, s, s', ev))
  }

  function Next(sys: System, ev: Event): System
    requires Enabled(sys, ev)
  {
    var s := sys.servers[ev.at];
    var s' := After(s, ev);
    System(sys.members, sys.servers[ev.at := s'], sys.network + Sent(s, ev),
           Watch(sys.history, sys.members, s, s', ev))
  }

  // ----- initial states and runs -----

  function Bootstrap(members: seq<ServerId>): Entry {
    Entry(1, Configuration(members))
  }

  function InitialPeers(members: seq<ServerId>, v: ServerId): map<ServerId, Peer> {
    map p | p in members && p != v :: Peer(false, false, false, 0)
  }

  /** Every server starts in term 1 with the same first CONFIGURATION entry and no vote. */
  function InitialServer(members: seq<ServerId>, v: ServerId): Server {
    Server(v, 1, 0, Follower, 0, 0, [Bootstrap(members)], 0, false, None, InitialPeers(members, v), Metadata(1, 0))
  }

  /** Term 1 stands in the history as if nobody had led it with just the first entry. */
  function InitialHistory(members: seq<ServerId>): History {
    History(map[], map[1 := Election(0, {}, [], [Bootstrap(members)])], map v | v in Members(members) :: At(v, 1) := 1)
  }

  ghost predicate Init(sys: System) {
    && Distinct(sys.members) && 0 !in sys.members && sys.members != []
    && sys.servers == (map v | v in Members(sys.members) :: InitialServer(sys.members, v))
    && sys.network == {}
    && sys.history == InitialHistory(sys.members)
  }

  datatype Run = Run(states: seq<System>, events: seq<Event>)

  ghost predicate IsRun(run: Run) {
    && |run.states| == |run.events| + 1 && Init(run.states[0])
    && forall i | 0 <= i < |run.events| ::
         Enabled(run.states[i], run.events[i]) && run.states[i + 1] == Next(run.states[i], run.events[i])
  }

  /** A run in which no server loses its memory. */
  ghost predicate CrashFree(run: Run) {
    forall i | 0 <= i < |run.events| :: !run.events[i].Crash?
  }
}
