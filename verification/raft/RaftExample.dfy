/** A run of three servers in which a vote reply elects a leader and an append reply commits an entry, so the
    hypotheses of the safety theorems are met by runs in which something happens. */
module RaftExample {
  import opened Optional
  import opened RaftTypes
  import opened RaftLog
  import opened RaftServer
  import opened Quorum
  import opened RaftHistory
  import opened RaftSystem

  const MEMBERS: seq<ServerId> := [1, 2, 3]
  const BOOT := Bootstrap(MEMBERS)
  const NOOP := Entry(2, Noop)

  function Peers(asked: bool, force: bool, agree: nat, others: bool): map<ServerId, Peer> {
    map[2 := Peer(asked, asked, force, agree), 3 := Peer(false, false, others, 0)]
  }

  /** Server 1, which is elected. */
  function First(i: nat): Server {
    match i
    case 0 => InitialServer(MEMBERS, 1)
    case 1 => Server(1, 2, 1, Candidate, 0, 0, [BOOT], 0, false, None, Peers(false, false, 0, false), Metadata(2, 1))
    case 2 => Server(1, 2, 1, Leader, 1, 0, [BOOT, NOOP], 1, true, None, Peers(true, true, 0, true), Metadata(2, 1))
    case 3 => First(2).(logSyncQueued := false, pendingSync := Some(PendingSync(2, 2)))
    case 4 => First(3).(pendingSync := None, lastSyncedIndex := 2)
    case 5 => First(4).(peers := Peers(true, false, 1, true))
    case _ => First(4).(peers := Peers(true, false, 2, true), commitIndex := 2)
  }

  /** Server 2, which votes and follows. */
  function Second(i: nat): Server {
    match i
    case 0 => InitialServer(MEMBERS, 2)
    case 1 => InitialServer(MEMBERS, 2).(currentTerm := 2, votedFor := 1, metadata := Metadata(2, 1))
    case 2 => Second(1).(leaderId := 1)
    case 3 => Second(2).(log := [BOOT, NOOP])
    case _ => Second(3).(commitIndex := 2)
  }

  const ASK := VoteRequest(1, 2, 1, 1)
  const YES := VoteResponse(2, true)
  const BEAT := AppendRequest(1, 2, 1, 1, [], 0)
  const ENTRIES := AppendRequest(1, 2, 1, 1, [NOOP], 0)
  const TELL := AppendRequest(1, 2, 2, 2, [], 2)
  const TAKEN := AppendResponse(2, true, 1)

  function Script(): seq<Event> {
    [Timeout(1), SendVoteRequest(1, 2), ReceiveVoteRequest(2, ASK, false), ReceiveVoteReply(1, 2, ASK, YES),
     DiskSyncBegin(1), DiskSyncEnd(1),
     SendAppend(1, 2, 2), ReceiveAppend(2, BEAT), ReceiveAppendReply(1, 2, BEAT, TAKEN),
     SendAppend(1, 2, 2), ReceiveAppend(2, ENTRIES), ReceiveAppendReply(1, 2, ENTRIES, TAKEN),
     SendAppend(1, 2, 3), ReceiveAppend(2, TELL)]
  }

  // ----- the handlers on these servers -----

  lemma Configured(s: Server)
    requires s.log == [BOOT] || s.log == [BOOT, NOOP]
    ensures LatestConfiguration(s.log) == Some(MEMBERS) && ConfigurationId(s.log) == 1
  {
    assert LatestConfiguration([BOOT]) == Some(MEMBERS) && ConfigurationId([BOOT]) == 1;
    assert [BOOT, NOOP][..1] == [BOOT];
  }

  lemma CountThree(a: bool, b: bool, c: bool)
    ensures CountTrue([a, b, c]) == (if a then 1 else 0) + (if b then 1 else 0) + if c then 1 else 0
  {
    assert [a, b, c][..2] == [a, b] && [a, b][..1] == [a] && [a][..0] == [];
    assert CountTrue([a]) == if a then 1 else 0;
  }

  lemma QuorumOfTwo(s: Server)
    requires CurrentMembers(s) == MEMBERS && !HasVoteOf(s, 3)
    ensures HasQuorum(s) <==> HasVoteOf(s, 1) && HasVoteOf(s, 2)
  {
    var yes := VotersAmong(s, MEMBERS);
    assert Answers(MEMBERS, yes) == [1 in yes, 2 in yes, 3 in yes];
    CountThree(1 in yes, 2 in yes, 3 in yes);
  }

  /** The middle of three agreement indexes of which the last is 0. */
  lemma MiddleOfThree(a: nat, b: nat)
    requires b <= a
    ensures QuorumMin([a, b, 0]) == b
  {
    var values := [a, b, 0];
    assert AtLeast(values, b) == [true, true, b == 0];
    assert AtLeast(values, b + 1) == [a >= b + 1, false, false];
    CountThree(true, true, b == 0);
    CountThree(a >= b + 1, false, false);
    QuorumMinIsGreatest(values, b);
    QuorumMinIsGreatest(values, b + 1);
  }

  lemma Stands()
    ensures StartNewElection(First(0)) == First(1)
  {
    hide HasQuorum;
    Configured(First(0));
    Configured(First(1));
    assert BeginRequestVote(InitialPeers(MEMBERS, 1)) == Peers(false, false, 0, false);
    QuorumOfTwo(First(1));
  }

  lemma Votes()
    ensures HandleRequestVote(Second(0), ASK, false) == (Second(1), YES)
  {
  }

  lemma Wins()
    ensures HandleVoteReply(First(1), 2, ASK, YES) == First(2)
  {
    hide HasQuorum;
    var s1 := First(1).(peers := Peers(true, false, 0, false));
    Configured(s1);
    QuorumOfTwo(s1);
    assert First(1).peers[2 := Peer(true, true, false, 0)] == Peers(true, false, 0, false);
    assert BeginLeadership(Peers(true, false, 0, false)) == Peers(true, true, 0, true);
    assert [BOOT] + [NOOP] == [BOOT, NOOP];
  }

  lemma Agreement(s: Server, b: nat)
    requires s.log == [BOOT, NOOP] && s.id == 1 && s.lastSyncedIndex == 2 && s.commitIndex == 0 && s.role == Leader
    requires 2 in s.peers && 3 in s.peers && s.peers[2].lastAgreeIndex == b <= 2 && s.peers[3].lastAgreeIndex == 0
    requires s.currentTerm == 2
    ensures AdvanceCommit(s) == if b == 2 then s.(commitIndex := 2) else s
  {
    hide QuorumMin;
    Configured(s);
    assert AgreeIndexes(s, MEMBERS) == [2, b, 0];
    MiddleOfThree(2, b);
  }

  lemma Syncs()
    ensures EndSync(First(3)) == First(4)
  {
    hide AdvanceCommit;
    Agreement(First(4), 0);
  }

  lemma Follows()
    ensures HandleAppendEntries(Second(1), BEAT) == (Second(2), TAKEN)
    ensures HandleAppendEntries(Second(2), ENTRIES) == (Second(3), TAKEN)
    ensures HandleAppendEntries(Second(3), TELL) == (Second(4), AppendResponse(2, true, 2))
  {
    assert [BOOT][..1] + [NOOP] == [BOOT, NOOP];
  }

  lemma Asks()
    ensures MakeAppendRequest(First(4), 2, 2) == BEAT && MakeAppendRequest(First(5), 2, 2) == ENTRIES
    ensures MakeVoteRequest(First(1)) == ASK && MakeAppendRequest(First(6), 2, 3) == TELL
  {
    assert [BOOT, NOOP][..2] == [BOOT, NOOP];
    assert [BOOT, NOOP][..1] == [BOOT] && [BOOT, NOOP][1..2] == [NOOP];
  }

  lemma Hears()
    ensures HandleAppendReply(First(4), 2, BEAT, TAKEN) == First(5)
    ensures HandleAppendReply(First(5), 2, ENTRIES, TAKEN) == First(6)
  {
    hide AdvanceCommit;
    assert First(4).peers[2 := Peer(true, true, false, 1)] == Peers(true, false, 1, true);
    assert First(5).peers[2 := Peer(true, true, false, 2)] == Peers(true, false, 2, true);
    Agreement(First(5), 1);
    Agreement(First(5).(peers := Peers(true, false, 2, true)), 2);
  }

  // ----- the run -----

  ghost predicate Stage(sys: System, i: nat, j: nat) {
    sys.servers.Keys == {1, 2, 3} && sys.servers[1] == First(i) && sys.servers[2] == Second(j)
  }

  /** Server 1 takes a step. */
  lemma FirstSteps(sys: System, i: nat, j: nat, ev: Event, i': nat, sent: set<Message>)
    requires Stage(sys, i, j) && ev.at == 1 && EnabledAt(First(i), ev) && Delivered(ev, sys.network)
    requires After(First(i), ev) == First(i') && Sent(First(i), ev) == sent
    ensures Enabled(sys, ev) && Stage(Next(sys, ev), i', j) && sent <= Next(sys, ev).network
  {
    hide First, Second, After, Sent, EnabledAt, Delivered, Watch;
  }

  /** Server 2 takes a step. */
  lemma SecondSteps(sys: System, i: nat, j: nat, ev: Event, j': nat, sent: set<Message>)
    requires Stage(sys, i, j) && ev.at == 2 && EnabledAt(Second(j), ev) && Delivered(ev, sys.network)
    requires After(Second(j), ev) == Second(j') && Sent(Second(j), ev) == sent
    ensures Enabled(sys, ev) && Stage(Next(sys, ev), i, j') && sent <= Next(sys, ev).network
  {
    hide First, Second, After, Sent, EnabledAt, Delivered, Watch;
  }

  lemma Candidacy(s0: System) returns (s1: System, s2: System)
    requires Stage(s0, 0, 0)
    ensures Enabled(s0, Script()[0]) && s1 == Next(s0, Script()[0])
    ensures Enabled(s1, Script()[1]) && s2 == Next(s1, Script()[1])
    ensures Stage(s2, 1, 0) && VoteReq(2, ASK) in s2.network
  {
    hide Stage, Next, Enabled, StartNewElection, MakeVoteRequest;
    Stands();
    Asks();
    FirstSteps(s0, 0, 0, Timeout(1), 1, {});
    s1 := Next(s0, Timeout(1));
    FirstSteps(s1, 1, 0, SendVoteRequest(1, 2), 1, {VoteReq(2, ASK)});
    s2 := Next(s1, SendVoteRequest(1, 2));
  }

  lemma Election(s2: System) returns (s3: System, s4: System)
    requires Stage(s2, 1, 0) && VoteReq(2, ASK) in s2.network
    ensures Enabled(s2, Script()[2]) && s3 == Next(s2, Script()[2])
    ensures Enabled(s3, Script()[3]) && s4 == Next(s3, Script()[3])
    ensures Stage(s4, 2, 1)
  {
    hide Stage, Next, Enabled, HandleRequestVote, HandleVoteReply;
    Votes();
    Wins();
    SecondSteps(s2, 1, 0, ReceiveVoteRequest(2, ASK, false), 1, {VoteRep(2, ASK, YES)});
    s3 := Next(s2, ReceiveVoteRequest(2, ASK, false));
    FirstSteps(s3, 1, 1, ReceiveVoteReply(1, 2, ASK, YES), 2, {});
    s4 := Next(s3, ReceiveVoteReply(1, 2, ASK, YES));
  }

  lemma DiskSync(s4: System) returns (s5: System, s6: System)
    requires Stage(s4, 2, 1)
    ensures Enabled(s4, Script()[4]) && s5 == Next(s4, Script()[4])
    ensures Enabled(s5, Script()[5]) && s6 == Next(s5, Script()[5])
    ensures Stage(s6, 4, 1)
  {
    hide Stage, Next, Enabled, EndSync;
    Syncs();
    FirstSteps(s4, 2, 1, DiskSyncBegin(1), 3, {});
    s5 := Next(s4, DiskSyncBegin(1));
    FirstSteps(s5, 3, 1, DiskSyncEnd(1), 4, {});
    s6 := Next(s5, DiskSyncEnd(1));
  }

  lemma Heartbeat(s6: System) returns (s7: System, s8: System, s9: System)
    requires Stage(s6, 4, 1)
    ensures Enabled(s6, Script()[6]) && s7 == Next(s6, Script()[6])
    ensures Enabled(s7, Script()[7]) && s8 == Next(s7, Script()[7])
    ensures Enabled(s8, Script()[8]) && s9 == Next(s8, Script()[8])
    ensures Stage(s9, 5, 2)
  {
    hide Stage, Next, Enabled, MakeAppendRequest, HandleAppendEntries, HandleAppendReply;
    Asks();
    Follows();
    Hears();
    FirstSteps(s6, 4, 1, SendAppend(1, 2, 2), 4, {AppendReq(2, BEAT)});
    s7 := Next(s6, SendAppend(1, 2, 2));
    SecondSteps(s7, 4, 1, ReceiveAppend(2, BEAT), 2, {AppendRep(2, BEAT, TAKEN)});
    s8 := Next(s7, ReceiveAppend(2, BEAT));
    FirstSteps(s8, 4, 2, ReceiveAppendReply(1, 2, BEAT, TAKEN), 5, {});
    s9 := Next(s8, ReceiveAppendReply(1, 2, BEAT, TAKEN));
  }

  lemma Commit(s9: System) returns (s10: System, s11: System, s12: System)
    requires Stage(s9, 5, 2)
    ensures Enabled(s9, Script()[9]) && s10 == Next(s9, Script()[9])
    ensures Enabled(s10, Script()[10]) && s11 == Next(s10, Script()[10])
    ensures Enabled(s11, Script()[11]) && s12 == Next(s11, Script()[11])
    ensures Stage(s12, 6, 3)
  {
    hide Stage, Next, Enabled, MakeAppendRequest, HandleAppendEntries, HandleAppendReply;
    Asks();
    Follows();
    Hears();
    FirstSteps(s9, 5, 2, SendAppend(1, 2, 2), 5, {AppendReq(2, ENTRIES)});
    s10 := Next(s9, SendAppend(1, 2, 2));
    SecondSteps(s10, 5, 2, ReceiveAppend(2, ENTRIES), 3, {AppendRep(2, ENTRIES, TAKEN)});
    s11 := Next(s10, ReceiveAppend(2, ENTRIES));
    FirstSteps(s11, 5, 3, ReceiveAppendReply(1, 2, ENTRIES, TAKEN), 6, {});
    s12 := Next(s11, ReceiveAppendReply(1, 2, ENTRIES, TAKEN));
  }

  lemma Announce(s12: System) returns (s13: System, s14: System)
    requires Stage(s12, 6, 3)
    ensures Enabled(s12, Script()[12]) && s13 == Next(s12, Script()[12])
    ensures Enabled(s13, Script()[13]) && s14 == Next(s13, Script()[13])
    ensures Stage(s14, 6, 4)
  {
    hide Stage, Next, Enabled, MakeAppendRequest, HandleAppendEntries;
    Asks();
    Follows();
    FirstSteps(s12, 6, 3, SendAppend(1, 2, 3), 6, {AppendReq(2, TELL)});
    s13 := Next(s12, SendAppend(1, 2, 3));
    SecondSteps(s13, 6, 3, ReceiveAppend(2, TELL), 4, {AppendRep(2, TELL, AppendResponse(2, true, 2))});
    s14 := Next(s13, ReceiveAppend(2, TELL));
  }

  lemma Begins() returns (s0: System)
    ensures Init(s0) && Stage(s0, 0, 0)
  {
    hide InitialServer;
    assert Members(MEMBERS) == {1, 2, 3};
    s0 := System(MEMBERS, map v | v in Members(MEMBERS) :: InitialServer(MEMBERS, v), {}, InitialHistory(MEMBERS));
  }

  /** Server 1 is elected by the vote of server 2, commits the entry of its term once server 2 has it, and with its
      next request server 2 commits it too. */
  lemma RunsCommit() returns (run: Run)
    ensures IsRun(run) && CrashFree(run) && run.events == Script()
    ensures var last := run.states[|run.events|];
            && 1 in last.servers && last.servers[1].role == Leader && last.servers[1].commitIndex == 2
            && 2 in last.servers && last.servers[2].log == last.servers[1].log && last.servers[2].commitIndex == 2
  {
    hide Stage, Next, Enabled, Init;
    var s0 := Begins();
    var s1, s2 := Candidacy(s0);
    var s3, s4 := Election(s2);
    var s5, s6 := DiskSync(s4);
    var s7, s8, s9 := Heartbeat(s6);
    var s10, s11, s12 := Commit(s9);
    var s13, s14 := Announce(s12);
    run := Run([s0, s1, s2, s3, s4, s5, s6, s7, s8, s9, s10, s11, s12, s13, s14], Script());
    Ends(s14);
  }

  lemma Ends(sys: System)
    requires Stage(sys, 6, 4)
    ensures 1 in sys.servers && sys.servers[1].role == Leader && sys.servers[1].commitIndex == 2
    ensures 2 in sys.servers && sys.servers[2].log == sys.servers[1].log && sys.servers[2].commitIndex == 2
  {
  }
}
