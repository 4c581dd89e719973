/** The safety properties of Raft, over every run in which no server loses its memory, for any number of
    servers and any loss, repetition and reordering of messages. Election safety, which holds with
    crashes too, is in RaftElection.dfy. */
module RaftSafety {
  import opened Optional
  import opened RaftTypes
  import opened RaftLog
  import opened RaftServer
  import opened Quorum
  import opened RaftHistory
  import opened RaftSystem
  import opened RaftElection
  import opened RaftReplication

  /** Log matching: two logs with an entry of the same term at the same index are equal up to there. */
  lemma LogMatching(run: Run, i: nat, a: ServerId, b: ServerId, k: nat)
    requires IsRun(run) && CrashFree(run) && i < |run.states|
    requires a in run.states[i].servers && b in run.states[i].servers
    requires k < |run.states[i].servers[a].log| && k < |run.states[i].servers[b].log|
    requires run.states[i].servers[a].log[k].term == run.states[i].servers[b].log[k].term
    ensures run.states[i].servers[a].log[..k + 1] == run.states[i].servers[b].log[..k + 1]
  {
    hide ElectionInv, VotesInv, ElectionsInv, LogKeeps, VoteKeeps, ServerLogOk, MessageLogOk;
    RunKeepsReplicationInv(run, i);
    var r := Seen(run.states[i]);
    GenuineLogsMatch(r.logs[a], r.logs[b], r.elections);
  }

  /** The history only grows along a run. */
  lemma {:induction false} HistoryGrows(run: Run, i: nat, j: nat)
    requires IsRun(run) && CrashFree(run) && i <= j < |run.states|
    ensures run.states[i].members == run.states[j].members && run.states[i].servers.Keys == run.states[j].servers.Keys
    ensures Grows(Seen(run.states[i]), Seen(run.states[j])) && HeldGrows(Seen(run.states[i]), Seen(run.states[j]))
    decreases j
  {
    hide Inv, ElectionInv, ReplicationInv, ServerLogOk, After, Sent, Watch, Seen;
    if i < j {
      HistoryGrows(run, i, j - 1);
      RunKeepsReplicationInv(run, j - 1);
      StepKept(run.states[j - 1], run.events[j - 1]);
      GrowsOn(Seen(run.states[i]), Seen(run.states[j - 1]), Seen(run.states[j]));
    }
  }

  lemma GrowsOn(r: Replicas, r1: Replicas, r2: Replicas)
    requires Grows(r, r1) && HeldGrows(r, r1) && Grows(r1, r2) && HeldGrows(r1, r2)
    ensures Grows(r, r2) && HeldGrows(r, r2)
  {
  }

  /** Committed prefixes agree, also between different moments of a run: whatever two servers count as
      committed at an index, now or later, is the same entry. */
  lemma CommittedPrefixesAgree(run: Run, i: nat, j: nat, a: ServerId, b: ServerId, k: nat)
    requires IsRun(run) && CrashFree(run) && i <= j < |run.states|
    requires a in run.states[i].servers && b in run.states[j].servers
    requires 1 <= k <= run.states[i].servers[a].commitIndex && k <= run.states[j].servers[b].commitIndex
    ensures k <= |run.states[i].servers[a].log| && k <= |run.states[j].servers[b].log|
    ensures run.states[i].servers[a].log[k - 1] == run.states[j].servers[b].log[k - 1]
  {
    hide ElectionInv, Inv;
    var members, s, s' := run.states[i].members, run.states[i].servers[a], run.states[j].servers[b];
    var r, r' := Seen(run.states[i]), Seen(run.states[j]);
    RunKeepsReplicationInv(run, i);
    RunKeepsReplicationInv(run, j);
    HistoryGrows(run, i, j);
    CommitStays(r, r', members, s.log, s.log, s.currentTerm, s.currentTerm, s.commitIndex);
    CommitsAgree(r', members, s.log, s.currentTerm, s.commitIndex, s'.log, s'.currentTerm, s'.commitIndex);
  }

  lemma CommitsAgree(r: Replicas, members: seq<ServerId>, log1: Log, t1: nat, c1: nat, log2: Log, t2: nat, c2: nat)
    requires Inv(r, members) && CommitOk(r, members, log1, t1, c1) && CommitOk(r, members, log2, t2, c2)
    ensures forall k | 0 <= k < c1 && k < c2 :: log1[k] == log2[k]
  {
    hide Inv, Committed;
    if c1 > 0 && c2 > 0 {
      var u1: nat, n1: nat :| CommitWitness(r, members, log1, t1, c1, u1, n1);
      var u2: nat, n2: nat :| CommitWitness(r, members, log2, t2, c2, u2, n2);
      CommittedShape(r, members, u1, n1);
      CommittedShape(r, members, u2, n2);
      if n1 <= n2 {
        CommittedAgree(r, members, u1, n1, u2, n2);
        SamePrefix(r.elections[u1].log, r.elections[u2].log, n1);
      } else {
        CommittedAgree(r, members, u2, n2, u1, n1);
        SamePrefix(r.elections[u2].log, r.elections[u1].log, n2);
      }
      SamePrefix(log1, r.elections[u1].log, c1);
      SamePrefix(log2, r.elections[u2].log, c2);
    }
  }

  /** Leader completeness: what any server counts as committed is in the log of every server that
      leads the same or a later term from then on. */
  lemma LeadersHaveCommitted(run: Run, i: nat, j: nat, a: ServerId, b: ServerId)
    requires IsRun(run) && CrashFree(run) && i <= j < |run.states|
    requires a in run.states[i].servers && b in run.states[j].servers
    requires run.states[j].servers[b].role == Leader
    requires run.states[i].servers[a].currentTerm <= run.states[j].servers[b].currentTerm
    ensures var s, s' := run.states[i].servers[a], run.states[j].servers[b];
            s.commitIndex <= |s.log| && s.log[..s.commitIndex] <= s'.log
  {
    hide ElectionInv, Inv, CommitOk;
    var members, s, s' := run.states[i].members, run.states[i].servers[a], run.states[j].servers[b];
    var r, r' := Seen(run.states[i]), Seen(run.states[j]);
    RunKeepsReplicationInv(run, i);
    RunKeepsReplicationInv(run, j);
    HistoryGrows(run, i, j);
    assert ServerLogOk(r, members, s) && ServerLogOk(r', members, s');
    CommitBounded(r, members, s.log, s.currentTerm, s.commitIndex);
    CommitStays(r, r', members, s.log, s.log, s.currentTerm, s'.currentTerm, s.commitIndex);
    LeaderHasCommitted(r', members, s.log, s'.currentTerm, s.commitIndex);
  }

  /** A committed prefix is part of the log every leader of a later term stood for election with. */
  lemma BasesHaveCommitted(r: Replicas, members: seq<ServerId>, log: Log, t: nat, index: nat, u: nat)
    requires Inv(r, members) && CommitOk(r, members, log, t, index) && u in r.elections && t < u
    ensures index <= |log| && log[..index] <= r.elections[u].base
  {
    hide Inv, Committed;
    if index > 0 {
      var w: nat, n: nat :| CommitWitness(r, members, log, t, index, w, n);
      CommittedShape(r, members, w, n);
      LeaderCompleteness(r, members, w, n, u);
      assert log[..index] == r.elections[w].log[..n][..index];
    }
  }

  lemma LeaderHasBase(sys: System, b: ServerId)
    requires ElectionInv(sys) && ReplicationInv(sys) && b in sys.servers && sys.servers[b].role == Leader
    ensures var t := sys.servers[b].currentTerm;
            t in sys.history.elections && sys.history.elections[t].base <= sys.servers[b].log
  {
    hide LogsInv, VotesInv, LogKeeps, VoteKeeps, CommitOk, MessageLogOk, ServerOk, ElectionInv;
    assert ServerLogOk(Seen(sys), sys.members, sys.servers[b]);
  }

  /** Leader completeness in both directions of time: what a server counts as committed in its term, at
      any moment of the run, is in the log of whoever leads a later term, at any moment of the run. */
  lemma LaterLeadersAreComplete(run: Run, i: nat, j: nat, a: ServerId, b: ServerId)
    requires IsRun(run) && CrashFree(run) && i < |run.states| && j < |run.states|
    requires a in run.states[i].servers && b in run.states[j].servers
    requires run.states[j].servers[b].role == Leader
    requires run.states[i].servers[a].currentTerm < run.states[j].servers[b].currentTerm
    ensures var s, s' := run.states[i].servers[a], run.states[j].servers[b];
            s.commitIndex <= |s.log| && s.log[..s.commitIndex] <= s'.log
  {
    hide ElectionInv, Inv, CommitOk;
    var m := Max(i, j);
    var members, s, s' := run.states[i].members, run.states[i].servers[a], run.states[j].servers[b];
    RunKeepsReplicationInv(run, i);
    RunKeepsReplicationInv(run, j);
    RunKeepsReplicationInv(run, m);
    HistoryGrows(run, i, m);
    HistoryGrows(run, j, m);
    LeaderHasBase(run.states[j], b);
    assert ServerLogOk(Seen(run.states[i]), members, s);
    CommitBounded(Seen(run.states[i]), members, s.log, s.currentTerm, s.commitIndex);
    CommitStays(Seen(run.states[i]), Seen(run.states[m]), members, s.log, s.log, s.currentTerm, s.currentTerm, s.commitIndex);
    BasesHaveCommitted(Seen(run.states[m]), members, s.log, s.currentTerm, s.commitIndex, s'.currentTerm);
  }

  /** Leader append-only: while a server leads a term its log only grows. */
  lemma LeaderAppendOnly(run: Run, i: nat, j: nat, a: ServerId)
    requires IsRun(run) && CrashFree(run) && i <= j < |run.states| && a in run.states[i].servers
    requires run.states[i].servers[a].role == Leader
    ensures a in run.states[j].servers
    ensures var s, s' := run.states[i].servers[a], run.states[j].servers[a];
            s'.role == Leader && s'.currentTerm == s.currentTerm ==> s.log <= s'.log
  {
    hide ElectionInv, Inv, CommitOk;
    RunKeepsReplicationInv(run, i);
    RunKeepsReplicationInv(run, j);
    HistoryGrows(run, i, j);
    var r, r' := Seen(run.states[i]), Seen(run.states[j]);
    assert ServerLogOk(r, run.states[i].members, run.states[i].servers[a]);
    assert ServerLogOk(r', run.states[j].members, run.states[j].servers[a]);
  }

  /** What a server has been given by the leader of the term it is in, it still has. */
  lemma HeldIsKept(r: Replicas, members: seq<ServerId>, p: ServerId, n: nat)
    requires Inv(r, members) && p in r.terms && p in r.logs && At(p, r.terms[p]) in r.held
    requires n <= r.held[At(p, r.terms[p])]
    ensures r.terms[p] in r.elections && n <= |r.elections[r.terms[p]].log|
    ensures r.elections[r.terms[p]].log[..n] <= r.logs[p]
  {
    hide VotesInv, ElectionsInv, VoteKeeps;
    assert Keeps(r, r.logs[p], At(p, r.terms[p]).term, n);
  }

  /** What a leader believes about a peer that is in its term is so: the peer has the leader's log up
      to lastAgreeIndex. */
  lemma AgreementIsReal(run: Run, i: nat, a: ServerId, p: ServerId)
    requires IsRun(run) && CrashFree(run) && i < |run.states|
    requires a in run.states[i].servers && p in run.states[i].servers && a != p
    requires run.states[i].servers[a].role == Leader && p in run.states[i].servers[a].peers
    requires run.states[i].servers[p].currentTerm == run.states[i].servers[a].currentTerm
    ensures var n := run.states[i].servers[a].peers[p].lastAgreeIndex;
            n <= |run.states[i].servers[a].log| && run.states[i].servers[a].log[..n] <= run.states[i].servers[p].log
  {
    hide ElectionInv, Inv, CommitOk, ServerOk, ElectionsOk;
    RunKeepsReplicationInv(run, i);
    var r, s := Seen(run.states[i]), run.states[i].servers[a];
    ServerReady(run.states[i], a);
    assert ServerLogOk(r, run.states[i].members, s);
    var n := s.peers[p].lastAgreeIndex;
    if n > 0 {
      HeldIsKept(r, run.states[i].members, p, n);
    }
  }

  /** The commit index of a server is inside its log, and what its disk has synced too if it leads. */
  lemma IndexesInsideLog(run: Run, i: nat, a: ServerId)
    requires IsRun(run) && CrashFree(run) && i < |run.states| && a in run.states[i].servers
    ensures var s := run.states[i].servers[a];
            && s.commitIndex <= |s.log|
            && (s.role == Leader ==> s.lastSyncedIndex <= |s.log|
                                     && QuorumMin(AgreeIndexes(s, CurrentMembers(s))) <= |s.log|)
  {
    hide Inv, CommitOk;
    RunKeepsReplicationInv(run, i);
    var r, s, members := Seen(run.states[i]), run.states[i].servers[a], run.states[i].members;
    ServerReady(run.states[i], a);
    assert ServerLogOk(r, members, s);
    CommitBounded(r, members, s.log, s.currentTerm, s.commitIndex);
    if s.role == Leader {
      CommitInsideLog(r, members, s);
    }
  }

  lemma StepKeepsCommit(s: Server, ev: Event)
    requires EnabledAt(s, ev) && !ev.Crash?
    ensures After(s, ev).commitIndex >= s.commitIndex && After(s, ev).currentTerm >= s.currentTerm
  {
    hide HasQuorum, QuorumMin, Merge;
  }

  /** A commit index never falls, nor does a term. */
  lemma {:induction false} CommitNeverFalls(run: Run, i: nat, j: nat, a: ServerId)
    requires IsRun(run) && CrashFree(run) && i <= j < |run.states| && a in run.states[i].servers
    ensures a in run.states[j].servers
    ensures run.states[i].servers[a].commitIndex <= run.states[j].servers[a].commitIndex
    ensures run.states[i].servers[a].currentTerm <= run.states[j].servers[a].currentTerm
    decreases j
  {
    hide Init, After, Sent, Watch, EnabledAt, Delivered;
    if i < j {
      CommitNeverFalls(run, i, j - 1, a);
      var sys, ev := run.states[j - 1], run.events[j - 1];
      StepKeepsCommit(sys.servers[ev.at], ev);
    }
  }

  /** None of these assertions can fail, whatever request arrives in whatever reachable state. */
  lemma AppendAssertionsHold(run: Run, i: nat, v: ServerId, req: AppendRequest)
    requires IsRun(run) && CrashFree(run) && i < |run.states|
    requires v in run.states[i].servers && AppendReq(v, req) in run.states[i].network
    ensures AppendAssertions(run.states[i].servers[v], req)
  {
    hide ElectionInv, ReplicationInv, Enabled, Next, HandleAppendEntries;
    var sys := run.states[i];
    RunKeepsReplicationInv(run, i);
    var s := sys.servers[v];
    EntriesHaveTerms(sys, v, req);
    if req.term >= s.currentTerm {
      LeaderIdAssertionHolds(sys, v, req);
      if HasPrevious(s.log, req) {
        forall k | req.prevLogIndex <= k < Min(|s.log|, req.prevLogIndex + |req.entries|)
                   && s.log[k].term != req.entries[k - req.prevLogIndex].term ensures s.commitIndex <= k
        {
          TruncationAssertionHolds(sys, v, req, k);
        }
        CommitAfterAppend(sys, v, req);
      }
    }
  }

  lemma EntriesHaveTerms(sys: System, v: ServerId, req: AppendRequest)
    requires ReplicationInv(sys) && AppendReq(v, req) in sys.network
    ensures forall e | e in req.entries :: e.term != 0
  {
    hide LogsInv, VotesInv, LogKeeps, VoteKeeps, CommitOk, ServerLogOk;
    var r := Seen(sys);
    assert MessageLogOk(r, sys.members, AppendReq(v, req));
    var log := r.elections[req.term].log;
    assert Genuine(log, r.elections);
    forall e | e in req.entries ensures e.term != 0 {
      assert e in log;
    }
  }

  lemma CommitAfterAppend(sys: System, v: ServerId, req: AppendRequest)
    requires ElectionInv(sys) && ReplicationInv(sys) && v in sys.servers && AppendReq(v, req) in sys.network
    ensures HandleAppendEntries(sys.servers[v], req).0.commitIndex <= |HandleAppendEntries(sys.servers[v], req).0.log|
  {
    hide Inv, CommitOk, HandleAppendEntries;
    var ev := ReceiveAppend(v, req);
    ServerReady(sys, v);
    assert MessageLogOk(Seen(sys), sys.members, AppendReq(v, req));
    HandleAppendEntriesKept(Seen(sys), sys.members, sys.servers[v], ev);
    var s' := HandleAppendEntries(sys.servers[v], req).0;
    CommitBounded(SeenAfter(Seen(sys), sys.members, sys.servers[v], s', ev), sys.members, s'.log, s'.currentTerm, s'.commitIndex);
  }
}
