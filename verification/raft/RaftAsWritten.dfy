/** Two places where the text of the Raft code falls short of what the other Raft modules model, with
    the exact condition under which the text does what was meant. */
module RaftAsWritten {
  import opened Optional
  import opened RaftTypes
  import opened RaftLog
  import opened RaftServer
  import opened Quorum

  // ----- truncateSuffix keeps two entries too many -----

  /** The slice of the source stops at lastIndex + startIndex + 1, with startIndex being 1. */
  function TruncateAsWritten(log: Log, lastIndex: nat): Log {
    if lastIndex < 1 then []
    else if lastIndex < |log| then log[..Min(|log|, lastIndex + 2)]
    else log
  }

  lemma TruncatesAsMeantExactlyIf(log: Log, lastIndex: nat)
    ensures TruncateAsWritten(log, lastIndex) == TruncateSuffix(log, lastIndex) <==> lastIndex == 0 || lastIndex >= |log|
  {
  }

  /** The collection loop of handleAppendEntries with that slice, from the entry after `index` on: what is
      left of the log, and the entries collected for appending. */
  function CollectAsWritten(log: Log, index: nat, entries: seq<Entry>, collected: seq<Entry>): (r: (Log, seq<Entry>))
    ensures |r.0| <= |log|
    decreases entries
  {
    if entries == [] then (log, collected)
    else if index >= |log| then CollectAsWritten(log, index + 1, entries[1..], collected + [entries[0]])
    else if log[index].term == entries[0].term then CollectAsWritten(log, index + 1, entries[1..], collected)
    else CollectAsWritten(TruncateAsWritten(log, index), index + 1, entries[1..], collected + [entries[0]])
  }

  function MergeAsWritten(log: Log, prev: nat, entries: seq<Entry>): Log
    requires prev <= |log|
  {
    var (left, collected) := CollectAsWritten(log, prev, entries, []);
    left + collected
  }

  /** The entries conflict with the log, first at this element. */
  ghost predicate ConflictsFirstAt(log: Log, prev: nat, entries: seq<Entry>, at: nat) {
    && prev <= at < |log| && at < prev + |entries|
    && log[at].term != entries[at - prev].term
    && forall i | prev <= i < at :: log[i].term == entries[i - prev].term
  }

  /** Nothing after the first entry of the log has to be replaced. */
  ghost predicate NoLateConflict(log: Log, prev: nat, entries: seq<Entry>) {
    forall at: nat :: ConflictsFirstAt(log, prev, entries, at) ==> at == 0
  }

  /** Past the end of the log everything is collected. */
  lemma {:induction false} CollectsAllPastTheEnd(log: Log, index: nat, entries: seq<Entry>, collected: seq<Entry>)
    requires index >= |log|
    ensures CollectAsWritten(log, index, entries, collected) == (log, collected + entries)
    decreases entries
  {
    if entries == [] {
      assert collected + entries == collected;
    } else {
      CollectsAllPastTheEnd(log, index + 1, entries[1..], collected + [entries[0]]);
      assert collected + [entries[0]] + entries[1..] == collected + entries;
    }
  }

  /** From a conflict on, the log loses at most what lies two or more past it. */
  lemma {:induction false} CollectKeepsBelow(log: Log, index: nat, entries: seq<Entry>, collected: seq<Entry>, keep: nat)
    requires 1 <= keep <= index && keep <= |log|
    ensures log[..keep] <= CollectAsWritten(log, index, entries, collected).0
    decreases entries
  {
    if entries != [] {
      if index >= |log| {
        CollectKeepsBelow(log, index + 1, entries[1..], collected + [entries[0]], keep);
      } else if log[index].term == entries[0].term {
        CollectKeepsBelow(log, index + 1, entries[1..], collected, keep);
      } else {
        CollectKeepsBelow(TruncateAsWritten(log, index), index + 1, entries[1..], collected + [entries[0]], keep);
      }
    }
  }

  /** A conflict anywhere but at the first entry of the log is never resolved: the old entry stays where
      it was, although the leader is told that the request succeeded. */
  lemma {:induction false} ConflictStays(log: Log, prev: nat, entries: seq<Entry>, at: nat)
    requires ConflictsFirstAt(log, prev, entries, at) && at >= 1
    ensures log[..at + 1] <= MergeAsWritten(log, prev, entries)
    decreases entries
  {
    if prev == at {
      CollectKeepsBelow(TruncateAsWritten(log, at), at + 1, entries[1..], [] + [entries[0]], at + 1);
    } else {
      SameOneLater(log, prev, entries, at);
      ConflictStays(log, prev + 1, entries[1..], at);
    }
  }

  lemma SameOneLater(log: Log, prev: nat, entries: seq<Entry>, at: nat)
    requires ConflictsFirstAt(log, prev, entries, at) && prev < at
    ensures ConflictsFirstAt(log, prev + 1, entries[1..], at)
    ensures entries != [] && log[prev].term == entries[0].term
  {
    forall i | prev + 1 <= i < at ensures log[i].term == entries[1..][i - (prev + 1)].term {
      assert entries[1..][i - (prev + 1)] == entries[i - prev];
    }
  }

  /** The meant merge puts the leader's entry at the conflict. */
  lemma {:induction false} MergeResolves(log: Log, prev: nat, entries: seq<Entry>, at: nat)
    requires ConflictsFirstAt(log, prev, entries, at)
    ensures at < |Merge(log, prev, entries)| && Merge(log, prev, entries)[at] == entries[at - prev]
    decreases entries
  {
    if prev < at {
      SameOneLater(log, prev, entries, at);
      MergeResolves(log, prev + 1, entries[1..], at);
    }
  }

  /** Without a conflict, or with one at the very first entry, the text does what is meant. */
  lemma {:induction false} MergesAsMeant(log: Log, prev: nat, entries: seq<Entry>)
    requires prev <= |log| && NoLateConflict(log, prev, entries)
    ensures MergeAsWritten(log, prev, entries) == Merge(log, prev, entries)
    decreases entries
  {
    if entries == [] {
    } else if prev == |log| {
      CollectsAllPastTheEnd(log, prev, entries, []);
    } else if log[prev].term == entries[0].term {
      var next, rest := prev + 1, entries[1..];
      if at: nat :| ConflictsFirstAt(log, next, rest, at) {
        SameOneEarlier(log, prev, entries, at);
        assert false;
      }
      MergesAsMeant(log, next, rest);
    } else {
      assert ConflictsFirstAt(log, prev, entries, prev);
      CollectsAllPastTheEnd([], 1, entries[1..], [] + [entries[0]]);
      assert [entries[0]] + entries[1..] == entries;
    }
  }

  lemma SameOneEarlier(log: Log, prev: nat, entries: seq<Entry>, at: nat)
    requires entries != [] && prev < |log| && log[prev].term == entries[0].term
    requires ConflictsFirstAt(log, prev + 1, entries[1..], at)
    ensures ConflictsFirstAt(log, prev, entries, at)
  {
    forall i | prev <= i < at ensures log[i].term == entries[i - prev].term {
      if i > prev {
        assert entries[1..][i - (prev + 1)] == entries[i - prev];
      }
    }
  }

  /** The text merges as meant exactly if no entry after the first one has to be replaced. */
  lemma MergesAsMeantExactlyIf(log: Log, prev: nat, entries: seq<Entry>)
    requires prev <= |log|
    ensures MergeAsWritten(log, prev, entries) == Merge(log, prev, entries)
            <==> NoLateConflict(log, prev, entries)
  {
    if at: nat :| ConflictsFirstAt(log, prev, entries, at) && at != 0 {
      ConflictStays(log, prev, entries, at);
      MergeResolves(log, prev, entries, at);
      assert log[..at + 1][at] == log[at];
    } else {
      MergesAsMeant(log, prev, entries);
    }
  }

  /** One stale entry, and the merged log has both it and its replacement. */
  lemma StaleEntryStays(first: Entry, stale: Entry, current: Entry)
    requires stale.term != current.term
    ensures MergeAsWritten([first, stale], 1, [current]) == [first, stale, current]
    ensures Merge([first, stale], 1, [current]) == [first, current]
  {
    var log, entries := [first, stale], [current];
    assert TruncateAsWritten(log, 1) == log;
    assert entries[1..] == [] && [] + [entries[0]] == entries;
    assert CollectAsWritten(log, 1, entries, []) == CollectAsWritten(log, 2, [], entries) == (log, entries);
    assert log[..1] + entries == [first, current];
  }

  // ----- startNewElection without its guard -----

  function StartNewElectionAsWritten(s: Server): Server {
    var s1 := Persist(s.(currentTerm := s.currentTerm + 1, role := Candidate, leaderId := 0, votedFor := s.id,
                         peers := BeginRequestVote(s.peers)));
    if HasQuorum(s1) then BecomeLeader(s1) else s1
  }

  /** A server without a configuration needs no vote but its own. */
  lemma BlankElectsItself(s: Server)
    requires LatestConfiguration(s.log).None?
    ensures StartNewElectionAsWritten(s).role == Leader && StartNewElectionAsWritten(s).currentTerm == s.currentTerm + 1
    ensures StartNewElection(s) == s
  {
    assert CurrentMembers(s) == [];
  }

  lemma StandsAsMeantExactlyIf(s: Server)
    ensures StartNewElectionAsWritten(s) == StartNewElection(s) <==> LatestConfiguration(s.log).Some?
  {
    if LatestConfiguration(s.log).None? {
      BlankElectsItself(s);
    }
  }

  /** So two blank servers that time out lead the same term. */
  lemma TwoBlankLeaders(a: Server, b: Server)
    requires a.id != b.id && a.currentTerm == b.currentTerm
    requires LatestConfiguration(a.log).None? && LatestConfiguration(b.log).None?
    ensures StartNewElectionAsWritten(a).role == Leader && StartNewElectionAsWritten(b).role == Leader
    ensures StartNewElectionAsWritten(a).currentTerm == StartNewElectionAsWritten(b).currentTerm
    ensures StartNewElectionAsWritten(a).leaderId != StartNewElectionAsWritten(b).leaderId
  {
    BlankElectsItself(a);
    BlankElectsItself(b);
  }
}
