/** raft/memorylog.py, and what the collection loop of handleAppendEntries makes of a log. */
module RaftLog {
  import opened RaftTypes

  /** The entries that `truncateSuffix(lastIndex)` is meant to keep. */
  function TruncateSuffix(log: Log, lastIndex: nat): Log {
    if lastIndex < |log| then log[..lastIndex] else log
  }

  /** A log after the entries that follow index `prev` have been offered to it: entries it
      already has are skipped, the first conflict cuts the log, the rest is appended. */
  function Merge(log: Log, prev: nat, entries: seq<Entry>): Log
    requires prev <= |log|
    decreases entries
  {
    if entries == [] then log
    else if prev < |log| && log[prev].term == entries[0].term then Merge(log, prev + 1, entries[1..])
    else log[..prev] + entries
  }

  /** Log matching between two logs: equal terms at an index mean equal logs up to there. */
  ghost predicate Matching(a: Log, b: Log) {
    forall i | 0 <= i < |a| && i < |b| && a[i].term == b[i].term :: a[..i + 1] == b[..i + 1]
  }

  /** Offering a stretch of the leader's log either changes nothing, because the log has it all
      already, or leaves exactly the leader's log up to the end of the stretch. In the second
      case `cut` is where the log ended or first differed from the leader's. */
  lemma {:induction false} MergeFollowsLeader(log: Log, prev: nat, count: nat, leaderLog: Log) returns (cut: nat)
    requires prev <= |log| && prev + count <= |leaderLog|
    requires log[..prev] == leaderLog[..prev]
    requires Matching(log, leaderLog)
    ensures prev <= cut <= prev + count && cut <= |log| && log[..cut] == leaderLog[..cut]
    ensures cut < prev + count ==> cut == |log| || log[cut].term != leaderLog[cut].term
    ensures Merge(log, prev, leaderLog[prev..prev + count])
            == if cut == prev + count then log else leaderLog[..prev + count]
    decreases count
  {
    var entries := leaderLog[prev..prev + count];
    if count == 0 {
      cut := prev;
    } else if prev < |log| && log[prev].term == leaderLog[prev].term {
      assert entries[1..] == leaderLog[prev + 1..prev + 1 + (count - 1)];
      cut := MergeFollowsLeader(log, prev + 1, count - 1, leaderLog);
    } else {
      cut := prev;
      assert leaderLog[..prev] + entries == leaderLog[..prev + count];
    }
  }

  /** What both the old log and the leader's log start with survives the merge. */
  lemma MergeKeepsCommonPrefix(log: Log, prev: nat, count: nat, leaderLog: Log, kept: Log)
    requires prev <= |log| && prev + count <= |leaderLog|
    requires log[..prev] == leaderLog[..prev]
    requires Matching(log, leaderLog)
    requires kept <= log && kept <= leaderLog
    ensures kept <= Merge(log, prev, leaderLog[prev..prev + count])
  {
    var cut := MergeFollowsLeader(log, prev, count, leaderLog);
    assert cut < |kept| ==> kept[cut] == log[cut] && kept[cut] == leaderLog[cut];
  }

  class Sync {
    const lastIndex: nat

    constructor (lastIndex: nat)
      ensures this.lastIndex == lastIndex
    {
      this.lastIndex := lastIndex;
    }
  }

  /** The in-memory log. Its start index is always 1: prefixes are never truncated. */
  class MemoryLog {
    const startIndex: nat := 1
    var entries: seq<Entry>
    var currentSync: Sync

    constructor ()
      ensures entries == []
    {
      entries := [];
      currentSync := new Sync(0);
    }

    method Append(newEntries: seq<Entry>) returns (firstIndex: nat, lastIndex: int)
      modifies this`entries
      ensures entries == old(entries) + newEntries
      ensures firstIndex == old(|entries|) + 1 && lastIndex == |entries|
    {
      firstIndex := startIndex + |entries|;
      lastIndex := firstIndex + |newEntries| - 1;
      entries := entries + newEntries;
    }

    function GetEntry(index: nat): (e: Entry)
      requires startIndex <= index <= |entries|
      reads this`entries
      ensures e == entries[index - 1]
    {
      entries[index - startIndex]
    }

    function GetLastLogIndex(): (last: nat)
      reads this`entries
      ensures last == |entries|
    {
      startIndex + |entries| - 1
    }

    method TakeSync() returns (sync: Sync)
      modifies this`currentSync
      ensures fresh(sync) && currentSync == sync && sync.lastIndex == |entries|
    {
      sync := new Sync(GetLastLogIndex());
      currentSync := sync;
    }

    method DropSuffix(lastIndex: nat)
      modifies this`entries
      ensures entries == TruncateSuffix(old(entries), lastIndex)
      ensures entries <= old(entries) && |entries| == Min(old(|entries|), lastIndex)
    {
      if lastIndex < startIndex {
        entries := [];
      } else if lastIndex < startIndex - 1 + |entries| {
        entries := entries[..lastIndex - startIndex + 1];
      }
    }
  }
}
