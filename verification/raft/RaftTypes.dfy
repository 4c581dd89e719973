/** The values the Raft servers store and exchange: log entries, roles and the
    bodies of the two RPCs. */
module RaftTypes {
  import opened Optional

  /** Server ids are positive; 0 stands for "nobody" in votedFor and leaderId. */
  type ServerId = nat

  datatype Payload = Configuration(servers: seq<ServerId>) | Data(blob: string) | Noop

  datatype Entry = Entry(term: nat, payload: Payload)

  /** Entry number i of the source is element i - 1 here: the log starts at index 1. */
  type Log = seq<Entry>

  datatype Role = Follower | Candidate | Leader

  datatype VoteRequest = VoteRequest(candidate: ServerId, term: nat, lastLogTerm: nat, lastLogIndex: nat)

  datatype VoteResponse = VoteResponse(term: nat, granted: bool)

  datatype AppendRequest = AppendRequest(leader: ServerId, term: nat, prevLogTerm: nat, prevLogIndex: nat,
                                         entries: seq<Entry>, commitIndex: nat)

  datatype AppendResponse = AppendResponse(term: nat, success: bool, lastLogIndex: nat)

  const MAX_ENTRIES := 128

  function Min(a: nat, b: nat): nat {
    if a <= b then a else b
  }

  function Max(a: nat, b: nat): nat {
    if a <= b then b else a
  }

  function LastTerm(log: Log): nat {
    if log == [] then 0 else log[|log| - 1].term
  }

  /** The comparison a voter makes before it gives its vote. */
  predicate UpToDate(lastTerm: nat, lastIndex: nat, log: Log) {
    lastTerm > LastTerm(log) || (lastTerm == LastTerm(log) && lastIndex >= |log|)
  }

  /** Latest CONFIGURATION entry of a log, which is the configuration in force. */
  function LatestConfiguration(log: Log): Option<seq<ServerId>> {
    if log == [] then None
    else if log[|log| - 1].payload.Configuration? then Some(log[|log| - 1].payload.servers)
    else LatestConfiguration(log[..|log| - 1])
  }

  /** The membership never changes: every CONFIGURATION entry names the same servers. */
  ghost predicate FixedMembership(log: Log, members: seq<ServerId>) {
    forall i | 0 <= i < |log| && log[i].payload.Configuration? :: log[i].payload.servers == members
  }

  lemma {:induction false} LatestIsFixed(log: Log, members: seq<ServerId>)
    requires FixedMembership(log, members)
    ensures LatestConfiguration(log) in {None, Some(members)}
  {
    if log != [] && !log[|log| - 1].payload.Configuration? {
      LatestIsFixed(log[..|log| - 1], members);
    }
  }

  lemma LatestAfterAppend(log: Log, e: Entry)
    requires !e.payload.Configuration?
    ensures LatestConfiguration(log + [e]) == LatestConfiguration(log)
  {
    assert (log + [e])[..|log|] == log;
  }
}
