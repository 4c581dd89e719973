/** The argument for Raft's safety, on the few facts that matter to it: each server's term and log,
    and a record of the votes cast, the elections won and the log prefixes held. The record is
    history: nothing a server does depends on it. */
module RaftHistory {
  import opened RaftTypes
  import opened RaftLog
  import opened Quorum

  datatype At = At(server: ServerId, term: nat)

  /** A vote, with the voter's log at the time. */
  datatype Vote = Vote(candidate: ServerId, log: Log)

  /** A won election: the log the winner stood with, and what its log has become in that term. */
  datatype Election = Election(leader: ServerId, voters: set<ServerId>, base: Log, log: Log)

  /** held[At(v, t)] is how much of the log of term t's leader server v has had while in term t. */
  datatype Replicas = Replicas(terms: map<ServerId, nat>, logs: map<ServerId, Log>,
                               votes: map<At, Vote>, elections: map<nat, Election>, held: map<At, nat>)

  // ----- what every log satisfies -----

  /** Every entry was placed by the leader of its term, on top of the same predecessors. */
  ghost predicate Genuine(log: Log, elections: map<nat, Election>) {
    forall i | 0 <= i < |log| :: log[i].term in elections && log[..i + 1] <= elections[log[i].term].log
  }

  ghost predicate Ordered(log: Log) {
    forall i, j | 0 <= i < j < |log| :: log[i].term <= log[j].term
  }

  ghost predicate TermsUpTo(log: Log, t: int) {
    forall i | 0 <= i < |log| :: log[i].term <= t
  }

  ghost predicate GoodLog(log: Log, elections: map<nat, Election>, t: int) {
    Genuine(log, elections) && Ordered(log) && TermsUpTo(log, t)
  }

  // ----- the invariant -----

  ghost predicate LogsInv(r: Replicas) {
    r.logs.Keys == r.terms.Keys &&
    forall v | v in r.logs :: GoodLog(r.logs[v], r.elections, r.terms[v])
  }

  ghost predicate VotesInv(r: Replicas) {
    forall b | b in r.votes ::
      var c := At(r.votes[b].candidate, b.term);
      && b.server in r.terms && b.term <= r.terms[b.server]
      && Genuine(r.votes[b].log, r.elections) && Ordered(r.votes[b].log)
      && c in r.votes && r.votes[c].candidate == c.server
      && TermsUpTo(r.votes[c].log, b.term - 1)
      && (b == c || UpToDate(LastTerm(r.votes[c].log), |r.votes[c].log|, r.votes[b].log))
  }

  ghost predicate WonByQuorum(r: Replicas, members: seq<ServerId>, t: nat)
    requires t in r.elections
  {
    var e := r.elections[t];
    && IsQuorum(members, e.voters) && e.leader in e.voters
    && (forall v | v in e.voters :: At(v, t) in r.votes && r.votes[At(v, t)].candidate == e.leader)
    && r.votes[At(e.leader, t)].log == e.base
  }

  ghost predicate ElectionsInv(r: Replicas, members: seq<ServerId>) {
    forall t | t in r.elections ::
      var e := r.elections[t];
      && t >= 1
      && GoodLog(e.log, r.elections, t)
      && e.base <= e.log && TermsUpTo(e.base, t - 1)
      && (forall i | |e.base| <= i < |e.log| :: e.log[i].term == t)
      && (t > 1 ==> WonByQuorum(r, members, t))
  }

  ghost predicate HeldInv(r: Replicas) {
    forall k | k in r.held ::
      && k.term in r.elections && r.held[k] <= |r.elections[k.term].log|
      && k.server in r.terms && k.term <= r.terms[k.server]
  }

  /** A log still has the first n entries of the log of term t's leader. */
  ghost predicate Keeps(r: Replicas, log: Log, t: nat, n: nat)
    requires t in r.elections && n <= |r.elections[t].log|
  {
    r.elections[t].log[..n] <= log
  }

  /** A leader between t and bound was elected without those entries. */
  ghost predicate Lost(r: Replicas, t: nat, n: nat, bound: nat)
    requires t in r.elections && n <= |r.elections[t].log|
  {
    exists u :: t < u < bound && u in r.elections && !Keeps(r, r.elections[u].base, t, n)
  }

  /** What a server has held it still has, unless a later leader it heard of lacked it. */
  ghost predicate LogKeeps(r: Replicas)
    requires HeldInv(r) && LogsInv(r)
  {
    forall k, n | k in r.held && n <= r.held[k] ::
      Keeps(r, r.logs[k.server], k.term, n) || Lost(r, k.term, n, r.terms[k.server] + 1)
  }

  /** The same for the log a voter had when it voted; of a decided election only the winning votes count. */
  ghost predicate VoteKeeps(r: Replicas)
    requires HeldInv(r)
  {
    forall k, b, n | k in r.held && b in r.votes && k.server == b.server && k.term < b.term && n <= r.held[k] ::
      (b.term in r.elections ==> b.server in r.elections[b.term].voters)
      ==> Keeps(r, r.votes[b].log, k.term, n) || Lost(r, k.term, n, b.term)
  }

  ghost predicate Inv(r: Replicas, members: seq<ServerId>) {
    && Distinct(members) && r.terms.Keys == Members(members)
    && LogsInv(r) && VotesInv(r) && ElectionsInv(r, members) && HeldInv(r) && LogKeeps(r) && VoteKeeps(r)
  }

  // ----- what the invariant is for -----

  /** Logs that come from leaders match. */
  lemma GenuineLogsMatch(a: Log, b: Log, elections: map<nat, Election>)
    requires Genuine(a, elections) && Genuine(b, elections)
    ensures Matching(a, b)
  {
    forall i | 0 <= i < |a| && i < |b| && a[i].term == b[i].term ensures a[..i + 1] == b[..i + 1] {
      var e := elections[a[i].term].log;
      assert a[..i + 1] == e[..i + 1] == b[..i + 1];
    }
  }

  /** The first n entries of term t's leader are held by a majority, and the last of them is of term t. */
  ghost predicate Committed(r: Replicas, members: seq<ServerId>, t: nat, n: nat) {
    && t in r.elections && 1 <= n <= |r.elections[t].log| && r.elections[t].log[n - 1].term == t
    && exists q :: HeldBy(r, members, q, t, n)
  }

  ghost predicate HeldBy(r: Replicas, members: seq<ServerId>, q: set<ServerId>, t: nat, n: nat) {
    IsQuorum(members, q) && forall v | v in q :: At(v, t) in r.held && r.held[At(v, t)] >= n
  }

  /** A log at least as up to date as one that keeps the entries keeps them too, if the leaders
      between do. */
  lemma UpToDateKeeps(r: Replicas, members: seq<ServerId>, t: nat, n: nat, voterLog: Log, base: Log)
    requires ElectionsInv(r, members) && t in r.elections && 1 <= n <= |r.elections[t].log|
    requires r.elections[t].log[n - 1].term == t
    requires Genuine(voterLog, r.elections) && Ordered(voterLog) && Genuine(base, r.elections)
    requires Keeps(r, voterLog, t, n)
    requires UpToDate(LastTerm(base), |base|, voterLog)
    requires LastTerm(base) > t ==> Keeps(r, r.elections[LastTerm(base)].base, t, n)
    ensures Keeps(r, base, t, n)
  {
    var kept := r.elections[t].log[..n];
    assert voterLog[n - 1] == kept[n - 1];
    assert LastTerm(voterLog) >= t;
    var last := LastTerm(base);
    assert base[..|base|] == base;
    assert base <= r.elections[last].log;
    if last > t {
      assert kept <= r.elections[last].log;
      assert base[|base| - 1] == r.elections[last].log[|base| - 1];
      assert forall i | 0 <= i < n :: r.elections[last].log[i] == kept[i];
    }
  }

  /** Leader completeness: what is committed in term t, every later leader stood with. */
  lemma {:induction false} LeaderCompleteness(r: Replicas, members: seq<ServerId>, t: nat, n: nat, u: nat)
    requires Inv(r, members) && Committed(r, members, t, n)
    requires u in r.elections && t < u
    ensures Keeps(r, r.elections[u].base, t, n)
    decreases u
  {
    forall w | t < w < u && w in r.elections ensures Keeps(r, r.elections[w].base, t, n) {
      LeaderCompleteness(r, members, t, n, w);
    }
    assert !Lost(r, t, n, u);
    var e := r.elections[u];
    var q :| HeldBy(r, members, q, t, n);
    var v := QuorumsIntersect(members, q, e.voters);
    var k, b, c := At(v, t), At(v, u), At(e.leader, u);
    assert k in r.held && b in r.votes && c in r.votes;
    assert Keeps(r, r.votes[b].log, t, n);
    if b != c {
      if LastTerm(e.base) > t {
        LastTermElected(e.base, r.elections);
        assert LastTerm(e.base) < u;
      }
      UpToDateKeeps(r, members, t, n, r.votes[b].log, e.base);
    }
  }

  lemma LastTermElected(log: Log, elections: map<nat, Election>)
    requires Genuine(log, elections) && log != []
    ensures LastTerm(log) in elections && log <= elections[LastTerm(log)].log
  {
    assert log[..|log|] == log;
  }

  /** Two committed prefixes never disagree. */
  lemma CommittedAgree(r: Replicas, members: seq<ServerId>, t1: nat, n1: nat, t2: nat, n2: nat)
    requires Inv(r, members) && Committed(r, members, t1, n1) && Committed(r, members, t2, n2)
    requires n1 <= n2
    ensures r.elections[t1].log[..n1] == r.elections[t2].log[..n1]
  {
    if t1 < t2 {
      LeaderCompleteness(r, members, t1, n1, t2);
    } else if t2 < t1 {
      LeaderCompleteness(r, members, t2, n2, t1);
    }
  }

  // ----- the events, and that each keeps the invariant -----

  function Advance(r: Replicas, v: ServerId, t: nat): Replicas {
    r.(terms := r.terms[v := t])
  }

  function CastVote(r: Replicas, v: ServerId, c: ServerId, t: nat): Replicas
    requires v in r.logs
  {
    r.(votes := r.votes[At(v, t) := Vote(c, r.logs[v])])
  }

  function Elect(r: Replicas, c: ServerId, t: nat, voters: set<ServerId>, first: Entry): Replicas
    requires c in r.logs
  {
    var log := r.logs[c] + [first];
    r.(elections := r.elections[t := Election(c, voters, r.logs[c], log)],
       logs := r.logs[c := log], held := r.held[At(c, t) := |log|])
  }

  function Extend(r: Replicas, c: ServerId, t: nat, e: Entry): Replicas
    requires c in r.logs && t in r.elections
  {
    var log := r.logs[c] + [e];
    r.(elections := r.elections[t := r.elections[t].(log := log)],
       logs := r.logs[c := log], held := r.held[At(c, t) := |log|])
  }

  function HeldAt(r: Replicas, k: At): nat {
    if k in r.held then r.held[k] else 0
  }

  function Accept(r: Replicas, v: ServerId, t: nat, prev: nat, count: nat): Replicas
    requires v in r.logs && t in r.elections && prev <= |r.logs[v]| && prev + count <= |r.elections[t].log|
  {
    r.(logs := r.logs[v := Merge(r.logs[v], prev, r.elections[t].log[prev..prev + count])],
       held := r.held[At(v, t) := Max(HeldAt(r, At(v, t)), prev + count)])
  }

  /** Elections are never forgotten, what decided them never changes, leaders only append. */
  ghost predicate Grows(r: Replicas, r': Replicas) {
    forall u | u in r.elections ::
      u in r'.elections && r.elections[u].log <= r'.elections[u].log
      && r'.elections[u] == r.elections[u].(log := r'.elections[u].log)
  }

  lemma KeepsCarriesOver(r: Replicas, r': Replicas, log: Log, log': Log, t: nat, n: nat)
    requires Grows(r, r') && t in r.elections && n <= |r.elections[t].log| && log <= log'
    requires Keeps(r, log, t, n)
    ensures t in r'.elections && n <= |r'.elections[t].log| && Keeps(r', log', t, n)
  {
    assert r.elections[t].log[..n] == r'.elections[t].log[..n];
  }

  lemma LostCarriesOver(r: Replicas, r': Replicas, t: nat, n: nat, bound: nat, bound': nat)
    requires Grows(r, r') && t in r.elections && n <= |r.elections[t].log| && bound <= bound'
    requires Lost(r, t, n, bound)
    ensures t in r'.elections && n <= |r'.elections[t].log| && Lost(r', t, n, bound')
  {
    var u :| t < u < bound && u in r.elections && !Keeps(r, r.elections[u].base, t, n);
    assert r.elections[t].log[..n] == r'.elections[t].log[..n];
    assert !Keeps(r', r'.elections[u].base, t, n);
  }

  lemma GoodLogCarriesOver(r: Replicas, r': Replicas, log: Log, t: int, t': int)
    requires Grows(r, r') && GoodLog(log, r.elections, t) && t <= t'
    ensures GoodLog(log, r'.elections, t')
  {
  }

  lemma GenuineCarriesOver(r: Replicas, r': Replicas, log: Log)
    requires Grows(r, r') && Genuine(log, r.elections)
    ensures Genuine(log, r'.elections)
  {
  }

  lemma WonCarriesOver(r: Replicas, r': Replicas, members: seq<ServerId>)
    requires ElectionsInv(r, members) && Grows(r, r')
    requires forall b | b in r.votes :: b in r'.votes && r'.votes[b] == r.votes[b]
    ensures forall u | u in r.elections && u > 1 :: WonByQuorum(r', members, u)
  {
    forall u | u in r.elections && u > 1 ensures WonByQuorum(r', members, u) {
      assert WonByQuorum(r, members, u);
    }
  }

  /** An event keeps LogKeeps if every holding is an old one on a log that only grew, or is of a
      prefix the server has now. */
  lemma LogKeepsCarriesOver(r: Replicas, r': Replicas)
    requires HeldInv(r) && LogsInv(r) && LogKeeps(r) && HeldInv(r') && LogsInv(r') && Grows(r, r')
    requires r.terms.Keys == r'.terms.Keys && forall v | v in r.terms :: r.terms[v] <= r'.terms[v]
    requires forall k | k in r'.held ::
      || (k in r.held && r'.held[k] == r.held[k] && r.logs[k.server] <= r'.logs[k.server])
      || Keeps(r', r'.logs[k.server], k.term, r'.held[k])
    ensures LogKeeps(r')
  {
    forall k, n: nat | k in r'.held && n <= r'.held[k]
      ensures Keeps(r', r'.logs[k.server], k.term, n) || Lost(r', k.term, n, r'.terms[k.server] + 1)
    {
      if Keeps(r', r'.logs[k.server], k.term, r'.held[k]) {
        assert r'.elections[k.term].log[..n] <= r'.elections[k.term].log[..r'.held[k]];
      } else if Keeps(r, r.logs[k.server], k.term, n) {
        KeepsCarriesOver(r, r', r.logs[k.server], r'.logs[k.server], k.term, n);
      } else {
        LostCarriesOver(r, r', k.term, n, r.terms[k.server] + 1, r'.terms[k.server] + 1);
      }
    }
  }

  /** An event that casts no vote keeps VoteKeeps if new holdings are of the holder's current term. */
  lemma VoteKeepsCarriesOver(r: Replicas, r': Replicas)
    requires HeldInv(r) && VoteKeeps(r) && HeldInv(r') && VotesInv(r') && Grows(r, r')
    requires r'.votes == r.votes
    requires forall k | k in r'.held :: (k in r.held && r'.held[k] == r.held[k]) || k.term == r'.terms[k.server]
    ensures VoteKeeps(r')
  {
    forall k, b, n: nat | k in r'.held && b in r'.votes && k.server == b.server && k.term < b.term && n <= r'.held[k]
      && (b.term in r'.elections ==> b.server in r'.elections[b.term].voters)
      ensures Keeps(r', r'.votes[b].log, k.term, n) || Lost(r', k.term, n, b.term)
    {
      if Keeps(r, r.votes[b].log, k.term, n) {
        KeepsCarriesOver(r, r', r.votes[b].log, r.votes[b].log, k.term, n);
      } else {
        LostCarriesOver(r, r', k.term, n, b.term, b.term);
      }
    }
  }

  lemma AdvanceKeepsInv(r: Replicas, members: seq<ServerId>, v: ServerId, t: nat)
    requires Inv(r, members) && v in r.terms && r.terms[v] <= t
    ensures Inv(Advance(r, v, t), members)
  {
    hide VoteKeeps, LogKeeps, Genuine, Ordered, WonByQuorum;
    var r' := Advance(r, v, t);
    assert HeldInv(r') && LogsInv(r');
    WonCarriesOver(r, r', members);
    LogKeepsCarriesOver(r, r');
    VoteKeepsCarriesOver(r, r');
  }

  /** A vote for oneself opens a candidacy; a vote for another needs the candidate's own vote and
      a log at least as up to date as the voter's. */
  ghost predicate MayVote(r: Replicas, v: ServerId, c: ServerId, t: nat)
    requires v in r.logs
  {
    && At(v, t) !in r.votes
    && if v == c then TermsUpTo(r.logs[v], t - 1)
       else At(c, t) in r.votes && r.votes[At(c, t)].candidate == c
            && UpToDate(LastTerm(r.votes[At(c, t)].log), |r.votes[At(c, t)].log|, r.logs[v])
  }

  lemma CastVoteKeepsInv(r: Replicas, members: seq<ServerId>, v: ServerId, c: ServerId)
    requires Inv(r, members) && v in r.terms && MayVote(r, v, c, r.terms[v])
    ensures Inv(CastVote(r, v, c, r.terms[v]), members)
  {
    hide VotesInv, ElectionsInv, LogKeeps, VoteKeeps, GoodLog, WonByQuorum, MayVote;
    var r' := CastVote(r, v, c, r.terms[v]);
    CastVoteKeepsVotes(r, members, v, c);
    CastVoteKeepsElections(r, members, v, c);
    LogKeepsCarriesOver(r, r');
    CastVoteKeepsVoteKeeps(r, members, v, c);
  }

  lemma CastVoteKeepsVotes(r: Replicas, members: seq<ServerId>, v: ServerId, c: ServerId)
    requires Inv(r, members) && v in r.terms && MayVote(r, v, c, r.terms[v])
    ensures VotesInv(CastVote(r, v, c, r.terms[v]))
  {
    hide ElectionsInv, LogKeeps, VoteKeeps, Genuine, Ordered, TermsUpTo, UpToDate;
  }

  lemma CastVoteKeepsElections(r: Replicas, members: seq<ServerId>, v: ServerId, c: ServerId)
    requires Inv(r, members) && v in r.terms && MayVote(r, v, c, r.terms[v])
    ensures ElectionsInv(CastVote(r, v, c, r.terms[v]), members)
  {
    hide VotesInv, LogKeeps, VoteKeeps, WonByQuorum, GoodLog;
    WonCarriesOver(r, CastVote(r, v, c, r.terms[v]), members);
  }

  lemma CastVoteKeepsVoteKeeps(r: Replicas, members: seq<ServerId>, v: ServerId, c: ServerId)
    requires Inv(r, members) && v in r.terms && MayVote(r, v, c, r.terms[v])
    ensures VoteKeeps(CastVote(r, v, c, r.terms[v]))
  {
    hide VotesInv, GoodLog, Genuine, WonByQuorum;
    var t := r.terms[v];
    var r' := CastVote(r, v, c, t);
    forall k, b, n: nat | k in r'.held && b in r'.votes && k.server == b.server && k.term < b.term && n <= r'.held[k]
      && (b.term in r'.elections ==> b.server in r'.elections[b.term].voters)
      ensures Keeps(r', r'.votes[b].log, k.term, n) || Lost(r', k.term, n, b.term)
    {
      if b == At(v, t) {
        if t in r.elections {
          VotersHaveVoted(r, members, t, v);
        }
        NewVoteKeeps(r, v, k, n);
      }
      assert Keeps(r, r'.votes[b].log, k.term, n) || Lost(r, k.term, n, b.term);
      if Lost(r, k.term, n, b.term) {
        LostCarriesOver(r, r', k.term, n, b.term, b.term);
      }
    }
  }

  lemma VotersHaveVoted(r: Replicas, members: seq<ServerId>, t: nat, v: ServerId)
    requires ElectionsInv(r, members) && t in r.elections && v in r.elections[t].voters && t > 1
    ensures At(v, t) in r.votes
  {
    assert WonByQuorum(r, members, t);
  }

  /** In an undecided term, whatever a server's log lost it lost to a leader of an earlier term. */
  lemma NewVoteKeeps(r: Replicas, v: ServerId, k: At, n: nat)
    requires HeldInv(r) && LogsInv(r) && LogKeeps(r)
    requires k in r.held && k.server == v && n <= r.held[k] && r.terms[v] !in r.elections
    ensures Keeps(r, r.logs[v], k.term, n) || Lost(r, k.term, n, r.terms[v])
  {
    if !Keeps(r, r.logs[v], k.term, n) {
      var u :| k.term < u < r.terms[v] + 1 && u in r.elections && !Keeps(r, r.elections[u].base, k.term, n);
      assert u != r.terms[v];
    }
  }

  /** The first leader of an undecided term: a quorum voted for it and its log is as it was then. */
  ghost predicate MayElect(r: Replicas, members: seq<ServerId>, c: ServerId, t: nat, voters: set<ServerId>)
    requires c in r.logs && c in r.terms
  {
    && t > 1 && t !in r.elections && r.terms[c] == t
    && IsQuorum(members, voters) && c in voters
    && (forall v | v in voters :: At(v, t) in r.votes && r.votes[At(v, t)].candidate == c)
    && r.votes[At(c, t)].log == r.logs[c]
  }

  /** A leader's log stays good when it appends an entry of its term. */
  lemma GoodAppend(r: Replicas, r': Replicas, log: Log, e: Entry)
    requires Grows(r, r') && GoodLog(log, r.elections, e.term)
    requires e.term in r'.elections && r'.elections[e.term].log == log + [e]
    ensures GoodLog(log + [e], r'.elections, e.term)
  {
    GoodLogCarriesOver(r, r', log, e.term, e.term);
    var log' := log + [e];
    forall i | 0 <= i < |log'| ensures log'[i].term in r'.elections && log'[..i + 1] <= r'.elections[log'[i].term].log {
      if i < |log| {
        assert log'[..i + 1] == log[..i + 1];
      } else {
        assert log'[..i + 1] == log';
      }
    }
  }

  /** Both becoming leader and appending as leader put one entry of term t on c's log and record it. */
  ghost predicate LeaderStep(r: Replicas, r': Replicas, c: ServerId, t: nat, e: Entry)
    requires c in r.logs && c in r.terms
  {
    && r.terms[c] == t && e.term == t && r'.terms == r.terms && r'.votes == r.votes
    && r'.logs == r.logs[c := r.logs[c] + [e]] && r'.held == r.held[At(c, t) := |r.logs[c]| + 1]
    && t in r'.elections && r'.elections[t].log == r.logs[c] + [e]
    && (forall u | u in r'.elections && u != t :: u in r.elections && r'.elections[u] == r.elections[u])
  }

  lemma LeaderStepKeepsLogs(r: Replicas, r': Replicas, members: seq<ServerId>, c: ServerId, t: nat, e: Entry)
    requires Inv(r, members) && c in r.logs && LeaderStep(r, r', c, t, e) && Grows(r, r')
    ensures LogsInv(r') && HeldInv(r') && VotesInv(r')
    ensures GoodLog(r.logs[c] + [e], r'.elections, t)
  {
    hide LogKeeps, VoteKeeps, WonByQuorum, UpToDate;
    GoodAppend(r, r', r.logs[c], e);
    forall v | v in r'.logs ensures GoodLog(r'.logs[v], r'.elections, r'.terms[v]) {
      if v != c {
        GoodLogCarriesOver(r, r', r.logs[v], r.terms[v], r.terms[v]);
      }
    }
    forall b | b in r.votes ensures Genuine(r.votes[b].log, r'.elections) {
      GenuineCarriesOver(r, r', r.votes[b].log);
    }
  }

  lemma LeaderStepKeepsElections(r: Replicas, r': Replicas, members: seq<ServerId>, c: ServerId, t: nat, e: Entry)
    requires ElectionsInv(r, members) && c in r.logs && c in r.terms && LeaderStep(r, r', c, t, e) && Grows(r, r')
    requires r'.elections[t].base <= r.logs[c] && TermsUpTo(r'.elections[t].base, t - 1)
    requires forall i | |r'.elections[t].base| <= i < |r.logs[c]| :: r.logs[c][i].term == t
    requires t >= 1 && (t > 1 ==> WonByQuorum(r', members, t))
    requires GoodLog(r.logs[c] + [e], r'.elections, t)
    ensures ElectionsInv(r', members)
  {
    WonCarriesOver(r, r', members);
    forall u | u in r.elections ensures GoodLog(r.elections[u].log, r'.elections, u) {
      GoodLogCarriesOver(r, r', r.elections[u].log, u, u);
    }
    assert forall i | |r'.elections[t].base| <= i < |r'.elections[t].log| :: r'.elections[t].log[i].term == t;
  }

  lemma LeaderStepKeepsInv(r: Replicas, r': Replicas, members: seq<ServerId>, c: ServerId, t: nat, e: Entry)
    requires Inv(r, members) && c in r.logs && LeaderStep(r, r', c, t, e) && Grows(r, r')
    requires r'.elections[t].base <= r.logs[c] && TermsUpTo(r'.elections[t].base, t - 1)
    requires forall i | |r'.elections[t].base| <= i < |r.logs[c]| :: r.logs[c][i].term == t
    requires t >= 1 && (t > 1 ==> WonByQuorum(r', members, t))
    ensures Inv(r', members)
  {
    hide VotesInv, ElectionsInv, VoteKeeps, LogKeeps, GoodLog, WonByQuorum, Grows;
    LeaderStepKeepsLogs(r, r', members, c, t, e);
    LeaderStepKeepsElections(r, r', members, c, t, e);
    assert Keeps(r', r'.logs[c], t, r'.held[At(c, t)]);
    LogKeepsCarriesOver(r, r');
    VoteKeepsCarriesOver(r, r');
  }

  lemma ElectKeepsInv(r: Replicas, members: seq<ServerId>, c: ServerId, t: nat, voters: set<ServerId>, first: Entry)
    requires Inv(r, members) && c in r.logs && MayElect(r, members, c, t, voters) && first.term == t
    ensures Inv(Elect(r, c, t, voters, first), members)
  {
    hide VotesInv, VoteKeeps, LogKeeps, HeldInv, ElectionsInv;
    LeaderStepKeepsInv(r, Elect(r, c, t, voters, first), members, c, t, first);
  }

  /** The leader of the term appends an entry of its own term to the log it leads with. */
  ghost predicate MayExtend(r: Replicas, c: ServerId, t: nat)
    requires c in r.logs && c in r.terms
  {
    t in r.elections && r.terms[c] == t && r.logs[c] == r.elections[t].log
  }

  lemma ExtendKeepsInv(r: Replicas, members: seq<ServerId>, c: ServerId, t: nat, e: Entry)
    requires Inv(r, members) && c in r.logs && MayExtend(r, c, t) && e.term == t
    ensures Inv(Extend(r, c, t, e), members)
  {
    hide VotesInv, VoteKeeps, LogKeeps, HeldInv, LogsInv, GoodLog;
    assert t > 1 ==> WonByQuorum(r, members, t);
    LeaderStepKeepsInv(r, Extend(r, c, t, e), members, c, t, e);
  }

  /** A server merges a stretch of the log of its term's leader whose predecessor it has. */
  ghost predicate MayAccept(r: Replicas, v: ServerId, t: nat, prev: nat, count: nat)
    requires v in r.logs && v in r.terms
  {
    && t in r.elections && r.terms[v] == t
    && prev <= |r.logs[v]| && prev + count <= |r.elections[t].log|
    && (prev > 0 ==> r.logs[v][prev - 1].term == r.elections[t].log[prev - 1].term)
  }

  lemma AcceptMatches(r: Replicas, members: seq<ServerId>, v: ServerId, t: nat, prev: nat, count: nat)
    requires Inv(r, members) && v in r.logs && MayAccept(r, v, t, prev, count)
    ensures Matching(r.logs[v], r.elections[t].log)
    ensures r.logs[v][..prev] == r.elections[t].log[..prev]
  {
    GenuineLogsMatch(r.logs[v], r.elections[t].log, r.elections);
  }

  lemma GoodPrefix(log: Log, elections: map<nat, Election>, t: int, n: nat)
    requires GoodLog(log, elections, t) && n <= |log|
    ensures GoodLog(log[..n], elections, t)
  {
    forall i | 0 <= i < n ensures log[..n][..i + 1] <= elections[log[..n][i].term].log {
      assert log[..n][..i + 1] == log[..i + 1];
    }
  }

  /** Accepting leaves a log that starts with the leader's log up to the end of the stretch. */
  lemma AcceptedPrefix(r: Replicas, members: seq<ServerId>, v: ServerId, t: nat, prev: nat, count: nat)
    requires Inv(r, members) && v in r.logs && MayAccept(r, v, t, prev, count)
    ensures var log' := Merge(r.logs[v], prev, r.elections[t].log[prev..prev + count]);
            r.elections[t].log[..prev + count] <= log' && GoodLog(log', r.elections, t)
  {
    hide VotesInv, VoteKeeps, LogKeeps, HeldInv, Genuine, Ordered, TermsUpTo, Matching, WonByQuorum, Merge;
    AcceptMatches(r, members, v, t, prev, count);
    var cut := MergeFollowsLeader(r.logs[v], prev, count, r.elections[t].log);
    GoodPrefix(r.elections[t].log, r.elections, t, prev + count);
  }

  /** What no leader up to t was elected without, the leader of t has. */
  lemma LeaderHas(r: Replicas, t: nat, k: nat, n: nat)
    requires t in r.elections && k in r.elections && n <= |r.elections[k].log| && k <= t
    requires r.elections[t].base <= r.elections[t].log
    requires !Lost(r, k, n, t + 1)
    ensures r.elections[k].log[..n] <= r.elections[t].log
  {
    assert k < t ==> Keeps(r, r.elections[t].base, k, n);
  }

  /** What a server holds survives merging, unless the leader of the term was elected without it. */
  lemma AcceptKeepsHolding(r: Replicas, v: ServerId, t: nat, prev: nat, count: nat, k: nat, n: nat, log': Log)
    requires v in r.logs && v in r.terms && MayAccept(r, v, t, prev, count)
    requires Matching(r.logs[v], r.elections[t].log) && r.logs[v][..prev] == r.elections[t].log[..prev]
    requires r.elections[t].base <= r.elections[t].log
    requires k in r.elections && n <= |r.elections[k].log| && k <= t
    requires Keeps(r, r.logs[v], k, n) || Lost(r, k, n, t + 1)
    requires log' == Merge(r.logs[v], prev, r.elections[t].log[prev..prev + count])
    ensures Keeps(r, log', k, n) || Lost(r, k, n, t + 1)
  {
    if !Lost(r, k, n, t + 1) {
      LeaderHas(r, t, k, n);
      MergeKeepsCommonPrefix(r.logs[v], prev, count, r.elections[t].log, r.elections[k].log[..n]);
    }
  }

  /** Holdings of one server before and after it accepts a stretch. */
  lemma AcceptedHolding(r: Replicas, r': Replicas, members: seq<ServerId>,
                        v: ServerId, t: nat, prev: nat, count: nat, k: At, n: nat)
    requires Inv(r, members) && v in r.logs && MayAccept(r, v, t, prev, count)
    requires r' == Accept(r, v, t, prev, count) && k in r'.held && n <= r'.held[k]
    ensures k.term in r.elections && n <= |r.elections[k.term].log| && k.server in r'.logs
    ensures Keeps(r, r'.logs[k.server], k.term, n) || Lost(r, k.term, n, r.terms[k.server] + 1)
  {
    hide VotesInv, VoteKeeps, GoodLog, Genuine, WonByQuorum, Matching, Merge;
    AcceptedPrefix(r, members, v, t, prev, count);
    if k == At(v, t) && n <= prev + count {
      assert r.elections[t].log[..n] <= r.elections[t].log[..prev + count];
    } else if k.server == v {
      AcceptMatches(r, members, v, t, prev, count);
      AcceptKeepsHolding(r, v, t, prev, count, k.term, n, r'.logs[v]);
    }
  }

  lemma AcceptKeepsLogKeeps(r: Replicas, members: seq<ServerId>, v: ServerId, t: nat, prev: nat, count: nat)
    requires Inv(r, members) && v in r.logs && MayAccept(r, v, t, prev, count)
    requires HeldInv(Accept(r, v, t, prev, count)) && LogsInv(Accept(r, v, t, prev, count))
    ensures LogKeeps(Accept(r, v, t, prev, count))
  {
    var r' := Accept(r, v, t, prev, count);
    forall k, n: nat | k in r'.held && n <= r'.held[k]
      ensures Keeps(r', r'.logs[k.server], k.term, n) || Lost(r', k.term, n, r'.terms[k.server] + 1)
    {
      AcceptedHolding(r, r', members, v, t, prev, count, k, n);
      if Lost(r, k.term, n, r.terms[k.server] + 1) {
        LostCarriesOver(r, r', k.term, n, r.terms[k.server] + 1, r.terms[k.server] + 1);
      } else {
        KeepsCarriesOver(r, r', r'.logs[k.server], r'.logs[k.server], k.term, n);
      }
    }
  }

  lemma AcceptKeepsInv(r: Replicas, members: seq<ServerId>, v: ServerId, t: nat, prev: nat, count: nat)
    requires Inv(r, members) && v in r.logs && MayAccept(r, v, t, prev, count)
    ensures Inv(Accept(r, v, t, prev, count), members)
  {
    hide VoteKeeps, LogKeeps, GoodLog, WonByQuorum, Merge, Genuine;
    var r' := Accept(r, v, t, prev, count);
    AcceptedPrefix(r, members, v, t, prev, count);
    assert HeldInv(r') && LogsInv(r');
    WonCarriesOver(r, r', members);
    AcceptKeepsLogKeeps(r, members, v, t, prev, count);
    VoteKeepsCarriesOver(r, r');
  }
}
