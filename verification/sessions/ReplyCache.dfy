/** pynfs/nfs4.1/nfs4commoncode.py: the results of a compound as they are sent and as they are kept for a
    retry (section 2.10.6.1.3 of RFC 5661). */
module ReplyCache {

  const OK: nat := 0
  const RETRY_UNCACHED_REP: nat := 10068
  const REPLAY_PREFIX := "[REPLAY] "

  /** One operation's result; `body` stands for what else it says and `size` for its encoded length. */
  datatype Result = Result(op: nat, status: nat, body: nat, size: nat)

  datatype Response = Response(status: nat, tag: string, results: seq<Result>)

  function LastStatus(results: seq<Result>): nat {
    if results == [] then OK else results[|results| - 1].status
  }

  /** A compound stops at its first failure. */
  function UpToFailure(outcomes: seq<Result>): (results: seq<Result>)
    ensures results <= outcomes
  {
    if outcomes == [] then []
    else if outcomes[0].status != OK then [outcomes[0]]
    else [outcomes[0]] + UpToFailure(outcomes[1..])
  }

  function Sent(tag: string, results: seq<Result>): Response {
    Response(LastStatus(results), tag, results)
  }

  function Uncached(op: nat): Result {
    Result(op, RETRY_UNCACHED_REP, 0, 8)
  }

  /** Unless caching was asked for, a retry gets the first result and an error in place of the second. */
  function Kept(results: seq<Result>, caching: bool): seq<Result> {
    if caching || |results| <= 1 then results else [results[0], Uncached(results[1].op)]
  }

  function Cached(tag: string, results: seq<Result>, caching: bool): Response {
    Response(LastStatus(Kept(results, caching)), REPLAY_PREFIX + tag, Kept(results, caching))
  }

  /** A response that says in its status how its last operation ended, all earlier ones having gone well. */
  ghost predicate WellFormed(r: Response) {
    && r.status == LastStatus(r.results)
    && forall i | 0 <= i < |r.results| - 1 :: r.results[i].status == OK
  }

  lemma {:induction false} OnlyTheLastFails(outcomes: seq<Result>)
    ensures var r := UpToFailure(outcomes);
            && (forall i | 0 <= i < |r| - 1 :: r[i].status == OK)
            && (LastStatus(r) == OK <==> forall i | 0 <= i < |outcomes| :: outcomes[i].status == OK)
            && (LastStatus(r) == OK ==> r == outcomes)
            && (outcomes != [] ==> r != [])
    decreases |outcomes|
  {
    if outcomes != [] && outcomes[0].status == OK {
      OnlyTheLastFails(outcomes[1..]);
      var rest := UpToFailure(outcomes[1..]);
      assert outcomes == [outcomes[0]] + outcomes[1..];
      assert LastStatus([outcomes[0]] + rest) == if rest == [] then OK else LastStatus(rest);
    }
  }

  /** Both the reply and its cached form are well-formed responses that begin with the same result. */
  lemma BothWellFormed(tag: string, outcomes: seq<Result>, caching: bool)
    requires outcomes != []
    ensures var r := UpToFailure(outcomes);
            && WellFormed(Sent(tag, r)) && WellFormed(Cached(tag, r, caching))
            && Cached(tag, r, caching).results != [] && Cached(tag, r, caching).results[0] == r[0] == outcomes[0]
            && Sent(tag, r).tag == tag && Cached(tag, r, caching).tag == "[REPLAY] " + tag
  {
    OnlyTheLastFails(outcomes);
  }

  /** A retry gets the results of the first reply exactly if caching was asked for, or there is just the one
      result that is always kept, or the error is what the second and last operation said anyway. */
  lemma RetrySaysTheSameExactlyIf(tag: string, results: seq<Result>, caching: bool)
    ensures Cached(tag, results, caching).results == Sent(tag, results).results
            <==> caching || |results| <= 1 || (|results| == 2 && results[1] == Uncached(results[1].op))
    ensures !caching && |results| > 1 ==>
              && Cached(tag, results, caching).status == 10068
              && Cached(tag, results, caching).results == [results[0], Result(results[1].op, 10068, 0, 8)]
  {
  }

  // ----- accumulated in place -----

  function Sum(sizes: seq<nat>): nat {
    if sizes == [] then 0 else Sum(sizes[..|sizes| - 1]) + sizes[|sizes| - 1]
  }

  class CompoundArgResults {
    const prefix: string
    var status: nat
    var results: seq<Result>
    var packed: seq<nat>
    var baseLength: nat

    /** The status is that of the last result, and the length is kept in step with what is packed. */
    ghost predicate Valid()
      reads this
    {
      && status == LastStatus(results)
      && |packed| == |results| && (forall i | 0 <= i < |packed| :: packed[i] == results[i].size)
      && baseLength == 8 + Sum(packed)
    }

    constructor (prefix: string)
      ensures Valid() && results == [] && this.prefix == prefix
    {
      this.prefix := prefix;
      status, results, packed, baseLength := OK, [], [], 8;
    }

    method Append(result: Result)
      requires Valid()
      modifies this
      ensures Valid() && results == old(results) + [result]
    {
      status := result.status;
      results := results + [result];
      packed := packed + [result.size];
      baseLength := baseLength + result.size;
      assert packed[..|packed| - 1] == old(packed);
    }
  }

  lemma KeptOfNone(caching: bool)
    ensures Kept([], caching) == []
  {
  }

  /** One operation further along the compound. */
  lemma OneMore(done: seq<Result>, outcomes: seq<Result>, i: nat)
    requires i < |outcomes|
    ensures done + UpToFailure(outcomes[i..])
            == if outcomes[i].status != OK then done + [outcomes[i]]
               else done + [outcomes[i]] + UpToFailure(outcomes[i + 1..])
  {
    var rest := outcomes[i..];
    assert rest[0] == outcomes[i] && rest[1..] == outcomes[i + 1..];
    assert done + ([outcomes[i]] + UpToFailure(rest[1..])) == done + [outcomes[i]] + UpToFailure(rest[1..]);
  }

  lemma NoneLeft(outcomes: seq<Result>, done: seq<Result>)
    ensures done + UpToFailure(outcomes[|outcomes|..]) == done
  {
  }

  class PairedResults {
    var index: int
    var caching: bool
    const reply: CompoundArgResults
    const cache: CompoundArgResults

    ghost predicate Valid()
      reads this, reply, cache
    {
      && reply != cache && reply.Valid() && cache.Valid()
      && reply.prefix == "" && cache.prefix == REPLAY_PREFIX
    }

    constructor ()
      ensures Valid() && fresh(reply) && fresh(cache) && index == -1 && caching
      ensures reply.results == [] && cache.results == []
    {
      index, caching := -1, true;
      reply := new CompoundArgResults("");
      cache := new CompoundArgResults(REPLAY_PREFIX);
    }

    lemma StatusIsLast()
      requires Valid()
      ensures reply.status == LastStatus(reply.results) && cache.status == LastStatus(cache.results)
    {
    }

    method Append(result: Result)
      requires Valid() && index == |reply.results| && cache.results == Kept(reply.results, caching)
      modifies reply, cache
      ensures Valid()
      ensures reply.results == old(reply.results) + [result]
      ensures cache.results == Kept(reply.results, caching)
    {
      reply.Append(result);
      if caching || index == 0 {
        cache.Append(result);
      } else if index == 1 {
        cache.Append(Uncached(result.op));
      }
    }

    /** The loop of op_compound over what each operation comes to; the first, SEQUENCE, says whether the
        reply is to be kept. */
    method RunCompound(outcomes: seq<Result>, cacheThis: bool, tag: string) returns (sent: Response, kept: Response)
      requires Valid() && index == -1 && caching && reply.results == [] && cache.results == []
      modifies this, reply, cache
      ensures sent == Sent(tag, UpToFailure(outcomes))
      ensures kept == Cached(tag, UpToFailure(outcomes), caching)
      ensures caching == (outcomes != [] && outcomes[0].status == OK ==> cacheThis)
    {
      hide UpToFailure, Kept, CompoundArgResults.Valid;
      KeptOfNone(caching);
      assert [] + UpToFailure(outcomes[0..]) == UpToFailure(outcomes);
      var i := 0;
      while i < |outcomes|
        invariant i <= |outcomes| && index == i - 1 && i == |reply.results| && Valid()
        invariant cache.results == Kept(reply.results, caching)
        invariant i == 0 ==> caching
        invariant i > 0 ==> caching == (outcomes[0].status == OK ==> cacheThis)
        invariant reply.results + UpToFailure(outcomes[i..]) == UpToFailure(outcomes)
      {
        OneMore(reply.results, outcomes, i);
        index := index + 1;
        if index == 0 && outcomes[0].status == OK {
          caching := cacheThis;
          KeptOfNone(caching);
        }
        Append(outcomes[i]);
        i := i + 1;
        if reply.results[i - 1].status != OK {
          break;
        }
      }
      if i == |outcomes| {
        NoneLeft(outcomes, reply.results);
      }
      StatusIsLast();
      sent := Response(reply.status, reply.prefix + tag, reply.results);
      kept := Response(cache.status, cache.prefix + tag, cache.results);
    }
  }
}
