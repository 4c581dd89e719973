/** The slot protocol of NFSv4.1 sessions (section 2.10.6 of RFC 5661) between the slot of a client
    (pynfs/nfs4.1/nfs4client.py) and that of a server (nfs4server.py), over a network that loses, repeats
    and reorders messages. Sequence ids are 32 bits wide and wrap. */
module Slots {
  import opened Optional
  import opened ReplyCache
  import opened SequenceIds

  const OP_SEQUENCE: nat := 53
  const DELAY: nat := 10008
  const SEQ_MISORDERED: nat := 10063

  // ----- the protocol -----

  /** A request for a call. Which call it is of (its xid) tells whose answer is whose; the position it was made
      for, without wrap-around, is history: nobody looks at it. */
  datatype Request = Request(id: nat, position: nat, seqid: nat, cacheThis: bool, tag: string)

  datatype Answer = Answer(id: nat, response: Response)

  /** The client half of a slot is in use while a call is outstanding. */
  datatype Client = Client(seqid: nat, outstanding: Option<Request>)

  /** The cache objects made so far, and which of them the slot refers to. A cache without data is not valid
      yet, and the retries that found it wait for it. */
  datatype Server = Server(seqid: nat, caches: seq<Option<Response>>, current: nat, waiting: set<Waiter>)

  datatype Waiter = Waiter(cache: nat, id: nat)

  /** History: every call made, the requests that were let through, what each came to, and how many
      positions the client has completed. */
  datatype History = History(calls: seq<Request>, accepted: seq<Request>, results: map<nat, seq<Result>>, completed: nat)

  datatype System = System(client: Client, server: Server, requests: set<Request>, answers: set<Answer>, history: History)

  datatype Event =
    | Call(cacheThis: bool, tag: string)
    | Send
    | Arrive(req: Request)
    | Refuse(req: Request, status: nat)
    | Finish(cache: nat, others: seq<Result>)
    | Retry(waiter: Waiter)
    | Take(answer: Answer, again: bool)

  function SequenceResult(seqid: nat): Result {
    Result(OP_SEQUENCE, OK, seqid, 44)
  }

  function ErrorResponse(tag: string, status: nat): Response {
    Sent(tag, [Result(OP_SEQUENCE, status, 0, 8)])
  }

  /** Arrival is taken to happen before the slot has moved on by a full wrap: messages do not live longer. */
  predicate InTime(sys: System, req: Request) {
    |sys.history.accepted| - req.position < WRAP - 1
  }

  /** A refusal is an error met before the sequence id is looked at (an unknown session, a request that is too
      big, an injected error). */
  predicate Enabled(sys: System, ev: Event) {
    match ev
    case Call(_, _) => sys.client.outstanding.None?
    case Send => sys.client.outstanding.Some?
    case Arrive(req) => req in sys.requests && InTime(sys, req)
    case Refuse(req, status) => req in sys.requests && status != OK && status != SEQ_MISORDERED
    case Finish(cache, _) => 1 <= cache < |sys.server.caches| && sys.server.caches[cache].None? && cache <= |sys.history.accepted|
    case Retry(w) => w in sys.server.waiting && w.cache < |sys.server.caches| && sys.server.caches[w.cache].Some?
                     && w.id < |sys.history.calls|
    case Take(answer, again) =>
      && answer in sys.answers && sys.client.outstanding.Some? && sys.client.outstanding.value.id == answer.id
      && answer.response.results != []
      && (again ==> answer.response.results[0].status == DELAY)
  }

  /** seq_op of the client. */
  function NewCall(sys: System, cacheThis: bool, tag: string): Request {
    Request(|sys.history.calls|, sys.history.completed + 1, Inc(sys.client.seqid), cacheThis, tag)
  }

  function ArriveStep(sys: System, req: Request): System {
    var s := sys.server;
    match CheckSeqid(s.seqid, req.seqid)
    case New =>
      sys.(server := s.(seqid := Inc(s.seqid), caches := s.caches + [None], current := |s.caches|),
           history := sys.history.(accepted := sys.history.accepted + [req]))
    case Replay =>
      sys.(server := s.(waiting := s.waiting + {Waiter(s.current, req.id)}))
    case Misordered =>
      sys.(answers := sys.answers + {Answer(req.id, ErrorResponse(req.tag, SEQ_MISORDERED))})
  }

  /** The operations after SEQUENCE have run; what they come to is up to them. */
  function FinishStep(sys: System, cache: nat, others: seq<Result>): System
    requires Enabled(sys, Finish(cache, others))
  {
    var req := sys.history.accepted[cache - 1];
    var results := UpToFailure([SequenceResult(req.seqid)] + others);
    sys.(server := sys.server.(caches := sys.server.caches[cache := Some(Cached(req.tag, results, req.cacheThis))]),
         answers := sys.answers + {Answer(req.id, Sent(req.tag, results))},
         history := sys.history.(results := sys.history.results[cache := results]))
  }

  /** finish_call; a call that met NFS4ERR_DELAY may be kept for another try. */
  function TakeStep(sys: System, answer: Answer, again: bool): System
    requires answer.response.results != []
  {
    var first := answer.response.results[0];
    if first.status == OK
    then sys.(client := Client(first.body, None), history := sys.history.(completed := sys.history.completed + 1))
    else if again then sys
    else sys.(client := sys.client.(outstanding := None))
  }

  function Next(sys: System, ev: Event): System
    requires Enabled(sys, ev)
  {
    match ev
    case Call(cacheThis, tag) =>
      var req := NewCall(sys, cacheThis, tag);
      sys.(client := sys.client.(outstanding := Some(req)), history := sys.history.(calls := sys.history.calls + [req]))
    case Send => sys.(requests := sys.requests + {sys.client.outstanding.value})
    case Arrive(req) => ArriveStep(sys, req)
    case Refuse(req, status) => sys.(answers := sys.answers + {Answer(req.id, ErrorResponse(req.tag, status))})
    case Finish(cache, others) => FinishStep(sys, cache, others)
    case Retry(w) => sys.(answers := sys.answers + {Answer(w.id, sys.server.caches[w.cache].value)})
    case Take(answer, again) => TakeStep(sys, answer, again)
  }

  /** The cache a slot starts with answers a retry of nothing. */
  function DefaultReplay(): Response {
    Response(SEQ_MISORDERED, "auto-created replay response", [Result(OP_SEQUENCE, SEQ_MISORDERED, 0, 8)])
  }

  function Init(): System {
    System(Client(0, None), Server(0, [Some(DefaultReplay())], 0, {}), {}, {}, History([], [], map[], 0))
  }

  ghost predicate IsRun(states: seq<System>, events: seq<Event>) {
    && |states| == |events| + 1 && states[0] == Init()
    && forall i | 0 <= i < |events| :: Enabled(states[i], events[i]) && states[i + 1] == Next(states[i], events[i])
  }

  // ----- the invariant -----

  ghost predicate InStep(sys: System) {
    var m, c := |sys.history.accepted|, sys.history.completed;
    && c <= m <= c + 1
    && sys.client.seqid == c % WRAP && sys.server.seqid == m % WRAP
    && |sys.server.caches| == m + 1 && sys.server.current == m
  }

  ghost predicate GoodRequest(sys: System, req: Request) {
    && req.id < |sys.history.calls| && sys.history.calls[req.id] == req
    && 1 <= req.position <= sys.history.completed + 1 && req.seqid == req.position % WRAP
  }

  ghost predicate RequestsOk(sys: System) {
    && (forall id | 0 <= id < |sys.history.calls| :: sys.history.calls[id].id == id && GoodRequest(sys, sys.history.calls[id]))
    && (forall req | req in sys.requests :: GoodRequest(sys, req))
    && (sys.client.outstanding.Some? ==>
          GoodRequest(sys, sys.client.outstanding.value)
          && sys.client.outstanding.value.position == sys.history.completed + 1)
  }

  ghost predicate AcceptedOk(sys: System) {
    forall j | 0 <= j < |sys.history.accepted| ::
      GoodRequest(sys, sys.history.accepted[j]) && sys.history.accepted[j].position == j + 1
  }

  /** What the cache of a position holds once it is valid. */
  ghost predicate CacheOk(sys: System, k: nat)
    requires 1 <= k < |sys.server.caches| && k <= |sys.history.accepted|
  {
    var req := sys.history.accepted[k - 1];
    && (sys.server.caches[k].Some? <==> k in sys.history.results)
    && (k in sys.history.results ==>
          && sys.history.results[k] != [] && sys.history.results[k][0] == SequenceResult(req.seqid)
          && sys.server.caches[k].value == Cached(req.tag, sys.history.results[k], req.cacheThis))
  }

  ghost predicate CachesOk(sys: System)
    requires InStep(sys)
  {
    && (forall k | 1 <= k <= |sys.history.accepted| :: CacheOk(sys, k))
    && (forall k | k in sys.history.results :: 1 <= k <= |sys.history.accepted|)
    && (forall w | w in sys.server.waiting ::
          w.id < |sys.history.calls| && w.cache == sys.history.calls[w.id].position <= |sys.history.accepted|)
  }

  /** The response is the first reply given at this position, to the call that was let through there. */
  ghost predicate IsFirstReply(sys: System, position: nat, a: Answer) {
    && 1 <= position <= |sys.history.accepted| && position in sys.history.results
    && a.id == sys.history.accepted[position - 1].id
    && a.response == Sent(sys.history.accepted[position - 1].tag, sys.history.results[position])
  }

  /** The response is what was kept of it. */
  ghost predicate IsKeptReply(sys: System, position: nat, response: Response) {
    && 1 <= position <= |sys.history.accepted| && position in sys.history.results
    && var req := sys.history.accepted[position - 1];
       response == Cached(req.tag, sys.history.results[position], req.cacheThis)
  }

  /** An answer is a first reply, a kept one or an error; out of order are only calls that are over. */
  ghost predicate AnswerOk(sys: System, a: Answer) {
    && a.id < |sys.history.calls| && a.response.results != []
    && var position := sys.history.calls[a.id].position;
       if a.response.results[0].status == OK
       then IsFirstReply(sys, position, a) || IsKeptReply(sys, position, a.response)
       else a.response.results[0].status == SEQ_MISORDERED ==> position <= sys.history.completed
  }

  ghost predicate AnswersOk(sys: System) {
    forall a | a in sys.answers :: AnswerOk(sys, a)
  }

  ghost predicate Inv(sys: System) {
    InStep(sys) && RequestsOk(sys) && AcceptedOk(sys) && CachesOk(sys) && AnswersOk(sys)
  }

  // ----- every step -----

  lemma StepInStep(sys: System, ev: Event)
    requires Inv(sys) && Enabled(sys, ev)
    ensures InStep(Next(sys, ev))
  {
    hide CacheOk, IsFirstReply, IsKeptReply;
    match ev
    case Arrive(req) =>
      VerdictInTime(req.position, |sys.history.accepted|);
      IncMod(|sys.history.accepted|);
    case Take(answer, again) =>
      if answer.response.results[0].status == OK {
        OkMeansAccepted(sys, answer);
      }
    case _ =>
  }

  /** An answer whose SEQUENCE went well is for a position that was let through, and names its id. */
  lemma OkMeansAccepted(sys: System, a: Answer)
    requires Inv(sys) && a in sys.answers && a.response.results != [] && a.response.results[0].status == OK
    ensures a.id < |sys.history.calls|
    ensures var position := sys.history.calls[a.id].position;
            && position <= |sys.history.accepted|
            && a.response.results[0].body == position % WRAP
  {
    assert AnswerOk(sys, a);
    var position := sys.history.calls[a.id].position;
    assert 1 <= position <= |sys.history.accepted|;
    assert CacheOk(sys, position);
  }

  lemma StepRequests(sys: System, ev: Event)
    requires Inv(sys) && Enabled(sys, ev)
    ensures RequestsOk(Next(sys, ev))
  {
    hide CacheOk, AnswersOk, CachesOk, CheckSeqid;
    if ev.Call? {
      IncMod(sys.history.completed);
    }
  }

  lemma StepAccepted(sys: System, ev: Event)
    requires Inv(sys) && Enabled(sys, ev)
    ensures AcceptedOk(Next(sys, ev))
  {
    hide CacheOk, AnswersOk, CachesOk;
    if ev.Arrive? {
      VerdictInTime(ev.req.position, |sys.history.accepted|);
    }
  }

  /** The history of one state goes on in the other. */
  ghost predicate Grows(h: History, h': History) {
    && h.calls <= h'.calls && h.accepted <= h'.accepted && h.completed <= h'.completed
    && forall k | k in h.results :: k in h'.results && h'.results[k] == h.results[k]
  }

  lemma StepGrows(sys: System, ev: Event)
    requires Inv(sys) && Enabled(sys, ev)
    ensures Grows(sys.history, Next(sys, ev).history)
  {
    hide AnswersOk, RequestsOk, AcceptedOk, UpToFailure;
    if ev.Finish? {
      assert CacheOk(sys, ev.cache);
    }
  }

  lemma CacheKept(sys: System, sys': System, k: nat)
    requires 1 <= k < |sys.server.caches| <= |sys'.server.caches| && k <= |sys.history.accepted|
    requires CacheOk(sys, k) && Grows(sys.history, sys'.history)
    requires sys'.server.caches[k] == sys.server.caches[k] && (k in sys'.history.results ==> k in sys.history.results)
    ensures CacheOk(sys', k)
  {
  }

  lemma FinishedCache(sys: System, cache: nat, others: seq<Result>)
    requires Inv(sys) && Enabled(sys, Finish(cache, others))
    ensures CacheOk(FinishStep(sys, cache, others), cache)
  {
    BothWellFormed("", [SequenceResult(sys.history.accepted[cache - 1].seqid)] + others, true);
  }

  lemma StepCaches(sys: System, ev: Event)
    requires Inv(sys) && Enabled(sys, ev) && InStep(Next(sys, ev)) && Grows(sys.history, Next(sys, ev).history)
    ensures CachesOk(Next(sys, ev))
  {
    hide AnswersOk, CacheOk, CheckSeqid, RequestsOk, AcceptedOk, UpToFailure;
    var sys' := Next(sys, ev);
    forall k | 1 <= k <= |sys'.history.accepted| ensures CacheOk(sys', k) {
      if ev.Finish? && ev.cache == k {
        FinishedCache(sys, k, ev.others);
      } else if k <= |sys.history.accepted| {
        CacheKept(sys, sys', k);
      } else {
        NewCache(sys, sys', k);
      }
    }
    StepWaiters(sys, ev);
  }

  lemma NewCache(sys: System, sys': System, k: nat)
    requires Inv(sys) && InStep(sys') && 1 <= k == |sys.history.accepted| + 1 == |sys'.history.accepted|
    requires sys'.server.caches[k] == None && sys'.history.results == sys.history.results
    ensures CacheOk(sys', k)
  {
  }

  lemma StepWaiters(sys: System, ev: Event)
    requires Inv(sys) && Enabled(sys, ev)
    ensures var sys' := Next(sys, ev);
            && (forall k | k in sys'.history.results :: 1 <= k <= |sys'.history.accepted|)
            && forall w | w in sys'.server.waiting ::
                 w.id < |sys'.history.calls| && w.cache == sys'.history.calls[w.id].position <= |sys'.history.accepted|
  {
    hide AnswersOk, CacheOk, CheckSeqid, UpToFailure, AcceptedOk;
    if ev.Arrive? {
      VerdictInTime(ev.req.position, |sys.history.accepted|);
    }
  }

  lemma AnswerKept(sys: System, sys': System, a: Answer)
    requires AnswerOk(sys, a) && Grows(sys.history, sys'.history)
    ensures AnswerOk(sys', a)
  {
  }

  lemma AnswersKept(sys: System, sys': System)
    requires AnswersOk(sys) && Grows(sys.history, sys'.history)
    ensures forall a | a in sys.answers :: AnswerOk(sys', a)
  {
    hide AnswerOk;
    forall a | a in sys.answers ensures AnswerOk(sys', a) {
      AnswerKept(sys, sys', a);
    }
  }

  /** The one answer a step may give. */
  lemma NewAnswer(sys: System, ev: Event, a: Answer)
    requires Inv(sys) && Enabled(sys, ev) && a in Next(sys, ev).answers - sys.answers
    ensures AnswerOk(Next(sys, ev), a)
  {
    hide AnswersOk, UpToFailure, Cached, Sent, WellFormed;
    match ev
    case Arrive(req) =>
      VerdictInTime(req.position, |sys.history.accepted|);
      ErrorIsFirst(req.tag, SEQ_MISORDERED);
    case Refuse(req, status) => ErrorIsFirst(req.tag, status);
    case Finish(cache, others) => FirstAnswer(sys, cache, others, a);
    case Retry(w) => KeptAnswer(sys, w);
    case _ =>
  }

  lemma ErrorIsFirst(tag: string, status: nat)
    ensures ErrorResponse(tag, status).results != [] && ErrorResponse(tag, status).results[0].status == status
  {
  }

  lemma FirstAnswer(sys: System, cache: nat, others: seq<Result>, a: Answer)
    requires Inv(sys) && Enabled(sys, Finish(cache, others))
    requires a in FinishStep(sys, cache, others).answers - sys.answers
    ensures AnswerOk(FinishStep(sys, cache, others), a)
  {
    hide AnswersOk, CachesOk, UpToFailure;
    var req := sys.history.accepted[cache - 1];
    assert GoodRequest(sys, req) && req.position == cache;
    BothWellFormed("", [SequenceResult(req.seqid)] + others, true);
    assert IsFirstReply(FinishStep(sys, cache, others), cache, a);
  }

  lemma KeptAnswer(sys: System, w: Waiter)
    requires Inv(sys) && Enabled(sys, Retry(w))
    ensures AnswerOk(sys, Answer(w.id, sys.server.caches[w.cache].value))
  {
    hide AnswersOk;
    assert GoodRequest(sys, sys.history.calls[w.id]);
    assert CacheOk(sys, w.cache);
    assert IsKeptReply(sys, w.cache, sys.server.caches[w.cache].value);
  }

  lemma StepAnswers(sys: System, ev: Event)
    requires Inv(sys) && Enabled(sys, ev) && Grows(sys.history, Next(sys, ev).history)
    ensures AnswersOk(Next(sys, ev))
  {
    hide Next, AnswerOk, InStep, RequestsOk, AcceptedOk, CachesOk;
    var sys' := Next(sys, ev);
    AnswersKept(sys, sys');
    forall a | a in sys'.answers ensures AnswerOk(sys', a) {
      if a !in sys.answers {
        NewAnswer(sys, ev, a);
      }
    }
  }

  lemma StepKeepsInv(sys: System, ev: Event)
    requires Inv(sys) && Enabled(sys, ev)
    ensures Inv(Next(sys, ev))
  {
    hide InStep, RequestsOk, AcceptedOk, CachesOk, AnswersOk, Next, Enabled;
    StepInStep(sys, ev);
    StepRequests(sys, ev);
    StepAccepted(sys, ev);
    StepGrows(sys, ev);
    StepCaches(sys, ev);
    StepAnswers(sys, ev);
  }

  lemma {:induction false} RunKeepsInv(states: seq<System>, events: seq<Event>, i: nat)
    requires IsRun(states, events) && i < |states|
    ensures Inv(states[i])
  {
    hide Next, Enabled;
    if i > 0 {
      RunKeepsInv(states, events, i - 1);
      StepKeepsInv(states[i - 1], events[i - 1]);
    }
  }

  // ----- what the protocol promises -----

  /** The two ends never differ by more than one call, modulo the wrap-around. */
  lemma SequenceIdsClose(states: seq<System>, events: seq<Event>, i: nat)
    requires IsRun(states, events) && i < |states|
    ensures states[i].server.seqid in {states[i].client.seqid, Inc(states[i].client.seqid)}
  {
    RunKeepsInv(states, events, i);
    IncMod(states[i].history.completed);
  }

  /** No call is let through twice, however often its request arrives. */
  lemma AtMostOnce(states: seq<System>, events: seq<Event>, i: nat, j: nat, k: nat)
    requires IsRun(states, events) && i < |states| && j < k < |states[i].history.accepted|
    ensures states[i].history.accepted[j].id != states[i].history.accepted[k].id
  {
    RunKeepsInv(states, events, i);
    assert GoodRequest(states[i], states[i].history.accepted[j]) && GoodRequest(states[i], states[i].history.accepted[k]);
  }

  /** The request of the outstanding call is let through if it is the first to come, and finds the cache of its
      own position otherwise; it is never told that it is out of order. */
  lemma OutstandingIsServed(states: seq<System>, events: seq<Event>, i: nat)
    requires IsRun(states, events) && i < |states| && states[i].client.outstanding.Some?
    ensures var sys, req := states[i], states[i].client.outstanding.value;
            && InTime(sys, req)
            && CheckSeqid(sys.server.seqid, req.seqid)
               == (if |sys.history.accepted| == sys.history.completed then New else Replay)
            && forall a | a in sys.answers && a.id == req.id ::
                 a.response.results != [] && a.response.results[0].status != SEQ_MISORDERED
  {
    RunKeepsInv(states, events, i);
    var sys, req := states[i], states[i].client.outstanding.value;
    VerdictInTime(req.position, |sys.history.accepted|);
    forall a | a in sys.answers && a.id == req.id
      ensures a.response.results != [] && a.response.results[0].status != SEQ_MISORDERED
    {
      assert AnswerOk(sys, a);
    }
  }

  /** The call that was let through at a position, and what it came to. */
  ghost predicate Ran(sys: System, id: nat, results: seq<Result>) {
    && id < |sys.history.calls|
    && var position := sys.history.calls[id].position;
       && 1 <= position <= |sys.history.accepted| && sys.history.accepted[position - 1] == sys.history.calls[id]
       && position in sys.history.results && sys.history.results[position] == results
  }

  /** The first reply to a call, or what its retry gets: the same results if it asked for caching, else the
      result of SEQUENCE and NFS4ERR_RETRY_UNCACHED_REP. */
  ghost predicate FromRun(call: Request, results: seq<Result>, response: Response) {
    response == Sent(call.tag, results) || response == Cached(call.tag, results, call.cacheThis)
  }

  /** The client takes a reply without SEQUENCE having gone well, and frees the slot for another call. */
  predicate GivesUp(ev: Event) {
    ev.Take? && !ev.again && (ev.answer.response.results == [] || ev.answer.response.results[0].status != OK)
  }

  ghost predicate NeverGivesUp(events: seq<Event>) {
    forall i | 0 <= i < |events| :: !GivesUp(events[i])
  }

  ghost predicate OnePositionEach(sys: System) {
    && |sys.history.calls| == sys.history.completed + (if sys.client.outstanding.Some? then 1 else 0)
    && forall id | 0 <= id < |sys.history.calls| :: sys.history.calls[id].position == id + 1
  }

  lemma {:induction false} PositionsAreCalls(states: seq<System>, events: seq<Event>, i: nat)
    requires IsRun(states, events) && NeverGivesUp(events) && i < |states|
    ensures OnePositionEach(states[i])
  {
    if i > 0 {
      PositionsAreCalls(states, events, i - 1);
      assert !GivesUp(events[i - 1]);
    }
  }

  /** Exactly once: if the client never gives a call up, every reply whose SEQUENCE went well and that is in the
      network for a call is the reply of that call's only run, or its kept form. */
  lemma ExactlyOnce(states: seq<System>, events: seq<Event>, i: nat, a: Answer) returns (results: seq<Result>)
    requires IsRun(states, events) && NeverGivesUp(events) && i < |states|
    requires a in states[i].answers && a.response.results != [] && a.response.results[0].status == OK
    ensures Ran(states[i], a.id, results) && FromRun(states[i].history.calls[a.id], results, a.response)
  {
    hide Next, Enabled, InStep, CachesOk;
    RunKeepsInv(states, events, i);
    PositionsAreCalls(states, events, i);
    var sys := states[i];
    assert AnswerOk(sys, a);
    var position := sys.history.calls[a.id].position;
    assert GoodRequest(sys, sys.history.accepted[position - 1]);
    results := sys.history.results[position];
  }

  /** In any run, a reply whose SEQUENCE went well is of the call that was let through at the position. It is
      of the call it is taken for exactly if that call was the one let through. */
  lemma OwnReplyExactlyIf(states: seq<System>, events: seq<Event>, i: nat, a: Answer) returns (ran: Request, results: seq<Result>)
    requires IsRun(states, events) && i < |states|
    requires a in states[i].answers && a.response.results != [] && a.response.results[0].status == OK
    ensures a.id < |states[i].history.calls| && ran.position == states[i].history.calls[a.id].position
    ensures Ran(states[i], ran.id, results) && FromRun(ran, results, a.response)
    ensures states[i].history.calls[ran.id] == ran
    ensures ran.id == a.id <==> states[i].history.calls[a.id] in states[i].history.accepted
  {
    hide Next, Enabled;
    RunKeepsInv(states, events, i);
    var sys := states[i];
    assert AnswerOk(sys, a);
    var position := sys.history.calls[a.id].position;
    ran := sys.history.accepted[position - 1];
    assert GoodRequest(sys, ran) && CacheOk(sys, position);
    results := sys.history.results[position];
    if sys.history.calls[a.id] in sys.history.accepted {
      var j :| 0 <= j < |sys.history.accepted| && sys.history.accepted[j] == sys.history.calls[a.id];
      assert sys.history.accepted[j].position == j + 1;
    }
  }

  /** A call that is made after another one was given up, at a position where that other one was let through,
      never runs. */
  lemma SecondCallNeverRuns(states: seq<System>, events: seq<Event>, i: nat, first: Request, second: Request)
    requires IsRun(states, events) && i < |states|
    requires first in states[i].history.accepted && second in states[i].history.calls
    requires first.position == second.position && first.id != second.id
    ensures second !in states[i].history.accepted
  {
    hide Next, Enabled, InStep, CachesOk, RequestsOk, AnswersOk;
    RunKeepsInv(states, events, i);
  }

  // ----- what each step does -----

  /** A call is made for the position after the last one completed, says what its caller asked for, and is
      outstanding. */
  lemma CallMakes(sys: System, cacheThis: bool, tag: string)
    requires Inv(sys) && sys.client.outstanding.None?
    ensures var sys', id := Next(sys, Call(cacheThis, tag)), |sys.history.calls|;
            && |sys'.history.calls| == id + 1
            && sys'.history.calls[id] == Request(id, sys.history.completed + 1, (sys.history.completed + 1) % WRAP, cacheThis, tag)
            && sys'.client.outstanding == Some(sys'.history.calls[id])
            && sys'.server == sys.server && sys'.requests == sys.requests && sys'.answers == sys.answers
  {
    hide RequestsOk, AcceptedOk, CachesOk, AnswersOk;
    IncMod(sys.history.completed);
  }

  /** A request in time: for the next position it is let through, and a new cache waits for its reply; for the last
      one let through it waits for the reply there; for an earlier one it is told to be out of order. */
  lemma ArrivalDoes(sys: System, req: Request)
    requires Inv(sys) && Enabled(sys, Arrive(req))
    ensures var sys', m := Next(sys, Arrive(req)), |sys.history.accepted|;
            && sys'.client == sys.client && sys'.requests == sys.requests
            && 1 <= req.position <= m + 1
            && if req.position == m + 1 then
                 && sys'.history.accepted == sys.history.accepted + [req] && sys'.server.seqid == req.seqid
                 && sys'.server.caches == sys.server.caches + [None] && sys'.server.current == m + 1
                 && sys'.answers == sys.answers && sys'.server.waiting == sys.server.waiting
               else if req.position == m then
                 sys' == sys.(server := sys.server.(waiting := sys.server.waiting + {Waiter(m, req.id)}))
               else
                 && sys'.server == sys.server && sys'.history == sys.history
                 && exists a :: a in sys'.answers && a.id == req.id && |a.response.results| == 1
                                && a.response.results[0].status == 10063
  {
    hide AcceptedOk, CachesOk, AnswersOk;
    assert GoodRequest(sys, req);
    VerdictInTime(req.position, |sys.history.accepted|);
    IncMod(|sys.history.accepted|);
    if req.position < |sys.history.accepted| {
      assert Answer(req.id, ErrorResponse(req.tag, SEQ_MISORDERED)) in Next(sys, Arrive(req)).answers;
    }
  }

  /** When the operations of a request have run, the reply goes out with the result of SEQUENCE and theirs up to the
      first failure, and its cache is valid. */
  lemma FinishDoes(sys: System, cache: nat, others: seq<Result>)
    requires Inv(sys) && Enabled(sys, Finish(cache, others))
    ensures var sys', req := Next(sys, Finish(cache, others)), sys.history.accepted[cache - 1];
            && cache in sys'.history.results && sys'.server.caches[cache].Some?
            && var results, all := sys'.history.results[cache], [Result(53, 0, req.seqid, 44)] + others;
               && results != [] && results <= all
               && (results == all || results[|results| - 1].status != 0)
               && (forall k | 0 <= k < |results| - 1 :: results[k].status == 0)
               && exists a :: a in sys'.answers && a.id == req.id && a.response.tag == req.tag && a.response.results == results
  {
    hide RequestsOk, AcceptedOk, CachesOk, AnswersOk;
    var req := sys.history.accepted[cache - 1];
    var all := [SequenceResult(req.seqid)] + others;
    OnlyTheLastFails(all);
    assert Answer(req.id, Sent(req.tag, UpToFailure(all))) in Next(sys, Finish(cache, others)).answers;
  }

  /** A retry that waits is answered with what its cache holds. */
  lemma RetryDoes(sys: System, w: Waiter)
    requires Enabled(sys, Retry(w))
    ensures Next(sys, Retry(w)).answers == sys.answers + {Answer(w.id, sys.server.caches[w.cache].value)}
  {
  }

  /** A reply to the outstanding call whose SEQUENCE went well completes it, and the client's sequence id is then
      that of the call; any other reply leaves the id, and frees the slot unless the call is tried again. */
  lemma TakeDoes(sys: System, a: Answer, again: bool)
    requires Inv(sys) && Enabled(sys, Take(a, again))
    ensures var sys' := Next(sys, Take(a, again));
            if a.response.results[0].status == 0 then
              && sys'.client.outstanding.None? && sys'.history.completed == sys.history.completed + 1
              && sys'.client.seqid == sys.client.outstanding.value.seqid
            else
              && sys'.client.seqid == sys.client.seqid && sys'.history == sys.history
              && sys'.client.outstanding == if again then sys.client.outstanding else None
  {
    hide AcceptedOk, CachesOk;
    if a.response.results[0].status == 0 {
      OkMeansAccepted(sys, a);
    }
  }

  /** What a caller gets by the flag it set: without giving up, any reply to the call whose SEQUENCE went well has
      all the results of its run, or, if caching was not asked for and there is more than one, the result of
      SEQUENCE and NFS4ERR_RETRY_UNCACHED_REP (10068) for the next operation. */
  lemma ReplyByFlag(states: seq<System>, events: seq<Event>, h: nat, i: nat, a: Answer) returns (results: seq<Result>)
    requires IsRun(states, events) && NeverGivesUp(events) && h < i < |states| && events[h].Call?
    requires a in states[i].answers && a.response.results != [] && a.response.results[0].status == OK
    requires a.id == |states[h].history.calls|
    ensures Ran(states[i], a.id, results) && results != []
    ensures || a.response.results == results
            || (!events[h].cacheThis && |results| > 1 && a.response.results == [results[0], Result(results[1].op, 10068, 0, 8)])
    ensures a.response.tag in {events[h].tag, "[REPLAY] " + events[h].tag}
  {
    hide Next, Enabled, Inv, Ran;
    results := ExactlyOnce(states, events, i, a);
    HistoryGrows(states, events, h + 1, i);
    CallIsKept(states, events, h, i);
    var call := states[i].history.calls[a.id];
    assert call.cacheThis == events[h].cacheThis && call.tag == events[h].tag;
    KeptByFlag(call, results, a.response);
    ResultsNotEmpty(states, events, i, a.id, results);
  }

  lemma CallIsKept(states: seq<System>, events: seq<Event>, h: nat, i: nat)
    requires IsRun(states, events) && h < i < |states| && events[h].Call?
    ensures var id := |states[h].history.calls|;
            && id < |states[i].history.calls|
            && states[i].history.calls[id].cacheThis == events[h].cacheThis && states[i].history.calls[id].tag == events[h].tag
  {
    hide CheckSeqid, AcceptedOk, CachesOk, AnswersOk;
    RunKeepsInv(states, events, h);
    CallMakes(states[h], events[h].cacheThis, events[h].tag);
    HistoryGrows(states, events, h + 1, i);
  }

  lemma KeptByFlag(call: Request, results: seq<Result>, response: Response)
    requires FromRun(call, results, response)
    ensures || response.results == results
            || (!call.cacheThis && |results| > 1 && response.results == [results[0], Result(results[1].op, 10068, 0, 8)])
    ensures response.tag in {call.tag, "[REPLAY] " + call.tag}
  {
  }

  lemma ResultsNotEmpty(states: seq<System>, events: seq<Event>, i: nat, id: nat, results: seq<Result>)
    requires IsRun(states, events) && i < |states| && Ran(states[i], id, results)
    ensures results != []
  {
    hide RequestsOk, AcceptedOk, AnswersOk;
    RunKeepsInv(states, events, i);
    assert CacheOk(states[i], states[i].history.calls[id].position);
  }

  // ----- after a call was given up -----

  lemma {:induction false} HistoryGrows(states: seq<System>, events: seq<Event>, i: nat, j: nat)
    requires IsRun(states, events) && i <= j < |states|
    ensures Grows(states[i].history, states[j].history)
    decreases j
  {
    hide Next, Enabled, Inv;
    if i < j {
      HistoryGrows(states, events, i, j - 1);
      RunKeepsInv(states, events, j - 1);
      StepGrows(states[j - 1], events[j - 1]);
      GrowsOn(states[i].history, states[j - 1].history, states[j].history);
    }
  }

  lemma GrowsOn(h: History, h1: History, h2: History)
    requires Grows(h, h1) && Grows(h1, h2)
    ensures Grows(h, h2)
  {
  }

  /** What was let through had arrived. */
  lemma {:induction false} ArrivedBefore(states: seq<System>, events: seq<Event>, n: nat, req: Request) returns (k: nat)
    requires IsRun(states, events) && n < |states| && req in states[n].history.accepted
    ensures k < n && events[k] == Arrive(req)
  {
    hide CheckSeqid, UpToFailure;
    assert n > 0;
    if req in states[n - 1].history.accepted {
      k := ArrivedBefore(states, events, n - 1, req);
    } else {
      k := n - 1;
    }
  }

  /** After giving up, the client is idle at the same position until its next call. */
  lemma {:induction false} IdleUntilCall(states: seq<System>, events: seq<Event>, g: nat, h: nat)
    requires IsRun(states, events) && g < h < |states| && GivesUp(events[g])
    requires forall k | g < k < h :: !events[k].Call?
    ensures states[g].client.outstanding.Some?
    ensures states[h].client.outstanding.None? && states[h].history.completed == states[g].history.completed
    decreases h
  {
    hide CheckSeqid, UpToFailure;
    if h > g + 1 {
      IdleUntilCall(states, events, g, h - 1);
    }
  }

  /** The sequence ids of the two ends are equal, and the client is still at the position of the request. */
  predicate StillEqual(sys: System, req: Request) {
    sys.server.seqid == sys.client.seqid && sys.history.completed + 1 == req.position
  }

  lemma NewExactlyIf(sys: System, req: Request)
    requires Inv(sys) && GoodRequest(sys, req) && InTime(sys, req)
    ensures CheckSeqid(sys.server.seqid, req.seqid) == New <==> StillEqual(sys, req)
    ensures CheckSeqid(sys.server.seqid, req.seqid) == New <==> req.position == |sys.history.accepted| + 1
  {
    hide RequestsOk, AcceptedOk, CachesOk, AnswersOk;
    var m, c := |sys.history.accepted|, sys.history.completed;
    VerdictInTime(req.position, m);
    if m == c + 1 {
      SameIdExactlyIf(c, m);
    }
  }

  /** A place among the accepted requests is taken for good. */
  lemma PlaceIsTaken(sys: System, later: System, req: Request)
    requires AcceptedOk(sys) && AcceptedOk(later) && sys.history.accepted <= later.history.accepted
    requires 1 <= req.position <= |sys.history.accepted| && req !in sys.history.accepted
    ensures req !in later.history.accepted
  {
    forall j | 0 <= j < |later.history.accepted| ensures later.history.accepted[j] != req {
      assert later.history.accepted[j].position == j + 1;
    }
  }

  /** The first arrival of a request decides: the call is let through, then or ever, exactly if the sequence ids of
      the two ends are still equal at that moment. */
  lemma FirstArrivalDecides(states: seq<System>, events: seq<Event>, n: nat, i: nat, req: Request)
    requires IsRun(states, events) && n < i < |states| && events[n] == Arrive(req)
    requires forall k | 0 <= k < n :: events[k] != Arrive(req)
    ensures req in states[i].history.accepted <==> StillEqual(states[n], req)
  {
    hide Next, Enabled, CheckSeqid, CachesOk, AnswersOk, InStep, StillEqual;
    RunKeepsInv(states, events, n);
    RunKeepsInv(states, events, i);
    HistoryGrows(states, events, n + 1, i);
    HistoryGrows(states, events, n, i);
    ArrivalOutcome(states, events, n, req);
    if req in states[n].history.accepted {
      var k := ArrivedBefore(states, events, n, req);
      assert false;
    }
    if !StillEqual(states[n], req) {
      PlaceIsTaken(states[n], states[i], req);
    } else {
      assert req in states[n + 1].history.accepted;
    }
  }

  lemma ArrivalOutcome(states: seq<System>, events: seq<Event>, n: nat, req: Request)
    requires IsRun(states, events) && n < |events| && events[n] == Arrive(req) && Inv(states[n])
    ensures StillEqual(states[n], req) ==> req in states[n + 1].history.accepted
    ensures !StillEqual(states[n], req) ==> 1 <= req.position <= |states[n].history.accepted|
  {
    hide CachesOk, AnswersOk, AcceptedOk, CheckSeqid, StillEqual;
    assert GoodRequest(states[n], req);
    NewExactlyIf(states[n], req);
  }

  /** The reply is of the call's own run. */
  ghost predicate IsOwnReply(sys: System, req: Request, response: Response) {
    exists results :: Ran(sys, req.id, results) && FromRun(req, results, response)
  }

  /** After a call was given up, the next call is made for the same position. It is let through, and every reply
      it gets whose SEQUENCE went well is its own, exactly if when its request first arrives the sequence ids of
      the two ends are still equal: no request of the position has been let through by then. */
  lemma AfterGivingUp(states: seq<System>, events: seq<Event>, g: nat, h: nat, n: nat, i: nat, req: Request)
    requires IsRun(states, events) && g < h < n < i < |states|
    requires GivesUp(events[g]) && events[h].Call? && forall k | g < k < h :: !events[k].Call?
    requires req == NewCall(states[h], events[h].cacheThis, events[h].tag)
    requires events[n] == Arrive(req) && forall k | 0 <= k < n :: events[k] != Arrive(req)
    ensures states[g].client.outstanding.Some? && req.position == states[g].client.outstanding.value.position
    ensures states[n].client.outstanding == Some(req)
            ==> (StillEqual(states[n], req) <==> states[n].server.seqid == states[n].client.seqid)
    ensures StillEqual(states[n], req) <==> |states[n].history.accepted| < req.position
    ensures req in states[i].history.accepted <==> StillEqual(states[n], req)
    ensures forall a | a in states[i].answers && a.id == req.id && a.response.results != [] && a.response.results[0].status == OK ::
              IsOwnReply(states[i], req, a.response) <==> StillEqual(states[n], req)
  {
    hide Next, Enabled, CachesOk, AnswersOk, AcceptedOk, InStep, StillEqual, Ran, FromRun, CheckSeqid;
    RunKeepsInv(states, events, g);
    IdleUntilCall(states, events, g, h);
    FirstArrivalDecides(states, events, n, i, req);
    EqualMeansFree(states, events, n, req);
    ArrivedIsACall(states, events, n, i, req);
    forall a | a in states[i].answers && a.id == req.id && a.response.results != [] && a.response.results[0].status == OK
      ensures IsOwnReply(states[i], req, a.response) <==> StillEqual(states[n], req)
    {
      var ran, results := OwnReplyExactlyIf(states, events, i, a);
      RanIsAccepted(states[i], ran.id, results);
      if ran.id == req.id {
        assert IsOwnReply(states[i], req, a.response);
      }
      if IsOwnReply(states[i], req, a.response) {
        var own :| Ran(states[i], req.id, own) && FromRun(req, own, a.response);
        RanIsAccepted(states[i], req.id, own);
      }
    }
  }

  lemma EqualMeansFree(states: seq<System>, events: seq<Event>, n: nat, req: Request)
    requires IsRun(states, events) && n < |events| && events[n] == Arrive(req)
    ensures StillEqual(states[n], req) <==> |states[n].history.accepted| < req.position
    ensures states[n].client.outstanding == Some(req)
            ==> (StillEqual(states[n], req) <==> states[n].server.seqid == states[n].client.seqid)
  {
    hide CachesOk, AnswersOk, AcceptedOk, CheckSeqid;
    RunKeepsInv(states, events, n);
    assert GoodRequest(states[n], req);
    NewExactlyIf(states[n], req);
  }

  lemma ArrivedIsACall(states: seq<System>, events: seq<Event>, n: nat, i: nat, req: Request)
    requires IsRun(states, events) && n < i < |states| && events[n] == Arrive(req)
    ensures req.id < |states[i].history.calls| && states[i].history.calls[req.id] == req
  {
    hide CachesOk, AnswersOk, AcceptedOk, CheckSeqid;
    RunKeepsInv(states, events, n);
    assert GoodRequest(states[n], req);
    HistoryGrows(states, events, n, i);
  }

  lemma RanIsAccepted(sys: System, id: nat, results: seq<Result>)
    requires Ran(sys, id, results)
    ensures id < |sys.history.calls| && sys.history.calls[id] in sys.history.accepted
  {
  }

  // ----- how giving a call up goes wrong -----

  const FIRST := Request(0, 1, 1, false, "a")
  const SECOND := Request(1, 1, 1, false, "b")
  const REFUSAL := Answer(0, ErrorResponse("a", DELAY))
  const RUN := [SequenceResult(1)]
  const KEPT := Cached("a", RUN, false)

  /** One copy of the first call's request is refused and another one let through; the second call is then made
      for the same position, and its request finds the first one's cache. */
  function Script(): seq<Event> {
    [Call(false, "a"), Send, Refuse(FIRST, DELAY), Arrive(FIRST), Finish(1, []), Take(REFUSAL, false),
     Call(false, "b"), Send, Arrive(SECOND), Retry(Waiter(1, 1))]
  }

  function Scene(i: nat): System {
    var outstanding := if i == 0 || i == 6 then None else if i < 6 then Some(FIRST) else Some(SECOND);
    var server :=
      if i < 4 then Init().server
      else Server(1, [Some(DefaultReplay()), if i == 4 then None else Some(KEPT)], 1, if i < 9 then {} else {Waiter(1, 1)});
    var requests := if i < 2 then {} else if i < 8 then {FIRST} else {FIRST, SECOND};
    var answers :=
      if i < 3 then {} else if i < 5 then {REFUSAL} else if i < 10 then {REFUSAL, Answer(0, Sent("a", RUN))}
      else {REFUSAL, Answer(0, Sent("a", RUN)), Answer(1, KEPT)};
    System(Client(0, outstanding), server, requests, answers,
           History(if i == 0 then [] else if i < 7 then [FIRST] else [FIRST, SECOND], if i < 4 then [] else [FIRST],
                   if i < 5 then map[] else map[1 := RUN], 0))
  }

  lemma SceneFinish()
    ensures Enabled(Scene(4), Finish(1, [])) && FinishStep(Scene(4), 1, []) == Scene(5)
  {
    hide Cached, Sent, ErrorResponse, DefaultReplay;
    assert [SequenceResult(1)] + [] == RUN;
    assert UpToFailure(RUN) == RUN by {
      assert RUN[1..] == [];
    }
    assert Scene(4).history.accepted[0] == FIRST;
  }

  lemma SceneStep(i: nat)
    requires i < 10
    ensures Enabled(Scene(i), Script()[i]) && Next(Scene(i), Script()[i]) == Scene(i + 1)
  {
    hide Cached, Sent, DefaultReplay, FinishStep, UpToFailure;
    if i == 4 {
      SceneFinish();
    } else if i == 5 {
      SceneGiveUp();
    } else {
      SceneOther(i);
    }
  }

  lemma SceneGiveUp()
    ensures Enabled(Scene(5), Take(REFUSAL, false)) && TakeStep(Scene(5), REFUSAL, false) == Scene(6)
  {
    hide Cached, DefaultReplay;
    ErrorIsFirst("a", DELAY);
  }

  lemma SceneOther(i: nat)
    requires i < 10 && i != 4 && i != 5
    ensures Enabled(Scene(i), Script()[i]) && Next(Scene(i), Script()[i]) == Scene(i + 1)
  {
    hide Cached, Sent, ErrorResponse, DefaultReplay, FinishStep, TakeStep, UpToFailure;
    var ev := Script()[i];
    if i < 4 {
      assert ev == if i == 0 then Call(false, "a") else if i == 1 then Send else if i == 2 then Refuse(FIRST, DELAY) else Arrive(FIRST);
    } else {
      assert ev == if i == 6 then Call(false, "b") else if i == 7 then Send else if i == 8 then Arrive(SECOND) else Retry(Waiter(1, 1));
    }
  }

  /** So after giving a call up, a client can take that call's kept reply for the reply of its next call. */
  lemma FalseRetry() returns (states: seq<System>, events: seq<Event>, taken: Answer)
    ensures IsRun(states, events)
    ensures var last := states[|events|];
            && last.client.outstanding == Some(SECOND) && Enabled(last, Take(taken, false))
            && taken.response.results[0].status == OK && taken.response.tag == REPLAY_PREFIX + FIRST.tag
  {
    hide Next, Enabled, Scene;
    events := Script();
    states := seq(11, i requires 0 <= i < 11 => Scene(i));
    forall i | 0 <= i < |events| ensures Enabled(states[i], events[i]) && states[i + 1] == Next(states[i], events[i]) {
      SceneStep(i);
    }
    taken := Answer(1, KEPT);
    SceneEnds();
  }

  lemma SceneEnds()
    ensures Scene(0) == Init() && Scene(10).client.outstanding == Some(SECOND)
    ensures Enabled(Scene(10), Take(Answer(1, KEPT), false))
    ensures KEPT.results[0].status == OK && KEPT.tag == REPLAY_PREFIX + "a"
  {
  }

  // ----- the slots, changed in place -----

  /** Holds the reply to a request once there is one. */
  class Cache {
    var data: Option<Response>

    constructor (data: Option<Response>)
      ensures this.data == data
    {
      this.data := data;
    }
  }

  class Slot {
    const id: nat
    var seqid: nat
    var replayCache: Cache
    var seen: bool
    var inUse: bool

    constructor (id: nat, replay: Response)
      ensures this.id == id && seqid == 0 && !inUse && fresh(replayCache) && replayCache.data == Some(replay)
    {
      this.id := id;
      seqid, seen, inUse := 0, false, false;
      replayCache := new Cache(Some(replay));
    }

    /** check_seqid: a new request gets a fresh cache, a retry the one its first request got. */
    method Check(request: nat) returns (verdict: Verdict, cache: Option<Cache>)
      modifies this
      ensures verdict == CheckSeqid(old(seqid), request)
      ensures verdict == New ==> seqid == request && cache == Some(replayCache) && fresh(replayCache)
                                 && replayCache.data == None && !seen
      ensures verdict == Replay ==> cache == Some(replayCache)
      ensures verdict == Misordered ==> cache == None
      ensures verdict != New ==> seqid == old(seqid) && replayCache == old(replayCache) && seen == old(seen)
      ensures inUse == old(inUse)
    {
      var expected := Inc(seqid);
      if request == expected {
        seqid := expected;
        replayCache := new Cache(None);
        seen := false;
        return New, Some(replayCache);
      } else if request == seqid {
        return Replay, Some(replayCache);
      } else {
        return Misordered, None;
      }
    }

    /** get_seqid; with the usual step of 1 it is the id the server expects next. */
    function NextSeqid(delta: int): (next: nat)
      reads this
      ensures next < WRAP
      ensures delta == 1 ==> next == Inc(seqid)
    {
      (seqid + delta) % WRAP
    }

    method FinishCall(status: nat, seqid: nat)
      modifies this`seqid, this`inUse
      ensures this.seqid == (if status == OK then seqid else old(this.seqid)) && !inUse
    {
      if status == OK {
        this.seqid := seqid;
      }
      inUse := false;
    }
  }

  class Channel {
    const slots: seq<Slot>

    ghost predicate Valid()
    {
      forall i, j | 0 <= i < j < |slots| :: slots[i] != slots[j]
    }

    constructor (slots: seq<Slot>)
      requires forall i, j | 0 <= i < j < |slots| :: slots[i] != slots[j]
      ensures Valid() && this.slots == slots
    {
      this.slots := slots;
    }

    /** choose_slot: a slot that nobody was using, and no other one is touched. None is the RuntimeError. */
    method ChooseSlot() returns (slot: Option<Slot>)
      requires Valid()
      modifies slots
      ensures slot.None? ==> forall k | 0 <= k < |slots| :: slots[k].inUse && old(slots[k].inUse)
      ensures slot.Some? ==> slot.value in slots && !old(slot.value.inUse) && slot.value.inUse
      ensures forall k | 0 <= k < |slots| ::
                && (slot != Some(slots[k]) ==> slots[k].inUse == old(slots[k].inUse))
                && slots[k].seqid == old(slots[k].seqid) && slots[k].replayCache == old(slots[k].replayCache)
    {
      for i := 0 to |slots|
        invariant forall k | 0 <= k < |slots| ::
                    && slots[k].inUse == old(slots[k].inUse)
                    && slots[k].seqid == old(slots[k].seqid) && slots[k].replayCache == old(slots[k].replayCache)
        invariant forall k | 0 <= k < i :: slots[k].inUse
      {
        if !slots[i].inUse {
          slots[i].inUse := true;
          return Some(slots[i]);
        }
      }
      slot := None;
    }
  }
}
