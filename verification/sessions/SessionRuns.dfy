/** What the tables of clients and sessions promise over every run of their operations. */
module SessionRuns {
  import opened SequenceIds
  import opened SessionIds
  import opened SessionTables

  // ----- references stay in range, whatever happens -----

  lemma {:induction false} DropListedLeaves(sessions: map<string, nat>, made: seq<Session>, list: seq<nat>)
    requires Below(list, |made|)
    ensures var left := DropListed(sessions, made, list).0;
            forall k | k in left :: k in sessions && left[k] == sessions[k]
    decreases |list|
  {
    if list != [] && made[list[0]].id in sessions {
      DropListedLeaves(sessions - {made[list[0]].id}, made, list[1..]);
    }
  }

  lemma ClientRebootKeepsTypes(t: Tables, r: nat)
    requires WellTyped(t) && r < |t.records|
    ensures WellTyped(ClientReboot(t, r).0) && |ClientReboot(t, r).0.records| == |t.records|
  {
    DropListedLeaves(t.sessions, t.made, t.records[r].sessions);
    var t' := ClientReboot(t, r).0;
    forall q | 0 <= q < |t'.records| ensures Below(t'.records[q].sessions, |t'.made|) {
      assert Below(t.records[q].sessions, |t.made|);
    }
  }

  lemma ReplaceKeepsTypes(t: Tables, r: nat, arg: ExchangeArg)
    requires WellTyped(t) && r < |t.records|
    ensures WellTyped(Replace(t, r, arg).0)
  {
    hide Add, ExchangeReply;
    AddKeepsTypes(t, arg);
    AddKeepsTypes(Remove(t, r), arg);
  }

  lemma CreateKeepsTypes(t: Tables, clientId: ClientId, seqid: nat, principal: Principal, denied: bool)
    requires WellTyped(t)
    ensures WellTyped(CreateSession(t, clientId, seqid, principal, denied).0)
  {
    hide AddSession, CheckSeqid;
    if clientId in t.byId {
      var r := t.byId[clientId];
      assert WellTyped(LetThrough(t, r)) && WellTyped(Confirm(LetThrough(t, r), r));
      AddSessionKeepsTypes(Confirm(LetThrough(t, r), r), r);
    }
  }

  lemma DestroyKeepsTypes(t: Tables, sessionId: string, inPlace: bool)
    requires WellTyped(t)
    ensures WellTyped(DestroySession(t, sessionId, inPlace).0)
  {
    hide Without, Below;
    SmallerListBelow(t, DestroySession(t, sessionId, inPlace).0);
  }

  lemma StepKeepsTypes(t: Tables, ev: Event)
    requires WellTyped(t)
    ensures WellTyped(Next(t, ev).0)
  {
    hide Below, CreateSession, DestroySession, Replace, Add, ClientReboot, ExchangeReply;
    match ev
    case Exchange(arg, denied) =>
      AddKeepsTypes(t, arg);
      if arg.owner in t.byOwner {
        var r := t.byOwner[arg.owner];
        ReplaceKeepsTypes(t, r, arg);
        ClientRebootKeepsTypes(t, r);
        ReplaceKeepsTypes(ClientReboot(t, r).0, r, arg);
      }
    case Create(clientId, seqid, principal, denied) => CreateKeepsTypes(t, clientId, seqid, principal, denied);
    case Destroy(sessionId, inPlace) => DestroyKeepsTypes(t, sessionId, inPlace);
    case Reboot =>
  }

  /** Next is defined where references are in range, which they are in every state of a run. */
  ghost predicate IsRun(states: seq<Tables>, events: seq<Event>) {
    && |states| == |events| + 1 && states[0] == EMPTY
    && forall i | 0 <= i < |events| && WellTyped(states[i]) :: states[i + 1] == Next(states[i], events[i]).0
  }

  lemma {:induction false} RunIsWellTyped(states: seq<Tables>, events: seq<Event>, i: nat)
    requires IsRun(states, events) && i < |states|
    ensures WellTyped(states[i])
    ensures i < |events| ==> states[i + 1] == Next(states[i], events[i]).0
  {
    hide Next;
    if i > 0 {
      RunIsWellTyped(states, events, i - 1);
      StepKeepsTypes(states[i - 1], events[i - 1]);
    }
  }

  /** No client has let 2^32 CREATE_SESSIONs through. */
  ghost predicate BelowWrap(t: Tables) {
    forall r | 0 <= r < |t.records| :: t.records[r].created < WRAP
  }

  lemma NoCollisionBelowWrap(t: Tables, ev: Event)
    requires Inv(t) && BelowWrap(t)
    ensures !Collides(t, ev)
  {
    hide IdsOk, TableOk, ListsOk, Taken;
    if ev.Create? && ev.clientId in t.byId {
      FreshBelowWrap(t, t.byId[ev.clientId]);
    }
  }

  /** A new session's id is never that of a live one while its client has had fewer than 2^32. */
  lemma {:induction false} RunKeepsInv(states: seq<Tables>, events: seq<Event>, i: nat)
    requires IsRun(states, events) && i < |states|
    requires forall k | 0 <= k < i :: BelowWrap(states[k])
    ensures Inv(states[i])
    ensures i < |events| && BelowWrap(states[i]) ==> Next(states[i], events[i]).1 != ServerFault
  {
    hide KeysOk, IdsOk, TableOk, ListsOk, Next, Collides, BelowWrap;
    if i > 0 {
      RunKeepsInv(states, events, i - 1);
      NoCollisionBelowWrap(states[i - 1], events[i - 1]);
      StepKeepsInv(states[i - 1], events[i - 1]);
    } else {
      EmptyInv();
    }
    if i < |events| && BelowWrap(states[i]) {
      NoCollisionBelowWrap(states[i], events[i]);
      StepKeepsInv(states[i], events[i]);
    }
  }

  lemma EmptyInv()
    ensures Inv(EMPTY)
  {
  }

  // ----- what the tables promise -----

  ghost predicate AllBelowWrap(states: seq<Tables>) {
    forall i | 0 <= i < |states| :: BelowWrap(states[i])
  }

  /** A session that is made keeps the tables consistent exactly if no live session of its client was made a
      number of full wraps ago: otherwise that one is lost from the table, though its client lists it. */
  lemma CreateIsSoundExactlyIf(t: Tables, clientId: ClientId, seqid: nat, principal: Principal)
    requires Inv(t) && CreateSession(t, clientId, seqid, principal, false).1.CreateOk?
    ensures Inv(CreateSession(t, clientId, seqid, principal, false).0)
            <==> !exists s: nat :: WrapsBack(t, t.byId[clientId], s)
  {
    hide KeysOk, IdsOk, TableOk, ListsOk, SessionId, CreateSession;
    OkMeansThere(t, clientId, seqid, principal);
    var r := t.byId[clientId];
    IdIsLive(t, clientId);
    TakenExactlyIf(t, r);
    CreateKeepsInvIf(t, clientId, seqid, principal);
    if Taken(t, r) {
      LosesSession(t, clientId, seqid, principal);
    }
  }

  lemma OkMeansThere(t: Tables, clientId: ClientId, seqid: nat, principal: Principal)
    requires WellTyped(t) && CreateSession(t, clientId, seqid, principal, false).1.CreateOk?
    ensures clientId in t.byId
  {
  }

  lemma IdIsLive(t: Tables, clientId: ClientId)
    requires Inv(t) && clientId in t.byId
    ensures Live(t, t.byId[clientId]) && t.records[t.byId[clientId]].id == clientId
  {
  }

  lemma CreateKeepsInvIf(t: Tables, clientId: ClientId, seqid: nat, principal: Principal)
    requires Inv(t) && clientId in t.byId && Live(t, t.byId[clientId])
    ensures !Taken(t, t.byId[clientId]) ==> Inv(CreateSession(t, clientId, seqid, principal, false).0)
  {
    hide KeysOk, IdsOk, TableOk, ListsOk, SessionId, CreateSession, Taken;
    if !Taken(t, t.byId[clientId]) {
      CreateKeepsInv(t, clientId, seqid, principal, false);
    }
  }

  lemma LosesSession(t: Tables, clientId: ClientId, seqid: nat, principal: Principal)
    requires Inv(t) && CreateSession(t, clientId, seqid, principal, false).1.CreateOk?
    requires Taken(t, t.byId[clientId])
    ensures !Inv(CreateSession(t, clientId, seqid, principal, false).0)
  {
    hide IdsOk, TableOk, SessionId, WellTyped;
    var r := t.byId[clientId];
    IdIsLive(t, clientId);
    HolderWrapsBack(t, r);
    var t' := CreateSession(t, clientId, seqid, principal, false).0;
    var s := t.sessions[SessionId(clientId, Inc(t.records[r].seqid))];
    assert ListOk(t, r) && Listed(t, r, s);
    HolderHasId(t, r, s);
    assert s in t'.records[r].sessions && t'.sessions[t.made[s].id] == |t.made|;
    assert !Listed(t', r, s);
    assert Live(t', r) && !ListOk(t', r);
  }

  lemma HolderHasId(t: Tables, r: nat, s: nat)
    requires TableOk(t) && r < |t.records|
    requires SessionId(t.records[r].id, Inc(t.records[r].seqid)) in t.sessions
    requires s == t.sessions[SessionId(t.records[r].id, Inc(t.records[r].seqid))]
    ensures s < |t.made| && t.made[s].id == SessionId(t.records[r].id, Inc(t.records[r].seqid))
  {
  }

  /** Owner keys and id keys reach the same records, which are the ones not frozen and have those names; an
      unconfirmed client has no session; and what a client lists is what the table has of it. */
  lemma TablesAgree(states: seq<Tables>, events: seq<Event>, i: nat, r: nat)
    requires IsRun(states, events) && AllBelowWrap(states) && i < |states|
    requires r < |states[i].records| && Live(states[i], r)
    ensures var t, c := states[i], states[i].records[r];
            && c.owner in t.byOwner && t.byOwner[c.owner] == r && !c.frozen
            && (!c.confirmed ==> c.sessions == [])
            && (forall s :: s in c.sessions <==> exists k :: k in t.sessions && t.sessions[k] == s < |t.made| && t.made[s].client == r)
  {
    RunKeepsInv(states, events, i);
    var t, c := states[i], states[i].records[r];
    assert ListOk(t, r);
    hide Next, SessionId, ListsOk, IdsOk;
    forall s ensures s in c.sessions <==> exists k :: k in t.sessions && t.sessions[k] == s < |t.made| && t.made[s].client == r {
      if s in c.sessions {
        assert Listed(t, r, s);
        assert t.sessions[t.made[s].id] == s;
      }
    }
  }

  /** Every session in the table belongs to a live client that lists it. */
  lemma SessionsHaveClients(states: seq<Tables>, events: seq<Event>, i: nat, k: string)
    requires IsRun(states, events) && AllBelowWrap(states) && i < |states| && k in states[i].sessions
    ensures var t, s := states[i], states[i].sessions[k];
            s < |t.made| && t.made[s].id == k && Live(t, t.made[s].client) && s in t.records[t.made[s].client].sessions
  {
    RunKeepsInv(states, events, i);
  }

  /** Records stay what they are. */
  ghost predicate SameNames(t: Tables, t': Tables) {
    && |t.records| <= |t'.records|
    && forall q | 0 <= q < |t.records| :: t'.records[q].id == t.records[q].id && t'.records[q].owner == t.records[q].owner
  }

  lemma ReplaceKeepsNames(t: Tables, r: nat, arg: ExchangeArg)
    requires r < |t.records|
    ensures SameNames(t, Replace(t, r, arg).0)
  {
    hide ExchangeReply;
  }

  lemma StepKeepsNames(t: Tables, ev: Event)
    requires WellTyped(t)
    ensures SameNames(t, Next(t, ev).0)
  {
    hide SessionId, DropListed, Without, CheckSeqid, ExchangeReply, Replace;
    if ev.Exchange? && ev.arg.owner in t.byOwner {
      var r := t.byOwner[ev.arg.owner];
      ReplaceKeepsNames(t, r, ev.arg);
      ReplaceKeepsNames(ClientReboot(t, r).0, r, ev.arg);
    }
  }

  lemma {:induction false} NamesStay(states: seq<Tables>, events: seq<Event>, i: nat, j: nat)
    requires IsRun(states, events) && i <= j < |states|
    ensures SameNames(states[i], states[j])
    decreases j
  {
    hide Next, WellTyped;
    if i < j {
      NamesStay(states, events, i, j - 1);
      RunIsWellTyped(states, events, j - 1);
      StepKeepsNames(states[j - 1], events[j - 1]);
    }
  }

  /** Client ids were given out in order, and a key of the id table leads to the record of that id. */
  ghost predicate IdsTrue(t: Tables) {
    && (forall i | 0 <= i < |t.records| :: t.records[i].id < t.nextId && forall j | 0 <= j < i :: t.records[j].id < t.records[i].id)
    && forall k | k in t.byId :: t.byId[k] < |t.records| && t.records[t.byId[k]].id == k
  }

  /** The records are called as before and no id key is new. */
  ghost predicate NoNewIds(t: Tables, t': Tables) {
    && |t'.records| == |t.records| && t'.nextId == t.nextId
    && (forall q | 0 <= q < |t.records| :: t'.records[q].id == t.records[q].id)
    && forall k | k in t'.byId :: k in t.byId && t'.byId[k] == t.byId[k]
  }

  lemma NoNewIdsTrue(t: Tables, t': Tables)
    requires IdsTrue(t) && NoNewIds(t, t')
    ensures IdsTrue(t')
  {
  }

  lemma AddKeepsIdsTrue(t: Tables, arg: ExchangeArg)
    requires IdsTrue(t)
    ensures IdsTrue(Add(t, arg))
  {
  }

  lemma ReplaceKeepsIdsTrue(t: Tables, r: nat, arg: ExchangeArg)
    requires IdsTrue(t) && r < |t.records|
    ensures IdsTrue(Replace(t, r, arg).0)
  {
    hide IdsTrue, Add, ExchangeReply;
    NoNewIdsTrue(t, Remove(t, r));
    AddKeepsIdsTrue(Remove(t, r), arg);
  }

  lemma StepKeepsIdsTrue(t: Tables, ev: Event)
    requires WellTyped(t) && IdsTrue(t)
    ensures IdsTrue(Next(t, ev).0)
  {
    hide IdsTrue, Add, Replace, ExchangeReply, Below, DropListed, Without, CheckSeqid, SessionId;
    if ev.Exchange? {
      AddKeepsIdsTrue(t, ev.arg);
      if ev.arg.owner in t.byOwner {
        var r := t.byOwner[ev.arg.owner];
        ReplaceKeepsIdsTrue(t, r, ev.arg);
        NoNewIdsTrue(t, ClientReboot(t, r).0);
        ReplaceKeepsIdsTrue(ClientReboot(t, r).0, r, ev.arg);
      }
      NoNewIdsTrue(t, t);
    } else {
      NoNewIdsTrue(t, Next(t, ev).0);
    }
  }

  lemma {:induction false} RunKeepsIdsTrue(states: seq<Tables>, events: seq<Event>, i: nat)
    requires IsRun(states, events) && i < |states|
    ensures IdsTrue(states[i])
  {
    hide Next, WellTyped;
    if i > 0 {
      RunKeepsIdsTrue(states, events, i - 1);
      RunIsWellTyped(states, events, i - 1);
      StepKeepsIdsTrue(states[i - 1], events[i - 1]);
    }
  }

  /** A client id is never given to another client, not even after a reboot of the client or the server; this
      holds in every run, also where session ids collide. */
  lemma ClientIdsNeverReused(states: seq<Tables>, events: seq<Event>, i: nat, j: nat, k: ClientId)
    requires IsRun(states, events) && i <= j < |states|
    requires k in states[i].byId && k in states[j].byId
    ensures states[i].byId[k] == states[j].byId[k]
    ensures states[i].byId[k] < |states[i].records| && states[j].byId[k] < |states[j].records|
    ensures states[i].records[states[i].byId[k]].owner == states[j].records[states[j].byId[k]].owner
  {
    hide Next, WellTyped;
    RunKeepsIdsTrue(states, events, i);
    RunKeepsIdsTrue(states, events, j);
    NamesStay(states, events, i, j);
  }

  /** A successful EXCHANGE_ID leaves a client of that owner, verifier and principal, under both keys. */
  lemma ExchangeFindsClient(t: Tables, arg: ExchangeArg, denied: bool)
    requires Inv(t) && ExchangeId(t, arg, denied).1.ExchangeOk?
    ensures var (t', reply) := ExchangeId(t, arg, denied);
            && Inv(t') && reply.clientId in t'.byId && arg.owner in t'.byOwner
            && t'.byOwner[arg.owner] == t'.byId[reply.clientId]
            && var c := t'.records[t'.byOwner[arg.owner]];
               && c.id == reply.clientId && c.verifier == arg.verifier && c.principal == arg.principal
               && c.confirmed == reply.confirmed && (!c.confirmed ==> reply.seqid == Inc(c.seqid))
  {
    hide KeysOk, IdsOk, TableOk, ListsOk, WellTyped, SessionId, ClientReboot;
    ExchangeKeepsInv(t, arg, denied);
    if arg.owner in t.byOwner {
      var r := t.byOwner[arg.owner];
      OwnerIsLive(t, arg.owner);
      ClientRebootKeepsInv(t, r);
    }
  }

  /** The sequence id that EXCHANGE_ID tells an unconfirmed client lets its CREATE_SESSION through, which
      confirms it. */
  lemma ExchangeThenCreate(t: Tables, arg: ExchangeArg, denied: bool)
    requires Inv(t) && ExchangeId(t, arg, denied).1.ExchangeOk? && !ExchangeId(t, arg, denied).1.confirmed
    ensures var (t', reply) := ExchangeId(t, arg, denied);
            && Inv(t') && arg.owner in t'.byOwner
            && var (t2, reply2) := CreateSession(t', reply.clientId, reply.seqid, arg.principal, false);
               && reply2.CreateOk? && reply2.sessionId in t2.sessions
               && t'.byOwner[arg.owner] < |t2.records| && t2.records[t'.byOwner[arg.owner]].confirmed
  {
    hide KeysOk, IdsOk, TableOk, ListsOk, SessionId, ExchangeId;
    ExchangeFindsClient(t, arg, denied);
  }

  /** A CREATE_SESSION for the client that its slot lets through. */
  predicate LetsThrough(t: Tables, ev: Event, clientId: ClientId) {
    && ev.Create? && ev.clientId == clientId && !ev.denied
    && clientId in t.byId && t.byId[clientId] < |t.records|
    && CheckSeqid(t.records[t.byId[clientId]].seqid, ev.seqid) == New
  }

  /** A client that is still in the tables after a step is the same as before, but for the step's CREATE_SESSION. */
  ghost predicate SameClient(t: Tables, t': Tables, clientId: ClientId, more: nat) {
    && clientId in t.byId && clientId in t'.byId && t'.byId[clientId] == t.byId[clientId]
    && t.byId[clientId] < |t.records| && t.byId[clientId] < |t'.records|
    && var c, c' := t.records[t.byId[clientId]], t'.records[t.byId[clientId]];
       c'.created == c.created + more && c'.principal == c.principal
  }

  lemma AddLeavesClient(t: Tables, arg: ExchangeArg, k: ClientId)
    requires IdsTrue(t) && k < t.nextId && k in Add(t, arg).byId
    ensures SameClient(t, Add(t, arg), k, 0)
  {
  }

  lemma ReplaceLeavesClient(t: Tables, r: nat, arg: ExchangeArg, k: ClientId)
    requires IdsTrue(t) && r < |t.records| && CanRemove(t, r) && k < t.nextId && k in Replace(t, r, arg).0.byId
    ensures SameClient(t, Replace(t, r, arg).0, k, 0) && t.byId[k] != r
  {
    hide IdsTrue, Add, ExchangeReply;
    NoNewIdsTrue(t, Remove(t, r));
    if CanAdd(Remove(t, r), arg) {
      AddLeavesClient(Remove(t, r), arg, k);
    }
    IdKeyTrue(t, k);
  }

  lemma IdKeyTrue(t: Tables, k: ClientId)
    requires IdsTrue(t) && k in t.byId
    ensures t.byId[k] < |t.records| && t.records[t.byId[k]].id == k
  {
  }

  lemma ExchangeLeavesClient(t: Tables, arg: ExchangeArg, denied: bool, k: ClientId)
    requires Inv(t) && IdsTrue(t) && k < t.nextId && k in ExchangeId(t, arg, denied).0.byId
    ensures SameClient(t, ExchangeId(t, arg, denied).0, k, 0)
  {
    hide KeysOk, IdsOk, TableOk, ListsOk, IdsTrue, Add, Replace, ExchangeReply, SessionId;
    if k in t.byId {
      IdKeyTrue(t, k);
    }
    if arg.owner !in t.byOwner {
      if !arg.update {
        AddLeavesClient(t, arg, k);
      }
    } else {
      var r := t.byOwner[arg.owner];
      OwnerIsLive(t, arg.owner);
      LiveCanBeRemoved(t, r);
      if !t.records[r].confirmed {
        if !arg.update {
          ReplaceLeavesClient(t, r, arg, k);
        }
      } else if !denied && !arg.update && t.records[r].principal == arg.principal && t.records[r].verifier != arg.verifier {
        var t1 := ClientReboot(t, r).0;
        ClientRebootTakesItsOwn(t, r);
        NoNewIdsTrue(t, t1);
        ReplaceLeavesClient(t1, r, arg, k);
      }
    }
  }

  lemma LiveCanBeRemoved(t: Tables, r: nat)
    requires KeysOk(t) && r < |t.records| && Live(t, r)
    ensures CanRemove(t, r)
  {
  }

  lemma StepLeavesClient(t: Tables, ev: Event, k: ClientId)
    requires Inv(t) && IdsTrue(t) && k < t.nextId && k in Next(t, ev).0.byId
    ensures SameClient(t, Next(t, ev).0, k, if LetsThrough(t, ev, k) then 1 else 0)
  {
    hide KeysOk, IdsOk, TableOk, ListsOk, ExchangeId, SessionId, CheckSeqid, Without;
    if ev.Exchange? {
      ExchangeLeavesClient(t, ev.arg, ev.denied, k);
    } else if ev.Create? && ev.clientId in t.byId && ev.clientId != k {
      IdKeyTrue(t, k);
      IdKeyTrue(t, ev.clientId);
    }
  }

  lemma NextIdGrows(t: Tables, ev: Event)
    requires WellTyped(t)
    ensures Next(t, ev).0.nextId >= t.nextId
  {
    hide DropListed, Without, CheckSeqid, ExchangeReply, SessionId;
  }

  ghost predicate NoneLetThrough(states: seq<Tables>, events: seq<Event>, i: nat, j: nat, k: ClientId)
    requires j < |states| && j <= |events|
  {
    forall n | i <= n < j :: !LetsThrough(states[n], events[n], k)
  }

  /** Over a stretch of a run at whose end a client is still there: it is the same all along, and its slot has
      moved on exactly if a CREATE_SESSION was let through. */
  lemma {:induction false} ClientOverTime(states: seq<Tables>, events: seq<Event>, i: nat, j: nat, k: ClientId) returns (more: nat)
    requires IsRun(states, events) && AllBelowWrap(states) && i <= j < |states|
    requires k < states[i].nextId && k in states[j].byId
    ensures SameClient(states[i], states[j], k, more)
    ensures more == 0 <==> NoneLetThrough(states, events, i, j, k)
    decreases j
  {
    hide Inv, Next, WellTyped, LetsThrough, BelowWrap;
    RunKeepsInv(states, events, j);
    RunKeepsIdsTrue(states, events, j);
    if i == j {
      IdKeyTrue(states[j], k);
      more := 0;
    } else {
      var t, ev := states[j - 1], events[j - 1];
      RunKeepsInv(states, events, j - 1);
      RunKeepsIdsTrue(states, events, j - 1);
      RunIsWellTyped(states, events, j - 1);
      NextIdsGrow(states, events, i, j - 1);
      StepLeavesClient(t, ev, k);
      more := ClientOverTime(states, events, i, j - 1, k);
      more := more + if LetsThrough(t, ev, k) then 1 else 0;
    }
  }

  lemma {:induction false} NextIdsGrow(states: seq<Tables>, events: seq<Event>, i: nat, j: nat)
    requires IsRun(states, events) && i <= j < |states|
    ensures states[i].nextId <= states[j].nextId
    decreases j
  {
    hide Next, WellTyped;
    if i < j {
      NextIdsGrow(states, events, i, j - 1);
      RunIsWellTyped(states, events, j - 1);
      NextIdGrows(states[j - 1], events[j - 1]);
    }
  }

  /** The sequence id that EXCHANGE_ID tells an unconfirmed client is good for a CREATE_SESSION of its owner at
      any later moment exactly as long as the client is there and none of its CREATE_SESSIONs has been let
      through, by whomever it was sent. */
  lemma ToldIdIsGoodExactlyIf(states: seq<Tables>, events: seq<Event>, i: nat, j: nat)
    requires IsRun(states, events) && AllBelowWrap(states) && i < j < |states|
    requires events[i].Exchange? && WellTyped(states[i]) && WellTyped(states[j])
    requires Next(states[i], events[i]).1.ExchangeOk? && !Next(states[i], events[i]).1.confirmed
    ensures var told := Next(states[i], events[i]).1;
            CreateSession(states[j], told.clientId, told.seqid, events[i].arg.principal, false).1.CreateOk?
            <==> told.clientId in states[j].byId && NoneLetThrough(states, events, i + 1, j, told.clientId)
  {
    hide Inv, Next, WellTyped, LetsThrough, KeysOk, IdsOk, TableOk, ListsOk, SessionId, CheckSeqid, BelowWrap, NoneLetThrough, ExchangeId;
    var told := ToldOfClient(states, events, i);
    if told.clientId in states[j].byId {
      var more := ClientOverTime(states, events, i + 1, j, told.clientId);
      TakesToldId(states, events, i + 1, j, told, events[i].arg.principal, more);
    } else {
      assert CreateSession(states[j], told.clientId, told.seqid, events[i].arg.principal, false).1 == StaleClientId;
    }
  }

  lemma ToldOfClient(states: seq<Tables>, events: seq<Event>, i: nat) returns (told: Reply)
    requires IsRun(states, events) && AllBelowWrap(states) && i < |events|
    requires events[i].Exchange? && WellTyped(states[i])
    requires Next(states[i], events[i]).1.ExchangeOk? && !Next(states[i], events[i]).1.confirmed
    ensures told == Next(states[i], events[i]).1 && told.clientId < states[i + 1].nextId
    ensures var t := states[i + 1];
            && told.clientId in t.byId && t.byId[told.clientId] < |t.records|
            && var c := t.records[t.byId[told.clientId]];
               told.seqid == Inc(c.seqid) && c.principal == events[i].arg.principal
  {
    hide KeysOk, IdsOk, TableOk, ListsOk, ExchangeId, BelowWrap;
    RunKeepsInv(states, events, i);
    RunIsWellTyped(states, events, i);
    ExchangeFindsClient(states[i], events[i].arg, events[i].denied);
    RunKeepsIdsTrue(states, events, i + 1);
    told := Next(states[i], events[i]).1;
    IdKeyTrue(states[i + 1], told.clientId);
  }

  lemma TakesToldId(states: seq<Tables>, events: seq<Event>, i: nat, j: nat, told: Reply, principal: Principal, more: nat)
    requires IsRun(states, events) && AllBelowWrap(states) && i <= j < |states| && told.ExchangeOk?
    requires SameClient(states[i], states[j], told.clientId, more)
    requires var c := states[i].records[states[i].byId[told.clientId]];
             told.seqid == Inc(c.seqid) && c.principal == principal
    ensures WellTyped(states[j])
    ensures CreateSession(states[j], told.clientId, told.seqid, principal, false).1.CreateOk? <==> more == 0
  {
    hide KeysOk, TableOk, ListsOk, SessionId;
    RunKeepsInv(states, events, i);
    RunKeepsInv(states, events, j);
    var r := states[i].byId[told.clientId];
    var c, c' := states[i].records[r], states[j].records[r];
    assert c.seqid == c.created % WRAP && c'.seqid == c'.created % WRAP;
    assert BelowWrap(states[i]) && BelowWrap(states[j]);
    IncMod(c.created);
    IncMod(c'.created);
    SameIdExactlyIf(c.created, c'.created);
    SameIdExactlyIf(c.created + 1, c'.created + 1);
  }

  /** A CREATE_SESSION that was let through, also one refused for its principal, uses its sequence id up: the same
      request once more, whoever sends it, changes nothing and gets the reply that was kept. */
  lemma CreateOnlyOnce(t: Tables, clientId: ClientId, seqid: nat, principal: Principal, again: Principal)
    requires Inv(t)
    requires var reply := CreateSession(t, clientId, seqid, principal, false).1; reply == ClidInuse || reply.CreateOk?
    ensures var t' := CreateSession(t, clientId, seqid, principal, false).0;
            WellTyped(t') && CreateSession(t', clientId, seqid, again, false) == (t', Replayed)
  {
    hide KeysOk, TableOk, ListsOk, IdsOk, SessionId, CheckSeqid, Inc, CreateSession;
    CreateKeepsTypes(t, clientId, seqid, principal, false);
    SlotUsedUp(t, clientId, seqid, principal);
    IncDiffers(seqid);
    OnlyReplay(CreateSession(t, clientId, seqid, principal, false).0, clientId, seqid, again);
  }

  lemma SlotUsedUp(t: Tables, clientId: ClientId, seqid: nat, principal: Principal)
    requires WellTyped(t)
    requires var reply := CreateSession(t, clientId, seqid, principal, false).1; reply == ClidInuse || reply.CreateOk?
    ensures var t' := CreateSession(t, clientId, seqid, principal, false).0;
            clientId in t'.byId && t'.byId[clientId] < |t'.records| && t'.records[t'.byId[clientId]].seqid == seqid
  {
    hide SessionId;
  }

  lemma OnlyReplay(t: Tables, clientId: ClientId, seqid: nat, principal: Principal)
    requires WellTyped(t) && clientId in t.byId && t.records[t.byId[clientId]].seqid == seqid && Inc(seqid) != seqid
    ensures CreateSession(t, clientId, seqid, principal, false) == (t, Replayed)
  {
  }

  lemma IncDiffers(i: nat)
    ensures Inc(i) != i
  {
  }

  /** EXCHANGE_ID by the same principal with another verifier: the client has rebooted. Exactly its sessions are
      gone, and it starts anew, unconfirmed. */
  lemma RebootedClientStartsAnew(t: Tables, arg: ExchangeArg)
    requires Inv(t) && arg.owner in t.byOwner && !arg.update
    requires var c := t.records[t.byOwner[arg.owner]];
             c.confirmed && c.principal == arg.principal && c.verifier != arg.verifier
    ensures var t' := ExchangeId(t, arg, false).0;
            && (forall k :: k in t'.sessions <==> k in t.sessions && t.made[t.sessions[k]].client != t.byOwner[arg.owner])
            && (forall k | k in t'.sessions :: t'.sessions[k] == t.sessions[k])
            && arg.owner in t'.byOwner && t'.byOwner[arg.owner] == |t.records| < |t'.records|
            && !t'.records[|t.records|].confirmed && t'.records[|t.records|].sessions == []
  {
    hide KeysOk, IdsOk, TableOk, ListsOk, SessionId, DropListed;
    var r := t.byOwner[arg.owner];
    OwnerIsLive(t, arg.owner);
    ClientRebootTakesItsOwn(t, r);
    ClientRebootKeepsInv(t, r);
    ReplaceKeepsInv(ClientReboot(t, r).0, r, arg);
  }

  /** DESTROY_SESSION takes exactly the session it names. */
  lemma DestroysExactlyOne(t: Tables, sessionId: string, inPlace: bool)
    requires Inv(t)
    ensures var (t', reply) := DestroySession(t, sessionId, inPlace);
            && (reply == DestroyOk <==> sessionId in t.sessions && inPlace)
            && (reply != DestroyOk ==> t' == t)
            && (reply == DestroyOk ==> t'.sessions == t.sessions - {sessionId} && t'.byId == t.byId && t'.byOwner == t.byOwner)
  {
    hide KeysOk, IdsOk, ListsOk, SessionId, Without;
    if sessionId in t.sessions {
      DestroyKeepsInv(t, sessionId);
    }
  }
}
