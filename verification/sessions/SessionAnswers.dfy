/** What each operation on the tables answers, exactly when, and what it changes, in terms of the tables before. */
module SessionAnswers {
  import opened SequenceIds
  import opened SessionIds
  import opened SessionTables
  import opened SessionRuns

  // ----- EXCHANGE_ID -----

  /** The owner has a client, and that client is confirmed. */
  predicate HasConfirmed(t: Tables, owner: Owner) {
    owner in t.byOwner && t.byOwner[owner] < |t.records| && t.records[t.byOwner[owner]].confirmed
  }

  predicate SameVerifier(t: Tables, arg: ExchangeArg) {
    arg.owner in t.byOwner && t.byOwner[arg.owner] < |t.records| && t.records[t.byOwner[arg.owner]].verifier == arg.verifier
  }

  predicate SamePrincipal(t: Tables, arg: ExchangeArg) {
    arg.owner in t.byOwner && t.byOwner[arg.owner] < |t.records| && t.records[t.byOwner[arg.owner]].principal == arg.principal
  }

  /** An owner without a confirmed client is given one unless it asks for an update; the owner of a confirmed client
      is answered if state protection lets it, for its own principal, and if it asks for an update with the
      verifier it had. Each other reply is for its one reason, and changes nothing. */
  lemma ExchangeAnswers(t: Tables, arg: ExchangeArg, denied: bool)
    requires Inv(t)
    ensures var (t', reply) := ExchangeId(t, arg, denied);
            var confirmed, sameVerifier, samePrincipal := HasConfirmed(t, arg.owner), SameVerifier(t, arg), SamePrincipal(t, arg);
            && (reply.ExchangeOk? <==> if !confirmed then !arg.update
                                       else !denied && samePrincipal && (arg.update ==> sameVerifier))
            && (reply == NoEnt <==> !confirmed && arg.update)
            && (reply == Denied <==> confirmed && denied)
            && (reply == NotSame <==> confirmed && !denied && arg.update && !sameVerifier)
            && (reply == Perm <==> confirmed && !denied && arg.update && sameVerifier && !samePrincipal)
            && (reply == ClidInuse <==> confirmed && !denied && !arg.update && !samePrincipal)
            && (!reply.ExchangeOk? ==> t' == t)
  {
    hide KeysOk, IdsOk, TableOk, ListsOk, Replace, ClientReboot, Add;
    ExchangeKeepsInv(t, arg, denied);
    if arg.owner in t.byOwner {
      var r := t.byOwner[arg.owner];
      OwnerIsLive(t, arg.owner);
      if t.records[r].confirmed {
        ClientRebootKeepsInv(t, r);
        ClientRebootTakesItsOwn(t, r);
        ReplaceKeepsInv(ClientReboot(t, r).0, r, arg);
      } else {
        ReplaceKeepsInv(t, r, arg);
      }
    }
  }

  /** The session is one of the client that the owner had. */
  predicate OfOwner(t: Tables, owner: Owner, session: nat) {
    owner in t.byOwner && session < |t.made| && t.made[session].client == t.byOwner[owner]
  }

  /** A client that is confirmed and has not rebooted stays as it is, and its id is told. */
  lemma ExchangeKeepsClient(t: Tables, arg: ExchangeArg, denied: bool)
    requires Inv(t) && ExchangeId(t, arg, denied).1.ExchangeOk?
    requires HasConfirmed(t, arg.owner) && SameVerifier(t, arg)
    ensures ExchangeId(t, arg, denied) == (t, ExchangeOk(t.records[t.byOwner[arg.owner]].id, 0, true))
  {
    hide KeysOk, IdsOk, TableOk, ListsOk, Replace, ClientReboot, Add;
  }

  /** In any other case a new client takes the owner's place: with the next id, what the request says, nothing
      confirmed and no session. The client the owner had is gone under both keys, with exactly its sessions; every
      other client and session stays as it is. */
  lemma ExchangeMakesClient(t: Tables, arg: ExchangeArg, denied: bool)
    requires Inv(t) && ExchangeId(t, arg, denied).1.ExchangeOk?
    requires !(HasConfirmed(t, arg.owner) && SameVerifier(t, arg))
    ensures var (t', reply) := ExchangeId(t, arg, denied);
            && reply == ExchangeOk(t.nextId, 1, false) && t'.nextId == t.nextId + 1
            && |t'.records| == |t.records| + 1
            && t'.records[|t.records|] == Client(t.nextId, arg.owner, arg.verifier, arg.principal, false, false, 0, [], 0)
            && arg.owner in t'.byOwner && t'.byOwner[arg.owner] == |t.records|
            && t.nextId in t'.byId && t'.byId[t.nextId] == |t.records|
            && (forall o | o != arg.owner :: (o in t'.byOwner <==> o in t.byOwner) && (o in t.byOwner ==> t'.byOwner[o] == t.byOwner[o]))
            && (forall k | k in t.byId && (arg.owner in t.byOwner ==> t.byId[k] != t.byOwner[arg.owner]) ::
                  k in t'.byId && t'.byId[k] == t.byId[k])
            && (forall k | k in t'.byId && k != t.nextId ::
                  k in t.byId && (arg.owner in t.byOwner ==> t.byId[k] != t.byOwner[arg.owner]))
            && (forall q | 0 <= q < |t.records| && (arg.owner in t.byOwner ==> q != t.byOwner[arg.owner]) ::
                  t'.records[q] == t.records[q])
            && (forall k :: k in t'.sessions <==> k in t.sessions && !OfOwner(t, arg.owner, t.sessions[k]))
            && (forall k | k in t'.sessions :: t'.sessions[k] == t.sessions[k]) && t'.made == t.made
  {
    hide KeysOk, IdsOk, TableOk, ListsOk, SessionId;
    if arg.owner !in t.byOwner {
      NewIdIsNew(t);
    } else {
      var r := t.byOwner[arg.owner];
      OwnerIsLive(t, arg.owner);
      NewIdIsNew(t);
      if t.records[r].confirmed {
        ReplacedAfterReboot(t, r, arg);
      } else {
        NoSessionOf(t, r);
        LiveCanBeRemoved(t, r);
        LiveKeys(t, r);
      }
    }
  }

  lemma NewIdIsNew(t: Tables)
    requires Inv(t)
    ensures t.nextId !in t.byId && forall k | k in t.byId :: t.byId[k] < |t.records|
  {
    hide TableOk, ListsOk;
  }

  /** Only the record itself is under a live record's id. */
  lemma LiveKeys(t: Tables, r: nat)
    requires Inv(t) && r < |t.records| && Live(t, r)
    ensures forall k | k in t.byId :: t.byId[k] == r <==> k == t.records[r].id
  {
    hide TableOk, ListsOk, IdsOk;
    forall k | k in t.byId ensures t.byId[k] == r <==> k == t.records[r].id {
      assert IdKeyOk(t, k);
    }
  }

  lemma NoSessionOf(t: Tables, r: nat)
    requires Inv(t) && r < |t.records| && Live(t, r) && t.records[r].sessions == []
    ensures forall k | k in t.sessions :: t.sessions[k] < |t.made| && t.made[t.sessions[k]].client != r
  {
    hide KeysOk, IdsOk, ListsOk, SessionId;
  }

  lemma ReplacedAfterReboot(t: Tables, r: nat, arg: ExchangeArg)
    requires Inv(t) && r < |t.records| && Live(t, r) && t.records[r].owner == arg.owner
    ensures ClientReboot(t, r).1
    ensures var (t', reply) := Replace(ClientReboot(t, r).0, r, arg);
            && reply == ExchangeOk(t.nextId, 1, false) && t'.nextId == t.nextId + 1
            && |t'.records| == |t.records| + 1
            && t'.records[|t.records|] == Client(t.nextId, arg.owner, arg.verifier, arg.principal, false, false, 0, [], 0)
            && t'.byOwner == t.byOwner[arg.owner := |t.records|]
            && t'.byId == (t.byId - {t.records[r].id})[t.nextId := |t.records|]
            && (forall k | k in t.byId :: t.byId[k] == r <==> k == t.records[r].id)
            && (forall q | 0 <= q < |t.records| && q != r :: t'.records[q] == t.records[q])
            && (forall k :: k in t'.sessions <==> k in t.sessions && t.made[t.sessions[k]].client != r)
            && (forall k | k in t'.sessions :: t'.sessions[k] == t.sessions[k]) && t'.made == t.made
  {
    hide KeysOk, IdsOk, TableOk, ListsOk, SessionId, DropListed;
    ClientRebootTakesItsOwn(t, r);
    ClientRebootKeepsInv(t, r);
    LiveKeys(t, r);
    ReplaceKeepsInv(ClientReboot(t, r).0, r, arg);
    assert (t.byOwner - {arg.owner})[arg.owner := |t.records|] == t.byOwner[arg.owner := |t.records|];
  }

  // ----- CREATE_SESSION -----

  /** The sequence id after this one, with 32 bits. */
  function Following(seqid: nat): nat {
    if seqid == 0xffff_ffff then 0 else seqid + 1
  }

  lemma FollowingIsInc(seqid: nat)
    requires seqid < WRAP
    ensures Inc(seqid) == Following(seqid) && Following(seqid) != seqid
  {
  }

  /** An unknown client is told so; a known one may be denied; the sequence id must follow the last one, and the
      last one again gets the last reply. An unconfirmed client is confirmed by its own principal and by nobody
      else. Only a request that is let through changes anything. */
  lemma CreateAnswers(t: Tables, k: ClientId, seqid: nat, principal: Principal, denied: bool)
    requires Inv(t)
    ensures var (t', reply) := CreateSession(t, k, seqid, principal, denied);
            && (reply == StaleClientId <==> k !in t.byId)
            && (k in t.byId ==>
                  && t.byId[k] < |t.records|
                  && var c := t.records[t.byId[k]];
                     && (reply == Denied <==> denied)
                     && (reply == Replayed <==> !denied && seqid == c.seqid)
                     && (reply == SeqMisordered <==> !denied && seqid != c.seqid && seqid != Following(c.seqid))
                     && (reply == ClidInuse <==> !denied && seqid == Following(c.seqid) && !c.confirmed && c.principal != principal)
                     && (reply.CreateOk? <==> !denied && seqid == Following(c.seqid) && (c.confirmed || c.principal == principal)))
            && (reply != ClidInuse && !reply.CreateOk? ==> t' == t)
  {
    hide KeysOk, TableOk, ListsOk, SessionId, AddSession;
    if k in t.byId {
      IdIsLive(t, k);
      SeqidBelowWrap(t, t.byId[k]);
      FollowingIsInc(t.records[t.byId[k]].seqid);
    }
  }

  lemma SeqidBelowWrap(t: Tables, r: nat)
    requires Inv(t) && r < |t.records|
    ensures t.records[r].seqid < WRAP
  {
    hide KeysOk, TableOk, ListsOk;
  }

  /** A session that is made has the id of its client and the sequence id of the request; it is the client's last,
      and the client is confirmed. A refusal of the principal uses the sequence id up. Nothing else changes. */
  lemma CreateMakesSession(t: Tables, k: ClientId, seqid: nat, principal: Principal, denied: bool)
    requires Inv(t)
    ensures var (t', reply) := CreateSession(t, k, seqid, principal, denied);
            && t'.byId == t.byId && t'.byOwner == t.byOwner && t'.nextId == t.nextId && |t'.records| == |t.records|
            && (reply.CreateOk? ==>
                  && k in t.byId && t.byId[k] < |t.records|
                  && reply == CreateOk(SessionId(k, seqid), seqid)
                  && |t'.made| == |t.made| + 1 && t'.made[..|t.made|] == t.made
                  && t'.made[|t.made|].client == t.byId[k] && t'.made[|t.made|].id == reply.sessionId
                  && t'.sessions == t.sessions[reply.sessionId := |t.made|]
                  && var c, c' := t.records[t.byId[k]], t'.records[t.byId[k]];
                     && c'.sessions == c.sessions + [|t.made|] && c'.confirmed && c'.seqid == seqid
                     && c'.owner == c.owner && c'.principal == c.principal && c'.verifier == c.verifier && c'.id == c.id)
            && (reply == ClidInuse ==>
                  && k in t.byId && t.byId[k] < |t.records| && t'.sessions == t.sessions && t'.made == t.made
                  && var c, c' := t.records[t.byId[k]], t'.records[t.byId[k]];
                     c' == c.(seqid := seqid, created := c'.created))
            && (forall q | 0 <= q < |t.records| && (k in t.byId ==> q != t.byId[k]) :: t'.records[q] == t.records[q])
  {
    hide KeysOk, TableOk, ListsOk, SessionId;
    if k in t.byId {
      IdIsLive(t, k);
    }
  }

  // ----- DESTROY_SESSION and reboot -----

  /** An unknown session is told so, one that may not go here yet too; else it leaves the table and its client's
      list, and nothing else changes. */
  lemma DestroyAnswers(t: Tables, sessionId: string, inPlace: bool)
    requires Inv(t)
    ensures var (t', reply) := DestroySession(t, sessionId, inPlace);
            && (reply == BadSession <==> sessionId !in t.sessions)
            && (reply == Inval <==> sessionId in t.sessions && !inPlace)
            && (reply == DestroyOk <==> sessionId in t.sessions && inPlace)
            && (reply != DestroyOk ==> t' == t)
            && (reply == DestroyOk ==>
                  && t'.sessions == t.sessions - {sessionId} && t'.byId == t.byId && t'.byOwner == t.byOwner
                  && t'.made == t.made && t'.nextId == t.nextId && |t'.records| == |t.records|
                  && t.sessions[sessionId] < |t.made| && t.made[t.sessions[sessionId]].client < |t.records|
                  && var s, r := t.sessions[sessionId], t.made[t.sessions[sessionId]].client;
                     && (forall q | 0 <= q < |t.records| && q != r :: t'.records[q] == t.records[q])
                     && t'.records[r] == t.records[r].(sessions := t'.records[r].sessions)
                     && forall x :: x in t'.records[r].sessions <==> x in t.records[r].sessions && x != s)
  {
    hide KeysOk, IdsOk, SessionId, Without;
    if sessionId in t.sessions {
      var s := t.sessions[sessionId];
      var r := t.made[s].client;
      DestroyKeepsInv(t, sessionId);
      assert Live(t, r) && ListOk(t, r);
      WithoutExactly(t.records[r].sessions, s);
    }
  }

  /** A server that reboots knows no client and no session any more, but the ids it has given out are not given out
      again. */
  lemma RebootForgets(t: Tables)
    ensures var t' := ServerReboot(t);
            t'.byId == map[] && t'.byOwner == map[] && t'.sessions == map[] && t'.nextId == t.nextId
  {
  }

  // ----- a run that leaves a session -----

  /** A new owner gets the first client id, is told the sequence id 1 and makes a session with it, which is there
      at the end of the run. */
  lemma SessionExample() returns (states: seq<Tables>, events: seq<Event>)
    ensures IsRun(states, events)
    ensures events == [Exchange(ExchangeArg("o", 7, 1, false), false), Create(0, 1, 1, false)]
    ensures WellTyped(EMPTY) && Next(EMPTY, events[0]).1 == ExchangeOk(0, 1, false)
    ensures var last := states[2];
            && "0000000000000001" in last.sessions && last.sessions["0000000000000001"] < |last.made|
            && last.made[last.sessions["0000000000000001"]].client == 0
            && |last.records| == 1 && last.records[0].confirmed && last.records[0].owner == "o"
  {
    hide KeysOk, IdsOk, TableOk, ListsOk, SessionId, ExchangeId, CreateSession;
    var arg := ExchangeArg("o", 7, 1, false);
    events := [Exchange(arg, false), Create(0, 1, 1, false)];
    EmptyInv();
    ExchangeAnswers(EMPTY, arg, false);
    ExchangeMakesClient(EMPTY, arg, false);
    ExchangeKeepsInv(EMPTY, arg, false);
    var t1 := ExchangeId(EMPTY, arg, false).0;
    CreateAnswers(t1, 0, 1, 1, false);
    CreateMakesSession(t1, 0, 1, 1, false);
    FirstSessionId();
    var t2 := CreateSession(t1, 0, 1, 1, false).0;
    states := [EMPTY, t1, t2];
  }

  lemma FirstSessionId()
    ensures SessionId(0, 1) == "0000000000000001"
  {
    assert Hex(0) == "0" && Hex(1) == "1";
    assert Zeros(7) == "0000000";
    assert Hex8(0) == "00000000" && Hex8(1) == "00000001";
  }
}
