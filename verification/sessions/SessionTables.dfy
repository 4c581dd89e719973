/** pynfs/nfs4.1/nfs4server.py: the tables of clients and sessions under EXCHANGE_ID, CREATE_SESSION,
    DESTROY_SESSION, client reboot and server reboot (sections 18.35 to 18.37 of RFC 5661). */
module SessionTables {
  import opened Optional
  import opened SequenceIds
  import opened SessionIds

  type Owner = string
  type ClientId = nat
  type Principal = nat
  type Verifier = nat

  /** A ClientRecord; clients and sessions refer to one another by their place in the order of creation.
      `created` is history: how many CREATE_SESSIONs the record's slot has let through, of which `seqid`
      shows the lower 32 bits. */
  datatype Client = Client(id: ClientId, owner: Owner, verifier: Verifier, principal: Principal, confirmed: bool,
                           frozen: bool, seqid: nat, sessions: seq<nat>, created: nat)

  /** A SessionRecord, with the value of its client's `created` when it was made. */
  datatype Session = Session(client: nat, id: string, created: nat)

  /** The server: every record ever made, the two kinds of keys of ClientList, and the session table. */
  datatype Tables = Tables(records: seq<Client>, byId: map<ClientId, nat>, byOwner: map<Owner, nat>, nextId: ClientId,
                           made: seq<Session>, sessions: map<string, nat>)

  datatype Reply =
    | ExchangeOk(clientId: ClientId, seqid: nat, confirmed: bool)
    | CreateOk(sessionId: string, seqid: nat)
    | DestroyOk
    | Replayed                // the cached reply of the last CREATE_SESSION
    | NoEnt | NotSame | Perm | ClidInuse | StaleClientId | SeqMisordered | BadSession | Inval | Denied
    | ServerFault             // the code met an exception it does not expect

  datatype ExchangeArg = ExchangeArg(owner: Owner, verifier: Verifier, principal: Principal, update: bool)

  /** Whether state protection refuses a request is up to `denied`. */
  datatype Event =
    | Exchange(arg: ExchangeArg, denied: bool)
    | Create(clientId: ClientId, seqid: nat, principal: Principal, denied: bool)
    | Destroy(sessionId: string, inPlace: bool)
    | Reboot

  const EMPTY := Tables([], map[], map[], 0, [], map[])

  // ----- references point to something -----

  predicate Below(list: seq<nat>, n: nat) {
    forall i | 0 <= i < |list| :: list[i] < n
  }

  predicate WellTyped(t: Tables) {
    && (forall k | k in t.byId :: t.byId[k] < |t.records|)
    && (forall o | o in t.byOwner :: t.byOwner[o] < |t.records|)
    && (forall k | k in t.sessions :: t.sessions[k] < |t.made|)
    && (forall s | 0 <= s < |t.made| :: t.made[s].client < |t.records|)
    && (forall r | 0 <= r < |t.records| :: Below(t.records[r].sessions, |t.made|))
  }

  // ----- the operations -----

  /** ClientList.add; the owner must not be there yet. */
  function Add(t: Tables, arg: ExchangeArg): Tables {
    var c := Client(t.nextId, arg.owner, arg.verifier, arg.principal, false, false, 0, [], 0);
    t.(records := t.records + [c], byId := t.byId[c.id := |t.records|], byOwner := t.byOwner[c.owner := |t.records|],
       nextId := t.nextId + 1)
  }

  /** ClientList.remove of the client a reference points to. */
  function Remove(t: Tables, r: nat): Tables
    requires r < |t.records|
  {
    var c := t.records[r];
    t.(records := t.records[r := c.(frozen := true)], byId := t.byId - {c.id}, byOwner := t.byOwner - {c.owner})
  }

  predicate CanAdd(t: Tables, arg: ExchangeArg) {
    arg.owner !in t.byOwner
  }

  predicate CanRemove(t: Tables, r: nat)
    requires r < |t.records|
  {
    t.records[r].id in t.byId && t.byId[t.records[r].id] == r && t.records[r].owner in t.byOwner
  }

  function ExchangeReply(t: Tables, r: nat): Reply
    requires r < |t.records|
  {
    var c := t.records[r];
    ExchangeOk(c.id, if c.confirmed then 0 else Inc(c.seqid), c.confirmed)
  }

  function AddAndReply(t: Tables, arg: ExchangeArg): (Tables, Reply) {
    if CanAdd(t, arg) then (Add(t, arg), ExchangeReply(Add(t, arg), |t.records|)) else (t, ServerFault)
  }

  function Replace(t: Tables, r: nat, arg: ExchangeArg): (Tables, Reply)
    requires r < |t.records|
  {
    if CanRemove(t, r) then AddAndReply(Remove(t, r), arg) else (t, ServerFault)
  }

  /** The loop of client_reboot: the listed sessions leave the table; false is a KeyError on the way. */
  function DropListed(sessions: map<string, nat>, made: seq<Session>, list: seq<nat>): (map<string, nat>, bool)
    requires Below(list, |made|)
  {
    if list == [] then (sessions, true)
    else if made[list[0]].id !in sessions then (sessions, false)
    else DropListed(sessions - {made[list[0]].id}, made, list[1..])
  }

  /** client_reboot and rebooted: the record starts over without sessions. */
  function ClientReboot(t: Tables, r: nat): (Tables, bool)
    requires WellTyped(t) && r < |t.records|
  {
    var c := t.records[r];
    var (sessions, ok) := DropListed(t.sessions, t.made, c.sessions);
    (if ok then t.(sessions := sessions, records := t.records[r := c.(seqid := 0, created := 0, sessions := [])])
     else t.(sessions := sessions), ok)
  }

  /** op_exchange_id past the checks of its arguments. */
  function ExchangeId(t: Tables, arg: ExchangeArg, denied: bool): (Tables, Reply)
    requires WellTyped(t)
  {
    if arg.owner !in t.byOwner then
      if arg.update then (t, NoEnt) else AddAndReply(t, arg)
    else
      var r := t.byOwner[arg.owner];
      var c := t.records[r];
      if !c.confirmed then
        if arg.update then (t, NoEnt) else Replace(t, r, arg)
      else if denied then (t, Denied)
      else if arg.update then
        if c.verifier != arg.verifier then (t, NotSame)
        else if c.principal != arg.principal then (t, Perm)
        else (t, ExchangeReply(t, r))
      else if c.principal != arg.principal then (t, ClidInuse)
      else if c.verifier != arg.verifier then
        var (t1, ok) := ClientReboot(t, r);
        if ok then Replace(t1, r, arg) else (t1, ServerFault)
      else (t, ExchangeReply(t, r))
  }

  function NewSession(t: Tables, r: nat): Session
    requires r < |t.records|
  {
    Session(r, SessionId(t.records[r].id, t.records[r].seqid), t.records[r].created)
  }

  /** A new session in the table and in its client's list, whether or not its id is taken. */
  function AddSession(t: Tables, r: nat): Tables
    requires r < |t.records|
  {
    var s := NewSession(t, r);
    t.(made := t.made + [s], sessions := t.sessions[s.id := |t.made|],
       records := t.records[r := t.records[r].(sessions := t.records[r].sessions + [|t.made|])])
  }

  /** What a CREATE_SESSION that the client's slot lets through makes of the client. */
  function LetThrough(t: Tables, r: nat): Tables
    requires r < |t.records|
  {
    var c := t.records[r];
    t.(records := t.records[r := c.(seqid := Inc(c.seqid), created := c.created + 1)])
  }

  function Confirm(t: Tables, r: nat): Tables
    requires r < |t.records|
  {
    t.(records := t.records[r := t.records[r].(confirmed := true)])
  }

  /** op_create_session; the client's slot moves on before the principal is looked at. */
  function CreateSession(t: Tables, clientId: ClientId, seqid: nat, principal: Principal, denied: bool): (Tables, Reply)
    requires WellTyped(t)
  {
    if clientId !in t.byId then (t, StaleClientId)
    else if denied then (t, Denied)
    else
      var r := t.byId[clientId];
      match CheckSeqid(t.records[r].seqid, seqid)
      case Replay => (t, Replayed)
      case Misordered => (t, SeqMisordered)
      case New =>
        var t1 := LetThrough(t, r);
        if !t1.records[r].confirmed && t1.records[r].principal != principal then (t1, ClidInuse)
        else
          var t2 := Confirm(t1, r);
          (AddSession(t2, r), CreateOk(NewSession(t2, r).id, seqid))
  }

  function Without(list: seq<nat>, s: nat): (rest: seq<nat>)
    ensures forall x | x in rest :: x in list
  {
    if list == [] then [] else if list[0] == s then list[1..] else [list[0]] + Without(list[1..], s)
  }

  /** op_destroy_session. `inPlace`: it is not the session of the request itself, or this is the request's last
      operation. A session that its client does not list is a ValueError. */
  function DestroySession(t: Tables, sessionId: string, inPlace: bool): (Tables, Reply)
    requires WellTyped(t)
  {
    if sessionId !in t.sessions then (t, BadSession)
    else if !inPlace then (t, Inval)
    else
      var s := t.sessions[sessionId];
      var r := t.made[s].client;
      var c := t.records[r];
      var t1 := t.(sessions := t.sessions - {sessionId});
      if s !in c.sessions then (t1, ServerFault)
      else (t1.(records := t.records[r := c.(sessions := Without(c.sessions, s))]), DestroyOk)
  }

  /** reboot: both tables are emptied; the counter of client ids goes on. */
  function ServerReboot(t: Tables): Tables {
    t.(sessions := map[], byId := map[], byOwner := map[])
  }

  function Next(t: Tables, ev: Event): (Tables, Reply)
    requires WellTyped(t)
  {
    match ev
    case Exchange(arg, denied) => ExchangeId(t, arg, denied)
    case Create(clientId, seqid, principal, denied) => CreateSession(t, clientId, seqid, principal, denied)
    case Destroy(sessionId, inPlace) => DestroySession(t, sessionId, inPlace)
    case Reboot => (ServerReboot(t), DestroyOk)
  }

  // ----- the invariant -----

  predicate Live(t: Tables, r: nat) {
    r < |t.records| && t.records[r].id in t.byId && t.byId[t.records[r].id] == r
  }

  ghost predicate IdKeyOk(t: Tables, k: ClientId)
    requires k in t.byId
  {
    var r := t.byId[k];
    && r < |t.records| && t.records[r].id == k && !t.records[r].frozen
    && t.records[r].owner in t.byOwner && t.byOwner[t.records[r].owner] == r
  }

  ghost predicate OwnerKeyOk(t: Tables, o: Owner)
    requires o in t.byOwner
  {
    t.byOwner[o] < |t.records| && t.records[t.byOwner[o]].owner == o && Live(t, t.byOwner[o])
  }

  /** Both keys of a client reach the same record, which says so. */
  ghost predicate KeysOk(t: Tables) {
    (forall k | k in t.byId :: IdKeyOk(t, k)) && forall o | o in t.byOwner :: OwnerKeyOk(t, o)
  }

  /** Client ids were given out in order. */
  ghost predicate IdsOk(t: Tables) {
    forall i | 0 <= i < |t.records| ::
      && t.records[i].id < t.nextId
      && t.records[i].seqid == t.records[i].created % WRAP
      && forall j | 0 <= j < i :: t.records[j].id < t.records[i].id
  }

  /** A session in the table is the one its key names, of a live client that lists it. */
  ghost predicate TableOk(t: Tables) {
    forall k | k in t.sessions ::
      && t.sessions[k] < |t.made| && t.made[t.sessions[k]].id == k
      && Live(t, t.made[t.sessions[k]].client)
      && t.sessions[k] in t.records[t.made[t.sessions[k]].client].sessions
  }

  /** A session that a live client lists is in the table under its id. */
  ghost predicate Listed(t: Tables, r: nat, s: nat)
    requires r < |t.records|
  {
    && s < |t.made| && t.made[s].client == r && t.made[s].id in t.sessions && t.sessions[t.made[s].id] == s
    && 1 <= t.made[s].created <= t.records[r].created
    && t.made[s].id == SessionId(t.records[r].id, t.made[s].created % WRAP)
  }

  ghost predicate InOrder(list: seq<nat>) {
    forall i, j | 0 <= i < j < |list| :: list[i] < list[j]
  }

  ghost predicate ListOk(t: Tables, r: nat)
    requires r < |t.records|
  {
    var c := t.records[r];
    && (forall s | s in c.sessions :: Listed(t, r, s))
    && InOrder(c.sessions)
    && (!c.confirmed ==> c.sessions == [])
  }

  ghost predicate ListsOk(t: Tables) {
    forall r | 0 <= r < |t.records| && Live(t, r) :: ListOk(t, r)
  }

  ghost predicate Inv(t: Tables) {
    WellTyped(t) && KeysOk(t) && IdsOk(t) && TableOk(t) && ListsOk(t)
  }

  /** The id of the next session of a client is taken. */
  ghost predicate Taken(t: Tables, r: nat)
    requires r < |t.records|
  {
    SessionId(t.records[r].id, Inc(t.records[r].seqid)) in t.sessions
  }

  /** A live session of the client that was made a number of full wraps of the sequence id ago. */
  ghost predicate WrapsBack(t: Tables, r: nat, s: nat)
    requires r < |t.records|
  {
    && s in t.records[r].sessions && s < |t.made| && t.made[s].created <= t.records[r].created
    && (t.records[r].created + 1 - t.made[s].created) % WRAP == 0
  }

  lemma HolderWrapsBack(t: Tables, r: nat)
    requires Inv(t) && Live(t, r) && Taken(t, r)
    ensures WrapsBack(t, r, t.sessions[SessionId(t.records[r].id, Inc(t.records[r].seqid))])
  {
    hide SessionId, WellTyped, CheckSeqid, Inc;
    var c := t.records[r];
    var s := t.sessions[SessionId(c.id, Inc(c.seqid))];
    var r1 := t.made[s].client;
    assert ListOk(t, r1) && Listed(t, r1, s);
    IncMod(c.created);
    IncBelowWrap(c.seqid);
    SessionIdsDiffer(t.records[r1].id, t.made[s].created % WRAP, c.id, Inc(c.seqid));
    SameIdExactlyIf(t.made[s].created, c.created + 1);
  }

  lemma IncBelowWrap(i: nat)
    ensures Inc(i) < WRAP
  {
  }

  lemma WrapsBackTakes(t: Tables, r: nat, s: nat)
    requires Inv(t) && Live(t, r) && WrapsBack(t, r, s)
    ensures Taken(t, r)
  {
    hide SessionId, WellTyped, KeysOk, TableOk, Inc;
    assert ListOk(t, r) && Listed(t, r, s);
    IncMod(t.records[r].created);
    SameIdExactlyIf(t.made[s].created, t.records[r].created + 1);
  }

  /** The next id is taken exactly if such a session is still alive. */
  lemma TakenExactlyIf(t: Tables, r: nat)
    requires Inv(t) && Live(t, r)
    ensures Taken(t, r) <==> exists s: nat :: WrapsBack(t, r, s)
  {
    hide KeysOk, IdsOk, TableOk, ListsOk, WrapsBack;
    if Taken(t, r) {
      HolderWrapsBack(t, r);
    }
    forall s: nat | WrapsBack(t, r, s) ensures Taken(t, r) {
      WrapsBackTakes(t, r, s);
    }
  }

  /** Below 2^32 sessions of a client no id is taken. */
  lemma FreshBelowWrap(t: Tables, r: nat)
    requires Inv(t) && Live(t, r) && t.records[r].created < WRAP
    ensures !Taken(t, r)
  {
    hide Taken, SessionId, WellTyped, KeysOk, TableOk, IdsOk;
    if Taken(t, r) {
      HolderWrapsBack(t, r);
      NotYetAWrap(t, r);
      assert false;
    }
  }

  lemma NotYetAWrap(t: Tables, r: nat)
    requires Inv(t) && Live(t, r) && t.records[r].created < WRAP
    ensures forall s :: !WrapsBack(t, r, s)
  {
    hide SessionId, WellTyped, KeysOk, TableOk, IdsOk;
    assert ListOk(t, r);
    forall s ensures !WrapsBack(t, r, s) {
      if s in t.records[r].sessions {
        assert Listed(t, r, s);
      }
    }
  }

  // ----- every operation -----

  /** The keys are the same, and so is what the records say of themselves. */
  ghost predicate SameKeys(t: Tables, t': Tables) {
    && t'.byId == t.byId && t'.byOwner == t.byOwner && |t'.records| == |t.records|
    && forall q | 0 <= q < |t.records| ::
         && t'.records[q].id == t.records[q].id && t'.records[q].owner == t.records[q].owner
         && t'.records[q].frozen == t.records[q].frozen
  }

  lemma SameKeysAreOk(t: Tables, t': Tables)
    requires SameKeys(t, t')
    ensures KeysOk(t) ==> KeysOk(t')
    ensures forall r :: Live(t, r) <==> Live(t', r)
  {
    assert forall r :: Live(t, r) <==> Live(t', r);
    if KeysOk(t) {
      forall k | k in t'.byId ensures IdKeyOk(t', k) {
        assert IdKeyOk(t, k);
      }
      forall o | o in t'.byOwner ensures OwnerKeyOk(t', o) {
        assert OwnerKeyOk(t, o);
      }
    }
  }

  lemma AddKeepsInv(t: Tables, arg: ExchangeArg)
    requires Inv(t) && CanAdd(t, arg)
    ensures Inv(Add(t, arg)) && Live(Add(t, arg), |t.records|)
  {
    hide SessionId, ListOk;
    var t' := Add(t, arg);
    assert t.nextId !in t.byId;
    assert Live(t', |t.records|);
    forall r | 0 <= r < |t'.records| && Live(t', r) ensures ListOk(t', r) {
      if r < |t.records| {
        assert Live(t, r);
        SameList(t, t', r);
      } else {
        NoList(t', r);
      }
    }
    AddKeepsKeys(t, arg);
    AddKeepsTable(t, arg);
  }

  lemma AddKeepsKeys(t: Tables, arg: ExchangeArg)
    requires Inv(t) && CanAdd(t, arg)
    ensures KeysOk(Add(t, arg)) && IdsOk(Add(t, arg)) && WellTyped(Add(t, arg))
  {
    hide TableOk, ListsOk, SessionId, WellTyped, IdsOk, IdKeyOk, OwnerKeyOk;
    var t' := Add(t, arg);
    AddKeepsIds(t, arg);
    AddKeepsTypes(t, arg);
    forall k | k in t'.byId ensures IdKeyOk(t', k) {
      AddKeepsIdKey(t, arg, k);
    }
    forall o | o in t'.byOwner ensures OwnerKeyOk(t', o) {
      AddKeepsOwnerKey(t, arg, o);
    }
  }

  lemma AddKeepsIdKey(t: Tables, arg: ExchangeArg, k: ClientId)
    requires CanAdd(t, arg) && k in Add(t, arg).byId && (k in t.byId ==> IdKeyOk(t, k))
    ensures IdKeyOk(Add(t, arg), k)
  {
  }

  lemma AddKeepsOwnerKey(t: Tables, arg: ExchangeArg, o: Owner)
    requires o in Add(t, arg).byOwner && (o in t.byOwner ==> OwnerKeyOk(t, o)) && IdsOk(t)
    ensures OwnerKeyOk(Add(t, arg), o)
  {
  }

  lemma AddKeepsIds(t: Tables, arg: ExchangeArg)
    requires IdsOk(t)
    ensures IdsOk(Add(t, arg))
  {
  }

  lemma AddKeepsTypes(t: Tables, arg: ExchangeArg)
    requires WellTyped(t)
    ensures WellTyped(Add(t, arg))
  {
  }

  lemma AddKeepsTable(t: Tables, arg: ExchangeArg)
    requires Inv(t) && CanAdd(t, arg)
    ensures TableOk(Add(t, arg))
  {
    hide ListsOk, ListOk, SessionId, WellTyped;
    var t' := Add(t, arg);
    forall k | k in t'.sessions ensures Live(t', t.made[t.sessions[k]].client) {
      assert Live(t, t.made[t.sessions[k]].client);
    }
  }

  /** A client whose sessions are as before in a table that still has them. */
  lemma SameList(t: Tables, t': Tables, r: nat)
    requires r < |t.records| && r < |t'.records| && ListOk(t, r)
    requires t'.records[r].sessions == t.records[r].sessions && t'.records[r].id == t.records[r].id
    requires t'.records[r].created >= t.records[r].created
    requires t.records[r].confirmed ==> t'.records[r].confirmed
    requires t.made <= t'.made
    requires forall s | s in t.records[r].sessions && s < |t.made| && t.made[s].id in t.sessions ::
               t.made[s].id in t'.sessions && t'.sessions[t.made[s].id] == t.sessions[t.made[s].id]
    ensures ListOk(t', r)
  {
    hide SessionId;
    forall s | s in t'.records[r].sessions ensures Listed(t', r, s) {
      assert Listed(t, r, s);
    }
  }

  lemma NoList(t: Tables, r: nat)
    requires r < |t.records| && t.records[r].sessions == []
    ensures ListOk(t, r)
  {
  }

  lemma RemoveKeepsInv(t: Tables, r: nat)
    requires Inv(t) && Live(t, r) && t.records[r].sessions == []
    ensures CanRemove(t, r) && Inv(Remove(t, r)) && t.records[r].owner !in Remove(t, r).byOwner
  {
    hide SessionId, ListOk;
    var t' := Remove(t, r);
    forall q | 0 <= q < |t'.records| && Live(t', q) ensures ListOk(t', q) {
      assert Live(t, q);
      SameList(t, t', q);
    }
    RemoveKeepsKeys(t, r);
    RemoveKeepsTable(t, r);
  }

  lemma RemoveKeepsKeys(t: Tables, r: nat)
    requires Inv(t) && Live(t, r)
    ensures CanRemove(t, r) && KeysOk(Remove(t, r)) && IdsOk(Remove(t, r)) && WellTyped(Remove(t, r))
  {
    hide TableOk, ListsOk, SessionId, Below, IdKeyOk, OwnerKeyOk, IdsOk;
    var t' := Remove(t, r);
    assert IdKeyOk(t, t.records[r].id);
    OwnerThere(t, r);
    forall k | k in t'.byId ensures IdKeyOk(t', k) {
      RemoveKeepsIdKey(t, r, k);
    }
    forall o | o in t'.byOwner ensures OwnerKeyOk(t', o) {
      RemoveKeepsOwnerKey(t, r, o);
    }
    RemoveKeepsIds(t, r);
  }

  lemma OwnerThere(t: Tables, r: nat)
    requires Live(t, r) && IdKeyOk(t, t.records[r].id)
    ensures t.records[r].owner in t.byOwner && t.byOwner[t.records[r].owner] == r
  {
  }

  lemma RemoveKeepsIdKey(t: Tables, r: nat, k: ClientId)
    requires Live(t, r) && IdKeyOk(t, t.records[r].id) && k in Remove(t, r).byId && IdKeyOk(t, k)
    ensures IdKeyOk(Remove(t, r), k)
  {
  }

  lemma RemoveKeepsOwnerKey(t: Tables, r: nat, o: Owner)
    requires Live(t, r) && o in Remove(t, r).byOwner && OwnerKeyOk(t, o)
    ensures OwnerKeyOk(Remove(t, r), o)
  {
  }

  lemma RemoveKeepsIds(t: Tables, r: nat)
    requires IdsOk(t) && r < |t.records|
    ensures IdsOk(Remove(t, r))
  {
  }

  lemma RemoveKeepsTable(t: Tables, r: nat)
    requires Inv(t) && Live(t, r) && t.records[r].sessions == []
    ensures TableOk(Remove(t, r))
  {
    hide ListsOk, ListOk, SessionId, WellTyped;
    var t' := Remove(t, r);
    forall k | k in t'.sessions ensures Live(t', t.made[t.sessions[k]].client) {
      assert Live(t, t.made[t.sessions[k]].client);
    }
  }

  function IdsOf(made: seq<Session>, list: seq<nat>): set<string>
    requires Below(list, |made|)
  {
    set i | 0 <= i < |list| :: made[list[i]].id
  }

  /** Distinct sessions that are all in the table leave it without a KeyError. */
  lemma {:induction false} DropsAll(sessions: map<string, nat>, made: seq<Session>, list: seq<nat>)
    requires Below(list, |made|) && InOrder(list)
    requires forall i | 0 <= i < |list| :: made[list[i]].id in sessions && sessions[made[list[i]].id] == list[i]
    ensures DropListed(sessions, made, list) == (sessions - IdsOf(made, list), true)
    decreases |list|
  {
    if list == [] {
      assert sessions - IdsOf(made, list) == sessions;
    } else {
      var id, rest := made[list[0]].id, list[1..];
      var fewer := sessions - {id};
      forall i | 0 <= i < |rest| ensures made[rest[i]].id in fewer && fewer[made[rest[i]].id] == rest[i] {
        assert rest[i] == list[i + 1] && sessions[made[list[i + 1]].id] == list[i + 1] && list[0] < list[i + 1];
      }
      DropsAll(fewer, made, rest);
      IdsOfMore(made, list);
      assert fewer - IdsOf(made, rest) == sessions - IdsOf(made, list);
    }
  }

  lemma IdsOfMore(made: seq<Session>, list: seq<nat>)
    requires Below(list, |made|) && list != []
    ensures IdsOf(made, list) == {made[list[0]].id} + IdsOf(made, list[1..])
  {
    forall i | 0 <= i < |list| ensures made[list[i]].id in {made[list[0]].id} + IdsOf(made, list[1..]) {
      if i > 0 {
        assert list[1..][i - 1] == list[i];
      }
    }
    forall i | 0 <= i < |list[1..]| ensures made[list[1..][i]].id in IdsOf(made, list) {
      assert list[1..][i] == list[i + 1];
    }
  }

  /** The reboot of a client takes exactly its own sessions out of the table. */
  lemma ClientRebootTakesItsOwn(t: Tables, r: nat)
    requires Inv(t) && Live(t, r)
    ensures ClientReboot(t, r).1
    ensures forall k :: k in ClientReboot(t, r).0.sessions <==> k in t.sessions && t.made[t.sessions[k]].client != r
    ensures forall k | k in ClientReboot(t, r).0.sessions :: ClientReboot(t, r).0.sessions[k] == t.sessions[k]
  {
    hide SessionId, KeysOk, IdsOk;
    var list := t.records[r].sessions;
    assert ListOk(t, r);
    forall i | 0 <= i < |list| ensures t.made[list[i]].id in t.sessions && t.sessions[t.made[list[i]].id] == list[i] {
      assert Listed(t, r, list[i]);
    }
    DropsAll(t.sessions, t.made, list);
    forall k | k in t.sessions ensures k in IdsOf(t.made, list) <==> t.made[t.sessions[k]].client == r {
      if t.made[t.sessions[k]].client == r {
        var i :| 0 <= i < |list| && list[i] == t.sessions[k];
      }
      if k in IdsOf(t.made, list) {
        var i :| 0 <= i < |list| && t.made[list[i]].id == k;
        assert Listed(t, r, list[i]);
      }
    }
  }

  lemma ClientRebootKeepsInv(t: Tables, r: nat)
    requires Inv(t) && Live(t, r)
    ensures var t' := ClientReboot(t, r).0;
            Inv(t') && Live(t', r) && t'.records[r].sessions == [] && t'.byOwner == t.byOwner
            && t'.records[r].owner == t.records[r].owner
  {
    hide SessionId, DropListed, ListOk;
    ClientRebootTakesItsOwn(t, r);
    var t' := ClientReboot(t, r).0;
    assert Below(t'.records[r].sessions, |t.made|);
    forall q | 0 <= q < |t'.records| && Live(t', q) ensures ListOk(t', q) {
      assert Live(t, q);
      if q == r {
        NoList(t', q);
      } else {
        OthersStay(t, r, q);
        SameList(t, t', q);
      }
    }
    ClientRebootKeepsRest(t, r);
  }

  lemma OthersStay(t: Tables, r: nat, q: nat)
    requires Inv(t) && Live(t, q) && r < |t.records| && r != q
    ensures forall s | s in t.records[q].sessions ::
              s < |t.made| && t.made[s].client != r && t.made[s].id in t.sessions && t.sessions[t.made[s].id] == s
  {
    hide SessionId, KeysOk, IdsOk, TableOk;
    assert ListOk(t, q);
    forall s | s in t.records[q].sessions
      ensures s < |t.made| && t.made[s].client != r && t.made[s].id in t.sessions && t.sessions[t.made[s].id] == s
    {
      assert Listed(t, q, s);
    }
  }

  lemma ClientRebootKeepsRest(t: Tables, r: nat)
    requires Inv(t) && r < |t.records| && Live(t, r)
    ensures var t' := ClientReboot(t, r).0; KeysOk(t') && IdsOk(t') && TableOk(t') && WellTyped(t')
  {
    hide SessionId, DropListed, ListOk, ListsOk, KeysOk, Live, TableOk;
    ClientRebootTakesItsOwn(t, r);
    var t' := ClientReboot(t, r).0;
    SameKeysAreOk(t, t');
    StillInTable(t, t');
  }

  lemma ServerRebootKeepsInv(t: Tables)
    requires Inv(t)
    ensures Inv(ServerReboot(t))
  {
    hide SessionId, ListOk;
  }

  lemma LetThroughKeepsInv(t: Tables, r: nat)
    requires Inv(t) && Live(t, r)
    ensures Inv(LetThrough(t, r)) && Live(LetThrough(t, r), r)
  {
    hide SessionId, ListOk, KeysOk, TableOk;
    var t' := LetThrough(t, r);
    forall q | 0 <= q < |t'.records| && Live(t', q) ensures ListOk(t', q) {
      assert Live(t, q);
      SameList(t, t', q);
    }
    IncMod(t.records[r].created);
    SameRecordsKeepKeys(t, t');
  }

  lemma ConfirmKeepsInv(t: Tables, r: nat)
    requires Inv(t) && Live(t, r)
    ensures Inv(Confirm(t, r)) && Live(Confirm(t, r), r)
  {
    hide SessionId, ListOk, KeysOk, TableOk;
    var t' := Confirm(t, r);
    forall q | 0 <= q < |t'.records| && Live(t', q) ensures ListOk(t', q) {
      assert Live(t, q);
      SameList(t, t', q);
    }
    SameRecordsKeepKeys(t, t');
  }

  /** Changes of records that leave their names and lists alone do not disturb the keys. */
  lemma SameRecordsKeepKeys(t: Tables, t': Tables)
    requires KeysOk(t) && TableOk(t) && SameKeys(t, t') && t'.made == t.made && t'.sessions == t.sessions
    requires forall q | 0 <= q < |t.records| :: t'.records[q].sessions == t.records[q].sessions
    ensures KeysOk(t') && TableOk(t')
  {
    hide KeysOk;
    SameKeysAreOk(t, t');
  }

  lemma AddSessionKeepsInv(t: Tables, r: nat)
    requires Inv(t) && Live(t, r) && t.records[r].confirmed && t.records[r].created >= 1
    requires NewSession(t, r).id !in t.sessions
    ensures Inv(AddSession(t, r))
  {
    hide SessionId, ListOk, KeysOk, TableOk, IdsOk;
    var t' := AddSession(t, r);
    forall q | 0 <= q < |t'.records| && Live(t', q) ensures ListOk(t', q) {
      assert Live(t, q);
      if q == r {
        OneMoreSession(t, r);
      } else {
        SameList(t, t', q);
      }
    }
    AddSessionKeepsRest(t, r);
  }

  lemma OneMoreSession(t: Tables, r: nat)
    requires Inv(t) && Live(t, r) && t.records[r].confirmed && t.records[r].created >= 1
    requires NewSession(t, r).id !in t.sessions
    ensures ListOk(AddSession(t, r), r)
  {
    hide SessionId, KeysOk, TableOk, WellTyped;
    var t' := AddSession(t, r);
    assert ListOk(t, r);
    var list := t.records[r].sessions;
    forall s | s in t'.records[r].sessions ensures Listed(t', r, s) {
      if s in list {
        assert Listed(t, r, s);
      }
    }
    forall i | 0 <= i < |list| ensures list[i] < |t.made| {
      assert Listed(t, r, list[i]);
    }
  }

  lemma AddSessionKeepsRest(t: Tables, r: nat)
    requires Inv(t) && Live(t, r) && NewSession(t, r).id !in t.sessions
    ensures var t' := AddSession(t, r); KeysOk(t') && IdsOk(t') && TableOk(t') && WellTyped(t')
  {
    hide SessionId, ListOk, ListsOk, TableOk, WellTyped, NewSession;
    var t' := AddSession(t, r);
    forall o | o in t'.byOwner ensures Live(t', t'.byOwner[o]) {
      assert Live(t, t.byOwner[o]);
    }
    AddSessionKeepsTable(t, r);
    AddSessionKeepsTypes(t, r);
  }

  lemma AddSessionKeepsTable(t: Tables, r: nat)
    requires TableOk(t) && Live(t, r) && NewSession(t, r).id !in t.sessions
    ensures TableOk(AddSession(t, r))
  {
    hide SessionId;
    var t' := AddSession(t, r);
    forall k | k in t.sessions ensures Live(t', t.made[t.sessions[k]].client) {
      assert Live(t, t.made[t.sessions[k]].client);
    }
  }

  lemma AddSessionKeepsTypes(t: Tables, r: nat)
    requires WellTyped(t) && r < |t.records|
    ensures WellTyped(AddSession(t, r))
  {
    hide SessionId;
    var t' := AddSession(t, r);
    forall q | 0 <= q < |t'.records| ensures Below(t'.records[q].sessions, |t'.made|) {
      assert Below(t.records[q].sessions, |t.made|);
    }
  }

  lemma {:induction false} WithoutExactly(list: seq<nat>, s: nat)
    requires InOrder(list)
    ensures InOrder(Without(list, s)) && forall x :: x in Without(list, s) <==> x in list && x != s
    decreases |list|
  {
    hide InOrder;
    if list != [] {
      var first, rest := list[0], list[1..];
      FirstIsLeast(list);
      WithoutExactly(rest, s);
      assert list == [first] + rest;
      if first != s {
        PutInFront(first, Without(rest, s));
      }
    }
  }

  lemma FirstIsLeast(list: seq<nat>)
    requires InOrder(list) && list != []
    ensures InOrder(list[1..]) && forall x | x in list[1..] :: list[0] < x
  {
    var rest := list[1..];
    assert forall i | 0 <= i < |rest| :: rest[i] == list[i + 1];
    forall i, j | 0 <= i < j < |rest| ensures rest[i] < rest[j] {
      assert list[i + 1] < list[j + 1];
    }
  }

  lemma PutInFront(first: nat, rest: seq<nat>)
    requires InOrder(rest) && forall x | x in rest :: first < x
    ensures InOrder([first] + rest)
  {
    var all := [first] + rest;
    forall i, j | 0 <= i < j < |all| ensures all[i] < all[j] {
      assert all[j] == rest[j - 1] && rest[j - 1] in rest;
      assert i > 0 ==> all[i] == rest[i - 1];
    }
  }

  lemma DestroyKeepsInv(t: Tables, sessionId: string)
    requires Inv(t) && sessionId in t.sessions
    ensures DestroySession(t, sessionId, true).1 == DestroyOk && Inv(DestroySession(t, sessionId, true).0)
  {
    hide SessionId, ListOk, KeysOk, IdsOk, Without;
    var s := t.sessions[sessionId];
    var r := t.made[s].client;
    var t' := DestroySession(t, sessionId, true).0;
    assert Live(t, r) && ListOk(t, r);
    forall q | 0 <= q < |t'.records| && Live(t', q) ensures ListOk(t', q) {
      assert Live(t, q);
      if q == r {
        OneSessionLess(t, sessionId);
      } else {
        OthersStay(t, r, q);
        SameList(t, t', q);
      }
    }
    DestroyKeepsRest(t, sessionId);
  }

  lemma OneSessionLess(t: Tables, sessionId: string)
    requires Inv(t) && sessionId in t.sessions
    ensures ListOk(DestroySession(t, sessionId, true).0, t.made[t.sessions[sessionId]].client)
  {
    hide SessionId, KeysOk, IdsOk, Without;
    var s := t.sessions[sessionId];
    var r := t.made[s].client;
    var t' := DestroySession(t, sessionId, true).0;
    assert ListOk(t, r);
    WithoutExactly(t.records[r].sessions, s);
    forall x | x in t'.records[r].sessions ensures Listed(t', r, x) {
      assert Listed(t, r, x);
    }
  }

  lemma DestroyKeepsRest(t: Tables, sessionId: string)
    requires Inv(t) && sessionId in t.sessions
    ensures var t' := DestroySession(t, sessionId, true).0; KeysOk(t') && IdsOk(t') && TableOk(t') && WellTyped(t')
  {
    hide SessionId, Without, KeysOk, ListOk, Live, ListsOk, Below;
    var t' := DestroySession(t, sessionId, true).0;
    DestroyLeavesListed(t, sessionId);
    SameKeysAreOk(t, t');
    SmallerListBelow(t, t');
    StillInTable(t, t');
  }

  /** A client lists what it did, but for the session that goes. */
  lemma DestroyLeavesListed(t: Tables, sessionId: string)
    requires Inv(t) && sessionId in t.sessions
    ensures var t' := DestroySession(t, sessionId, true).0;
            forall q, x | 0 <= q < |t.records| && x in t.records[q].sessions && x != t.sessions[sessionId] :: x in t'.records[q].sessions
  {
    hide SessionId, Without, KeysOk, IdsOk, ListOk, Listed;
    var r := t.made[t.sessions[sessionId]].client;
    assert ListOk(t, r);
    ListInOrder(t, r);
    WithoutExactly(t.records[r].sessions, t.sessions[sessionId]);
  }

  lemma ListInOrder(t: Tables, r: nat)
    requires r < |t.records| && ListOk(t, r)
    ensures InOrder(t.records[r].sessions)
  {
  }

  /** A smaller table, whose sessions their clients still list. */
  lemma StillInTable(t: Tables, t': Tables)
    requires TableOk(t) && t'.made == t.made && |t'.records| == |t.records|
    requires forall k | k in t'.sessions :: k in t.sessions && t'.sessions[k] == t.sessions[k]
    requires forall r :: Live(t, r) ==> Live(t', r)
    requires forall k | k in t'.sessions && t.sessions[k] < |t.made| && t.made[t.sessions[k]].client < |t.records| ::
               t.sessions[k] in t.records[t.made[t.sessions[k]].client].sessions
               ==> t.sessions[k] in t'.records[t.made[t.sessions[k]].client].sessions
    ensures TableOk(t')
  {
  }

  lemma SmallerListBelow(t: Tables, t': Tables)
    requires WellTyped(t) && t'.made == t.made && |t'.records| == |t.records|
    requires forall q | 0 <= q < |t.records| :: forall x | x in t'.records[q].sessions :: x in t.records[q].sessions
    ensures forall q | 0 <= q < |t'.records| :: Below(t'.records[q].sessions, |t'.made|)
  {
    forall q | 0 <= q < |t'.records| ensures Below(t'.records[q].sessions, |t'.made|) {
      assert Below(t.records[q].sessions, |t.made|);
      forall i | 0 <= i < |t'.records[q].sessions| ensures t'.records[q].sessions[i] < |t.made| {
        assert t'.records[q].sessions[i] in t.records[q].sessions;
      }
    }
  }

  // ----- every step and every run -----

  lemma ReplaceKeepsInv(t: Tables, r: nat, arg: ExchangeArg)
    requires Inv(t) && Live(t, r) && t.records[r].sessions == [] && t.records[r].owner == arg.owner
    ensures Inv(Replace(t, r, arg).0)
    ensures Replace(t, r, arg) == (Add(Remove(t, r), arg), ExchangeReply(Add(Remove(t, r), arg), |t.records|))
  {
    hide Inv, Add, Remove, ExchangeReply;
    RemoveKeepsInv(t, r);
    AddKeepsInv(Remove(t, r), arg);
    RemoveKeepsSize(t, r);
  }

  lemma RemoveKeepsSize(t: Tables, r: nat)
    requires r < |t.records|
    ensures |Remove(t, r).records| == |t.records|
  {
  }

  /** The owner's key leads to a live client of that name. */
  lemma OwnerIsLive(t: Tables, owner: Owner)
    requires Inv(t) && owner in t.byOwner
    ensures Live(t, t.byOwner[owner]) && t.records[t.byOwner[owner]].owner == owner
    ensures !t.records[t.byOwner[owner]].confirmed ==> t.records[t.byOwner[owner]].sessions == []
  {
    hide SessionId, IdsOk, TableOk;
    assert ListOk(t, t.byOwner[owner]);
  }

  lemma ExchangeKeepsInv(t: Tables, arg: ExchangeArg, denied: bool)
    requires Inv(t)
    ensures Inv(ExchangeId(t, arg, denied).0) && ExchangeId(t, arg, denied).1 != ServerFault
  {
    hide KeysOk, IdsOk, TableOk, ListsOk, Replace, ClientReboot;
    if arg.owner !in t.byOwner {
      if !arg.update {
        AddKeepsInv(t, arg);
      }
    } else {
      var r := t.byOwner[arg.owner];
      OwnerIsLive(t, arg.owner);
      if !t.records[r].confirmed {
        ReplaceKeepsInv(t, r, arg);
      } else {
        ClientRebootKeepsInv(t, r);
        ClientRebootTakesItsOwn(t, r);
        ReplaceKeepsInv(ClientReboot(t, r).0, r, arg);
      }
    }
  }

  /** The session that a CREATE_SESSION makes would get the id of a live one. */
  ghost predicate Collides(t: Tables, ev: Event) {
    && ev.Create? && ev.clientId in t.byId && t.byId[ev.clientId] < |t.records|
    && Taken(t, t.byId[ev.clientId])
  }

  lemma CreateKeepsInv(t: Tables, clientId: ClientId, seqid: nat, principal: Principal, denied: bool)
    requires Inv(t) && !Collides(t, Create(clientId, seqid, principal, denied))
    ensures Inv(CreateSession(t, clientId, seqid, principal, denied).0)
    ensures CreateSession(t, clientId, seqid, principal, denied).1 != ServerFault
  {
    hide IdsOk, TableOk, ListsOk, SessionId;
    if clientId in t.byId && !denied {
      var r := t.byId[clientId];
      assert Live(t, r);
      LetThroughKeepsInv(t, r);
      ConfirmKeepsInv(LetThrough(t, r), r);
      if CheckSeqid(t.records[r].seqid, seqid) == New {
        AddSessionKeepsInv(Confirm(LetThrough(t, r), r), r);
      }
    }
  }

  /** No operation meets an exception it does not expect: no key is missing when it is deleted, no owner is
      entered twice, no session is missing from its client's list. */
  lemma StepKeepsInv(t: Tables, ev: Event)
    requires Inv(t) && !Collides(t, ev)
    ensures Inv(Next(t, ev).0) && Next(t, ev).1 != ServerFault
  {
    hide KeysOk, IdsOk, TableOk, ListsOk, ExchangeId, CreateSession, Collides;
    match ev
    case Exchange(arg, denied) => ExchangeKeepsInv(t, arg, denied);
    case Create(clientId, seqid, principal, denied) => CreateKeepsInv(t, clientId, seqid, principal, denied);
    case Destroy(sessionId, inPlace) =>
      if sessionId in t.sessions {
        DestroyKeepsInv(t, sessionId);
      }
    case Reboot => ServerRebootKeepsInv(t);
  }

  // ----- the operations, on the tables in place -----

  class Server {
    var records: seq<Client>
    var byId: map<ClientId, nat>
    var byOwner: map<Owner, nat>
    var nextId: ClientId
    var made: seq<Session>
    var sessions: map<string, nat>

    function Value(): Tables
      reads this
    {
      Tables(records, byId, byOwner, nextId, made, sessions)
    }

    constructor ()
      ensures Value() == EMPTY && Inv(Value())
    {
      records, byId, byOwner, nextId, made, sessions := [], map[], map[], 0, [], map[];
    }

    /** ClientList.add; None is the RuntimeError. */
    method AddClient(arg: ExchangeArg) returns (r: Option<nat>)
      modifies this
      ensures r == if CanAdd(old(Value()), arg) then Some(|old(records)|) else None
      ensures Value() == if r.Some? then Add(old(Value()), arg) else old(Value())
    {
      var c := Client(nextId, arg.owner, arg.verifier, arg.principal, false, false, 0, [], 0);
      if c.owner in byOwner {
        return None;
      }
      nextId := nextId + 1;
      r := Some(|records|);
      records := records + [c];
      byOwner := byOwner[c.owner := r.value];
      byId := byId[c.id := r.value];
    }

    /** ClientList.remove by client id; false is a KeyError. */
    method RemoveClient(id: ClientId) returns (ok: bool)
      requires WellTyped(Value())
      modifies this
      ensures ok == (id in old(byId) && old(records)[old(byId)[id]].id == id && old(records)[old(byId)[id]].owner in old(byOwner))
      ensures Value() == if ok then Remove(old(Value()), old(byId)[id]) else old(Value())
    {
      if id !in byId {
        return false;
      }
      var r := byId[id];
      var c := records[r];
      if c.id != id || c.owner !in byOwner {
        return false;
      }
      byId := byId - {id};
      byOwner := byOwner - {c.owner};
      records := records[r := c.(frozen := true)];
      ok := true;
    }

    /** client_reboot; false is a KeyError. */
    method RebootClient(r: nat) returns (ok: bool)
      requires WellTyped(Value()) && r < |records|
      modifies this
      ensures (Value(), ok) == ClientReboot(old(Value()), r)
    {
      var list := records[r].sessions;
      assert list[0..] == list;
      var i := 0;
      while i < |list|
        invariant i <= |list| && Below(list[i..], |made|)
        invariant Value() == old(Value()).(sessions := sessions)
        invariant DropListed(sessions, made, list[i..]) == DropListed(old(sessions), made, list)
      {
        assert list[i..][0] == list[i] && list[i..][1..] == list[i + 1..];
        if made[list[i]].id !in sessions {
          return false;
        }
        sessions := sessions - {made[list[i]].id};
        i := i + 1;
      }
      records := records[r := records[r].(seqid := 0, created := 0, sessions := [])];
      ok := true;
    }

    method ReplaceClient(r: nat, arg: ExchangeArg) returns (reply: Reply)
      requires Inv(Value()) && Live(Value(), r) && records[r].sessions == [] && records[r].owner == arg.owner
      modifies this
      ensures (Value(), reply) == Replace(old(Value()), r, arg)
    {
      hide KeysOk, IdsOk, TableOk, ListsOk, Remove;
      RemoveKeepsInv(Value(), r);
      RemoveKeepsSize(Value(), r);
      var removed := RemoveClient(records[r].id);
      var added := AddClient(arg);
      reply := Exchanged(added.value);
    }

    function Exchanged(r: nat): Reply
      requires r < |records|
      reads this
    {
      ExchangeReply(Value(), r)
    }

    /** op_exchange_id past the checks of its arguments. */
    method Exchange(arg: ExchangeArg, denied: bool) returns (reply: Reply)
      requires Inv(Value())
      modifies this
      ensures (Value(), reply) == ExchangeId(old(Value()), arg, denied) && Inv(Value()) && reply != ServerFault
    {
      hide KeysOk, IdsOk, TableOk, ListsOk, Replace, ClientReboot, SessionId;
      ExchangeKeepsInv(Value(), arg, denied);
      if arg.owner !in byOwner {
        if arg.update {
          return NoEnt;
        }
        var added := AddClient(arg);
        return Exchanged(added.value);
      }
      var r := byOwner[arg.owner];
      var c := records[r];
      OwnerIsLive(Value(), arg.owner);
      if !c.confirmed {
        if arg.update {
          return NoEnt;
        }
        reply := ReplaceClient(r, arg);
      } else if denied {
        return Denied;
      } else if arg.update {
        if c.verifier != arg.verifier {
          return NotSame;
        } else if c.principal != arg.principal {
          return Perm;
        }
        return Exchanged(r);
      } else if c.principal != arg.principal {
        return ClidInuse;
      } else if c.verifier != arg.verifier {
        ClientRebootKeepsInv(Value(), r);
        ClientRebootTakesItsOwn(Value(), r);
        var ok := RebootClient(r);
        reply := ReplaceClient(r, arg);
      } else {
        return Exchanged(r);
      }
    }

    /** op_create_session; what becomes of the connection is left out. */
    method Create(clientId: ClientId, seqid: nat, principal: Principal, denied: bool) returns (reply: Reply)
      requires WellTyped(Value())
      modifies this
      ensures (Value(), reply) == CreateSession(old(Value()), clientId, seqid, principal, denied)
    {
      hide SessionId;
      if clientId !in byId {
        return StaleClientId;
      }
      if denied {
        return Denied;
      }
      var r := byId[clientId];
      var verdict := CheckSeqid(records[r].seqid, seqid);
      if verdict == Replay {
        return Replayed;
      } else if verdict == Misordered {
        return SeqMisordered;
      }
      records := records[r := records[r].(seqid := Inc(records[r].seqid), created := records[r].created + 1)];
      if !records[r].confirmed {
        if principal != records[r].principal {
          return ClidInuse;
        }
      }
      records := records[r := records[r].(confirmed := true)];
      var session := Session(r, SessionId(records[r].id, records[r].seqid), records[r].created);
      made := made + [session];
      records := records[r := records[r].(sessions := records[r].sessions + [|made| - 1])];
      sessions := sessions[session.id := |made| - 1];
      reply := CreateOk(session.id, seqid);
    }

    /** op_destroy_session. */
    method Destroy(sessionId: string, inPlace: bool) returns (reply: Reply)
      requires WellTyped(Value())
      modifies this
      ensures (Value(), reply) == DestroySession(old(Value()), sessionId, inPlace)
    {
      if sessionId !in sessions {
        return BadSession;
      }
      if !inPlace {
        return Inval;
      }
      var s := sessions[sessionId];
      var r := made[s].client;
      sessions := sessions - {sessionId};
      if s !in records[r].sessions {
        return ServerFault;
      }
      records := records[r := records[r].(sessions := Without(records[r].sessions, s))];
      reply := DestroyOk;
    }

    method Reboot()
      modifies this`sessions, this`byId, this`byOwner
      ensures Value() == ServerReboot(old(Value()))
      ensures sessions == map[] && byId == map[] && byOwner == map[] && nextId == old(nextId)
    {
      sessions := map[];
      byId, byOwner := map[], map[];
    }
  }
}
