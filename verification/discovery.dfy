/** From one request to the next: what a client wrote is what another client discovers. */
module Discovery {
  import opened Entities
  import opened Listing
  import opened Statements
  import opened Store
  import opened DiscoveryCache
  import opened Handlers
  import opened Coherence

  /** What a plain GET at t answers, once admitted. */
  ghost function PlainGet(cfg: Config, s: State, t: int): seq<RelayDTO> {
    Step(cfg, s, t, GetRelays(NO_FILTER)).response.relays
  }

  /** The request names relay id to write or remove it. */
  predicate Names(req: Request, id: string) {
    match req
    case RegisterRelay(named, _, _, _, _, _, _) => named == id
    case PutHeartbeat(named, _, _, _, _, _) => named == id
    case Heartbeat(named, _) => named == id
    case RemoveRelay(named) => named == id
    case _ => false
  }

  // ----- a written relay stays as written -----

  /** The relay is active, in the window at t, and has exactly this row. */
  predicate HasRow(cfg: Config, db: Db, t: int, row: Relay) {
    && FindRelay(db, row.nodeId) == Some(row)
    && row.status == RelayActive && row.lastSeenAt >= t - TtlWindow(cfg.relayTTL)
  }

  lemma CleanupKeepsRow(cfg: Config, s: State, now: int, t: int, row: Relay)
    requires HasRow(cfg, s.db, t, row) && now <= t
    ensures HasRow(cfg, Step(cfg, s, now, CleanupRelays).state.db, t, row)
  {
    var marked := Apply(s.db, MarkStale(cfg.relayTTL, now)).db;
    StatementsAreRowwise(s.db, MarkStale(cfg.relayTTL, now), row.nodeId);
    StatementsAreRowwise(marked, PurgeStale(cfg.relayTTL, now), row.nodeId);
  }

  lemma OtherRequestKeepsRow(cfg: Config, s: State, now: int, req: Request, id: string)
    requires Tidy(s.db) && !req.CleanupRelays? && !Names(req, id)
    ensures FindRelay(Step(cfg, s, now, req).state.db, id) == FindRelay(s.db, id)
  {
  }

  lemma UnnamedKeepsRow(cfg: Config, s: State, a: Arrival, t: int, row: Relay)
    requires Tidy(s.db) && HasRow(cfg, s.db, t, row) && a.now <= t && !Names(a.req, row.nodeId)
    ensures HasRow(cfg, Served(cfg, s, a).db, t, row)
  {
    if a.req.CleanupRelays? {
      CleanupKeepsRow(cfg, s, a.now, t, row);
    } else {
      OtherRequestKeepsRow(cfg, s, a.now, a.req, row.nodeId);
    }
  }

  lemma {:induction false} KeepsRowThrough(cfg: Config, run: seq<Arrival>, from: nat, t: int, row: Relay)
    requires from <= |run| && HasRow(cfg, StateAfter(cfg, run[..from]).db, t, row)
    requires forall i :: from <= i < |run| ==> run[i].now <= t && !Names(run[i].req, row.nodeId)
    ensures HasRow(cfg, StateAfter(cfg, run).db, t, row)
    decreases |run|
  {
    if from == |run| {
      assert run[..from] == run;
    } else {
      var front := run[..|run| - 1];
      assert front[..from] == run[..from];
      KeepsRowThrough(cfg, front, from, t, row);
      AlwaysTidy(cfg, front);
      UnnamedKeepsRow(cfg, StateAfter(cfg, front), run[|run| - 1], t, row);
    }
  }

  // ----- and is discovered -----

  lemma {:induction false} KeptIfFresh(list: seq<RelayDTO>, cutoff: int, d: RelayDTO)
    requires d.lastSeen >= cutoff
    ensures d in list <==> d in KeepFresh(list, cutoff)
  {
    if list != [] {
      KeptIfFresh(list[1..], cutoff, d);
      assert list == [list[0]] + list[1..];
    }
  }

  /** The table lists relay d at t, and the answer holds it exactly if fewer relays than the limit
      are listed before it. */
  predicate OnPage(cfg: Config, db: Db, t: int, answer: seq<RelayDTO>, d: RelayDTO) {
    var m := ListedRows(db, t, cfg.relayTTL, NO_FILTER);
    d.nodeId in m && (d in answer <==> |Ahead(m, d.nodeId)| < ListLimit(cfg.maxRelays))
  }

  lemma FreshRowIsAnswered(cfg: Config, db: Db, t: int, answer: seq<RelayDTO>, row: Relay)
    requires Tidy(db) && HasRow(cfg, db, t, row)
    requires KeepFresh(answer, t - TtlWindow(cfg.relayTTL)) == LiveList(cfg, db, t)
    ensures OnPage(cfg, db, t, answer, ToDTO(row))
  {
    KeptIfFresh(answer, t - TtlWindow(cfg.relayTTL), ToDTO(row));
    ListedIff(cfg, db, row.nodeId, t);
  }

  /** In every run, cached or not. */
  lemma RowIsDiscovered(cfg: Config, run: seq<Arrival>, t: int, row: Relay, s: State)
    requires InOrder(run, t) && s == StateAfter(cfg, run) && HasRow(cfg, s.db, t, row)
    ensures OnPage(cfg, s.db, t, PlainGet(cfg, s, t), ToDTO(row))
  {
    GetAnswersLive(cfg, run, t);
    AlwaysTidy(cfg, run);
    FreshRowIsAnswered(cfg, s.db, t, PlainGet(cfg, s, t), row);
  }

  /** The run up to and with arrival k, which wrote the row, and no arrival after it that names the
      relay: every GET in the window finds it as written. */
  lemma WrittenRelayIsDiscovered(cfg: Config, run: seq<Arrival>, k: nat, t: int, row: Relay)
    requires InOrder(run, t) && k < |run| && HasRow(cfg, StateAfter(cfg, run[..k + 1]).db, t, row)
    requires forall i :: k < i < |run| ==> !Names(run[i].req, row.nodeId)
    ensures
      var s := StateAfter(cfg, run);
      OnPage(cfg, s.db, t, PlainGet(cfg, s, t), ToDTO(row))
  {
    KeepsRowThrough(cfg, run, k + 1, t, row);
    RowIsDiscovered(cfg, run, t, row, StateAfter(cfg, run));
  }

  lemma Takes(cfg: Config, run: seq<Arrival>, k: nat)
    requires k < |run|
    ensures StateAfter(cfg, run[..k + 1]) == Served(cfg, StateAfter(cfg, run[..k]), run[k])
  {
    assert run[..k + 1] == run[..k] + [run[k]];
    OneMore(cfg, run[..k], run[k]);
  }

  /** What POST /relays writes for this node. */
  function Posted(node: Node, req: Request, now: int): RelayDTO
    requires req.RegisterRelay?
  {
    var storage := if req.storage.Some? then req.storage.value else Storage(node.reservedGB, node.availableGB);
    RelayDTO(req.nodeId, req.url, req.fingerprint, storage.reservedGB, storage.availableGB,
             if req.replicationFactor == 0 then 1 else req.replicationFactor,
             req.version, 0, req.capabilities, now)
  }

  lemma PostWritesRow(cfg: Config, s: State, a: Arrival, t: int) returns (row: Relay)
    requires Tidy(s.db) && Authenticated(cfg, a.caller) && a.req.RegisterRelay? && FindNode(s.db, a.req.nodeId).Some?
    requires a.now >= t - TtlWindow(cfg.relayTTL)
    ensures HasRow(cfg, Served(cfg, s, a).db, t, row) && ToDTO(row) == Posted(s.db.nodes[a.req.nodeId], a.req, a.now)
    ensures Serve(cfg, s, a.caller, a.now, a.req).response == RelayBody(ToDTO(row))
  {
    row := Served(cfg, s, a).db.relays[a.req.nodeId];
  }

  /** In every run, once POST /relays succeeded and until another request names the relay, every GET
      within the window finds the posted fields, storage falling back to the node's and a
      replication factor of 0 becoming 1, exactly if fewer relays than the limit precede it. */
  lemma RegisteredRelayIsDiscovered(cfg: Config, run: seq<Arrival>, k: nat, t: int)
    requires InOrder(run, t) && k < |run| && t <= run[k].now + TtlWindow(cfg.relayTTL)
    requires run[k].req.RegisterRelay? && Authenticated(cfg, run[k].caller)
    requires FindNode(StateAfter(cfg, run[..k]).db, run[k].req.nodeId).Some?
    requires forall i :: k < i < |run| ==> !Names(run[i].req, run[k].req.nodeId)
    ensures
      var before, a, s := StateAfter(cfg, run[..k]), run[k], StateAfter(cfg, run);
      var d := Posted(before.db.nodes[a.req.nodeId], a.req, a.now);
      && Serve(cfg, before, a.caller, a.now, a.req).response == RelayBody(d)
      && OnPage(cfg, s.db, t, PlainGet(cfg, s, t), d)
  {
    AlwaysTidy(cfg, run[..k]);
    var row := PostWritesRow(cfg, StateAfter(cfg, run[..k]), run[k], t);
    Takes(cfg, run, k);
    WrittenRelayIsDiscovered(cfg, run, k, t, row);
  }

  /** What PUT /v1/relays/{id} makes of this row. */
  function Reported(was: Relay, req: Request, now: int): RelayDTO
    requires req.PutHeartbeat?
  {
    RelayDTO(req.id, req.url, req.fingerprint, req.reported.reservedGB, req.reported.availableGB,
             was.replicationFactor, req.version, req.uptimeSecs, was.capabilities, now)
  }

  lemma PutWritesRow(cfg: Config, s: State, a: Arrival, t: int) returns (row: Relay)
    requires Tidy(s.db) && a.req.PutHeartbeat? && Admitted(cfg, s.db, a.caller, a.req) && a.req.id in s.db.relays
    requires a.now >= t - TtlWindow(cfg.relayTTL)
    ensures HasRow(cfg, Served(cfg, s, a).db, t, row) && ToDTO(row) == Reported(s.db.relays[a.req.id], a.req, a.now)
    ensures Serve(cfg, s, a.caller, a.now, a.req).response == RelayBody(ToDTO(row))
  {
    row := Served(cfg, s, a).db.relays[a.req.id];
  }

  /** Likewise for the reported fields after PUT /v1/relays/{id}, with the capabilities and the
      replication factor the relay had. */
  lemma ReportedRelayIsDiscovered(cfg: Config, run: seq<Arrival>, k: nat, t: int)
    requires InOrder(run, t) && k < |run| && t <= run[k].now + TtlWindow(cfg.relayTTL)
    requires run[k].req.PutHeartbeat? && Admitted(cfg, StateAfter(cfg, run[..k]).db, run[k].caller, run[k].req)
    requires run[k].req.id in StateAfter(cfg, run[..k]).db.relays
    requires forall i :: k < i < |run| ==> !Names(run[i].req, run[k].req.id)
    ensures
      var before, a, s := StateAfter(cfg, run[..k]), run[k], StateAfter(cfg, run);
      var d := Reported(before.db.relays[a.req.id], a.req, a.now);
      && Serve(cfg, before, a.caller, a.now, a.req).response == RelayBody(d)
      && OnPage(cfg, s.db, t, PlainGet(cfg, s, t), d)
  {
    AlwaysTidy(cfg, run[..k]);
    var row := PutWritesRow(cfg, StateAfter(cfg, run[..k]), run[k], t);
    Takes(cfg, run, k);
    WrittenRelayIsDiscovered(cfg, run, k, t, row);
  }

  // ----- a removed relay is not discovered -----

  predicate Lacks(list: seq<RelayDTO>, id: string) {
    forall i :: 0 <= i < |list| ==> list[i].nodeId != id
  }

  /** Neither the table nor the cached page has the relay. */
  predicate Absent(s: State, id: string) {
    id !in s.db.relays && (s.cache.hasCached ==> Lacks(s.cache.relays, id))
  }

  lemma AbsentFromList(cfg: Config, db: Db, t: int, id: string)
    requires Tidy(db) && id !in db.relays
    ensures Lacks(LiveList(cfg, db, t), id)
  {
    var rows := ListedRows(db, t, cfg.relayTTL, NO_FILTER);
    forall i | 0 <= i < |LiveList(cfg, db, t)| ensures LiveList(cfg, db, t)[i].nodeId != id {
      var k := PlaceHolder(rows, i);
    }
  }

  /** A cached page is the one cached before or the live list. */
  lemma CachedIsOldOrLive(cfg: Config, s: State, a: Arrival)
    ensures
      var c := Served(cfg, s, a).cache;
      !c.hasCached || c == s.cache || c.relays == LiveList(cfg, s.db, a.now)
  {
    if Served(cfg, s, a).cache.hasCached && Admitted(cfg, s.db, a.caller, a.req)
       && !a.req.GetRelays? && !a.req.CleanupRelays? {
      RelaysUntouched(cfg, s, a.now, a.req);
    }
  }

  lemma OnlyRegistrationAdds(cfg: Config, s: State, a: Arrival, id: string)
    requires Tidy(s.db) && id !in s.db.relays && !(a.req.RegisterRelay? && a.req.nodeId == id)
    ensures id !in Served(cfg, s, a).db.relays
  {
    if !a.req.CleanupRelays? && !Names(a.req, id) {
      OtherRequestKeepsRow(cfg, s, a.now, a.req, id);
    }
  }

  lemma StaysAbsent(cfg: Config, s: State, a: Arrival, s': State, id: string)
    requires Tidy(s.db) && Absent(s, id) && !(a.req.RegisterRelay? && a.req.nodeId == id) && s' == Served(cfg, s, a)
    ensures Absent(s', id)
  {
    AbsentFromList(cfg, s.db, a.now, id);
    CachedIsOldOrLive(cfg, s, a);
    OnlyRegistrationAdds(cfg, s, a, id);
  }

  lemma AbsentNotAnswered(cfg: Config, s: State, t: int, d: RelayDTO)
    requires Tidy(s.db) && Absent(s, d.nodeId)
    ensures d !in PlainGet(cfg, s, t)
  {
    AbsentFromList(cfg, s.db, t, d.nodeId);
  }

  lemma RemovalLeavesAbsent(cfg: Config, s: State, a: Arrival, id: string)
    requires a.req == RemoveRelay(id) && Authenticated(cfg, a.caller) && id in s.db.relays
    ensures Absent(Served(cfg, s, a), id)
  {
  }

  lemma {:induction false} AbsentThrough(cfg: Config, run: seq<Arrival>, from: nat, id: string)
    requires from <= |run| && Absent(StateAfter(cfg, run[..from]), id)
    requires forall i :: from <= i < |run| ==> !(run[i].req.RegisterRelay? && run[i].req.nodeId == id)
    ensures Absent(StateAfter(cfg, run), id)
    decreases |run|
  {
    if from == |run| {
      assert run[..from] == run;
    } else {
      var front := run[..|run| - 1];
      assert front[..from] == run[..from];
      AbsentThrough(cfg, front, from, id);
      AlwaysTidy(cfg, front);
      StaysAbsent(cfg, StateAfter(cfg, front), run[|run| - 1], StateAfter(cfg, run), id);
    }
  }

  /** In every run, once DELETE /relays/{id} succeeded and until the relay registers again, no GET
      returns it, whenever it comes. */
  lemma RemovedRelayIsNotDiscovered(cfg: Config, run: seq<Arrival>, k: nat, t: int, d: RelayDTO)
    requires k < |run| && run[k].req == RemoveRelay(d.nodeId) && Authenticated(cfg, run[k].caller)
    requires d.nodeId in StateAfter(cfg, run[..k]).db.relays
    requires forall i :: k < i < |run| ==> !(run[i].req.RegisterRelay? && run[i].req.nodeId == d.nodeId)
    ensures d !in PlainGet(cfg, StateAfter(cfg, run), t)
  {
    Takes(cfg, run, k);
    RemovalLeavesAbsent(cfg, StateAfter(cfg, run[..k]), run[k], d.nodeId);
    AbsentThrough(cfg, run, k + 1, d.nodeId);
    AlwaysTidy(cfg, run);
    AbsentNotAnswered(cfg, StateAfter(cfg, run), t, d);
  }

  /** A node created by POST /v1/nodes/register can be looked up with the registered fields, and
      registering its key again, with whatever else in the request, returns the same node. */
  lemma RegistrationIsIdempotent(cfg: Config, s: State, caller: Caller, now: int, req: Request, again: Arrival)
    requires Tidy(s.db) && req.RegisterNode? && again.req.RegisterNode? && again.req.hash == req.hash
    requires Authenticated(cfg, again.caller)
    requires Serve(cfg, s, caller, now, req).response.NodeCreated?
    ensures
      var s' := Serve(cfg, s, caller, now, req).state;
      var storage := if req.storage.Some? then req.storage.value else Storage(0, 0);
      && FindNode(s'.db, req.freshId)
           == Some(Node(req.freshId, req.hash, req.name, storage.reservedGB, storage.availableGB, "", req.meshURL,
                        NodeActive, now, now, None, None))
      && Serve(cfg, s, caller, now, req).response == NodeCreated(req.freshId, now)
      && Serve(cfg, s', again.caller, again.now, again.req) == Reply(s', NodeExists(req.freshId, now))
  {
    var s' := Serve(cfg, s, caller, now, req).state;
    TidyStep(s.db, InsertNode(WithDefaults(NewNode(req, now), now)));
    KeyLookupUnique(s'.db, req.hash, KeyHolder(s'.db, req.hash), FindNode(s'.db, req.freshId));
  }
}
