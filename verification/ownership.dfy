/** Whose relay, and whose node, a request that presents a node's key can write. */
module Ownership {
  import opened Entities
  import opened Statements
  import opened Store
  import opened Handlers
  import opened Coherence

  /** The request registers, refreshes or removes relay `id` on one of the routes that look only
      at the relay it names. */
  predicate Reaches(db: Db, req: Request, id: string) {
    match req
    case RegisterRelay(named, _, _, _, _, _, _) => named == id && FindNode(db, id).Some?
    case Heartbeat(named, _) => named == id && id in db.relays
    case RemoveRelay(named) => named == id && id in db.relays
    case _ => false
  }

  /** What a request that reaches relay `id` makes of its row. */
  predicate ReachedRow(after: Option<Relay>, req: Request, now: int) {
    if req.RemoveRelay? then after == None
    else after.Some? && after.value.status == RelayActive && after.value.lastSeenAt == now
  }

  /** A node's key, on a relay that is not its node's: POST, PUT and DELETE /relays write that
      relay's row whenever they find what they look for, and no other request does. */
  lemma NodeKeyReaches(cfg: Config, s: State, hash: string, now: int, req: Request, other: string)
    requires Tidy(s.db) && cfg.requireAuth && !IsJob(req)
    requires other in s.db.nodes ==> s.db.nodes[other].authKeyHash != hash
    ensures
      var before, after := FindRelay(s.db, other), FindRelay(Serve(cfg, s, NodeKey(hash), now, req).state.db, other);
      && (Reaches(s.db, req, other) ==> ReachedRow(after, req, now))
      && (!Reaches(s.db, req, other) ==> after == before)
  {
  }

  /** Relay `id` has this row, or none, throughout the run. */
  ghost predicate KeepsRow(cfg: Config, s: State, run: seq<Arrival>, id: string, row: Option<Relay>)
    decreases |run|
  {
    FindRelay(s.db, id) == row && (run != [] ==> KeepsRow(cfg, Served(cfg, s, run[0]), run[1..], id, row))
  }

  ghost predicate ReachedBy(cfg: Config, s: State, run: seq<Arrival>, id: string)
    decreases |run|
  {
    run != [] && (Reaches(s.db, run[0].req, id) || ReachedBy(cfg, Served(cfg, s, run[0]), run[1..], id))
  }

  /** A request that presents a key other than the node's own. */
  predicate FromOther(a: Arrival, hash: string) {
    !IsJob(a.req) && a.caller.NodeKey? && a.caller.hash != hash
  }

  lemma ServedKeepsNode(cfg: Config, s: State, a: Arrival, id: string)
    requires id in s.db.nodes && !IsJob(a.req)
    ensures id in Served(cfg, s, a).db.nodes
    ensures Served(cfg, s, a).db.nodes[id].authKeyHash == s.db.nodes[id].authKeyHash
  {
  }

  /** Through any run of requests that present other nodes' keys, a node's relay stays as it is
      exactly if none of them reaches it: PUT /v1/relays/{id} never does. */
  lemma {:induction false} OtherKeysLeaveRelayIff(cfg: Config, s: State, run: seq<Arrival>, id: string)
    requires Tidy(s.db) && cfg.requireAuth && id in s.db.nodes
    requires forall a :: a in run ==> FromOther(a, s.db.nodes[id].authKeyHash)
    requires id in s.db.relays ==> forall a :: a in run ==> s.db.relays[id].lastSeenAt < a.now
    ensures KeepsRow(cfg, s, run, id, FindRelay(s.db, id)) <==> !ReachedBy(cfg, s, run, id)
    decreases |run|
  {
    if run != [] {
      var a, s' := run[0], Served(cfg, s, run[0]);
      assert a in run && forall b :: b in run[1..] ==> b in run;
      NodeKeyReaches(cfg, s, a.caller.hash, a.now, a.req, id);
      if Reaches(s.db, a.req, id) {
        assert FindRelay(s'.db, id) != FindRelay(s.db, id);
      } else {
        ServedKeepsNode(cfg, s, a, id);
        ServedKeepsTidy(cfg, s, a);
        OtherKeysLeaveRelayIff(cfg, s', run[1..], id);
      }
    }
  }

  lemma NewKeyIsCreated(cfg: Config, s: State, hash: string, id: string, t: int)
    requires id !in s.db.nodes && forall i :: i in s.db.nodes ==> s.db.nodes[i].authKeyHash != hash
    ensures
      var a := NodeArrival(hash, id, t);
      Served(cfg, s, a).db == s.db.(nodes := s.db.nodes[id := WithDefaults(NewNode(a.req, t), t)])
  {
    assert KeyHolder(s.db, hash) == None;
  }

  /** Nodes n and m with their own keys, and n's relay. */
  predicate TwoNodes(db: Db, n: string, h: string, m: string, g: string) {
    && n in db.nodes && db.nodes[n].authKeyHash == h && Live(db.nodes[n])
    && m in db.nodes && db.nodes[m].authKeyHash == g && Live(db.nodes[m])
    && n in db.relays
  }

  /** It does happen: after three requests of the operator, the key of one node removes the
      other node's relay. */
  lemma OtherKeyRemovesRelay(cfg: Config, t: int, n: string, h: string, m: string, g: string)
    requires cfg.requireAuth && n != m && h != g
    ensures
      var s := StateAfter(cfg, OneRelay(h, n, t) + [NodeArrival(g, m, t)]);
      && TwoNodes(s.db, n, h, m, g)
      && Serve(cfg, s, NodeKey(g), t, RemoveRelay(n)).response == NoContent
      && n !in Serve(cfg, s, NodeKey(g), t, RemoveRelay(n)).state.db.relays
  {
    var one, a := StateAfter(cfg, OneRelay(h, n, t)), NodeArrival(g, m, t);
    OneRelayRun(cfg, h, n, t);
    OneMore(cfg, OneRelay(h, n, t), a);
    NewKeyIsCreated(cfg, one, g, m, t);
    var s := StateAfter(cfg, OneRelay(h, n, t) + [a]);
    assert s.db == Served(cfg, one, a).db;
    RemovalRemoves(cfg, s, g, t, n);
  }

  lemma RemovalRemoves(cfg: Config, s: State, hash: string, t: int, id: string)
    requires id in s.db.relays
    ensures Serve(cfg, s, NodeKey(hash), t, RemoveRelay(id)).response == NoContent
    ensures id !in Serve(cfg, s, NodeKey(hash), t, RemoveRelay(id)).state.db.relays
  {
  }

  // ----- nodes -----

  /** Node `id` has this row throughout the run. */
  ghost predicate KeepsNode(cfg: Config, s: State, run: seq<Arrival>, id: string, row: Node)
    decreases |run|
  {
    id in s.db.nodes && s.db.nodes[id] == row && (run != [] ==> KeepsNode(cfg, Served(cfg, s, run[0]), run[1..], id, row))
  }

  /** Any well-formed key, registered or not, removes any live node, and no other request of its
      bearer changes a node's row. */
  lemma NodeKeyOnNode(cfg: Config, s: State, a: Arrival, id: string)
    requires id in s.db.nodes && Live(s.db.nodes[id]) && !IsJob(a.req) && a.caller.NodeKey?
    ensures
      var s' := Served(cfg, s, a);
      && id in s'.db.nodes
      && (s'.db.nodes[id] != s.db.nodes[id] <==> a.req == RemoveNode(id))
      && (a.req == RemoveNode(id) ==> s'.db.nodes[id].status == NodeDeleted)
  {
  }

  /** Through any run of requests that present node keys, a live node's row stays as it is exactly
      if none of them is DELETE /v1/nodes/{id}. */
  lemma {:induction false} NodeKeysLeaveNodeIff(cfg: Config, s: State, run: seq<Arrival>, id: string)
    requires id in s.db.nodes && Live(s.db.nodes[id])
    requires forall a :: a in run ==> !IsJob(a.req) && a.caller.NodeKey?
    ensures KeepsNode(cfg, s, run, id, s.db.nodes[id]) <==> forall a :: a in run ==> a.req != RemoveNode(id)
    decreases |run|
  {
    if run != [] {
      assert run[0] in run && forall a :: a in run <==> a == run[0] || a in run[1..];
      NodeKeyOnNode(cfg, s, run[0], id);
      if run[0].req != RemoveNode(id) {
        NodeKeysLeaveNodeIff(cfg, Served(cfg, s, run[0]), run[1..], id);
      }
    }
  }
}
