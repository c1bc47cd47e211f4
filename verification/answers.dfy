/** What each route answers, and what it leaves behind, in terms of the rows that were there. */
module Answers {
  import opened Entities
  import opened Listing
  import opened Statements
  import opened Queries
  import opened DiscoveryCache
  import opened Handlers
  import opened Coherence

  // ----- who is refused -----

  /** The live node `id` holds the key with this hash. */
  predicate OwnKey(db: Db, hash: string, id: string) {
    && id in db.nodes && db.nodes[id].authKeyHash == hash
    && db.nodes[id].status != NodeDeleted && db.nodes[id].deletedAt == None
  }

  /** Exactly these requests are answered 401, and change nothing: with authentication on, all of a
      stranger's; PUT /v1/relays/{id} with a key that is not that live node's own; and a node's
      status asked for by anyone but the operator. */
  lemma UnauthorizedIff(cfg: Config, s: State, caller: Caller, now: int, req: Request)
    ensures Serve(cfg, s, caller, now, req).response == Unauthorized <==>
      && cfg.requireAuth && !req.CleanupRelays? && !req.CleanupNodes?
      && (|| caller.Stranger?
          || (req.PutHeartbeat? && caller.NodeKey? && !OwnKey(s.db, caller.hash, req.id))
          || (req.NodeStatusOf? && !caller.Operator?))
    ensures Serve(cfg, s, caller, now, req).response == Unauthorized ==> Serve(cfg, s, caller, now, req).state == s
  {
  }

  ghost function RunFrom(cfg: Config, s: State, run: seq<Arrival>): State
    decreases |run|
  {
    if run == [] then s else RunFrom(cfg, Served(cfg, s, run[0]), run[1..])
  }

  /** With authentication on, no run of strangers' requests changes anything. */
  lemma {:induction false} StrangersChangeNothing(cfg: Config, s: State, run: seq<Arrival>)
    requires cfg.requireAuth
    requires forall a :: a in run ==> a.caller == Stranger && !a.req.CleanupRelays? && !a.req.CleanupNodes?
    ensures RunFrom(cfg, s, run) == s
    decreases |run|
  {
    if run != [] {
      assert run[0] in run && forall a :: a in run[1..] ==> a in run;
      UnauthorizedIff(cfg, s, run[0].caller, run[0].now, run[0].req);
      StrangersChangeNothing(cfg, s, run[1..]);
    }
  }

  /** The operator, a live node with its own key, and everyone when authentication is off, are
      never refused at PUT /v1/relays/{id}: the answer says whether there is such a relay. */
  lemma OwnKeyIsAdmitted(cfg: Config, s: State, caller: Caller, now: int, req: Request)
    requires Tidy(s.db) && req.PutHeartbeat?
    requires !cfg.requireAuth || caller == Operator || (caller.NodeKey? && OwnKey(s.db, caller.hash, req.id))
    ensures
      var reply := Serve(cfg, s, caller, now, req);
      if req.id in s.db.relays
      then
        && reply.response.RelayBody? && reply.response.relay.nodeId == req.id && !reply.state.cache.hasCached
        && reply.state.db.nodes == s.db.nodes
        && reply.state.db.relays == s.db.relays[req.id := s.db.relays[req.id].(
             url := req.url, fingerprint := req.fingerprint, reservedGB := req.reported.reservedGB,
             availableGB := req.reported.availableGB, version := req.version, uptimeSecs := req.uptimeSecs,
             status := RelayActive, lastSeenAt := now, updatedAt := now)]
      else reply == Reply(s, NotFound)
  {
  }

  // ----- GET /relays -----

  lemma {:induction false} FilterAgrees(list: seq<Relay>, f: Relay -> bool, g: Relay -> bool)
    requires forall r :: f(r) <==> g(r)
    ensures Filter(list, f) == Filter(list, g)
  {
    if list != [] {
      FilterAgrees(list[1..], f, g);
    }
  }

  /** The relay is active, was seen within the window and no earlier than asked for, and offers the
      storage asked for. */
  predicate Matches(r: Relay, now: int, ttl: int, since: Option<int>, minStorageGB: nat) {
    && r.status == RelayActive
    && now - r.lastSeenAt <= (if ttl <= 0 then 300 else ttl) * 1_000_000_000
    && (since == None || since.value == 0 || r.lastSeenAt >= since.value)
    && r.availableGB >= minStorageGB
  }

  /** All relays newest first, those that match, cut at the limit, with the number of matches. */
  function FreshAnswer(cfg: Config, db: Db, now: int, f: ListFilter): Response {
    var matching := Filter(Ordered(db.relays), (r: Relay) => Matches(r, now, cfg.relayTTL, f.since, f.minStorageGB));
    RelayList(ToDTOs(Take(matching, if cfg.maxRelays <= 0 then 100 else cfg.maxRelays)), |matching|)
  }

  lemma ListingIsFresh(cfg: Config, db: Db, now: int, f: ListFilter)
    ensures
      var page := ListRelays(db, now, cfg.relayTTL, f, cfg.maxRelays);
      RelayList(ToDTOs(page.relays), page.total) == FreshAnswer(cfg, db, now, f)
  {
    ListingIsSortFilterTake(db, now, cfg.relayTTL, f, cfg.maxRelays);
    FilterAgrees(Ordered(db.relays), (r: Relay) => Listed(r, now - TtlWindow(cfg.relayTTL), f),
                 (r: Relay) => Matches(r, now, cfg.relayTTL, f.since, f.minStorageGB));
  }

  /** A GET is answered from the cache exactly if it asks for nothing in particular and a page was
      cached no longer than the cache window ago. Every other answer is read from the table and
      does not depend on the cache; one without filters is cached, one with filters changes nothing. */
  lemma GetAnswersExactly(cfg: Config, s: State, caller: Caller, now: int, f: ListFilter)
    requires !cfg.requireAuth || !caller.Stranger?
    ensures
      var reply := Serve(cfg, s, caller, now, GetRelays(f));
      var plain := f.since == None && f.minStorageGB == 0;
      if plain && s.cache.hasCached
         && now - s.cache.cachedAt <= (if cfg.cacheTTL <= 0 then 15 else cfg.cacheTTL) * 1_000_000_000
      then reply == Reply(s, RelayList(s.cache.relays, s.cache.total))
      else
        && reply.response == FreshAnswer(cfg, s.db, now, f)
        && reply.state == if plain then State(s.db, Cache(true, now, reply.response.relays, reply.response.total)) else s
  {
    ListingIsFresh(cfg, s.db, now, f);
  }

  lemma {:induction false} FilterKeeps(list: seq<Relay>, keep: Relay -> bool)
    ensures forall i :: 0 <= i < |Filter(list, keep)| ==> keep(Filter(list, keep)[i])
  {
    if list != [] {
      FilterKeeps(list[1..], keep);
    }
  }

  lemma FreshEntriesMatch(cfg: Config, db: Db, now: int, f: ListFilter, d: RelayDTO)
    requires d in FreshAnswer(cfg, db, now, f).relays
    ensures d.availableGB >= f.minStorageGB
    ensures f.since != None && f.since.value != 0 ==> d.lastSeen >= f.since.value
    ensures now - d.lastSeen <= (if cfg.relayTTL <= 0 then 300 else cfg.relayTTL) * 1_000_000_000
  {
    var keep := (r: Relay) => Matches(r, now, cfg.relayTTL, f.since, f.minStorageGB);
    var matching := Filter(Ordered(db.relays), keep);
    FilterKeeps(Ordered(db.relays), keep);
    var page := Take(matching, if cfg.maxRelays <= 0 then 100 else cfg.maxRelays);
    var i: nat :| i < |page| && ToDTOs(page)[i] == d;
    assert keep(matching[i]);
  }

  /** So whatever a GET with filters returns offers the storage and was seen as late as asked. */
  lemma FilteredEntriesMatch(cfg: Config, s: State, caller: Caller, now: int, f: ListFilter, d: RelayDTO)
    requires (!cfg.requireAuth || !caller.Stranger?) && (f.since != None || f.minStorageGB != 0)
    requires Serve(cfg, s, caller, now, GetRelays(f)).response.RelayList?
    requires d in Serve(cfg, s, caller, now, GetRelays(f)).response.relays
    ensures d.availableGB >= f.minStorageGB
    ensures f.since != None && f.since.value != 0 ==> d.lastSeen >= f.since.value
    ensures now - d.lastSeen <= (if cfg.relayTTL <= 0 then 300 else cfg.relayTTL) * 1_000_000_000
  {
    GetAnswersExactly(cfg, s, caller, now, f);
    FreshEntriesMatch(cfg, s.db, now, f, d);
  }

  lemma CachedPageFits(cfg: Config, s: State, t: int)
    requires Coherent(cfg, s, t) && s.cache.hasCached
    ensures |s.cache.relays| <= if cfg.maxRelays <= 0 then 100 else cfg.maxRelays
  {
    var m :| BuiltFrom(cfg, s, t, m);
  }

  /** In every run, no plain GET, cached or not, returns more relays than the limit. */
  lemma AnswersFitTheLimit(cfg: Config, run: seq<Arrival>, t: int)
    requires InOrder(run, t)
    ensures
      var reply := Serve(cfg, StateAfter(cfg, run), Operator, t, GetRelays(ListFilter(None, 0)));
      reply.response.RelayList? && |reply.response.relays| <= if cfg.maxRelays <= 0 then 100 else cfg.maxRelays
  {
    var s := StateAfter(cfg, run);
    GetAnswersExactly(cfg, s, Operator, t, ListFilter(None, 0));
    AlwaysCoherent(cfg, run, t);
    if s.cache.hasCached {
      CachedPageFits(cfg, s, t);
    }
  }

  // ----- the other routes -----

  /** PUT /relays/{id} answers 204 and refreshes the row if there is one, and 404 otherwise. */
  lemma HeartbeatAnswersExactly(cfg: Config, s: State, caller: Caller, now: int, id: string, available: Option<nat>)
    requires !cfg.requireAuth || !caller.Stranger?
    ensures
      var reply := Serve(cfg, s, caller, now, Heartbeat(id, available));
      if id in s.db.relays
      then
        var r := s.db.relays[id];
        && reply.response == NoContent && !reply.state.cache.hasCached && reply.state.db.nodes == s.db.nodes
        && reply.state.db.relays == s.db.relays[id := r.(status := RelayActive, lastSeenAt := now, updatedAt := now,
             availableGB := if available.Some? then available.value else r.availableGB)]
      else reply == Reply(s, NotFound)
  {
  }

  /** DELETE /relays/{id} answers 204 and removes the row if there is one, and 404 otherwise. */
  lemma RemoveRelayAnswersExactly(cfg: Config, s: State, caller: Caller, now: int, id: string)
    requires !cfg.requireAuth || !caller.Stranger?
    ensures
      var reply := Serve(cfg, s, caller, now, RemoveRelay(id));
      if id in s.db.relays
      then
        && reply.response == NoContent && !reply.state.cache.hasCached && reply.state.db.nodes == s.db.nodes
        && reply.state.db.relays == s.db.relays - {id}
      else reply == Reply(s, NotFound)
  {
  }

  /** DELETE /v1/nodes/{id} answers 204 and marks the node deleted if it is live, and 404 otherwise;
      relays and cache stay as they are. */
  lemma RemoveNodeAnswersExactly(cfg: Config, s: State, caller: Caller, now: int, id: string)
    requires !cfg.requireAuth || !caller.Stranger?
    ensures
      var reply := Serve(cfg, s, caller, now, RemoveNode(id));
      if id in s.db.nodes && s.db.nodes[id].status != NodeDeleted && s.db.nodes[id].deletedAt == None
      then reply == Reply(s.(db := s.db.(nodes := s.db.nodes[id := s.db.nodes[id].(
             status := NodeDeleted, deletedAt := Some(now), updatedAt := now)])), NoContent)
      else reply == Reply(s, NotFound)
  {
  }

  /** POST /relays writes the whole row if the node is live, keeping only the creation time of a row
      that was there, and answers 404 otherwise. */
  lemma RegisterRelayAnswersExactly(cfg: Config, s: State, caller: Caller, now: int, req: Request)
    requires Tidy(s.db) && req.RegisterRelay? && (!cfg.requireAuth || !caller.Stranger?)
    ensures
      var reply := Serve(cfg, s, caller, now, req);
      var id := req.nodeId;
      if id in s.db.nodes && s.db.nodes[id].status != NodeDeleted && s.db.nodes[id].deletedAt == None
      then
        var node := s.db.nodes[id];
        var storage := if req.storage.Some? then req.storage.value else Storage(node.reservedGB, node.availableGB);
        var row := Relay(id, req.url, req.fingerprint, storage.reservedGB, storage.availableGB,
                         if req.replicationFactor == 0 then 1 else req.replicationFactor, req.version, 0, req.capabilities,
                         RelayActive, now, if id in s.db.relays then s.db.relays[id].createdAt else now, now);
        && reply.response == RelayBody(ToDTO(row)) && !reply.state.cache.hasCached
        && reply.state.db == s.db.(relays := s.db.relays[id := row])
      else reply == Reply(s, NotFound)
  {
  }

  /** POST /v1/nodes/register finds the live holder of the key; or creates a node, if the key and the
      fresh id are new to the table, deleted nodes included; or fails and changes nothing. */
  lemma RegisterNodeAnswersExactly(cfg: Config, s: State, caller: Caller, now: int, req: Request)
    requires Tidy(s.db) && req.RegisterNode? && (!cfg.requireAuth || !caller.Stranger?)
    ensures
      var reply := Serve(cfg, s, caller, now, req);
      var storage := if req.storage.Some? then req.storage.value else Storage(0, 0);
      if id :| id in s.db.nodes && s.db.nodes[id].authKeyHash == req.hash
      then
        reply == Reply(s, if s.db.nodes[id].status != NodeDeleted && s.db.nodes[id].deletedAt == None
                          then NodeExists(id, s.db.nodes[id].createdAt) else InternalError)
      else if req.freshId in s.db.nodes then reply == Reply(s, InternalError)
      else
        && reply.response == NodeCreated(req.freshId, now) && reply.state.cache == s.cache
        && reply.state.db == s.db.(nodes := s.db.nodes[req.freshId :=
             Node(req.freshId, req.hash, req.name, storage.reservedGB, storage.availableGB, "", req.meshURL,
                  NodeActive, now, now, None, None)])
  {
    assert IsKeyLookup(s.db, req.hash, KeyHolder(s.db, req.hash));
  }

  /** GET /v1/nodes/{id}/status, asked by the operator or with authentication off, reports the node
      online exactly if its relay was seen, after the first year, within the threshold. */
  lemma NodeStatusAnswersExactly(cfg: Config, s: State, caller: Caller, now: int, id: string)
    requires !cfg.requireAuth || caller == Operator
    ensures
      Serve(cfg, s, caller, now, NodeStatusOf(id)) ==
        Reply(s, if id !in s.db.relays then NotFound
                 else Presence(
                   && s.db.relays[id].lastSeenAt >= 31_536_000_000_000_000
                   && now - s.db.relays[id].lastSeenAt
                      <= (if cfg.onlineThreshold <= 0 then 180 else cfg.onlineThreshold) * 1_000_000_000))
  {
  }

  /** The background jobs run the cleanups with their own settings and leave the cache alone. */
  lemma JobsAnswerExactly(cfg: Config, s: State, caller: Caller, now: int)
    ensures
      var marked := Apply(s.db, MarkStale(cfg.relayTTL, now));
      var purged := Apply(marked.db, PurgeStale(cfg.relayTTL, now));
      Serve(cfg, s, caller, now, CleanupRelays) == Reply(State(purged.db, s.cache), Cleaned(marked.rows, purged.rows))
    ensures
      var e := Apply(s.db, DeactivateNodes(cfg.inactiveHours, now));
      Serve(cfg, s, caller, now, CleanupNodes) == Reply(State(e.db, s.cache), Cleaned(e.rows, 0))
  {
  }
}
