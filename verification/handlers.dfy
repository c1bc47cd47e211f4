/** The routes and the background jobs, each taken as one step over the store and the cache. */
module Handlers {
  import opened Entities
  import opened Statements
  import opened Store
  import opened DiscoveryCache

  datatype Config = Config(relayTTL: int, cacheTTL: int, maxRelays: int, onlineThreshold: int, inactiveHours: int,
                           requireAuth: bool)

  datatype Storage = Storage(reservedGB: nat, availableGB: nat)

  /** Who presents a request: the operator's key, a token shaped like a node's key, by its hash,
      or nothing the server accepts. */
  datatype Caller = Operator | NodeKey(hash: string) | Stranger

  datatype Request =
    | GetRelays(filter: ListFilter)
    | RegisterRelay(nodeId: string, url: string, fingerprint: string, storage: Option<Storage>,
                    replicationFactor: nat, version: string, capabilities: seq<string>)
    | PutHeartbeat(id: string, url: string, fingerprint: string,
                   reported: Storage, version: string, uptimeSecs: nat)
    | Heartbeat(id: string, available: Option<nat>)
    | RemoveRelay(id: string)
    | RegisterNode(hash: string, freshId: string, name: string, meshURL: string, storage: Option<Storage>)
    | RemoveNode(id: string)
    | NodeStatusOf(id: string)
    | CleanupRelays
    | CleanupNodes

  datatype Response =
    | RelayList(relays: seq<RelayDTO>, total: nat)
    | RelayBody(relay: RelayDTO)
    | NodeExists(id: string, createdAt: int)
    | NodeCreated(id: string, createdAt: int)
    | Presence(online: bool)
    | NoContent
    | NotFound
    | Unauthorized
    | InternalError
    | Cleaned(affected: nat, deleted: nat)

  datatype State = State(db: Db, cache: Cache)

  const INITIAL := State(EMPTY_DB, EMPTY_CACHE)

  datatype Reply = Reply(state: State, response: Response)

  // ----- the rows the handlers build -----

  function NewRelay(node: Node, req: Request, now: int): Relay
    requires req.RegisterRelay?
  {
    var s := if req.storage.Some? then req.storage.value else Storage(node.reservedGB, node.availableGB);
    Relay(node.id, req.url, req.fingerprint, s.reservedGB, s.availableGB, req.replicationFactor,
          req.version, 0, req.capabilities, RelayActive, now, ZERO_TIME, ZERO_TIME)
  }

  function NewNode(req: Request, now: int): Node
    requires req.RegisterNode?
  {
    var s := if req.storage.Some? then req.storage.value else Storage(0, 0);
    Node(req.freshId, req.hash, req.name, s.reservedGB, s.availableGB, "", req.meshURL,
         NodeActive, now, now, None, None)
  }

  function ReportedRelay(r: Relay, req: Request, now: int): Relay
    requires req.PutHeartbeat?
  {
    r.(url := req.url, fingerprint := req.fingerprint, reservedGB := req.reported.reservedGB,
       availableGB := req.reported.availableGB, version := req.version, uptimeSecs := req.uptimeSecs,
       status := RelayActive, lastSeenAt := now)
  }

  /** The live node with this key hash, if any. */
  ghost function KeyHolder(db: Db, hash: string): (found: Option<Node>)
    ensures Tidy(db) ==> IsKeyLookup(db, hash, found)
  {
    if id :| id in db.nodes && db.nodes[id].authKeyHash == hash && Live(db.nodes[id])
    then Some(db.nodes[id]) else None
  }

  lemma KeyLookupUnique(db: Db, hash: string, a: Option<Node>, b: Option<Node>)
    requires Tidy(db) && IsKeyLookup(db, hash, a) && IsKeyLookup(db, hash, b)
    ensures a == b
  {
  }

  // ----- presence -----

  /** Timestamps of the first year count as absent. */
  const FIRST_YEAR: int := 365 * 24 * 3600 * SECOND

  function OnlineWindow(thresholdSecs: int): int {
    (if thresholdSecs <= 0 then 180 else thresholdSecs) * SECOND
  }

  predicate IsNodeOnline(lastSeen: Option<int>, now: int, thresholdSecs: int) {
    lastSeen.Some? && lastSeen.value != ZERO_TIME && lastSeen.value >= now - OnlineWindow(thresholdSecs)
  }

  /** The status endpoint's verdict on a relay. */
  predicate ReportedOnline(r: Relay, now: int, thresholdSecs: int) {
    IsNodeOnline(if r.lastSeenAt >= FIRST_YEAR then Some(r.lastSeenAt) else None, now, thresholdSecs)
  }

  // ----- admission -----

  /** The token test in front of every route but the public ones. */
  predicate Authenticated(cfg: Config, caller: Caller) {
    !cfg.requireAuth || !caller.Stranger?
  }

  /** Authentication is off, or the caller is the operator, or the live node `id` itself. */
  predicate Owns(cfg: Config, db: Db, caller: Caller, id: string) {
    || !cfg.requireAuth
    || caller.Operator?
    || (caller.NodeKey? && id in db.nodes && db.nodes[id].authKeyHash == caller.hash && Live(db.nodes[id]))
  }

  predicate IsJob(req: Request) {
    req.CleanupRelays? || req.CleanupNodes?
  }

  /** Every request passes the token test; a full heartbeat also needs the relay's own key, and
      a node's status the operator's. */
  predicate Admitted(cfg: Config, db: Db, caller: Caller, req: Request) {
    IsJob(req) ||
    (&& Authenticated(cfg, caller)
     && (req.PutHeartbeat? ==> Owns(cfg, db, caller, req.id))
     && (req.NodeStatusOf? ==> !cfg.requireAuth || caller.Operator?))
  }

  // ----- one step -----

  /** A write that reached a row drops the cached list; one that did not leaves it. */
  function Written(s: State, e: Effect, success: Response, failure: Response): Reply {
    if e.rows > 0 then Reply(State(e.db, Invalidated(s.cache)), success) else Reply(s, failure)
  }

  /** What an admitted request, or a job, does. */
  ghost function Step(cfg: Config, s: State, now: int, req: Request): Reply {
    match req
    case GetRelays(f) =>
      if f == NO_FILTER && Hits(s.cache, CacheWindow(cfg.cacheTTL), now)
      then Reply(s, RelayList(s.cache.relays, s.cache.total))
      else
        var page := ListRelays(s.db, now, cfg.relayTTL, f, cfg.maxRelays);
        var list := ToDTOs(page.relays);
        Reply(if f == NO_FILTER then s.(cache := Cache(true, now, list, page.total)) else s,
              RelayList(list, page.total))
    case RegisterRelay(id, _, _, _, _, _, _) =>
      var node := FindNode(s.db, id);
      if node == None then Reply(s, NotFound)
      else
        var relay := RelayWithDefaults(NewRelay(node.value, req, now), now);
        Written(s, Apply(s.db, Statements.UpsertRelay(relay)), RelayBody(ToDTO(relay)), InternalError)
    case PutHeartbeat(id, _, _, _, _, _) =>
      if id !in s.db.relays then Reply(s, NotFound)
      else
        var relay := ReportedRelay(s.db.relays[id], req, now);
        Written(s, Apply(s.db, FullUpdateOf(relay, now)), RelayBody(ToDTO(relay)), InternalError)
    case Heartbeat(id, available) =>
      Written(s, Apply(s.db, HeartbeatRelay(id, available, now)), NoContent, NotFound)
    case RemoveRelay(id) =>
      Written(s, Apply(s.db, Statements.DeleteRelay(id)), NoContent, NotFound)
    case RegisterNode(hash, _, _, _, _) =>
      var holder := KeyHolder(s.db, hash);
      if holder.Some? then Reply(s, NodeExists(holder.value.id, holder.value.createdAt))
      else
        var node := WithDefaults(NewNode(req, now), now);
        var e := Apply(s.db, InsertNode(node));
        if e.rows > 0 then Reply(s.(db := e.db), NodeCreated(node.id, node.createdAt)) else Reply(s, InternalError)
    case RemoveNode(id) =>
      var e := Apply(s.db, Statements.DeleteNode(id, now));
      Reply(s.(db := e.db), if e.rows > 0 then NoContent else NotFound)
    case NodeStatusOf(id) =>
      Reply(s, if id in s.db.relays then Presence(ReportedOnline(s.db.relays[id], now, cfg.onlineThreshold)) else NotFound)
    case CleanupRelays =>
      var marked := Apply(s.db, MarkStale(cfg.relayTTL, now));
      var purged := Apply(marked.db, PurgeStale(cfg.relayTTL, now));
      Reply(s.(db := purged.db), Cleaned(marked.rows, purged.rows))
    case CleanupNodes =>
      var e := Apply(s.db, DeactivateNodes(cfg.inactiveHours, now));
      Reply(s.(db := e.db), Cleaned(e.rows, 0))
  }

  /** What any request does. */
  ghost function Serve(cfg: Config, s: State, caller: Caller, now: int, req: Request): Reply {
    if Admitted(cfg, s.db, caller, req) then Step(cfg, s, now, req) else Reply(s, Unauthorized)
  }

  // ----- the handlers themselves -----

  class Server {
    const cfg: Config
    const st: SQLiteStore
    const cache: RelayCache

    ghost predicate Valid()
      reads st
    {
      st.Valid() && cache.ttl == CacheWindow(cfg.cacheTTL)
    }

    function View(): State
      reads st, cache
    {
      State(st.View(), cache.View())
    }

    constructor (cfg: Config)
      ensures Valid() && View() == INITIAL && this.cfg == cfg && fresh(st) && fresh(cache)
    {
      this.cfg := cfg;
      st := new SQLiteStore();
      cache := new RelayCache(cfg.cacheTTL);
    }

    method GetRelaysHandler(now: int, f: ListFilter) returns (resp: Response)
      requires Valid()
      modifies cache
      ensures Valid() && Reply(View(), resp) == Step(cfg, old(View()), now, GetRelays(f))
    {
      if f.since == None && f.minStorageGB == 0 {
        var list, total, ok := cache.Get(now);
        if ok {
          return RelayList(list, total);
        }
      }
      var page := st.ListActiveRelays(now, cfg.relayTTL, f, cfg.maxRelays);
      var dtos: seq<RelayDTO> := [];
      for i := 0 to |page.relays|
        invariant |dtos| == i && forall j :: 0 <= j < i ==> dtos[j] == ToDTO(page.relays[j])
      {
        dtos := dtos + [ToDTO(page.relays[i])];
      }
      assert dtos == ToDTOs(page.relays);
      if f.since == None && f.minStorageGB == 0 {
        cache.Set(now, dtos, page.total);
      }
      resp := RelayList(dtos, page.total);
    }

    method RegisterRelayHandler(now: int, req: Request) returns (resp: Response)
      requires Valid() && req.RegisterRelay?
      modifies st, cache
      ensures Valid() && Reply(View(), resp) == Step(cfg, old(View()), now, req)
    {
      var node := st.GetNodeByID(req.nodeId);
      if node == None {
        return NotFound;
      }
      var relay := Relay(node.value.id, req.url, req.fingerprint, node.value.reservedGB, node.value.availableGB,
                         req.replicationFactor, req.version, 0, req.capabilities, RelayActive, now, ZERO_TIME, ZERO_TIME);
      if req.storage.Some? {
        relay := relay.(reservedGB := req.storage.value.reservedGB, availableGB := req.storage.value.availableGB);
      }
      var written := st.UpsertRelay(now, relay);
      cache.Invalidate();
      resp := RelayBody(ToDTO(written));
    }

    method AuthorizeNodeOwnership(caller: Caller, id: string) returns (ok: bool)
      requires Valid()
      ensures ok <==> Owns(cfg, st.View(), caller, id)
    {
      if !cfg.requireAuth {
        return true;
      }
      if caller.Stranger? {
        return false;
      }
      if caller.Operator? {
        return true;
      }
      var node := st.GetNodeByAuthKeyHash(caller.hash);
      ok := node.Some? && node.value.id == id;
    }

    method PutV1RelayHeartbeatHandler(caller: Caller, now: int, req: Request) returns (resp: Response)
      requires Valid() && req.PutHeartbeat?
      modifies st, cache
      ensures Valid()
      ensures Reply(View(), resp) == if Owns(cfg, old(st.View()), caller, req.id)
                                     then Step(cfg, old(View()), now, req) else Reply(old(View()), Unauthorized)
    {
      var ok := AuthorizeNodeOwnership(caller, req.id);
      if !ok {
        return Unauthorized;
      }
      var found := st.GetRelayByNodeID(req.id);
      if found == None {
        return NotFound;
      }
      var relay := ReportedRelay(found.value, req, now);
      var res := st.UpdateRelayFull(now, relay);
      if res != Done {
        return InternalError;
      }
      cache.Invalidate();
      resp := RelayBody(ToDTO(relay));
    }

    method HeartbeatRelayHandler(now: int, id: string, available: Option<nat>) returns (resp: Response)
      requires Valid()
      modifies st, cache
      ensures Valid() && Reply(View(), resp) == Step(cfg, old(View()), now, Heartbeat(id, available))
    {
      var res := st.UpdateRelayHeartbeat(now, id, available);
      if res == RelayNotFound {
        return NotFound;
      }
      cache.Invalidate();
      resp := NoContent;
    }

    method DeleteRelayHandler(now: int, id: string) returns (resp: Response)
      requires Valid()
      modifies st, cache
      ensures Valid() && Reply(View(), resp) == Step(cfg, old(View()), now, RemoveRelay(id))
    {
      var res := st.DeleteRelay(id);
      if res == RelayNotFound {
        return NotFound;
      }
      cache.Invalidate();
      resp := NoContent;
    }

    method RegisterNodeHandler(now: int, req: Request) returns (resp: Response)
      requires Valid() && req.RegisterNode?
      modifies st
      ensures Valid() && Reply(View(), resp) == Step(cfg, old(View()), now, req)
    {
      var existing := st.GetNodeByAuthKeyHash(req.hash);
      KeyLookupUnique(st.View(), req.hash, existing, KeyHolder(st.View(), req.hash));
      if existing.Some? {
        return NodeExists(existing.value.id, existing.value.createdAt);
      }
      var created, res := st.CreateNode(now, NewNode(req, now));
      if res != Done {
        return InternalError;
      }
      resp := NodeCreated(created.id, created.createdAt);
    }

    method DeleteNodeHandler(now: int, id: string) returns (resp: Response)
      requires Valid()
      modifies st
      ensures Valid() && Reply(View(), resp) == Step(cfg, old(View()), now, RemoveNode(id))
    {
      var res := st.DeleteNode(now, id);
      resp := if res == NodeNotFound then NotFound else NoContent;
    }

    method AuthorizeAdminOnly(caller: Caller) returns (ok: bool)
      ensures ok <==> !cfg.requireAuth || caller.Operator?
    {
      if !cfg.requireAuth {
        return true;
      }
      ok := caller.Operator?;
    }

    method GetNodeStatusHandler(caller: Caller, now: int, id: string) returns (resp: Response)
      requires Valid()
      ensures Reply(View(), resp) == if !cfg.requireAuth || caller.Operator?
                                     then Step(cfg, View(), now, NodeStatusOf(id)) else Reply(View(), Unauthorized)
    {
      var ok := AuthorizeAdminOnly(caller);
      if !ok {
        return Unauthorized;
      }
      var relay := st.GetRelayByNodeID(id);
      if relay == None {
        return NotFound;
      }
      var lastSeen := None;
      if relay.value.lastSeenAt != ZERO_TIME && relay.value.lastSeenAt >= FIRST_YEAR {
        lastSeen := Some(relay.value.lastSeenAt);
      }
      resp := Presence(IsNodeOnline(lastSeen, now, cfg.onlineThreshold));
    }

    /** The middleware's token test, then the route's handler. */
    method Handle(caller: Caller, now: int, req: Request) returns (resp: Response)
      requires Valid() && !IsJob(req)
      modifies st, cache
      ensures Valid() && Reply(View(), resp) == Serve(cfg, old(View()), caller, now, req)
    {
      if cfg.requireAuth && caller.Stranger? {
        return Unauthorized;
      }
      match req {
        case GetRelays(f) => resp := GetRelaysHandler(now, f);
        case RegisterRelay(_, _, _, _, _, _, _) => resp := RegisterRelayHandler(now, req);
        case PutHeartbeat(_, _, _, _, _, _) => resp := PutV1RelayHeartbeatHandler(caller, now, req);
        case Heartbeat(id, available) => resp := HeartbeatRelayHandler(now, id, available);
        case RemoveRelay(id) => resp := DeleteRelayHandler(now, id);
        case RegisterNode(_, _, _, _, _) => resp := RegisterNodeHandler(now, req);
        case RemoveNode(id) => resp := DeleteNodeHandler(now, id);
        case NodeStatusOf(id) => resp := GetNodeStatusHandler(caller, now, id);
      }
    }
  }
}
