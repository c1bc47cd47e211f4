/** Every SQL statement of the store, as a function of the two tables. Each carries the time
    the Go code stamped it with before it ran. */
module Statements {
  import opened Entities
  import opened Listing

  datatype Stmt =
    | InsertNode(node: Node)
    | UpdateNode(id: string, name: string, reservedGB: nat, availableGB: nat,
                 vpnPublicKey: string, meshURL: string, status: NodeStatus, stamp: int)
    | DeleteNode(id: string, stamp: int)
    | TouchNode(id: string, stamp: int)
    | DeactivateNodes(thresholdHours: int, stamp: int)
    | UpsertRelay(relay: Relay)
    | HeartbeatRelay(id: string, storage: Option<nat>, stamp: int)
    | UpdateRelayFull(id: string, url: string, fingerprint: string, reservedGB: nat,
                      availableGB: nat, version: string, uptimeSecs: nat, stamp: int)
    | MarkUnreachable(id: string, stamp: int)
    | DeleteRelay(id: string)
    | MarkStale(ttl: int, stamp: int)
    | PurgeStale(ttl: int, stamp: int)

  /** The tables after a statement, and how many rows it affected. */
  datatype Effect = Effect(db: Db, rows: nat)

  // ----- which rows a WHERE clause selects -----

  /** status != 'deleted' AND deleted_at IS NULL */
  predicate Live(n: Node) {
    n.status != NodeDeleted && n.deletedAt == None
  }

  function InactivityWindow(thresholdHours: int): int {
    (if thresholdHours <= 0 then 24 else thresholdHours) * 3600 * SECOND
  }

  predicate Silent(n: Node, cutoff: int) {
    n.status == NodeActive && (n.lastSeenAt == None || n.lastSeenAt.value < cutoff)
  }

  predicate StaleActive(r: Relay, cutoff: int) {
    r.status == RelayActive && r.lastSeenAt < cutoff
  }

  predicate ExpiredUnreachable(r: Relay, cutoff: int) {
    r.status == RelayUnreachable && r.lastSeenAt < cutoff
  }

  /** A new row must not repeat a primary key or an auth key hash. */
  predicate Conflicts(db: Db, node: Node) {
    node.id in db.nodes || exists id :: id in db.nodes && db.nodes[id].authKeyHash == node.authKeyHash
  }

  // ----- what a SET clause writes -----

  function UpdatedNode(n: Node, s: Stmt): Node
    requires s.UpdateNode?
  {
    n.(name := s.name, reservedGB := s.reservedGB, availableGB := s.availableGB,
       vpnPublicKey := s.vpnPublicKey, meshURL := s.meshURL, status := s.status, updatedAt := s.stamp)
  }

  /** INSERT ... ON CONFLICT(node_id) DO UPDATE: created_at is not in the update list. */
  function Upserted(relays: Rows, r: Relay): Relay {
    if r.nodeId in relays then r.(createdAt := relays[r.nodeId].createdAt) else r
  }

  function Heartbeaten(r: Relay, storage: Option<nat>, stamp: int): Relay {
    var seen := r.(lastSeenAt := stamp, status := RelayActive, updatedAt := stamp);
    if storage.Some? then seen.(availableGB := storage.value) else seen
  }

  function FullyUpdated(r: Relay, s: Stmt): Relay
    requires s.UpdateRelayFull?
  {
    r.(url := s.url, fingerprint := s.fingerprint, reservedGB := s.reservedGB, availableGB := s.availableGB,
       version := s.version, uptimeSecs := s.uptimeSecs,
       status := RelayActive, lastSeenAt := s.stamp, updatedAt := s.stamp)
  }

  function SilentIds(nodes: map<string, Node>, cutoff: int): set<string> {
    set id | id in nodes && Silent(nodes[id], cutoff)
  }

  function Deactivated(nodes: map<string, Node>, cutoff: int, stamp: int): map<string, Node> {
    map id | id in nodes ::
      if Silent(nodes[id], cutoff) then nodes[id].(status := NodeInactive, updatedAt := stamp) else nodes[id]
  }

  function StaleIds(relays: Rows, cutoff: int): set<string> {
    set id | id in relays && StaleActive(relays[id], cutoff)
  }

  function Marked(relays: Rows, cutoff: int, stamp: int): Rows {
    map id | id in relays ::
      if StaleActive(relays[id], cutoff)
      then relays[id].(status := RelayUnreachable, updatedAt := stamp) else relays[id]
  }

  function ExpiredIds(relays: Rows, cutoff: int): set<string> {
    set id | id in relays && ExpiredUnreachable(relays[id], cutoff)
  }

  function Purged(relays: Rows, cutoff: int): Rows {
    map id | id in relays && !ExpiredUnreachable(relays[id], cutoff) :: relays[id]
  }

  function SetNode(db: Db, id: string, row: Node): Effect {
    Effect(db.(nodes := db.nodes[id := row]), 1)
  }

  function SetRelay(db: Db, id: string, row: Relay): Effect {
    Effect(db.(relays := db.relays[id := row]), 1)
  }

  function Apply(db: Db, s: Stmt): Effect {
    match s
    case InsertNode(node) =>
      if Conflicts(db, node) then Effect(db, 0) else SetNode(db, node.id, node)
    case UpdateNode(id, _, _, _, _, _, _, _) =>
      if id in db.nodes && Live(db.nodes[id]) then SetNode(db, id, UpdatedNode(db.nodes[id], s)) else Effect(db, 0)
    case DeleteNode(id, stamp) =>
      if id in db.nodes && Live(db.nodes[id])
      then SetNode(db, id, db.nodes[id].(status := NodeDeleted, deletedAt := Some(stamp), updatedAt := stamp))
      else Effect(db, 0)
    case TouchNode(id, stamp) =>
      if id in db.nodes && Live(db.nodes[id])
      then SetNode(db, id, db.nodes[id].(lastSeenAt := Some(stamp), updatedAt := stamp))
      else Effect(db, 0)
    case DeactivateNodes(hours, stamp) =>
      var cutoff := stamp - InactivityWindow(hours);
      Effect(db.(nodes := Deactivated(db.nodes, cutoff, stamp)), |SilentIds(db.nodes, cutoff)|)
    case UpsertRelay(relay) =>
      SetRelay(db, relay.nodeId, Upserted(db.relays, relay))
    case HeartbeatRelay(id, storage, stamp) =>
      if id in db.relays then SetRelay(db, id, Heartbeaten(db.relays[id], storage, stamp)) else Effect(db, 0)
    case UpdateRelayFull(id, _, _, _, _, _, _, _) =>
      if id in db.relays then SetRelay(db, id, FullyUpdated(db.relays[id], s)) else Effect(db, 0)
    case MarkUnreachable(id, stamp) =>
      if id in db.relays
      then SetRelay(db, id, db.relays[id].(status := RelayUnreachable, updatedAt := stamp)) else Effect(db, 0)
    case DeleteRelay(id) =>
      if id in db.relays then Effect(db.(relays := db.relays - {id}), 1) else Effect(db, 0)
    case MarkStale(ttl, stamp) =>
      var cutoff := stamp - TtlWindow(ttl);
      Effect(db.(relays := Marked(db.relays, cutoff, stamp)), |StaleIds(db.relays, cutoff)|)
    case PurgeStale(ttl, stamp) =>
      var cutoff := stamp - 2 * TtlWindow(ttl);
      Effect(db.(relays := Purged(db.relays, cutoff)), |ExpiredIds(db.relays, cutoff)|)
  }

  /** Rows sit under their primary key, and no two nodes share an auth key hash. */
  ghost predicate Tidy(db: Db) {
    && (forall id :: id in db.nodes ==> db.nodes[id].id == id)
    && (forall id :: id in db.relays ==> db.relays[id].nodeId == id)
    && (forall i, j :: i in db.nodes && j in db.nodes && db.nodes[i].authKeyHash == db.nodes[j].authKeyHash ==> i == j)
  }

  predicate WritesNodes(s: Stmt) {
    s.InsertNode? || s.UpdateNode? || s.DeleteNode? || s.TouchNode? || s.DeactivateNodes?
  }

  lemma TidyNodes(db: Db, s: Stmt)
    requires Tidy(db) && WritesNodes(s)
    ensures Tidy(Apply(db, s).db)
  {
  }

  lemma TidyRelays(db: Db, s: Stmt)
    requires Tidy(db) && !WritesNodes(s)
    ensures Tidy(Apply(db, s).db)
  {
  }

  lemma TidyStep(db: Db, s: Stmt)
    requires Tidy(db)
    ensures Tidy(Apply(db, s).db)
  {
    if WritesNodes(s) {
      TidyNodes(db, s);
    } else {
      TidyRelays(db, s);
    }
  }

  // ----- queries -----

  function FindNode(db: Db, id: string): Option<Node> {
    if id in db.nodes && Live(db.nodes[id]) then Some(db.nodes[id]) else None
  }

  /** n is the live row with this auth key hash. */
  predicate HoldsKey(db: Db, hash: string, n: Node) {
    n.id in db.nodes && db.nodes[n.id] == n && n.authKeyHash == hash && Live(n)
  }

  predicate IsKeyLookup(db: Db, hash: string, found: Option<Node>) {
    match found
    case Some(n) => HoldsKey(db, hash, n)
    case None => forall id :: id in db.nodes ==> !(db.nodes[id].authKeyHash == hash && Live(db.nodes[id]))
  }

  function FindRelay(db: Db, id: string): Option<Relay> {
    if id in db.relays then Some(db.relays[id]) else None
  }

  datatype ListFilter = ListFilter(since: Option<int>, minStorageGB: nat)

  const NO_FILTER := ListFilter(None, 0)

  predicate Listed(r: Relay, cutoff: int, f: ListFilter) {
    && r.status == RelayActive && r.lastSeenAt >= cutoff
    && (f.since.Some? && f.since.value != ZERO_TIME ==> r.lastSeenAt >= f.since.value)
    && (f.minStorageGB > 0 ==> r.availableGB >= f.minStorageGB)
  }

  function ListedRows(db: Db, now: int, ttl: int, f: ListFilter): Rows {
    map id | id in db.relays && Listed(db.relays[id], now - TtlWindow(ttl), f) :: db.relays[id]
  }

  function ListLimit(limit: int): nat {
    if limit <= 0 then 100 else limit
  }

  /** The page of relays and the total behind it. */
  datatype Page = Page(relays: seq<Relay>, total: nat)

  function ListRelays(db: Db, now: int, ttl: int, f: ListFilter, limit: int): Page {
    var rows := ListedRows(db, now, ttl, f);
    Page(Take(Ordered(rows), ListLimit(limit)), |rows|)
  }

  function CountRelays(db: Db, now: int, ttl: int): nat {
    |set id | id in db.relays && db.relays[id].status == RelayActive
                && db.relays[id].lastSeenAt >= now - TtlWindow(ttl)|
  }

  function NodesWith(nodes: map<string, Node>, status: NodeStatus): set<string> {
    set id | id in nodes && nodes[id].status == status
  }

  /** SELECT status, COUNT(*) ... GROUP BY status */
  function NodeCounts(db: Db): map<NodeStatus, nat> {
    map status | status in (set id | id in db.nodes :: db.nodes[id].status) :: |NodesWith(db.nodes, status)|
  }

  // ----- statements act row by row -----

  /** What a statement makes of one relay's row. */
  function RowAfter(r: Option<Relay>, s: Stmt, id: string): Option<Relay> {
    match s
    case UpsertRelay(relay) =>
      if relay.nodeId != id then r
      else Some(if r.Some? then relay.(createdAt := r.value.createdAt) else relay)
    case HeartbeatRelay(i, storage, stamp) =>
      if i == id && r.Some? then Some(Heartbeaten(r.value, storage, stamp)) else r
    case UpdateRelayFull(i, _, _, _, _, _, _, _) =>
      if i == id && r.Some? then Some(FullyUpdated(r.value, s)) else r
    case MarkUnreachable(i, stamp) =>
      if i == id && r.Some? then Some(r.value.(status := RelayUnreachable, updatedAt := stamp)) else r
    case DeleteRelay(i) => if i == id then None else r
    case MarkStale(ttl, stamp) =>
      if r.Some? && StaleActive(r.value, stamp - TtlWindow(ttl))
      then Some(r.value.(status := RelayUnreachable, updatedAt := stamp)) else r
    case PurgeStale(ttl, stamp) =>
      if r.Some? && ExpiredUnreachable(r.value, stamp - 2 * TtlWindow(ttl)) then None else r
    case _ => r
  }

  lemma StatementsAreRowwise(db: Db, s: Stmt, id: string)
    ensures FindRelay(Apply(db, s).db, id) == RowAfter(FindRelay(db, id), s, id)
  {
  }
}
