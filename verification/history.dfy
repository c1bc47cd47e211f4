/** What every sequence of statements keeps, whatever requests and jobs it came from and
    however they were interleaved. */
module History {
  import opened Entities
  import opened Listing
  import opened Statements
  import opened Accounting

  /** A statement and the time it committed. */
  datatype Timed = Timed(now: int, stmt: Stmt)

  /** The statements the handlers and the background jobs issue. Each is stamped no later
      than it commits; a relay registration carries whatever time its handler read. */
  predicate FromServer(s: Stmt, now: int, ttl: int) {
    match s
    case InsertNode(node) => node.status == NodeActive && node.lastSeenAt == None && node.deletedAt == None
    case UpdateNode(_, _, _, _, _, _, _, _) => false
    case DeleteNode(_, stamp) => stamp <= now
    case TouchNode(_, _) => false
    case DeactivateNodes(_, stamp) => stamp <= now
    case UpsertRelay(relay) => relay.status == RelayActive && relay.lastSeenAt <= now
    case HeartbeatRelay(_, _, stamp) => stamp <= now
    case UpdateRelayFull(_, _, _, _, _, _, _, stamp) => stamp <= now
    case MarkUnreachable(_, _) => false
    case DeleteRelay(_) => true
    case MarkStale(window, stamp) => window == ttl && stamp <= now
    case PurgeStale(window, stamp) => window == ttl && stamp <= now
  }

  /** Commit times never decrease. */
  predicate ServerRun(run: seq<Timed>, ttl: int) {
    && (forall i :: 0 <= i < |run| ==> FromServer(run[i].stmt, run[i].now, ttl))
    && (forall i, j :: 0 <= i < j < |run| ==> run[i].now <= run[j].now)
  }

  predicate EndsBy(run: seq<Timed>, t: int) {
    forall e :: e in run ==> e.now <= t
  }

  function After(db: Db, run: seq<Timed>): Db {
    if run == [] then db else Apply(After(db, run[..|run| - 1]), run[|run| - 1].stmt).db
  }

  lemma RunInit(run: seq<Timed>, ttl: int)
    requires run != [] && ServerRun(run, ttl)
    ensures ServerRun(run[..|run| - 1], ttl) && EndsBy(run[..|run| - 1], run[|run| - 1].now)
  {
  }

  // ----- the status column says nothing the timestamps do not -----

  /** Only the two statuses occur, and an unreachable relay has left the window. */
  predicate StatusAgrees(db: Db, ttl: int, t: int) {
    forall id :: id in db.relays ==>
      var r := db.relays[id];
      r.status == RelayActive || (r.status == RelayUnreachable && r.lastSeenAt < t - TtlWindow(ttl))
  }

  lemma StatusStep(db: Db, s: Stmt, ttl: int, t: int, now: int)
    requires StatusAgrees(db, ttl, t) && t <= now && FromServer(s, now, ttl)
    ensures StatusAgrees(Apply(db, s).db, ttl, now)
  {
  }

  lemma {:induction false} StatusAlwaysAgrees(run: seq<Timed>, ttl: int, t: int)
    requires ServerRun(run, ttl) && EndsBy(run, t)
    ensures StatusAgrees(After(EMPTY_DB, run), ttl, t)
    decreases |run|
  {
    if run != [] {
      var last := run[|run| - 1];
      assert last in run;
      RunInit(run, ttl);
      StatusAlwaysAgrees(run[..|run| - 1], ttl, last.now);
      StatusStep(After(EMPTY_DB, run[..|run| - 1]), last.stmt, ttl, last.now, t);
    }
  }

  /** The listing query with its status test removed. */
  function ListedWithoutStatus(db: Db, now: int, ttl: int, f: ListFilter): Rows {
    map id | id in db.relays && Listed(db.relays[id].(status := RelayActive), now - TtlWindow(ttl), f) :: db.relays[id]
  }

  /** After every run, dropping the status test changes neither listing nor count. */
  lemma StatusIsRedundant(run: seq<Timed>, ttl: int, t: int, f: ListFilter)
    requires ServerRun(run, ttl) && EndsBy(run, t)
    ensures
      var db := After(EMPTY_DB, run);
      && ListedRows(db, t, ttl, f) == ListedWithoutStatus(db, t, ttl, f)
      && CountRelays(db, t, ttl) == |set id | id in db.relays && db.relays[id].lastSeenAt >= t - TtlWindow(ttl)|
  {
    StatusAlwaysAgrees(run, ttl, t);
    var db := After(EMPTY_DB, run);
    assert (set id | id in db.relays && db.relays[id].lastSeenAt >= t - TtlWindow(ttl))
        == (set id | id in db.relays && db.relays[id].status == RelayActive
                     && db.relays[id].lastSeenAt >= t - TtlWindow(ttl));
  }

  // ----- cleanup -----

  function Cleaned(db: Db, ttl: int, now: int): Db {
    Apply(Apply(db, MarkStale(ttl, now)).db, PurgeStale(ttl, now)).db
  }

  /** From any tables at all, neither statement of a cleanup changes what its tables list at any
      later time. */
  lemma CleanupIsInvisible(db: Db, ttl: int, stamp: int, t: int, f: ListFilter, limit: int)
    requires stamp <= t
    ensures ListRelays(Apply(db, MarkStale(ttl, stamp)).db, t, ttl, f, limit) == ListRelays(db, t, ttl, f, limit)
    ensures ListRelays(Apply(db, PurgeStale(ttl, stamp)).db, t, ttl, f, limit) == ListRelays(db, t, ttl, f, limit)
  {
    var marked, purged := Apply(db, MarkStale(ttl, stamp)).db, Apply(db, PurgeStale(ttl, stamp)).db;
    assert ListedRows(marked, t, ttl, f) == ListedRows(db, t, ttl, f);
    assert ListedRows(purged, t, ttl, f) == ListedRows(db, t, ttl, f);
  }

  /** After a server run, one cleanup keeps exactly the relays seen within twice the window. */
  lemma {:induction false} CleanupKeepsExactly(run: seq<Timed>, ttl: int, now: int, id: string)
    requires ServerRun(run, ttl) && EndsBy(run, now)
    ensures
      var db := After(EMPTY_DB, run);
      id in Cleaned(db, ttl, now).relays <==>
        (id in db.relays && db.relays[id].lastSeenAt >= now - 2 * TtlWindow(ttl))
  {
    StatusAlwaysAgrees(run, ttl, now);
    CleanedKeeps(After(EMPTY_DB, run), ttl, now, id);
  }

  lemma CleanedKeeps(db: Db, ttl: int, now: int, id: string)
    requires StatusAgrees(db, ttl, now)
    ensures id in Cleaned(db, ttl, now).relays
       <==> (id in db.relays && db.relays[id].lastSeenAt >= now - 2 * TtlWindow(ttl))
  {
    assert TtlWindow(ttl) > 0;
  }

  // ----- what keeps a relay active -----

  /** The statement writes or removes this relay's row by its key. */
  predicate Addresses(s: Stmt, id: string) {
    match s
    case UpsertRelay(relay) => relay.nodeId == id
    case HeartbeatRelay(i, _, _) => i == id
    case UpdateRelayFull(i, _, _, _, _, _, _, _) => i == id
    case MarkUnreachable(i, _) => i == id
    case DeleteRelay(i) => i == id
    case _ => false
  }

  /** The time a relay last seen at `last` was last seen at after the statement. */
  function SeenAfter(s: Stmt, id: string, last: int): int {
    match s
    case UpsertRelay(relay) => if relay.nodeId == id then relay.lastSeenAt else last
    case HeartbeatRelay(i, _, stamp) => if i == id then stamp else last
    case UpdateRelayFull(i, _, _, _, _, _, _, stamp) => if i == id then stamp else last
    case _ => last
  }

  function LatestSeen(run: seq<Timed>, id: string, last: int): int {
    if run == [] then last else LatestSeen(run[1..], id, SeenAfter(run[0].stmt, id, last))
  }

  function Forward(db: Db, run: seq<Timed>): Db
    decreases |run|
  {
    if run == [] then db else Forward(Apply(db, run[0].stmt).db, run[1..])
  }

  predicate SeenAt(db: Db, id: string, t: int) {
    id in db.relays && db.relays[id].status == RelayActive && db.relays[id].lastSeenAt == t
  }

  /** The relay is there and active before and after every statement. */
  predicate ActiveThroughout(db: Db, run: seq<Timed>, id: string)
    decreases |run|
  {
    && id in db.relays && db.relays[id].status == RelayActive
    && (run != [] ==> ActiveThroughout(Apply(db, run[0].stmt).db, run[1..], id))
  }

  /** No cleanup is stamped more than one window past the time stored last, and no statement
      deletes the relay. */
  predicate InTime(run: seq<Timed>, id: string, ttl: int, last: int) {
    run == [] ||
    (&& (run[0].stmt.MarkStale? ==> run[0].stmt.stamp <= last + TtlWindow(ttl))
     && run[0].stmt != DeleteRelay(id)
     && InTime(run[1..], id, ttl, SeenAfter(run[0].stmt, id, last)))
  }

  lemma ActiveStep(db: Db, s: Stmt, id: string, ttl: int, last: int, now: int)
    requires SeenAt(db, id, last) && FromServer(s, now, ttl)
    ensures
      var db' := Apply(db, s).db;
      if (s.MarkStale? && s.stamp > last + TtlWindow(ttl)) || s == DeleteRelay(id)
      then !(id in db'.relays && db'.relays[id].status == RelayActive)
      else SeenAt(db', id, SeenAfter(s, id, last))
  {
  }

  /** Whatever the server runs, and however long its statements lag behind their stamps, a relay
      seen at `last` is never marked nor deleted exactly if every cleanup comes in time. */
  lemma {:induction false} ActiveThroughoutIff(db: Db, run: seq<Timed>, id: string, ttl: int, last: int)
    requires SeenAt(db, id, last) && forall e :: e in run ==> FromServer(e.stmt, e.now, ttl)
    ensures ActiveThroughout(db, run, id) <==> InTime(run, id, ttl, last)
    ensures InTime(run, id, ttl, last) ==> SeenAt(Forward(db, run), id, LatestSeen(run, id, last))
    decreases |run|
  {
    if run != [] {
      var s, db' := run[0].stmt, Apply(db, run[0].stmt).db;
      assert run[0] in run && forall e :: e in run[1..] ==> e in run;
      ActiveStep(db, s, id, ttl, last, run[0].now);
      if SeenAt(db', id, SeenAfter(s, id, last)) {
        ActiveThroughoutIff(db', run[1..], id, ttl, SeenAfter(s, id, last));
      }
    }
  }

  /** No statement commits more than the window after the time stored last, and none deletes
      the relay. */
  predicate KeptAlive(run: seq<Timed>, id: string, ttl: int, last: int) {
    run == [] ||
    (&& run[0].now <= last + TtlWindow(ttl)
     && run[0].stmt != DeleteRelay(id)
     && KeptAlive(run[1..], id, ttl, SeenAfter(run[0].stmt, id, last)))
  }

  lemma {:induction false} KeptAliveIsInTime(run: seq<Timed>, id: string, ttl: int, last: int)
    requires KeptAlive(run, id, ttl, last) && forall e :: e in run ==> FromServer(e.stmt, e.now, ttl)
    ensures InTime(run, id, ttl, last)
  {
    if run != [] {
      assert run[0] in run && forall e :: e in run[1..] ==> e in run;
      KeptAliveIsInTime(run[1..], id, ttl, SeenAfter(run[0].stmt, id, last));
    }
  }

  /** A relay whose stored times never fall more than the window behind the clock is never
      marked and never deleted. */
  lemma HeartbeatsProtect(db: Db, run: seq<Timed>, id: string, ttl: int, last: int)
    requires SeenAt(db, id, last) && forall e :: e in run ==> FromServer(e.stmt, e.now, ttl)
    requires KeptAlive(run, id, ttl, last)
    ensures ActiveThroughout(db, run, id) && SeenAt(Forward(db, run), id, LatestSeen(run, id, last))
  {
    KeptAliveIsInTime(run, id, ttl, last);
    ActiveThroughoutIff(db, run, id, ttl, last);
  }

  /** Between a heartbeat and the delete, nothing marks relays or removes this one. */
  predicate LeavesActive(s: Stmt, id: string) {
    && !s.MarkStale?
    && (s.MarkUnreachable? || s.DeleteRelay? ==> s.id != id)
    && (s.UpsertRelay? && s.relay.nodeId == id ==> s.relay.status == RelayActive)
  }

  lemma {:induction false} StaysActive(db: Db, between: seq<Timed>, id: string)
    requires id in db.relays && db.relays[id].status == RelayActive
    requires forall e :: e in between ==> LeavesActive(e.stmt, id)
    ensures id in Forward(db, between).relays && Forward(db, between).relays[id].status == RelayActive
    decreases |between|
  {
    if between != [] {
      assert between[0] in between && forall e :: e in between[1..] ==> e in between;
      StaysActive(Apply(db, between[0].stmt).db, between[1..], id);
    }
  }

  /** Whatever its own stamp, a heartbeat that commits between the two statements of a cleanup
      keeps the relay from that cleanup's delete. */
  lemma HeartbeatBetweenStatements(db: Db, id: string, storage: Option<nat>, stamp: int, between: seq<Timed>,
                                   ttl: int, cleanup: int)
    requires id in db.relays
    requires forall e :: e in between ==> LeavesActive(e.stmt, id)
    ensures
      var marked := Apply(db, MarkStale(ttl, cleanup)).db;
      var beaten := Apply(marked, HeartbeatRelay(id, storage, stamp)).db;
      id in Apply(Forward(beaten, between), PurgeStale(ttl, cleanup)).db.relays
  {
    var marked := Apply(db, MarkStale(ttl, cleanup)).db;
    var beaten := Apply(marked, HeartbeatRelay(id, storage, stamp)).db;
    StaysActive(beaten, between, id);
  }

  /** A registration that read the clock long before it committed can undo a heartbeat: the time
      it stores is the one that counts. */
  lemma LateRegistrationUndoesHeartbeat(db: Db, relay: Relay, ttl: int, t: int)
    requires relay.status == RelayActive && relay.lastSeenAt < t - TtlWindow(ttl)
    ensures
      var beaten := Apply(db, HeartbeatRelay(relay.nodeId, None, t)).db;
      var late := Apply(beaten, UpsertRelay(relay)).db;
      var marked := Apply(late, MarkStale(ttl, t)).db;
      && FromServer(UpsertRelay(relay), t, ttl)
      && marked.relays[relay.nodeId].status == RelayUnreachable
      && relay.nodeId !in ListedRows(marked, t, ttl, NO_FILTER)
  {
    assert TtlWindow(ttl) > 0;
  }

  lemma {:induction false} UnaddressedIsKeptAlive(run: seq<Timed>, id: string, ttl: int, last: int)
    requires forall e :: e in run ==>
      FromServer(e.stmt, e.now, ttl) && !Addresses(e.stmt, id) && e.now <= last + TtlWindow(ttl)
    ensures KeptAlive(run, id, ttl, last) && LatestSeen(run, id, last) == last
  {
    if run != [] {
      assert run[0] in run && forall e :: e in run[1..] ==> e in run;
      UnaddressedIsKeptAlive(run[1..], id, ttl, last);
    }
  }

  lemma UnaddressedStep(db: Db, s: Stmt, id: string)
    requires !Addresses(s, id)
    ensures id in Apply(db, s).db.relays ==>
      id in db.relays && Apply(db, s).db.relays[id].lastSeenAt == db.relays[id].lastSeenAt
  {
  }

  lemma {:induction false} UnaddressedKeepsLastSeen(db: Db, run: seq<Timed>, id: string)
    requires forall e :: e in run ==> !Addresses(e.stmt, id)
    ensures id in Forward(db, run).relays ==>
      id in db.relays && Forward(db, run).relays[id].lastSeenAt == db.relays[id].lastSeenAt
    decreases |run|
  {
    if run != [] {
      assert run[0] in run && forall e :: e in run[1..] ==> e in run;
      UnaddressedStep(db, run[0].stmt, id);
      UnaddressedKeepsLastSeen(Apply(db, run[0].stmt).db, run[1..], id);
    }
  }

  /** Whatever the server does to other rows and however often it cleans up, one heartbeat
      makes an existing relay discoverable for exactly one window. */
  lemma HeartbeatListsForOneWindow(db: Db, id: string, storage: Option<nat>, stamp: int, run: seq<Timed>, ttl: int,
                                   t: int)
    requires id in db.relays && EndsBy(run, t)
    requires forall e :: e in run ==> FromServer(e.stmt, e.now, ttl) && !Addresses(e.stmt, id)
    ensures
      var beaten := Apply(db, HeartbeatRelay(id, storage, stamp)).db;
      && (id in ListedRows(Forward(beaten, run), t, ttl, NO_FILTER) <==> t <= stamp + TtlWindow(ttl))
      && (storage.Some? ==> beaten.relays[id].availableGB == storage.value)
  {
    var beaten := Apply(db, HeartbeatRelay(id, storage, stamp)).db;
    UnaddressedKeepsLastSeen(beaten, run, id);
    if t <= stamp + TtlWindow(ttl) {
      UnaddressedIsKeptAlive(run, id, ttl, stamp);
      HeartbeatsProtect(beaten, run, id, ttl, stamp);
    }
  }

  // ----- relay rows keep their identity -----

  /** Only an upsert adds a relay; while a row lives its creation time is fixed; and nothing
      but an upsert changes its capabilities or replication factor. */
  lemma RelayIdentity(db: Db, s: Stmt, id: string)
    ensures
      var db' := Apply(db, s).db;
      && (id in db'.relays && id !in db.relays ==> s.UpsertRelay? && s.relay.nodeId == id)
      && (id in db.relays && id in db'.relays ==>
            var r, r' := db.relays[id], db'.relays[id];
            && r'.createdAt == r.createdAt
            && (!s.UpsertRelay? ==> r'.capabilities == r.capabilities && r'.replicationFactor == r.replicationFactor))
      && (id in db.relays && id !in db'.relays ==> s.DeleteRelay? || s.PurgeStale?)
  {
  }

  /** The relay's row is there after every statement of the run. */
  predicate LivesThrough(db: Db, run: seq<Timed>, id: string)
    decreases |run|
  {
    id in db.relays && (run != [] ==> LivesThrough(Apply(db, run[0].stmt).db, run[1..], id))
  }

  /** Through any statements, a relay that lives keeps its creation time, and without a new
      registration its capabilities and replication factor. */
  lemma {:induction false} LivingRelayKeepsIdentity(db: Db, run: seq<Timed>, id: string)
    requires LivesThrough(db, run, id)
    ensures id in Forward(db, run).relays
    ensures
      var r, r' := db.relays[id], Forward(db, run).relays[id];
      && r'.createdAt == r.createdAt
      && ((forall e :: e in run ==> !e.stmt.UpsertRelay?) ==>
            r'.capabilities == r.capabilities && r'.replicationFactor == r.replicationFactor)
    decreases |run|
  {
    if run != [] {
      assert run[0] in run && forall e :: e in run[1..] ==> e in run;
      RelayIdentity(db, run[0].stmt, id);
      LivingRelayKeepsIdentity(Apply(db, run[0].stmt).db, run[1..], id);
    }
  }

  /** Deleting a node leaves its relay in the registry, where heartbeats keep it listed. */
  lemma DeletedNodeStaysListed(db: Db, id: string, stamp: int, t: int, ttl: int)
    requires FindNode(db, id).Some?
    ensures
      var deleted := Apply(db, DeleteNode(id, stamp)).db;
      var beaten := Apply(deleted, HeartbeatRelay(id, None, t)).db;
      && FindNode(deleted, id) == None
      && (id in ListedRows(beaten, t, ttl, NO_FILTER) <==> id in db.relays)
  {
    assert TtlWindow(ttl) > 0;
  }

  // ----- nodes -----

  /** Through any statement a deleted node is frozen, a node with a deletion time changes only
      by deactivation, and every node keeps its id, key hash and creation time. */
  lemma NodeIdentity(db: Db, s: Stmt, id: string)
    requires id in db.nodes
    ensures
      var db' := Apply(db, s).db;
      && id in db'.nodes
      && (db.nodes[id].status == NodeDeleted ==> db'.nodes[id] == db.nodes[id])
      && (db.nodes[id].deletedAt != None && !s.DeactivateNodes? ==> db'.nodes[id] == db.nodes[id])
      && db'.nodes[id].id == db.nodes[id].id
      && db'.nodes[id].authKeyHash == db.nodes[id].authKeyHash
      && db'.nodes[id].createdAt == db.nodes[id].createdAt
  {
  }

  lemma {:induction false} DeletedIsAbsorbing(db: Db, run: seq<Timed>, id: string)
    requires id in db.nodes && db.nodes[id].status == NodeDeleted
    ensures id in Forward(db, run).nodes && Forward(db, run).nodes[id] == db.nodes[id]
    decreases |run|
  {
    if run != [] {
      NodeIdentity(db, run[0].stmt, id);
      DeletedIsAbsorbing(Apply(db, run[0].stmt).db, run[1..], id);
    }
  }

  function SuccessfulInserts(db: Db, run: seq<Timed>): nat
    decreases |run|
  {
    if run == [] then 0
    else (if run[0].stmt.InsertNode? then Apply(db, run[0].stmt).rows else 0)
         + SuccessfulInserts(Apply(db, run[0].stmt).db, run[1..])
  }

  /** The counts of the statuses in S add up to the nodes that have one of them. */
  ghost function SumOver(counts: map<NodeStatus, nat>, statuses: set<NodeStatus>): nat
    requires statuses <= counts.Keys
  {
    if statuses == {} then 0
    else
      var s :| s in statuses;
      counts[s] + SumOver(counts, statuses - {s})
  }

  function HavingOneOf(db: Db, statuses: set<NodeStatus>): set<string> {
    set id | id in db.nodes && db.nodes[id].status in statuses
  }

  lemma OneMoreStatus(db: Db, statuses: set<NodeStatus>, s: NodeStatus)
    requires s in statuses && s in NodeCounts(db)
    ensures |HavingOneOf(db, statuses)| == NodeCounts(db)[s] + |HavingOneOf(db, statuses - {s})|
  {
    SizeOfParts(HavingOneOf(db, statuses), NodesWith(db.nodes, s), HavingOneOf(db, statuses - {s}));
  }

  lemma {:induction false} SumCountsNodes(db: Db, statuses: set<NodeStatus>)
    requires statuses <= NodeCounts(db).Keys
    ensures SumOver(NodeCounts(db), statuses) == |HavingOneOf(db, statuses)|
  {
    if statuses == {} {
      assert HavingOneOf(db, statuses) == {};
    } else {
      var s :| s in statuses && SumOver(NodeCounts(db), statuses) == NodeCounts(db)[s] + SumOver(NodeCounts(db), statuses - {s});
      SumCountsNodes(db, statuses - {s});
      OneMoreStatus(db, statuses, s);
    }
  }

  lemma NewRowCounts(nodes: map<string, Node>, node: Node)
    requires node.id !in nodes
    ensures |nodes[node.id := node]| == |nodes| + 1
  {
    SizeOfParts(nodes[node.id := node].Keys, nodes.Keys, {node.id});
    assert |nodes[node.id := node]| == |nodes[node.id := node].Keys| && |nodes| == |nodes.Keys|;
  }

  lemma OtherStatementsKeepRows(db: Db, s: Stmt)
    requires !s.InsertNode?
    ensures |Apply(db, s).db.nodes| == |db.nodes|
  {
    var nodes' := Apply(db, s).db.nodes;
    assert nodes'.Keys == db.nodes.Keys;
    assert |nodes'| == |nodes'.Keys| && |db.nodes| == |db.nodes.Keys|;
  }

  lemma InsertAddsOne(db: Db, s: Stmt)
    ensures |Apply(db, s).db.nodes| == |db.nodes| + (if s.InsertNode? then Apply(db, s).rows else 0)
  {
    if !s.InsertNode? {
      OtherStatementsKeepRows(db, s);
    } else if !Conflicts(db, s.node) {
      NewRowCounts(db.nodes, s.node);
    }
  }

  lemma {:induction false} InsertsAddUp(db: Db, run: seq<Timed>)
    ensures |Forward(db, run).nodes| == |db.nodes| + SuccessfulInserts(db, run)
    decreases |run|
  {
    if run != [] {
      InsertAddsOne(db, run[0].stmt);
      InsertsAddUp(Apply(db, run[0].stmt).db, run[1..]);
    }
  }

  /** Through any statements at all, the counts by status sum to the successful creations. */
  lemma CountsAreConserved(run: seq<Timed>)
    ensures
      var counts := NodeCounts(Forward(EMPTY_DB, run));
      SumOver(counts, counts.Keys) == SuccessfulInserts(EMPTY_DB, run)
  {
    var db := Forward(EMPTY_DB, run);
    InsertsAddUp(EMPTY_DB, run);
    SumCountsNodes(db, NodeCounts(db).Keys);
    assert HavingOneOf(db, NodeCounts(db).Keys) == db.nodes.Keys;
    assert |db.nodes| == |db.nodes.Keys|;
  }

  /** A node that was active survives a deactivation exactly if it was touched within the
      threshold before it. */
  lemma TouchedNodesStayActive(db: Db, id: string, touched: int, hours: int, stamp: int)
    requires FindNode(db, id).Some? && db.nodes[id].status == NodeActive
    ensures
      var seen := Apply(db, TouchNode(id, touched)).db;
      var after := Apply(seen, DeactivateNodes(hours, stamp)).db;
      after.nodes[id].status == NodeActive <==> touched >= stamp - InactivityWindow(hours)
  {
  }

  lemma {:induction false} NodesAreNeverSeen(run: seq<Timed>, ttl: int)
    requires ServerRun(run, ttl)
    ensures forall id :: id in After(EMPTY_DB, run).nodes ==> After(EMPTY_DB, run).nodes[id].lastSeenAt == None
    decreases |run|
  {
    if run != [] {
      RunInit(run, ttl);
      NodesAreNeverSeen(run[..|run| - 1], ttl);
    }
  }

  /** No handler records contact with a node, so whatever the threshold, a deactivation
      leaves no node active, however recently it registered. */
  lemma {:induction false} DeactivationSparesNobody(run: seq<Timed>, ttl: int, hours: int, stamp: int)
    requires ServerRun(run, ttl)
    ensures NodesWith(Apply(After(EMPTY_DB, run), DeactivateNodes(hours, stamp)).db.nodes, NodeActive) == {}
  {
    NodesAreNeverSeen(run, ttl);
  }
}
