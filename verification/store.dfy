/** The SQLite store: two tables changed in place, one statement at a time. */
module Store {
  import opened Entities
  import opened Listing
  import opened Statements

  datatype Outcome = Done | NodeNotFound | RelayNotFound | ConstraintError

  class SQLiteStore {
    var nodes: map<string, Node>
    var relays: map<string, Relay>

    ghost predicate Valid()
      reads this
    {
      Tidy(View())
    }

    function View(): Db
      reads this
    {
      Db(nodes, relays)
    }

    constructor ()
      ensures View() == EMPTY_DB && Valid()
    {
      nodes, relays := map[], map[];
    }

    method CreateNode(now: int, node: Node) returns (created: Node, res: Outcome)
      requires Valid()
      modifies this`nodes
      ensures Valid()
      ensures created == WithDefaults(node, now)
      ensures res == if Conflicts(old(View()), created) then ConstraintError else Done
      ensures View() == Apply(old(View()), InsertNode(created)).db
    {
      created := node;
      if created.createdAt == ZERO_TIME {
        created := created.(createdAt := now);
      }
      if created.updatedAt == ZERO_TIME {
        created := created.(updatedAt := now);
      }
      if created.status == NodeOther("") {
        created := created.(status := NodeActive);
      }
      if created.id in nodes || (exists id :: id in nodes && nodes[id].authKeyHash == created.authKeyHash) {
        return created, ConstraintError;
      }
      nodes := nodes[created.id := created];
      res := Done;
    }

    method GetNodeByID(id: string) returns (found: Option<Node>)
      ensures found == FindNode(View(), id)
    {
      found := if id in nodes && Live(nodes[id]) then Some(nodes[id]) else None;
    }

    method GetNodeByAuthKeyHash(hash: string) returns (found: Option<Node>)
      requires Valid()
      ensures IsKeyLookup(View(), hash, found)
    {
      if id :| id in nodes && nodes[id].authKeyHash == hash && Live(nodes[id]) {
        found := Some(nodes[id]);
      } else {
        found := None;
      }
    }

    method UpdateNode(now: int, node: Node) returns (res: Outcome)
      requires Valid()
      modifies this`nodes
      ensures Valid()
      ensures res == if node.id in old(nodes) && Live(old(nodes)[node.id]) then Done else NodeNotFound
      ensures View() == Apply(old(View()),
        Statements.UpdateNode(node.id, node.name, node.reservedGB, node.availableGB,
                              node.vpnPublicKey, node.meshURL, node.status, now)).db
    {
      if node.id !in nodes || !Live(nodes[node.id]) {
        return NodeNotFound;
      }
      nodes := nodes[node.id := nodes[node.id].(name := node.name, reservedGB := node.reservedGB,
        availableGB := node.availableGB, vpnPublicKey := node.vpnPublicKey, meshURL := node.meshURL,
        status := node.status, updatedAt := now)];
      res := Done;
    }

    method DeleteNode(now: int, id: string) returns (res: Outcome)
      requires Valid()
      modifies this`nodes
      ensures Valid()
      ensures res == if FindNode(old(View()), id).Some? then Done else NodeNotFound
      ensures View() == Apply(old(View()), Statements.DeleteNode(id, now)).db
    {
      if id !in nodes || !Live(nodes[id]) {
        return NodeNotFound;
      }
      nodes := nodes[id := nodes[id].(status := NodeDeleted, deletedAt := Some(now), updatedAt := now)];
      res := Done;
    }

    method TouchNode(now: int, id: string) returns (res: Outcome)
      requires Valid()
      modifies this`nodes
      ensures Valid()
      ensures res == if FindNode(old(View()), id).Some? then Done else NodeNotFound
      ensures View() == Apply(old(View()), Statements.TouchNode(id, now)).db
    {
      if id !in nodes || !Live(nodes[id]) {
        return NodeNotFound;
      }
      nodes := nodes[id := nodes[id].(lastSeenAt := Some(now), updatedAt := now)];
      res := Done;
    }

    method CleanupInactiveNodes(now: int, thresholdHours: int) returns (affected: nat)
      requires Valid()
      modifies this`nodes
      ensures Valid()
      ensures Effect(View(), affected) == Apply(old(View()), DeactivateNodes(thresholdHours, now))
    {
      var hours := if thresholdHours <= 0 then 24 else thresholdHours;
      var cutoff := now - hours * 3600 * SECOND;
      ghost var before := View();
      affected := ExecDeactivate(cutoff, now);
      assert cutoff == now - InactivityWindow(thresholdHours);
      assert View() == Apply(before, DeactivateNodes(thresholdHours, now)).db;
      TidyStep(before, DeactivateNodes(thresholdHours, now));
    }

    /** UPDATE nodes SET status = 'inactive' WHERE status = 'active' AND (never seen, or not since). */
    method ExecDeactivate(cutoff: int, now: int) returns (affected: nat)
      modifies this`nodes
      ensures nodes == Deactivated(old(nodes), cutoff, now) && affected == |SilentIds(old(nodes), cutoff)|
    {
      var silent := set id | id in nodes && nodes[id].status == NodeActive
                             && (nodes[id].lastSeenAt == None || nodes[id].lastSeenAt.value < cutoff);
      assert silent == SilentIds(nodes, cutoff);
      affected := |silent|;
      nodes := map id | id in nodes ::
        if id in silent then nodes[id].(status := NodeInactive, updatedAt := now) else nodes[id];
    }

    method GetNodeCountsByStatus() returns (counts: map<NodeStatus, nat>)
      ensures counts == NodeCounts(View())
    {
      counts := map[];
      var groups := set id | id in nodes :: nodes[id].status;
      var unread := groups;
      while unread != {}
        invariant unread <= groups && counts.Keys == groups - unread
        invariant forall status :: status in counts ==> counts[status] == |NodesWith(nodes, status)|
        decreases |unread|
      {
        var status :| status in unread;
        var count := |NodesWith(nodes, status)|;
        counts := counts[status := count];
        unread := unread - {status};
      }
      assert NodeCounts(View()).Keys == groups;
    }

    method UpsertRelay(now: int, relay: Relay) returns (written: Relay)
      requires Valid()
      modifies this`relays
      ensures Valid()
      ensures written == RelayWithDefaults(relay, now)
      ensures View() == Apply(old(View()), Statements.UpsertRelay(written)).db
    {
      written := relay;
      if written.createdAt == ZERO_TIME {
        written := written.(createdAt := now);
      }
      written := written.(updatedAt := now);
      if written.status == RelayOther("") {
        written := written.(status := RelayActive);
      }
      if written.replicationFactor == 0 {
        written := written.(replicationFactor := 1);
      }
      if written.nodeId in relays {
        relays := relays[written.nodeId := written.(createdAt := relays[written.nodeId].createdAt)];
      } else {
        relays := relays[written.nodeId := written];
      }
    }

    method GetRelayByNodeID(id: string) returns (found: Option<Relay>)
      ensures found == FindRelay(View(), id)
    {
      found := if id in relays then Some(relays[id]) else None;
    }

    method ListActiveRelays(now: int, ttlWindowSeconds: int, f: ListFilter, limit: int) returns (page: Page)
      ensures page == ListRelays(View(), now, ttlWindowSeconds, f, limit)
    {
      var ttl := if ttlWindowSeconds <= 0 then 300 else ttlWindowSeconds;
      var bound := if limit <= 0 then 100 else limit;
      var cutoff := now - ttl * SECOND;
      var rows := map id | id in relays && Listed(relays[id], cutoff, f) :: relays[id];
      assert rows == ListedRows(View(), now, ttlWindowSeconds, f);
      var cursor := Ordered(rows);
      if |cursor| > bound {
        cursor := cursor[..bound];
      }
      var out: seq<Relay> := [];
      for i := 0 to |cursor|
        invariant out == cursor[..i]
      {
        out := out + [cursor[i]];
      }
      page := Page(out, |rows|);
    }

    method UpdateRelayHeartbeat(now: int, id: string, storage: Option<nat>) returns (res: Outcome)
      requires Valid()
      modifies this`relays
      ensures Valid()
      ensures res == if id in old(relays) then Done else RelayNotFound
      ensures View() == Apply(old(View()), HeartbeatRelay(id, storage, now)).db
    {
      if id !in relays {
        return RelayNotFound;
      }
      if storage.Some? {
        relays := relays[id := relays[id].(lastSeenAt := now, status := RelayActive,
          availableGB := storage.value, updatedAt := now)];
      } else {
        relays := relays[id := relays[id].(lastSeenAt := now, status := RelayActive, updatedAt := now)];
      }
      res := Done;
    }

    method UpdateRelayFull(now: int, relay: Relay) returns (res: Outcome)
      requires Valid()
      modifies this`relays
      ensures Valid()
      ensures res == if relay.nodeId in old(relays) then Done else RelayNotFound
      ensures View() == Apply(old(View()), FullUpdateOf(relay, now)).db
    {
      var id := relay.nodeId;
      if id !in relays {
        return RelayNotFound;
      }
      relays := relays[id := relays[id].(url := relay.url, fingerprint := relay.fingerprint,
        reservedGB := relay.reservedGB, availableGB := relay.availableGB, version := relay.version,
        uptimeSecs := relay.uptimeSecs, status := RelayActive, lastSeenAt := now, updatedAt := now)];
      res := Done;
    }

    method MarkRelayUnreachable(now: int, id: string) returns (res: Outcome)
      requires Valid()
      modifies this`relays
      ensures Valid()
      ensures res == if id in old(relays) then Done else RelayNotFound
      ensures View() == Apply(old(View()), MarkUnreachable(id, now)).db
    {
      if id !in relays {
        return RelayNotFound;
      }
      relays := relays[id := relays[id].(status := RelayUnreachable, updatedAt := now)];
      res := Done;
    }

    method DeleteRelay(id: string) returns (res: Outcome)
      requires Valid()
      modifies this`relays
      ensures Valid()
      ensures res == if id in old(relays) then Done else RelayNotFound
      ensures View() == Apply(old(View()), Statements.DeleteRelay(id)).db
    {
      if id !in relays {
        return RelayNotFound;
      }
      relays := relays - {id};
      res := Done;
    }

    method CountActiveRelays(now: int, ttlWindowSeconds: int) returns (count: nat)
      ensures count == CountRelays(View(), now, ttlWindowSeconds)
    {
      var ttl := if ttlWindowSeconds <= 0 then 300 else ttlWindowSeconds;
      var cutoff := now - ttl * SECOND;
      count := |set id | id in relays && relays[id].status == RelayActive && relays[id].lastSeenAt >= cutoff|;
    }

    method CleanupStaleRelays(now: int, ttlSeconds: int) returns (marked: nat, deleted: nat)
      requires Valid()
      modifies this`relays
      ensures Valid()
      ensures
        var first := Apply(old(View()), MarkStale(ttlSeconds, now));
        Effect(first.db, marked) == first
        && Effect(View(), deleted) == Apply(first.db, PurgeStale(ttlSeconds, now))
    {
      var ttl := if ttlSeconds <= 0 then 300 else ttlSeconds;
      var unreachableCutoff := now - ttl * SECOND;
      var deleteCutoff := now - 2 * ttl * SECOND;
      ghost var before := View();
      marked := ExecMark(unreachableCutoff, now);
      ghost var between := View();
      assert between == Apply(before, MarkStale(ttlSeconds, now)).db;
      deleted := ExecPurge(deleteCutoff);
      assert View() == Apply(between, PurgeStale(ttlSeconds, now)).db;
      TidyStep(before, MarkStale(ttlSeconds, now));
      TidyStep(between, PurgeStale(ttlSeconds, now));
    }

    /** UPDATE relays SET status = 'unreachable' WHERE status = 'active' AND not seen since. */
    method ExecMark(cutoff: int, now: int) returns (affected: nat)
      modifies this`relays
      ensures relays == Marked(old(relays), cutoff, now) && affected == |StaleIds(old(relays), cutoff)|
    {
      var stale := set id | id in relays && relays[id].status == RelayActive && relays[id].lastSeenAt < cutoff;
      assert stale == StaleIds(relays, cutoff);
      affected := |stale|;
      relays := map id | id in relays ::
        if id in stale then relays[id].(status := RelayUnreachable, updatedAt := now) else relays[id];
    }

    /** DELETE FROM relays WHERE status = 'unreachable' AND not seen since. */
    method ExecPurge(cutoff: int) returns (affected: nat)
      modifies this`relays
      ensures relays == Purged(old(relays), cutoff) && affected == |ExpiredIds(old(relays), cutoff)|
    {
      var expired := set id | id in relays && relays[id].status == RelayUnreachable && relays[id].lastSeenAt < cutoff;
      assert expired == ExpiredIds(relays, cutoff);
      affected := |expired|;
      relays := relays - expired;
    }
  }

  function WithDefaults(node: Node, now: int): Node {
    node.(createdAt := if node.createdAt == ZERO_TIME then now else node.createdAt,
          updatedAt := if node.updatedAt == ZERO_TIME then now else node.updatedAt,
          status := if node.status == NodeOther("") then NodeActive else node.status)
  }

  function RelayWithDefaults(relay: Relay, now: int): Relay {
    relay.(createdAt := if relay.createdAt == ZERO_TIME then now else relay.createdAt,
           updatedAt := now,
           status := if relay.status == RelayOther("") then RelayActive else relay.status,
           replicationFactor := if relay.replicationFactor == 0 then 1 else relay.replicationFactor)
  }

  function FullUpdateOf(relay: Relay, now: int): Stmt {
    Statements.UpdateRelayFull(relay.nodeId, relay.url, relay.fingerprint, relay.reservedGB,
                               relay.availableGB, relay.version, relay.uptimeSecs, now)
  }
}
