/** The writes no route reaches, and the blanks the store fills in: which columns change, and which
    stay. */
module Writes {
  import opened Entities
  import opened Statements
  import opened Store

  /** An update of a live node writes seven columns and its own time; the id, the key hash, and the
      times of creation, contact and deletion stay, as does every other row. */
  lemma UpdateNodeWritesExactly(db: Db, s: Stmt)
    requires s.UpdateNode?
    ensures
      if s.id in db.nodes && db.nodes[s.id].status != NodeDeleted && db.nodes[s.id].deletedAt == None
      then
        var was := db.nodes[s.id];
        Apply(db, s) == Effect(Db(db.nodes[s.id := Node(was.id, was.authKeyHash, s.name, s.reservedGB, s.availableGB,
          s.vpnPublicKey, s.meshURL, s.status, was.createdAt, s.stamp, was.lastSeenAt, was.deletedAt)], db.relays), 1)
      else Apply(db, s) == Effect(db, 0)
  {
  }

  /** A contact with a live node writes two times and nothing else. */
  lemma TouchNodeWritesExactly(db: Db, id: string, stamp: int)
    ensures
      if id in db.nodes && db.nodes[id].status != NodeDeleted && db.nodes[id].deletedAt == None
      then
        var was := db.nodes[id];
        Apply(db, TouchNode(id, stamp)) == Effect(Db(db.nodes[id := Node(was.id, was.authKeyHash, was.name,
          was.reservedGB, was.availableGB, was.vpnPublicKey, was.meshURL, was.status, was.createdAt, stamp,
          Some(stamp), was.deletedAt)], db.relays), 1)
      else Apply(db, TouchNode(id, stamp)) == Effect(db, 0)
  {
  }

  /** Marking one relay by its id writes its status and its time of update and nothing else. */
  lemma MarkUnreachableWritesExactly(db: Db, id: string, stamp: int)
    ensures
      if id in db.relays
      then
        var was := db.relays[id];
        Apply(db, MarkUnreachable(id, stamp)) == Effect(Db(db.nodes, db.relays[id := Relay(was.nodeId, was.url,
          was.fingerprint, was.reservedGB, was.availableGB, was.replicationFactor, was.version, was.uptimeSecs,
          was.capabilities, RelayUnreachable, was.lastSeenAt, was.createdAt, stamp)]), 1)
      else Apply(db, MarkUnreachable(id, stamp)) == Effect(db, 0)
  {
  }

  /** A new node is stored as given, but for times that are zero and a blank status. */
  lemma NodeBlanksFilled(node: Node, now: int)
    ensures
      var stored := WithDefaults(node, now);
      && stored.(createdAt := node.createdAt, updatedAt := node.updatedAt, status := node.status) == node
      && stored.createdAt == (if node.createdAt == 0 then now else node.createdAt)
      && stored.updatedAt == (if node.updatedAt == 0 then now else node.updatedAt)
      && stored.status == (if node.status == NodeOther("") then NodeActive else node.status)
  {
  }

  /** A relay is stored as given, but for its time of update, a creation time that is zero, a blank
      status and a replication factor of zero. */
  lemma RelayBlanksFilled(relay: Relay, now: int)
    ensures
      var stored := RelayWithDefaults(relay, now);
      && stored.(createdAt := relay.createdAt, updatedAt := relay.updatedAt, status := relay.status,
                 replicationFactor := relay.replicationFactor) == relay
      && stored.updatedAt == now
      && stored.createdAt == (if relay.createdAt == 0 then now else relay.createdAt)
      && stored.status == (if relay.status == RelayOther("") then RelayActive else relay.status)
      && stored.replicationFactor == (if relay.replicationFactor == 0 then 1 else relay.replicationFactor)
  {
  }
}
