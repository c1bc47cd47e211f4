/** The rows of the registry. Timestamps are nanoseconds on one axis. */
module Entities {

  const SECOND: int := 1_000_000_000

  /** The zero time of an absent timestamp. */
  const ZERO_TIME: int := 0

  datatype Option<+T> = None | Some(value: T)

  /** A node status the server has no name for. */
  type NodeStatusText = s: string | s != "active" && s != "inactive" && s != "suspended" && s != "deleted"
    witness ""

  datatype NodeStatus = NodeActive | NodeInactive | NodeSuspended | NodeDeleted | NodeOther(text: NodeStatusText)

  datatype Node = Node(
    id: string,
    authKeyHash: string,
    name: string,
    reservedGB: nat,
    availableGB: nat,
    vpnPublicKey: string,
    meshURL: string,
    status: NodeStatus,
    createdAt: int,
    updatedAt: int,
    lastSeenAt: Option<int>,
    deletedAt: Option<int>)

  /** A relay status the server has no name for. */
  type RelayStatusText = s: string | s != "active" && s != "inactive" && s != "unreachable"
    witness ""

  datatype RelayStatus = RelayActive | RelayInactive | RelayUnreachable | RelayOther(text: RelayStatusText)

  datatype Relay = Relay(
    nodeId: string,
    url: string,
    fingerprint: string,
    reservedGB: nat,
    availableGB: nat,
    replicationFactor: nat,
    version: string,
    uptimeSecs: nat,
    capabilities: seq<string>,
    status: RelayStatus,
    lastSeenAt: int,
    createdAt: int,
    updatedAt: int)

  /** The two tables, by primary key. */
  datatype Db = Db(nodes: map<string, Node>, relays: map<string, Relay>)

  const EMPTY_DB := Db(map[], map[])

  /** The window a relay stays listed after it was last seen; non-positive settings mean 300 s. */
  function TtlWindow(ttlSeconds: int): int {
    (if ttlSeconds <= 0 then 300 else ttlSeconds) * SECOND
  }
}
