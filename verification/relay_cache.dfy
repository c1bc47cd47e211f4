/** The discovery cache and the wire form of a relay. */
module DiscoveryCache {
  import opened Entities
  import opened Listing

  datatype RelayDTO = RelayDTO(
    nodeId: string,
    url: string,
    fingerprint: string,
    reservedGB: nat,
    availableGB: nat,
    replicationFactor: nat,
    version: string,
    uptimeSecs: nat,
    capabilities: seq<string>,
    lastSeen: int)

  function ToDTO(r: Relay): RelayDTO {
    RelayDTO(r.nodeId, r.url, r.fingerprint, r.reservedGB, r.availableGB, r.replicationFactor,
             r.version, r.uptimeSecs, r.capabilities, r.lastSeenAt)
  }

  function ToDTOs(s: seq<Relay>): (d: seq<RelayDTO>)
    ensures |d| == |s| && forall i :: 0 <= i < |s| ==> d[i] == ToDTO(s[i])
  {
    if s == [] then [] else [ToDTO(s[0])] + ToDTOs(s[1..])
  }

  /** The listed relays seen no earlier than `cutoff`. */
  function KeepFresh(s: seq<RelayDTO>, cutoff: int): seq<RelayDTO> {
    if s == [] then [] else (if s[0].lastSeen >= cutoff then [s[0]] else []) + KeepFresh(s[1..], cutoff)
  }

  lemma {:induction false} KeepFreshOfDTOs(s: seq<Relay>, cutoff: int)
    ensures KeepFresh(ToDTOs(s), cutoff) == ToDTOs(Filter(s, SeenSince(cutoff)))
  {
    if s != [] {
      KeepFreshOfDTOs(s[1..], cutoff);
      assert ToDTOs(s)[1..] == ToDTOs(s[1..]);
      var rest := Filter(s[1..], SeenSince(cutoff));
      assert ([s[0]] + rest)[1..] == rest;
    }
  }

  predicate AllFresh(s: seq<RelayDTO>, cutoff: int) {
    forall i :: 0 <= i < |s| ==> s[i].lastSeen >= cutoff
  }

  lemma {:induction false} KeepFreshAll(s: seq<RelayDTO>, cutoff: int)
    ensures |KeepFresh(s, cutoff)| <= |s|
    ensures KeepFresh(s, cutoff) == s <==> AllFresh(s, cutoff)
  {
    if s != [] {
      KeepFreshAll(s[1..], cutoff);
      assert s == [s[0]] + s[1..];
      if s[0].lastSeen >= cutoff && KeepFresh(s[1..], cutoff) == s[1..] {
        forall i | 0 <= i < |s| ensures s[i].lastSeen >= cutoff {
          assert i > 0 ==> s[i] == s[1..][i - 1];
        }
      }
    }
  }

  function CacheWindow(ttlSeconds: int): int {
    (if ttlSeconds <= 0 then 15 else ttlSeconds) * SECOND
  }

  /** The cache as a value. */
  datatype Cache = Cache(hasCached: bool, cachedAt: int, relays: seq<RelayDTO>, total: nat)

  const EMPTY_CACHE := Cache(false, ZERO_TIME, [], 0)

  predicate Hits(c: Cache, window: int, now: int) {
    c.hasCached && now - c.cachedAt <= window
  }

  function Invalidated(c: Cache): Cache {
    c.(hasCached := false)
  }

  class RelayCache {
    var cachedAt: int
    const ttl: int
    var relays: seq<RelayDTO>
    var total: nat
    var hasCached: bool

    function View(): Cache
      reads this
    {
      Cache(hasCached, cachedAt, relays, total)
    }

    constructor (ttlSeconds: int)
      ensures View() == EMPTY_CACHE && ttl == CacheWindow(ttlSeconds)
    {
      hasCached, cachedAt, relays, total := false, ZERO_TIME, [], 0;
      ttl := if ttlSeconds <= 0 then 15 * SECOND else ttlSeconds * SECOND;
    }

    method Get(now: int) returns (list: seq<RelayDTO>, count: nat, ok: bool)
      ensures ok <==> Hits(View(), ttl, now)
      ensures ok ==> list == relays && count == total
      ensures !ok ==> list == [] && count == 0
    {
      if !hasCached {
        return [], 0, false;
      }
      if now - cachedAt > ttl {
        return [], 0, false;
      }
      return relays, total, true;
    }

    method Set(now: int, list: seq<RelayDTO>, count: nat)
      modifies this
      ensures View() == Cache(true, now, list, count)
    {
      relays := list;
      total := count;
      cachedAt := now;
      hasCached := true;
    }

    method Invalidate()
      modifies this
      ensures View() == Invalidated(old(View()))
    {
      hasCached := false;
    }
  }
}
