/** Relay by relay: when what an interleaved cache hit serves differs from the table. */
module ServedRelays {
  import opened Entities
  import opened Listing
  import opened Statements
  import opened History
  import opened DiscoveryCache
  import opened Handlers
  import opened Coherence
  import opened Interleaving
  import opened InterleavedCache

  // ----- tracking one row -----

  function RowIn(m: Rows, id: string): Option<Relay> {
    if id in m then Some(m[id]) else None
  }

  /** The row as a listing with this cutoff holds it. */
  function ListedRow(r: Option<Relay>, cutoff: int): Option<Relay> {
    if r.Some? && r.value.status == RelayActive && r.value.lastSeenAt >= cutoff then r else None
  }

  /** At t, relay id is listed by the table as by the rows m. */
  predicate TracksAt(cfg: Config, db: Db, t: int, m: Rows, id: string) {
    ListedRow(FindRelay(db, id), t - TtlWindow(cfg.relayTTL)) == ListedRow(RowIn(m, id), t - TtlWindow(cfg.relayTTL))
  }

  lemma TimePassesAt(cfg: Config, db: Db, t: int, u: int, m: Rows, id: string)
    requires TracksAt(cfg, db, t, m, id) && t <= u
    ensures TracksAt(cfg, db, u, m, id)
  {
  }

  lemma StatementKeepsTrackAt(cfg: Config, db: Db, s: Stmt, now: int, m: Rows, id: string)
    requires TracksAt(cfg, db, now, m, id) && FromServer(s, now, cfg.relayTTL)
    requires !Addresses(s, id) || Apply(db, s).rows == 0
    ensures TracksAt(cfg, Apply(db, s).db, now, m, id)
  {
    StatementsAreRowwise(db, s, id);
  }

  /** The event writes or removes the row of relay id. */
  predicate WritesRow(cfg: Config, w: World, e: Event, id: string) {
    && Happens(w, e) && Runs(cfg, w, e).Some?
    && Addresses(Runs(cfg, w, e).value, id) && Apply(w.db, Runs(cfg, w, e).value).rows > 0
  }

  lemma EventKeepsTrackAt(cfg: Config, w: World, e: Event, n: nat, w': World, m: Rows, id: string)
    requires Sound(w) && w' == Next(cfg, w, e, n) && TracksAt(cfg, w.db, w.now, m, id) && !WritesRow(cfg, w, e, id)
    ensures TracksAt(cfg, w'.db, w'.now, m, id)
  {
    if Happens(w, e) {
      TimePassesAt(cfg, w.db, w.now, e.now, m, id);
      if Runs(cfg, w, e).Some? {
        RunsFromServer(cfg, w, e);
        StatementKeepsTrackAt(cfg, w.db, Runs(cfg, w, e).value, e.now, m, id);
      }
    }
  }

  lemma WriteIsCommit(cfg: Config, w: World, e: Event, n: nat, w': World, id: string)
    requires w' == Next(cfg, w, e, n) && WritesRow(cfg, w, e, id)
    ensures HasThread(e) && At(w', e.tid) == Committed(n)
  {
  }

  predicate WritesAt(cfg: Config, es: seq<Event>, ws: seq<World>, k: nat, id: string) {
    k < |es| < |ws| && WritesRow(cfg, ws[k], es[k], id)
  }

  /** The rows a page with these positions was cut from. */
  function PageRows(cfg: Config, es: seq<Event>, ws: seq<World>, c: nat, q: nat): Rows
    requires QueriesAt(es, ws, c, q)
  {
    ListedRows(ws[q].db, es[c].stamp, cfg.relayTTL, NO_FILTER)
  }

  lemma PageTracksItself(cfg: Config, es: seq<Event>, ws: seq<World>, c: nat, q: nat, id: string)
    requires Execution(cfg, es, ws) && QueriesAt(es, ws, c, q)
    ensures TracksAt(cfg, ws[q + 1].db, ws[q + 1].now, PageRows(cfg, es, ws, c, q), id)
  {
    assert Follows(cfg, es, ws, q);
    var stamp := es[c].stamp;
    assert TracksAt(cfg, ws[q].db, stamp, PageRows(cfg, es, ws, c, q), id);
    TimePassesAt(cfg, ws[q].db, stamp, es[q].now, PageRows(cfg, es, ws, c, q), id);
  }

  lemma TrackedAtStep(cfg: Config, es: seq<Event>, ws: seq<World>, n: nat, m: Rows, id: string)
    requires Execution(cfg, es, ws) && n < |es| && TracksAt(cfg, ws[n].db, ws[n].now, m, id)
    requires !WritesAt(cfg, es, ws, n, id)
    ensures TracksAt(cfg, ws[n + 1].db, ws[n + 1].now, m, id)
  {
    AlwaysSound(cfg, es, ws, n);
    assert Follows(cfg, es, ws, n);
    EventKeepsTrackAt(cfg, ws[n], es[n], n, ws[n + 1], m, id);
  }

  lemma {:induction false} TrackedAtSinceQuery(cfg: Config, es: seq<Event>, ws: seq<World>, c: nat, q: nat, n: nat,
                                               id: string)
    requires Execution(cfg, es, ws) && QueriesAt(es, ws, c, q) && q < n <= |es|
    requires forall k :: q < k < n ==> !WritesAt(cfg, es, ws, k, id)
    ensures TracksAt(cfg, ws[n].db, ws[n].now, PageRows(cfg, es, ws, c, q), id)
    decreases n
  {
    if n == q + 1 {
      PageTracksItself(cfg, es, ws, c, q, id);
    } else {
      TrackedAtSinceQuery(cfg, es, ws, c, q, n - 1, id);
      TrackedAtStep(cfg, es, ws, n - 1, PageRows(cfg, es, ws, c, q), id);
    }
  }

  // ----- what a hit serves for one relay -----

  /** Event k wrote the row of relay id after the cached page's list was read, and its request has
      not invalidated yet, or its Invalidate was overtaken by the page's Set. */
  ghost predicate MissedWrite(cfg: Config, es: seq<Event>, ws: seq<World>, n: nat, k: nat, id: string)
    requires n <= |es| < |ws|
  {
    WritesAt(cfg, es, ws, k, id) && HasThread(es[k]) && Missed(es, ws, n, k, es[k].tid)
  }

  lemma UnseenWriteOfRow(cfg: Config, es: seq<Event>, ws: seq<World>, n: nat, k: nat, id: string)
    requires Execution(cfg, es, ws) && n <= |es| && ws[n].page.cache.hasCached
    requires ws[n].page.queryAt < k < n && WritesAt(cfg, es, ws, k, id)
    ensures MissedWrite(cfg, es, ws, n, k, id)
  {
    assert Follows(cfg, es, ws, k);
    WriteIsCommit(cfg, ws[k], es[k], k, ws[k + 1], id);
    UnseenWriteIsMissed(cfg, es, ws, n, k, es[k].tid);
  }

  /** In every interleaving, whenever the cache holds a page: for each relay, either the rows the
      page was cut from list it at t as the table does, or a write of that very relay was missed. */
  lemma RowIsTrackedOrMissed(cfg: Config, es: seq<Event>, ws: seq<World>, n: nat, t: int, id: string)
    requires Execution(cfg, es, ws) && n <= |es| && ws[n].now <= t && ws[n].page.cache.hasCached
    ensures QueriesAt(es, ws, ws[n].page.countAt, ws[n].page.queryAt)
    ensures
      || TracksAt(cfg, ws[n].db, t, PageRows(cfg, es, ws, ws[n].page.countAt, ws[n].page.queryAt), id)
      || exists k: nat :: MissedWrite(cfg, es, ws, n, k, id)
  {
    var c, q := ws[n].page.countAt, ws[n].page.queryAt;
    CachedPageIsPastQuery(cfg, es, ws, n);
    if k: nat :| q < k < n && WritesAt(cfg, es, ws, k, id) {
      UnseenWriteOfRow(cfg, es, ws, n, k, id);
    } else {
      TrackedAtSinceQuery(cfg, es, ws, c, q, n, id);
      TimePassesAt(cfg, ws[n].db, ws[n].now, t, PageRows(cfg, es, ws, c, q), id);
    }
  }

  lemma EntryIsRow(m: Rows, limit: nat, d: RelayDTO)
    requires d in ToDTOs(Take(Ordered(m), limit)) && forall k :: k in m ==> m[k].nodeId == k
    ensures d.nodeId in m && ToDTO(m[d.nodeId]) == d
  {
    var page := Take(Ordered(m), limit);
    var i: nat :| i < |page| && ToDTOs(page)[i] == d;
    var k := PlaceHolder(m, i);
    assert ToDTO(m[k]) == d && m[k].nodeId == k;
  }

  lemma PageIsCutFrom(cfg: Config, es: seq<Event>, ws: seq<World>, n: nat)
    requires Execution(cfg, es, ws) && n <= |es| && ws[n].page.cache.hasCached
    ensures
      var p := ws[n].page;
      && QueriesAt(es, ws, p.countAt, p.queryAt)
      && var m := PageRows(cfg, es, ws, p.countAt, p.queryAt);
         && p.cache.relays == ToDTOs(Take(Ordered(m), ListLimit(cfg.maxRelays)))
         && forall k :: k in m ==> m[k].nodeId == k
  {
    CachedPageIsPastQuery(cfg, es, ws, n);
    AlwaysSound(cfg, es, ws, ws[n].page.queryAt);
  }

  /** The table lists relay d.nodeId at t, with exactly these fields. */
  predicate ListedAs(cfg: Config, db: Db, t: int, d: RelayDTO) {
    var m := ListedRows(db, t, cfg.relayTTL, NO_FILTER);
    d.nodeId in m && ToDTO(m[d.nodeId]) == d
  }

  /** Every entry a hit at t serves that is still in the relay window is what the table lists for
      that relay, unless a write of that relay was missed. */
  lemma ServedRelayIsListed(cfg: Config, es: seq<Event>, ws: seq<World>, n: nat, t: int, d: RelayDTO)
    requires Execution(cfg, es, ws) && n <= |es| && ws[n].now <= t
    requires Hits(ws[n].page.cache, CacheWindow(cfg.cacheTTL), t)
    requires d in ws[n].page.cache.relays && d.lastSeen >= t - TtlWindow(cfg.relayTTL)
    ensures ListedAs(cfg, ws[n].db, t, d) || exists k: nat :: MissedWrite(cfg, es, ws, n, k, d.nodeId)
  {
    PageIsCutFrom(cfg, es, ws, n);
    EntryIsRow(PageRows(cfg, es, ws, ws[n].page.countAt, ws[n].page.queryAt), ListLimit(cfg.maxRelays), d);
    RowIsTrackedOrMissed(cfg, es, ws, n, t, d.nodeId);
  }

  /** So an entry in the window for a relay the table no longer has is served only if a write of
      that relay was missed. */
  lemma DeletedRelayServedOnlyIfMissed(cfg: Config, es: seq<Event>, ws: seq<World>, n: nat, t: int, d: RelayDTO)
    requires Execution(cfg, es, ws) && n <= |es| && ws[n].now <= t
    requires Hits(ws[n].page.cache, CacheWindow(cfg.cacheTTL), t)
    requires d in ws[n].page.cache.relays && d.lastSeen >= t - TtlWindow(cfg.relayTTL)
    requires d.nodeId !in ws[n].db.relays
    ensures exists k: nat :: MissedWrite(cfg, es, ws, n, k, d.nodeId)
  {
    ServedRelayIsListed(cfg, es, ws, n, t, d);
  }

  /** And every relay the table lists at t is served with its fields exactly if fewer relays than
      the limit come before it in the rows the page was cut from, unless a write of it was missed. */
  lemma ListedRelayIsServedIff(cfg: Config, es: seq<Event>, ws: seq<World>, n: nat, t: int, d: RelayDTO)
    requires Execution(cfg, es, ws) && n <= |es| && ws[n].now <= t
    requires Hits(ws[n].page.cache, CacheWindow(cfg.cacheTTL), t) && ListedAs(cfg, ws[n].db, t, d)
    requires forall k: nat :: !MissedWrite(cfg, es, ws, n, k, d.nodeId)
    ensures QueriesAt(es, ws, ws[n].page.countAt, ws[n].page.queryAt)
    ensures
      var m := PageRows(cfg, es, ws, ws[n].page.countAt, ws[n].page.queryAt);
      && d.nodeId in m
      && (d in ws[n].page.cache.relays <==> |Ahead(m, d.nodeId)| < ListLimit(cfg.maxRelays))
  {
    PageIsCutFrom(cfg, es, ws, n);
    RowIsTrackedOrMissed(cfg, es, ws, n, t, d.nodeId);
    var m := PageRows(cfg, es, ws, ws[n].page.countAt, ws[n].page.queryAt);
    assert RowIn(m, d.nodeId).Some? && ToDTO(m[d.nodeId]) == d;
    OnPageIff(m, ListLimit(cfg.maxRelays), d.nodeId);
  }
}
