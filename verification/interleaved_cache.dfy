/** What the discovery cache can and cannot miss when handlers interleave. */
module InterleavedCache {
  import opened Entities
  import opened Listing
  import opened Statements
  import opened DiscoveryCache
  import opened Handlers
  import opened Coherence
  import opened Interleaving

  // ----- every cached page is some past request's result -----

  /** A request counts at position c and lists at position q, both with the stamp it read before
      the count. */
  predicate QueriesAt(es: seq<Event>, ws: seq<World>, c: nat, q: nat) {
    && c < q < |es| < |ws|
    && es[c].Count? && Happens(ws[c], es[c]) && es[q].Select? && Happens(ws[q], es[q])
    && es[c].tid == es[q].tid && es[c].stamp <= ws[q].now
  }

  /** The page that request returned: the total of one moment and the list of a later one. */
  predicate PageOf(cfg: Config, es: seq<Event>, ws: seq<World>, c: nat, q: nat, list: seq<RelayDTO>, total: nat)
    requires QueriesAt(es, ws, c, q)
  {
    total == LiveTotal(cfg, ws[c].db, es[c].stamp) && list == LiveList(cfg, ws[q].db, es[c].stamp)
  }

  /** What a thread remembers of its statements is what they returned. */
  predicate PcTrue(cfg: Config, es: seq<Event>, ws: seq<World>, n: nat, tid: nat, pc: Pc)
    requires n <= |es| < |ws|
  {
    match pc
    case Counted(total, stamp, at) =>
      && at < n && es[at].Count? && es[at].tid == tid && es[at].stamp == stamp
      && Happens(ws[at], es[at]) && stamp <= ws[n].now && total == LiveTotal(cfg, ws[at].db, stamp)
    case Queried(list, total, countAt, at) =>
      at < n && QueriesAt(es, ws, countAt, at) && PageOf(cfg, es, ws, countAt, at, list, total)
    case _ => true
  }

  ghost predicate QueriesTrue(cfg: Config, es: seq<Event>, ws: seq<World>, n: nat)
    requires n <= |es| < |ws|
  {
    forall tid :: tid in ws[n].threads ==> PcTrue(cfg, es, ws, n, tid, ws[n].threads[tid])
  }

  predicate PageTrue(cfg: Config, es: seq<Event>, ws: seq<World>, n: nat)
    requires n <= |es| < |ws|
  {
    var p := ws[n].page;
    p.cache.hasCached ==>
      && p.queryAt < p.setAt < n
      && QueriesAt(es, ws, p.countAt, p.queryAt)
      && PageOf(cfg, es, ws, p.countAt, p.queryAt, p.cache.relays, p.cache.total)
      && p.cache.cachedAt == es[p.setAt].now
  }

  lemma QueriesTrueStep(cfg: Config, es: seq<Event>, ws: seq<World>, n: nat)
    requires n < |es| && |ws| == |es| + 1 && Follows(cfg, es, ws, n)
    requires QueriesTrue(cfg, es, ws, n)
    ensures QueriesTrue(cfg, es, ws, n + 1)
  {
  }

  lemma PageTrueStep(cfg: Config, es: seq<Event>, ws: seq<World>, n: nat)
    requires n < |es| && |ws| == |es| + 1 && Follows(cfg, es, ws, n)
    requires QueriesTrue(cfg, es, ws, n) && PageTrue(cfg, es, ws, n)
    ensures PageTrue(cfg, es, ws, n + 1)
  {
  }

  /** Whatever is cached is what one past request's count and, later, its list returned, cached
      after both. */
  lemma {:induction false} CachedPageIsPastQuery(cfg: Config, es: seq<Event>, ws: seq<World>, n: nat)
    requires Execution(cfg, es, ws) && n <= |es|
    ensures QueriesTrue(cfg, es, ws, n) && PageTrue(cfg, es, ws, n)
  {
    if n > 0 {
      CachedPageIsPastQuery(cfg, es, ws, n - 1);
      assert Follows(cfg, es, ws, n - 1);
      QueriesTrueStep(cfg, es, ws, n - 1);
      PageTrueStep(cfg, es, ws, n - 1);
    }
  }

  // ----- which writes a cached page can miss -----

  /** Request tid commits a relay write at position c. */
  predicate CommitsAt(ws: seq<World>, c: nat, tid: nat) {
    c + 1 < |ws| && At(ws[c + 1], tid) == Committed(c)
  }

  /** Request tid, which committed at c, invalidates the cache at position i. */
  predicate InvalidatesAt(es: seq<Event>, ws: seq<World>, i: nat, tid: nat, c: nat) {
    && i < |es| < |ws|
    && es[i].Invalidate? && es[i].tid == tid && Happens(ws[i], es[i])
    && At(ws[i], tid) == Committed(c)
  }

  lemma PendingStep(cfg: Config, w: World, e: Event, n: nat, w': World, tid: nat, c: nat)
    requires w' == Next(cfg, w, e, n) && At(w, tid) == Committed(c)
    ensures At(w', tid) == Committed(c) || (e.Invalidate? && e.tid == tid && Happens(w, e))
  {
  }

  /** A committed write stays pending until its own Invalidate. */
  lemma {:induction false} PendingOrInvalidated(cfg: Config, es: seq<Event>, ws: seq<World>, c: nat, tid: nat, n: nat)
    requires Execution(cfg, es, ws) && CommitsAt(ws, c, tid) && c < n <= |es|
    ensures At(ws[n], tid) == Committed(c) || exists i :: c < i < n && InvalidatesAt(es, ws, i, tid, c)
    decreases n
  {
    if n > c + 1 {
      PendingOrInvalidated(cfg, es, ws, c, tid, n - 1);
      if At(ws[n - 1], tid) == Committed(c) {
        assert Follows(cfg, es, ws, n - 1);
        PendingStep(cfg, ws[n - 1], es[n - 1], n - 1, ws[n], tid, c);
        assert At(ws[n], tid) == Committed(c) || InvalidatesAt(es, ws, n - 1, tid, c);
      }
    }
  }

  lemma {:induction false} SetFollowsInvalidate(cfg: Config, es: seq<Event>, ws: seq<World>, i: nat, tid: nat,
                                                c: nat, n: nat)
    requires Execution(cfg, es, ws) && InvalidatesAt(es, ws, i, tid, c) && i < n <= |es|
    ensures ws[n].page.cache.hasCached ==> i < ws[n].page.setAt
    decreases n
  {
    assert Follows(cfg, es, ws, n - 1);
    if n > i + 1 {
      SetFollowsInvalidate(cfg, es, ws, i, tid, c, n - 1);
    }
  }

  /** A write the cached page's query did not see is still about to invalidate, or its
      Invalidate was overtaken by a Set whose list was read before the write's commit. */
  ghost predicate Missed(es: seq<Event>, ws: seq<World>, n: nat, c: nat, tid: nat)
    requires n <= |es| < |ws|
  {
    var p := ws[n].page;
    && CommitsAt(ws, c, tid) && p.queryAt < c < n
    && (At(ws[n], tid) == Committed(c)
        || exists i :: c < i < p.setAt && InvalidatesAt(es, ws, i, tid, c))
  }

  lemma UnseenWriteIsMissed(cfg: Config, es: seq<Event>, ws: seq<World>, n: nat, c: nat, tid: nat)
    requires Execution(cfg, es, ws) && n <= |es| && ws[n].page.cache.hasCached
    requires CommitsAt(ws, c, tid) && ws[n].page.queryAt < c < n
    ensures Missed(es, ws, n, c, tid)
  {
    PendingOrInvalidated(cfg, es, ws, c, tid, n);
    if At(ws[n], tid) != Committed(c) {
      var i :| c < i < n && InvalidatesAt(es, ws, i, tid, c);
      SetFollowsInvalidate(cfg, es, ws, i, tid, c, n);
    }
  }

  // ----- and when nothing was missed -----

  lemma QuietStatement(cfg: Config, db: Db, s: Stmt, t: int, m: Rows)
    requires Tracks(cfg, db, t, m)
    requires s.InsertNode? || s.DeleteNode? || s.DeactivateNodes? || Apply(db, s).rows == 0
    requires !s.MarkStale? && !s.PurgeStale?
    ensures Tracks(cfg, Apply(db, s).db, t, m)
  {
    SameRelaysTrack(cfg, db, Apply(db, s).db, t, m);
  }

  /** An event that commits no relay write keeps the rows tracked. */
  lemma TrackStep(cfg: Config, w: World, e: Event, n: nat, w': World, m: Rows)
    requires Sound(w) && w' == Next(cfg, w, e, n) && Tracks(cfg, w.db, w.now, m)
    requires !(HasThread(e) && At(w', e.tid) == Committed(n))
    ensures Tracks(cfg, w'.db, w'.now, m)
  {
    if Happens(w, e) {
      TimePasses(cfg, w.db, w.now, e.now, m);
      if Runs(cfg, w, e).Some? {
        var s := Runs(cfg, w, e).value;
        if s.MarkStale? || s.PurgeStale? {
          CleanupKeepsTrack(cfg, w.db, e.now, m, s.stamp);
        } else {
          QuietStatement(cfg, w.db, s, e.now, m);
        }
      }
    }
  }

  lemma {:induction false} TrackedSinceQuery(cfg: Config, es: seq<Event>, ws: seq<World>, c: nat, q: nat, n: nat)
    requires Execution(cfg, es, ws) && QueriesAt(es, ws, c, q) && q < n <= |es|
    requires forall k, tid :: q < k < n ==> !CommitsAt(ws, k, tid)
    ensures Tracks(cfg, ws[n].db, ws[n].now, ListedRows(ws[q].db, es[c].stamp, cfg.relayTTL, NO_FILTER))
    decreases n
  {
    var m := ListedRows(ws[q].db, es[c].stamp, cfg.relayTTL, NO_FILTER);
    assert Follows(cfg, es, ws, n - 1);
    if n == q + 1 {
      TracksItself(cfg, ws[q].db, es[c].stamp);
      TimePasses(cfg, ws[q].db, es[c].stamp, es[q].now, m);
    } else {
      TrackedSinceQuery(cfg, es, ws, c, q, n - 1);
      AlwaysSound(cfg, es, ws, n - 1);
      if HasThread(es[n - 1]) {
        assert !CommitsAt(ws, n - 1, es[n - 1].tid);
      }
      TrackStep(cfg, ws[n - 1], es[n - 1], n - 1, ws[n], m);
    }
  }

  /** In every interleaving, whenever the cache hits at t: either the fresh part of what it
      serves is the live listing, or there is a relay write its list did not see and that write
      is still pending, or was overtaken by a Set whose list was read before it. */
  lemma HitIsLiveOrOvertaken(cfg: Config, es: seq<Event>, ws: seq<World>, n: nat, t: int)
    requires Execution(cfg, es, ws) && n <= |es| && ws[n].now <= t
    requires Hits(ws[n].page.cache, CacheWindow(cfg.cacheTTL), t)
    ensures
      || KeepFresh(ws[n].page.cache.relays, t - TtlWindow(cfg.relayTTL)) == LiveList(cfg, ws[n].db, t)
      || exists k: nat, tid: nat :: Missed(es, ws, n, k, tid)
  {
    var c, q := ws[n].page.countAt, ws[n].page.queryAt;
    CachedPageIsPastQuery(cfg, es, ws, n);
    if k: nat, tid: nat :| q < k < n && CommitsAt(ws, k, tid) {
      UnseenWriteIsMissed(cfg, es, ws, n, k, tid);
    } else {
      var m := ListedRows(ws[q].db, es[c].stamp, cfg.relayTTL, NO_FILTER);
      TrackedSinceQuery(cfg, es, ws, c, q, n);
      TimePasses(cfg, ws[n].db, ws[n].now, t, m);
      FreshPartIsLive(cfg, ws[n].db, t, m);
    }
  }

  /** How old a hit's entries can be: one relay window, one cache window, and however long the
      request took from reading the clock for its query to its Set. */
  lemma HitAge(cfg: Config, es: seq<Event>, ws: seq<World>, n: nat, t: int)
    requires Execution(cfg, es, ws) && n <= |es|
    requires Hits(ws[n].page.cache, CacheWindow(cfg.cacheTTL), t)
    ensures
      var p := ws[n].page;
      && p.countAt < p.queryAt < p.setAt < n && es[p.countAt].Count?
      && AllFresh(p.cache.relays, t - TtlWindow(cfg.relayTTL) - CacheWindow(cfg.cacheTTL)
                                    - (es[p.setAt].now - es[p.countAt].stamp))
  {
    CachedPageIsPastQuery(cfg, es, ws, n);
    var p := ws[n].page;
    var stamp := es[p.countAt].stamp;
    PageIsRecent(ListedRows(ws[p.queryAt].db, stamp, cfg.relayTTL, NO_FILTER), ListLimit(cfg.maxRelays),
                 stamp - TtlWindow(cfg.relayTTL));
  }
}
