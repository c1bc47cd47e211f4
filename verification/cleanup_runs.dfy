/** What a cleanup changes later on: the same statements run on the tables it left and on the
    tables it did not touch. */
module CleanupRuns {
  import opened Entities
  import opened Listing
  import opened Statements
  import opened Accounting
  import opened History
  import opened DiscoveryCache

  // ----- tables that list alike -----

  /** r is the cleaned row for s: they differ at most in bookkeeping times, or in that r was
      marked after s left the window. */
  predicate SameRow(r: Relay, s: Relay, cutoff: int) {
    && r.(createdAt := s.createdAt, updatedAt := s.updatedAt, status := s.status) == s
    && (r.status == s.status
        || (r.status == RelayUnreachable && s.status == RelayActive && s.lastSeenAt < cutoff))
  }

  predicate AlikeRow(r: Option<Relay>, s: Option<Relay>, cutoff: int) {
    && (r.Some? ==> s.Some? && SameRow(r.value, s.value, cutoff))
    && (s.Some? && r == None ==> s.value.lastSeenAt < cutoff)
  }

  predicate AlikeAt(a: Db, b: Db, ttl: int, t: int, id: string) {
    AlikeRow(FindRelay(a, id), FindRelay(b, id), t - TtlWindow(ttl))
  }

  /** a lacks only rows of b that left the window by t, and the others are the same. */
  ghost predicate Alike(a: Db, b: Db, ttl: int, t: int) {
    forall id :: AlikeAt(a, b, ttl, t, id)
  }

  lemma {:induction false} SameOrder(m: Rows, n: Rows)
    requires m.Keys == n.Keys && forall k :: k in m ==> ToDTO(m[k]) == ToDTO(n[k])
    ensures |m| == |n| && ToDTOs(Ordered(m)) == ToDTOs(Ordered(n))
    decreases |m|
  {
    assert |m| == |m.Keys| && |n| == |n.Keys|;
    if m != map[] {
      var k := First(m);
      assert n != map[] && IsFirst(n, k);
      FirstUnique(n, k, First(n));
      assert |m - {k}| < |m| by { assert (m - {k}).Keys == m.Keys - {k}; }
      SameOrder(m - {k}, n - {k});
      UnfoldDTOs(m);
      UnfoldDTOs(n);
    }
  }

  lemma UnfoldDTOs(m: Rows)
    requires m != map[]
    ensures ToDTOs(Ordered(m)) == [ToDTO(m[First(m)])] + ToDTOs(Ordered(m - {First(m)}))
  {
    var rest := Ordered(m - {First(m)});
    assert Ordered(m) == [m[First(m)]] + rest && Ordered(m)[1..] == rest;
  }

  lemma TakeOfDTOs(s: seq<Relay>, limit: nat)
    ensures ToDTOs(Take(s, limit)) == Take(ToDTOs(s), limit)
  {
  }

  /** A client that asks with filter f and this limit gets the same answer from either. */
  predicate SamePage(a: Db, b: Db, ttl: int, t: int, f: ListFilter, limit: int) {
    var p, q := ListRelays(a, t, ttl, f, limit), ListRelays(b, t, ttl, f, limit);
    ToDTOs(p.relays) == ToDTOs(q.relays) && p.total == q.total
  }

  ghost predicate SameListings(a: Db, b: Db, ttl: int, t: int) {
    forall f, limit :: SamePage(a, b, ttl, t, f, limit)
  }

  lemma AlikeRowsMatch(a: Db, b: Db, ttl: int, t: int, f: ListFilter, id: string)
    requires AlikeAt(a, b, ttl, t, id)
    ensures
      var m, n := ListedRows(a, t, ttl, f), ListedRows(b, t, ttl, f);
      (id in m <==> id in n) && (id in m ==> ToDTO(m[id]) == ToDTO(n[id]))
  {
  }

  lemma AlikeLists(a: Db, b: Db, ttl: int, t: int)
    requires Alike(a, b, ttl, t)
    ensures SameListings(a, b, ttl, t)
  {
    forall f, limit ensures SamePage(a, b, ttl, t, f, limit) {
      var m, n := ListedRows(a, t, ttl, f), ListedRows(b, t, ttl, f);
      assert m.Keys == n.Keys && forall id :: id in m ==> ToDTO(m[id]) == ToDTO(n[id]) by {
        forall id ensures (id in m <==> id in n) && (id in m ==> ToDTO(m[id]) == ToDTO(n[id])) {
          assert AlikeAt(a, b, ttl, t, id);
          AlikeRowsMatch(a, b, ttl, t, f, id);
        }
      }
      SameOrder(m, n);
      TakeOfDTOs(Ordered(m), ListLimit(limit));
      TakeOfDTOs(Ordered(n), ListLimit(limit));
    }
  }

  // ----- one statement on both -----

  /** The statement refreshes, within the window, a relay that only the uncleaned tables have. */
  predicate Revives(a: Db, b: Db, s: Stmt, ttl: int, now: int) {
    && (s.HeartbeatRelay? || s.UpdateRelayFull?)
    && s.id in b.relays && s.id !in a.relays
    && s.stamp >= now - TtlWindow(ttl)
  }

  lemma AlikeRowStep(r: Option<Relay>, q: Option<Relay>, s: Stmt, ttl: int, t: int, now: int, id: string)
    requires AlikeRow(r, q, t - TtlWindow(ttl)) && t <= now && FromServer(s, now, ttl)
    requires (s.HeartbeatRelay? || s.UpdateRelayFull?) && s.id == id && q.Some? && r == None ==>
      s.stamp < now - TtlWindow(ttl)
    ensures AlikeRow(RowAfter(r, s, id), RowAfter(q, s, id), now - TtlWindow(ttl))
  {
    assert TtlWindow(ttl) > 0;
  }

  lemma AlikeAtStep(a: Db, b: Db, s: Stmt, ttl: int, t: int, now: int, id: string)
    requires AlikeAt(a, b, ttl, t, id) && t <= now && FromServer(s, now, ttl)
    requires Revives(a, b, s, ttl, now) ==> s.id != id
    ensures AlikeAt(Apply(a, s).db, Apply(b, s).db, ttl, now, id)
  {
    StatementsAreRowwise(a, s, id);
    StatementsAreRowwise(b, s, id);
    AlikeRowStep(FindRelay(a, id), FindRelay(b, id), s, ttl, t, now, id);
  }

  lemma AlikeStep(a: Db, b: Db, s: Stmt, ttl: int, t: int, now: int)
    requires Alike(a, b, ttl, t) && t <= now && FromServer(s, now, ttl) && !Revives(a, b, s, ttl, now)
    ensures Alike(Apply(a, s).db, Apply(b, s).db, ttl, now)
  {
    forall id ensures AlikeAt(Apply(a, s).db, Apply(b, s).db, ttl, now, id) {
      assert AlikeAt(a, b, ttl, t, id);
      AlikeAtStep(a, b, s, ttl, t, now, id);
    }
  }

  /** A revived relay is listed by one and not by the other. */
  lemma RevivedShows(a: Db, b: Db, s: Stmt, ttl: int, t: int, now: int)
    requires Alike(a, b, ttl, t) && t <= now && FromServer(s, now, ttl) && Revives(a, b, s, ttl, now)
    ensures !SamePage(Apply(a, s).db, Apply(b, s).db, ttl, now, NO_FILTER, 0)
  {
    var a', b' := Apply(a, s).db, Apply(b, s).db;
    var m, n := ListedRows(a', now, ttl, NO_FILTER), ListedRows(b', now, ttl, NO_FILTER);
    forall id | id != s.id ensures id in m <==> id in n {
      assert AlikeAt(a, b, ttl, t, id);
      AlikeAtStep(a, b, s, ttl, t, now, id);
      AlikeRowsMatch(a', b', ttl, now, NO_FILTER, id);
    }
    RevivedIsListed(a, b, s, ttl, now);
    SizeOfParts(n.Keys, m.Keys, {s.id});
    assert |n| == |n.Keys| && |m| == |m.Keys|;
  }

  lemma RevivedIsListed(a: Db, b: Db, s: Stmt, ttl: int, now: int)
    requires FromServer(s, now, ttl) && Revives(a, b, s, ttl, now)
    ensures s.id !in ListedRows(Apply(a, s).db, now, ttl, NO_FILTER)
    ensures s.id in ListedRows(Apply(b, s).db, now, ttl, NO_FILTER)
  {
  }

  // ----- whole runs -----

  /** The listings agree whenever a statement of the run has committed. */
  ghost predicate ListAlike(a: Db, b: Db, run: seq<Timed>, ttl: int)
    decreases |run|
  {
    run == [] ||
    (var a', b' := Apply(a, run[0].stmt).db, Apply(b, run[0].stmt).db;
     SameListings(a', b', ttl, run[0].now) && ListAlike(a', b', run[1..], ttl))
  }

  /** No refresh reaches a row on b's tables, and none on a's, with a stamp still in the window. */
  predicate NothingRevived(a: Db, b: Db, run: seq<Timed>, ttl: int)
    decreases |run|
  {
    run == [] ||
    (!Revives(a, b, run[0].stmt, ttl, run[0].now)
     && NothingRevived(Apply(a, run[0].stmt).db, Apply(b, run[0].stmt).db, run[1..], ttl))
  }

  /** From t on, commit times never decrease and only server statements run. */
  predicate Continues(run: seq<Timed>, ttl: int, t: int) {
    run == [] ||
    (t <= run[0].now && FromServer(run[0].stmt, run[0].now, ttl) && Continues(run[1..], ttl, run[0].now))
  }

  function LastTime(run: seq<Timed>, t: int): int {
    if run == [] then t else LastTime(run[1..], run[0].now)
  }

  lemma {:induction false} AlikeRunsListAlikeIff(a: Db, b: Db, run: seq<Timed>, ttl: int, t: int)
    requires Alike(a, b, ttl, t) && Continues(run, ttl, t)
    ensures ListAlike(a, b, run, ttl) <==> NothingRevived(a, b, run, ttl)
    ensures NothingRevived(a, b, run, ttl) ==> Alike(Forward(a, run), Forward(b, run), ttl, LastTime(run, t))
    decreases |run|
  {
    if run != [] {
      var s, now := run[0].stmt, run[0].now;
      if Revives(a, b, s, ttl, now) {
        RevivedShows(a, b, s, ttl, t, now);
      } else {
        AlikeStep(a, b, s, ttl, t, now);
        AlikeLists(Apply(a, s).db, Apply(b, s).db, ttl, now);
        AlikeRunsListAlikeIff(Apply(a, s).db, Apply(b, s).db, run[1..], ttl, now);
      }
    }
  }

  lemma AlikeLater(a: Db, b: Db, ttl: int, t: int, u: int)
    requires Alike(a, b, ttl, t) && t <= u
    ensures Alike(a, b, ttl, u)
  {
    forall id ensures AlikeAt(a, b, ttl, u, id) {
      assert AlikeAt(a, b, ttl, t, id);
    }
  }

  /** a is what the first, the second or both statements of a cleanup make of db. */
  predicate CleanedFrom(a: Db, db: Db, ttl: int, stamp: int) {
    || a == Apply(db, MarkStale(ttl, stamp)).db
    || a == Apply(db, PurgeStale(ttl, stamp)).db
    || a == Cleaned(db, ttl, stamp)
  }

  lemma MarkLeavesAlike(db: Db, ttl: int, stamp: int, t: int)
    requires stamp <= t
    ensures Alike(Apply(db, MarkStale(ttl, stamp)).db, db, ttl, t)
  {
  }

  lemma PurgeLeavesAlike(a: Db, db: Db, ttl: int, stamp: int, t: int)
    requires Alike(a, db, ttl, t) && stamp <= t
    ensures Alike(Apply(a, PurgeStale(ttl, stamp)).db, db, ttl, t)
  {
    assert TtlWindow(ttl) > 0;
    var a' := Apply(a, PurgeStale(ttl, stamp)).db;
    forall id ensures AlikeAt(a', db, ttl, t, id) {
      assert AlikeAt(a, db, ttl, t, id);
      StatementsAreRowwise(a, PurgeStale(ttl, stamp), id);
    }
  }

  lemma CleanupLeavesAlike(a: Db, db: Db, ttl: int, stamp: int, t: int)
    requires stamp <= t && CleanedFrom(a, db, ttl, stamp)
    ensures Alike(a, db, ttl, t)
  {
    var marked := Apply(db, MarkStale(ttl, stamp)).db;
    MarkLeavesAlike(db, ttl, stamp, t);
    assert Alike(db, db, ttl, t);
    PurgeLeavesAlike(db, db, ttl, stamp, t);
    PurgeLeavesAlike(marked, db, ttl, stamp, t);
  }

  /** From any tables, through any later statements and further cleanups, a cleanup or either of
      its statements changes some listing exactly if some refresh within the window finds its
      relay deleted that would otherwise still be there. */
  lemma CleanupInvisibleIff(a: Db, db: Db, ttl: int, stamp: int, t: int, run: seq<Timed>)
    requires stamp <= t && CleanedFrom(a, db, ttl, stamp) && Continues(run, ttl, t)
    ensures SameListings(a, db, ttl, t)
    ensures ListAlike(a, db, run, ttl) <==> NothingRevived(a, db, run, ttl)
  {
    CleanupLeavesAlike(a, db, ttl, stamp, t);
    AlikeLists(a, db, ttl, t);
    AlikeRunsListAlikeIff(a, db, run, ttl, t);
  }

  /** Until then every listing agrees, also between statements and after the last one. */
  lemma CleanupInvisibleAtAnyTime(a: Db, db: Db, ttl: int, stamp: int, t: int, run: seq<Timed>, u: int)
    requires stamp <= t && CleanedFrom(a, db, ttl, stamp) && Continues(run, ttl, t)
    requires NothingRevived(a, db, run, ttl) && LastTime(run, t) <= u
    ensures SameListings(Forward(a, run), Forward(db, run), ttl, u)
  {
    CleanupLeavesAlike(a, db, ttl, stamp, t);
    AlikeRunsListAlikeIff(a, db, run, ttl, t);
    AlikeLater(Forward(a, run), Forward(db, run), ttl, LastTime(run, t), u);
    AlikeLists(Forward(a, run), Forward(db, run), ttl, u);
  }

  /** The difference is real: a relay silent for more than two windows whose next heartbeat comes
      after a cleanup is refused and unlisted, and without the cleanup accepted and listed. */
  lemma CleanupForgetsSilentRelay(db: Db, id: string, ttl: int, stamp: int, t: int)
    requires StatusAgrees(db, ttl, stamp) && stamp <= t
    requires id in db.relays && db.relays[id].lastSeenAt < stamp - 2 * TtlWindow(ttl)
    ensures
      var beat := HeartbeatRelay(id, None, t);
      var cleaned := Cleaned(db, ttl, stamp);
      && FromServer(beat, t, ttl)
      && Apply(cleaned, beat).rows == 0 && id !in ListedRows(Apply(cleaned, beat).db, t, ttl, NO_FILTER)
      && Apply(db, beat).rows == 1 && id in ListedRows(Apply(db, beat).db, t, ttl, NO_FILTER)
  {
    CleanedKeeps(db, ttl, stamp, id);
    assert TtlWindow(ttl) > 0;
  }
}
