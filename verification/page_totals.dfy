/** A page's total and its list are read by two statements: what happens to the total when others
    run in between. */
module PageTotals {
  import opened Entities
  import opened Listing
  import opened Statements
  import opened Accounting
  import opened Handlers
  import opened Coherence
  import opened Interleaving
  import opened InterleavedCache

  // ----- what one statement adds to and takes from a listing -----

  /** A listing with this cutoff holds the row. */
  predicate InWindow(r: Relay, cutoff: int) {
    r.status == RelayActive && r.lastSeenAt >= cutoff
  }

  function Held(relays: Rows, cutoff: int): set<string> {
    set id | id in relays && InWindow(relays[id], cutoff)
  }

  /** The row of this key, if the listing holds it. */
  function HeldAt(relays: Rows, id: string, cutoff: int): set<string> {
    if id in relays && InWindow(relays[id], cutoff) then {id} else {}
  }

  /** The rows a statement takes out of the listing: those it marks, the row it deletes, and the
      row it gives a time or a status outside the window. */
  function Leaving(relays: Rows, s: Stmt, cutoff: int): set<string> {
    match s
    case MarkStale(ttl, stamp) =>
      set id | id in relays && InWindow(relays[id], cutoff) && relays[id].lastSeenAt < stamp - TtlWindow(ttl)
    case MarkUnreachable(id, _) => HeldAt(relays, id, cutoff)
    case DeleteRelay(id) => HeldAt(relays, id, cutoff)
    case UpsertRelay(relay) => if InWindow(relay, cutoff) then {} else HeldAt(relays, relay.nodeId, cutoff)
    case HeartbeatRelay(id, _, stamp) => if stamp >= cutoff then {} else HeldAt(relays, id, cutoff)
    case UpdateRelayFull(id, _, _, _, _, _, _, stamp) => if stamp >= cutoff then {} else HeldAt(relays, id, cutoff)
    case _ => {}
  }

  /** The row a statement brings into the listing: one it did not hold, written with a time inside
      the window. Only an upsert needs no row to start from. */
  function Joining(relays: Rows, s: Stmt, cutoff: int): set<string> {
    match s
    case UpsertRelay(relay) =>
      if InWindow(relay, cutoff) then {relay.nodeId} - HeldAt(relays, relay.nodeId, cutoff) else {}
    case HeartbeatRelay(id, _, stamp) =>
      if id in relays && stamp >= cutoff then {id} - HeldAt(relays, id, cutoff) else {}
    case UpdateRelayFull(id, _, _, _, _, _, _, stamp) =>
      if id in relays && stamp >= cutoff then {id} - HeldAt(relays, id, cutoff) else {}
    case _ => {}
  }

  lemma HeldAfter(db: Db, s: Stmt, cutoff: int, id: string)
    ensures id in Held(Apply(db, s).db.relays, cutoff)
       <==> ((id in Held(db.relays, cutoff) && id !in Leaving(db.relays, s, cutoff))
             || id in Joining(db.relays, s, cutoff))
  {
    StatementsAreRowwise(db, s, id);
  }

  lemma LeavingIsHeld(relays: Rows, s: Stmt, cutoff: int)
    ensures Leaving(relays, s, cutoff) <= Held(relays, cutoff)
    ensures Joining(relays, s, cutoff) !! Held(relays, cutoff)
  {
  }

  lemma SizesBalance<T>(before: set<T>, after: set<T>, leaving: set<T>, joining: set<T>)
    requires leaving <= before && joining !! before && after == (before - leaving) + joining
    ensures |after| + |leaving| == |before| + |joining|
  {
    SizeOfParts(before, before - leaving, leaving);
    SizeOfParts(after, before - leaving, joining);
  }

  lemma OneStatementBalances(db: Db, s: Stmt, cutoff: int, after: set<string>)
    requires after == Held(Apply(db, s).db.relays, cutoff)
    ensures |after| + |Leaving(db.relays, s, cutoff)| == |Held(db.relays, cutoff)| + |Joining(db.relays, s, cutoff)|
  {
    var before, leaving := Held(db.relays, cutoff), Leaving(db.relays, s, cutoff);
    var joining := Joining(db.relays, s, cutoff);
    assert after == (before - leaving) + joining by {
      forall id ensures id in after <==> id in (before - leaving) + joining {
        HeldAfter(db, s, cutoff, id);
      }
    }
    LeavingIsHeld(db.relays, s, cutoff);
    SizesBalance(before, after, leaving, joining);
  }

  // ----- what the events of an execution add and take -----

  /** How many rows an event takes out of the listing, and how many it brings in. */
  datatype Moves = Moves(left: nat, joined: nat)

  function MovesOf(cfg: Config, w: World, e: Event, cutoff: int): Moves {
    if Happens(w, e) && Runs(cfg, w, e).Some?
    then Moves(|Leaving(w.db.relays, Runs(cfg, w, e).value, cutoff)|, |Joining(w.db.relays, Runs(cfg, w, e).value, cutoff)|)
    else Moves(0, 0)
  }

  /** ms[k] is what event k moves. */
  ghost predicate Ledger(cfg: Config, es: seq<Event>, ws: seq<World>, cutoff: int, ms: seq<Moves>)
    requires |es| < |ws|
  {
    |ms| == |es| && forall k: nat :: k < |es| ==> Entry(cfg, es, ws, cutoff, ms, k)
  }

  predicate Entry(cfg: Config, es: seq<Event>, ws: seq<World>, cutoff: int, ms: seq<Moves>, k: nat)
    requires k < |es| < |ws| && |ms| == |es|
  {
    ms[k] == MovesOf(cfg, ws[k], es[k], cutoff)
  }

  lemma LedgerExists(cfg: Config, es: seq<Event>, ws: seq<World>, cutoff: int) returns (ms: seq<Moves>)
    requires |es| < |ws|
    ensures Ledger(cfg, es, ws, cutoff, ms)
  {
    ms := seq(|es|, k requires 0 <= k < |es| => MovesOf(cfg, ws[k], es[k], cutoff));
  }

  /** What left, and what joined, from position c to before position q. */
  function AllLeft(ms: seq<Moves>, c: nat, q: nat): nat
    requires q <= |ms|
  {
    if q <= c then 0 else AllLeft(ms, c, q - 1) + ms[q - 1].left
  }

  function AllJoined(ms: seq<Moves>, c: nat, q: nat): nat
    requires q <= |ms|
  {
    if q <= c then 0 else AllJoined(ms, c, q - 1) + ms[q - 1].joined
  }

  lemma TotalIsHeld(cfg: Config, db: Db, stamp: int)
    ensures LiveTotal(cfg, db, stamp) == |Held(db.relays, stamp - TtlWindow(cfg.relayTTL))|
  {
    var rows := ListedRows(db, stamp, cfg.relayTTL, NO_FILTER);
    assert rows.Keys == Held(db.relays, stamp - TtlWindow(cfg.relayTTL));
    assert |rows| == |rows.Keys|;
  }

  lemma StatementBalances(cfg: Config, db: Db, s: Stmt, stamp: int, db': Db)
    requires db' == Apply(db, s).db
    ensures
      var cutoff := stamp - TtlWindow(cfg.relayTTL);
      LiveTotal(cfg, db', stamp) + |Leaving(db.relays, s, cutoff)|
        == LiveTotal(cfg, db, stamp) + |Joining(db.relays, s, cutoff)|
  {
    var cutoff := stamp - TtlWindow(cfg.relayTTL);
    TotalIsHeld(cfg, db, stamp);
    TotalIsHeld(cfg, db', stamp);
    OneStatementBalances(db, s, cutoff, Held(db'.relays, cutoff));
  }

  lemma EventBalances(cfg: Config, w: World, e: Event, n: nat, w': World, stamp: int)
    requires w' == Next(cfg, w, e, n)
    ensures
      var moves := MovesOf(cfg, w, e, stamp - TtlWindow(cfg.relayTTL));
      LiveTotal(cfg, w'.db, stamp) + moves.left == LiveTotal(cfg, w.db, stamp) + moves.joined
  {
    if Happens(w, e) && Runs(cfg, w, e).Some? {
      StatementBalances(cfg, w.db, Runs(cfg, w, e).value, stamp, w'.db);
    }
  }

  lemma EntryBalances(cfg: Config, es: seq<Event>, ws: seq<World>, ms: seq<Moves>, k: nat, stamp: int)
    requires Execution(cfg, es, ws) && Ledger(cfg, es, ws, stamp - TtlWindow(cfg.relayTTL), ms) && k < |es|
    ensures LiveTotal(cfg, ws[k + 1].db, stamp) + ms[k].left == LiveTotal(cfg, ws[k].db, stamp) + ms[k].joined
  {
    assert Follows(cfg, es, ws, k) && Entry(cfg, es, ws, stamp - TtlWindow(cfg.relayTTL), ms, k);
    EventBalances(cfg, ws[k], es[k], k, ws[k + 1], stamp);
  }

  /** In every interleaving, for any two moments and any cutoff: what a listing of the later moment
      holds plus what left in between is what the earlier one held plus what joined. */
  lemma {:induction false} TotalsBalance(cfg: Config, es: seq<Event>, ws: seq<World>, ms: seq<Moves>,
                                         c: nat, q: nat, stamp: int)
    requires Execution(cfg, es, ws) && Ledger(cfg, es, ws, stamp - TtlWindow(cfg.relayTTL), ms) && c <= q <= |es|
    ensures LiveTotal(cfg, ws[q].db, stamp) + AllLeft(ms, c, q) == LiveTotal(cfg, ws[c].db, stamp) + AllJoined(ms, c, q)
    decreases q
  {
    if q > c {
      TotalsBalance(cfg, es, ws, ms, c, q - 1, stamp);
      EntryBalances(cfg, es, ws, ms, q - 1, stamp);
    }
  }

  /** The total of a request that counts at c and lists at q is the number of rows its list is cut
      from exactly if as many rows left in between as joined, whatever ran. */
  lemma TotalIsExactIff(cfg: Config, es: seq<Event>, ws: seq<World>, ms: seq<Moves>, c: nat, q: nat)
    requires Execution(cfg, es, ws) && QueriesAt(es, ws, c, q)
    requires Ledger(cfg, es, ws, es[c].stamp - TtlWindow(cfg.relayTTL), ms)
    ensures LiveTotal(cfg, ws[c].db, es[c].stamp) == LiveTotal(cfg, ws[q].db, es[c].stamp)
       <==> AllLeft(ms, c, q) == AllJoined(ms, c, q)
  {
    TotalsBalance(cfg, es, ws, ms, c, q, es[c].stamp);
  }

  // ----- when no request writes in between -----

  /** No relay write commits from position c to before position q. */
  ghost predicate NoCommit(ws: seq<World>, c: nat, q: nat) {
    forall k, tid :: c <= k < q ==> !CommitsAt(ws, k, tid)
  }

  /** A cleanup's first statement finds a row the listing holds out of its own window. */
  predicate MarksHeld(cfg: Config, w: World, e: Event, cutoff: int) {
    && e.Mark? && Happens(w, e) && w.cleanup == None
    && exists id :: id in w.db.relays && InWindow(w.db.relays[id], cutoff)
                    && w.db.relays[id].lastSeenAt < e.stamp - TtlWindow(cfg.relayTTL)
  }

  /** A statement no request answers for, or a relay write that found no row. */
  predicate Quiet(db: Db, s: Stmt) {
    || s.InsertNode? || s.DeleteNode? || s.DeactivateNodes? || s.PurgeStale?
    || (!s.MarkStale? && Apply(db, s).rows == 0)
  }

  lemma QuietMovesNothing(db: Db, s: Stmt, cutoff: int)
    requires Quiet(db, s)
    ensures Leaving(db.relays, s, cutoff) == {} && Joining(db.relays, s, cutoff) == {}
  {
  }

  lemma MarkMoves(db: Db, s: Stmt, cutoff: int)
    requires s.MarkStale?
    ensures Joining(db.relays, s, cutoff) == {}
    ensures |Leaving(db.relays, s, cutoff)| == 0 <==>
      !exists id :: id in db.relays && InWindow(db.relays[id], cutoff)
                    && db.relays[id].lastSeenAt < s.stamp - TtlWindow(s.ttl)
  {
    if id :| id in db.relays && InWindow(db.relays[id], cutoff) && db.relays[id].lastSeenAt < s.stamp - TtlWindow(s.ttl) {
      assert id in Leaving(db.relays, s, cutoff);
    }
  }

  lemma QuietKinds(cfg: Config, w: World, e: Event, n: nat, w': World)
    requires w' == Next(cfg, w, e, n) && !(HasThread(e) && At(w', e.tid) == Committed(n))
    requires Happens(w, e) && Runs(cfg, w, e).Some?
    ensures if e.Mark? then w.cleanup == None && Runs(cfg, w, e).value == MarkStale(cfg.relayTTL, e.stamp)
            else Quiet(w.db, Runs(cfg, w, e).value)
  {
  }

  lemma QuietEvent(cfg: Config, w: World, e: Event, n: nat, w': World, cutoff: int)
    requires w' == Next(cfg, w, e, n) && !(HasThread(e) && At(w', e.tid) == Committed(n))
    ensures
      var moves := MovesOf(cfg, w, e, cutoff);
      moves.joined == 0 && (moves.left == 0 <==> !MarksHeld(cfg, w, e, cutoff))
  {
    if Happens(w, e) && Runs(cfg, w, e).Some? {
      var s := Runs(cfg, w, e).value;
      QuietKinds(cfg, w, e, n, w');
      if e.Mark? {
        MarkMoves(w.db, s, cutoff);
      } else {
        QuietMovesNothing(w.db, s, cutoff);
      }
    }
  }

  predicate MarksHeldAt(cfg: Config, es: seq<Event>, ws: seq<World>, k: nat, cutoff: int)
    requires k < |es| < |ws|
  {
    MarksHeld(cfg, ws[k], es[k], cutoff)
  }

  predicate NoneMarked(cfg: Config, es: seq<Event>, ws: seq<World>, c: nat, q: nat, cutoff: int)
    requires q <= |es| < |ws|
  {
    forall k: nat :: c <= k < q ==> !MarksHeldAt(cfg, es, ws, k, cutoff)
  }

  lemma QuietEntry(cfg: Config, es: seq<Event>, ws: seq<World>, ms: seq<Moves>, k: nat, cutoff: int)
    requires Execution(cfg, es, ws) && Ledger(cfg, es, ws, cutoff, ms) && k < |es| && NoCommit(ws, k, k + 1)
    ensures ms[k].joined == 0 && (ms[k].left == 0 <==> !MarksHeldAt(cfg, es, ws, k, cutoff))
  {
    assert Follows(cfg, es, ws, k) && Entry(cfg, es, ws, cutoff, ms, k);
    if HasThread(es[k]) {
      assert !CommitsAt(ws, k, es[k].tid);
    }
    QuietEvent(cfg, ws[k], es[k], k, ws[k + 1], cutoff);
  }

  lemma {:induction false} QuietRun(cfg: Config, es: seq<Event>, ws: seq<World>, ms: seq<Moves>,
                                    c: nat, q: nat, cutoff: int)
    requires Execution(cfg, es, ws) && Ledger(cfg, es, ws, cutoff, ms) && c <= q <= |es| && NoCommit(ws, c, q)
    ensures AllJoined(ms, c, q) == 0 && (AllLeft(ms, c, q) == 0 <==> NoneMarked(cfg, es, ws, c, q, cutoff))
    decreases q
  {
    if q > c {
      QuietRun(cfg, es, ws, ms, c, q - 1, cutoff);
      QuietEntry(cfg, es, ws, ms, q - 1, cutoff);
    }
  }

  lemma UnmovedRowsStay(db: Db, s: Stmt, stamp: int, ttl: int)
    requires s.MarkStale? || Quiet(db, s)
    requires s.MarkStale? ==> Leaving(db.relays, s, stamp - TtlWindow(ttl)) == {}
    ensures ListedRows(Apply(db, s).db, stamp, ttl, NO_FILTER) == ListedRows(db, stamp, ttl, NO_FILTER)
  {
    var m', m := ListedRows(Apply(db, s).db, stamp, ttl, NO_FILTER), ListedRows(db, stamp, ttl, NO_FILTER);
    forall id ensures id in m' <==> id in m ensures id in m ==> m'[id] == m[id] {
      StatementsAreRowwise(db, s, id);
      assert id !in Leaving(db.relays, s, stamp - TtlWindow(ttl)) || !s.MarkStale?;
    }
  }

  lemma UnmarkedRowsStay(cfg: Config, w: World, e: Event, n: nat, w': World, stamp: int)
    requires w' == Next(cfg, w, e, n) && !(HasThread(e) && At(w', e.tid) == Committed(n))
    requires !MarksHeld(cfg, w, e, stamp - TtlWindow(cfg.relayTTL))
    ensures ListedRows(w'.db, stamp, cfg.relayTTL, NO_FILTER) == ListedRows(w.db, stamp, cfg.relayTTL, NO_FILTER)
  {
    if Happens(w, e) && Runs(cfg, w, e).Some? {
      QuietKinds(cfg, w, e, n, w');
      QuietEvent(cfg, w, e, n, w', stamp - TtlWindow(cfg.relayTTL));
      UnmovedRowsStay(w.db, Runs(cfg, w, e).value, stamp, cfg.relayTTL);
    }
  }

  lemma UnmarkedStaysAt(cfg: Config, es: seq<Event>, ws: seq<World>, k: nat, stamp: int)
    requires Execution(cfg, es, ws) && k < |es| && NoCommit(ws, k, k + 1)
    requires !MarksHeldAt(cfg, es, ws, k, stamp - TtlWindow(cfg.relayTTL))
    ensures ListedRows(ws[k + 1].db, stamp, cfg.relayTTL, NO_FILTER) == ListedRows(ws[k].db, stamp, cfg.relayTTL, NO_FILTER)
  {
    assert Follows(cfg, es, ws, k);
    if HasThread(es[k]) {
      assert !CommitsAt(ws, k, es[k].tid);
    }
    UnmarkedRowsStay(cfg, ws[k], es[k], k, ws[k + 1], stamp);
  }

  lemma {:induction false} UnmarkedRunStays(cfg: Config, es: seq<Event>, ws: seq<World>, c: nat, q: nat, stamp: int)
    requires Execution(cfg, es, ws) && c <= q <= |es| && NoCommit(ws, c, q)
    requires NoneMarked(cfg, es, ws, c, q, stamp - TtlWindow(cfg.relayTTL))
    ensures ListedRows(ws[q].db, stamp, cfg.relayTTL, NO_FILTER) == ListedRows(ws[c].db, stamp, cfg.relayTTL, NO_FILTER)
    decreases q
  {
    if q > c {
      UnmarkedRunStays(cfg, es, ws, c, q - 1, stamp);
      UnmarkedStaysAt(cfg, es, ws, q - 1, stamp);
    }
  }

  /** If no relay write commits between the two statements, the list comes from the very rows that
      were counted, and the total is exact, exactly if no cleanup marks a counted row meanwhile. */
  lemma UnwrittenTotalIsExactIff(cfg: Config, es: seq<Event>, ws: seq<World>, c: nat, q: nat)
    requires Execution(cfg, es, ws) && QueriesAt(es, ws, c, q) && NoCommit(ws, c, q)
    ensures
      var stamp := es[c].stamp;
      var counted := ListedRows(ws[c].db, stamp, cfg.relayTTL, NO_FILTER);
      var listed := ListedRows(ws[q].db, stamp, cfg.relayTTL, NO_FILTER);
      var unmarked := NoneMarked(cfg, es, ws, c, q, stamp - TtlWindow(cfg.relayTTL));
      && (counted == listed <==> unmarked)
      && (|counted| == |listed| <==> unmarked)
  {
    var cutoff := es[c].stamp - TtlWindow(cfg.relayTTL);
    var ms := LedgerExists(cfg, es, ws, cutoff);
    TotalIsExactIff(cfg, es, ws, ms, c, q);
    QuietRun(cfg, es, ws, ms, c, q, cutoff);
    if NoneMarked(cfg, es, ws, c, q, cutoff) {
      UnmarkedRunStays(cfg, es, ws, c, q, es[c].stamp);
    }
  }
}
