/** The discovery cache against the query it saves, over whole runs of atomic handlers with
    cleanups at arbitrary times. */
module Coherence {
  import opened Entities
  import opened Listing
  import opened Statements
  import opened History
  import opened Store
  import opened DiscoveryCache
  import opened Handlers

  /** A request and who presents it, or a job, whose caller does not matter. */
  datatype Arrival = Arrival(now: int, caller: Caller, req: Request)

  predicate InOrder(run: seq<Arrival>, t: int) {
    && (forall i :: 0 <= i < |run| ==> run[i].now <= t)
    && (forall i, j :: 0 <= i < j < |run| ==> run[i].now <= run[j].now)
  }

  ghost function StateAfter(cfg: Config, run: seq<Arrival>): State {
    if run == [] then INITIAL
    else
      var last := run[|run| - 1];
      Serve(cfg, StateAfter(cfg, run[..|run| - 1]), last.caller, last.now, last.req).state
  }

  lemma OneMore(cfg: Config, run: seq<Arrival>, a: Arrival)
    ensures StateAfter(cfg, run + [a]) == Serve(cfg, StateAfter(cfg, run), a.caller, a.now, a.req).state
  {
    assert (run + [a])[..|run|] == run;
  }

  /** What an uncached GET would answer. */
  function LiveList(cfg: Config, db: Db, t: int): seq<RelayDTO> {
    ToDTOs(ListRelays(db, t, cfg.relayTTL, NO_FILTER, cfg.maxRelays).relays)
  }

  function LiveTotal(cfg: Config, db: Db, t: int): nat {
    |ListedRows(db, t, cfg.relayTTL, NO_FILTER)|
  }

  // ----- the invariant -----

  /** Of the rows m, those still in the window are exactly what the table lists. */
  predicate Tracks(cfg: Config, db: Db, t: int, m: Rows) {
    ListedRows(db, t, cfg.relayTTL, NO_FILTER) == Where(m, SeenSince(t - TtlWindow(cfg.relayTTL)))
  }

  /** The cached page was built from the rows m, which the table still tracks. */
  predicate BuiltFrom(cfg: Config, s: State, t: int, m: Rows) {
    && s.cache.relays == ToDTOs(Take(Ordered(m), ListLimit(cfg.maxRelays)))
    && s.cache.total == |m|
    && s.cache.cachedAt <= t
    && (forall id :: id in m ==> m[id].lastSeenAt >= s.cache.cachedAt - TtlWindow(cfg.relayTTL))
    && Tracks(cfg, s.db, t, m)
  }

  ghost predicate Coherent(cfg: Config, s: State, t: int) {
    s.cache.hasCached ==> exists m :: BuiltFrom(cfg, s, t, m)
  }

  lemma TimePasses(cfg: Config, db: Db, t: int, u: int, m: Rows)
    requires t <= u && Tracks(cfg, db, t, m)
    ensures Tracks(cfg, db, u, m)
  {
    var w := TtlWindow(cfg.relayTTL);
    var lt := ListedRows(db, t, cfg.relayTTL, NO_FILTER);
    assert ListedRows(db, u, cfg.relayTTL, NO_FILTER) == Where(lt, SeenSince(u - w));
    assert Where(Where(m, SeenSince(t - w)), SeenSince(u - w)) == Where(m, SeenSince(u - w));
  }

  lemma TracksItself(cfg: Config, db: Db, t: int)
    ensures Tracks(cfg, db, t, ListedRows(db, t, cfg.relayTTL, NO_FILTER))
  {
    var m := ListedRows(db, t, cfg.relayTTL, NO_FILTER);
    assert Where(m, SeenSince(t - TtlWindow(cfg.relayTTL))) == m;
  }

  /** Neither statement of a cleanup, however late its stamp makes it, changes the listing. */
  lemma CleanupKeepsTrack(cfg: Config, db: Db, t: int, m: Rows, stamp: int)
    requires Tracks(cfg, db, t, m) && stamp <= t
    ensures Tracks(cfg, Apply(db, MarkStale(cfg.relayTTL, stamp)).db, t, m)
    ensures Tracks(cfg, Apply(db, PurgeStale(cfg.relayTTL, stamp)).db, t, m)
  {
    var listed := ListedRows(db, t, cfg.relayTTL, NO_FILTER);
    assert ListedRows(Apply(db, MarkStale(cfg.relayTTL, stamp)).db, t, cfg.relayTTL, NO_FILTER) == listed;
    assert ListedRows(Apply(db, PurgeStale(cfg.relayTTL, stamp)).db, t, cfg.relayTTL, NO_FILTER) == listed;
  }

  lemma FreshlySet(cfg: Config, s: State, now: int)
    requires s.cache == Cache(true, now, LiveList(cfg, s.db, now), LiveTotal(cfg, s.db, now))
    ensures Coherent(cfg, s, now)
  {
    var m := ListedRows(s.db, now, cfg.relayTTL, NO_FILTER);
    TracksItself(cfg, s.db, now);
    assert BuiltFrom(cfg, s, now, m);
  }

  lemma RelaysUntouched(cfg: Config, s: State, now: int, req: Request)
    requires Step(cfg, s, now, req).state.cache.hasCached && !req.GetRelays? && !req.CleanupRelays?
    ensures Step(cfg, s, now, req).state.cache == s.cache
    ensures Step(cfg, s, now, req).state.db.relays == s.db.relays
  {
  }

  /** Requests that write no relay row, and cleanups, leave the cache alone and the rows
      tracked. */
  lemma ListingUntouched(cfg: Config, s: State, now: int, req: Request, m: Rows)
    requires Step(cfg, s, now, req).state.cache.hasCached && !req.GetRelays?
    requires Tracks(cfg, s.db, now, m)
    ensures Step(cfg, s, now, req).state.cache == s.cache
    ensures Tracks(cfg, Step(cfg, s, now, req).state.db, now, m)
  {
    if req.CleanupRelays? {
      CleanupKeepsTrack(cfg, s.db, now, m, now);
      CleanupKeepsTrack(cfg, Apply(s.db, MarkStale(cfg.relayTTL, now)).db, now, m, now);
    } else {
      RelaysUntouched(cfg, s, now, req);
      SameRelaysTrack(cfg, s.db, Step(cfg, s, now, req).state.db, now, m);
    }
  }

  lemma SameRelaysTrack(cfg: Config, db: Db, db': Db, t: int, m: Rows)
    requires db'.relays == db.relays && Tracks(cfg, db, t, m)
    ensures Tracks(cfg, db', t, m)
  {
    assert ListedRows(db', t, cfg.relayTTL, NO_FILTER) == ListedRows(db, t, cfg.relayTTL, NO_FILTER);
  }

  lemma CoherentStep(cfg: Config, s: State, t: int, now: int, req: Request)
    requires Coherent(cfg, s, t) && t <= now
    ensures Coherent(cfg, Step(cfg, s, now, req).state, now)
  {
    var s' := Step(cfg, s, now, req).state;
    if s'.cache.hasCached {
      if req.GetRelays? && s'.cache != s.cache {
        FreshlySet(cfg, s', now);
      } else {
        var m :| BuiltFrom(cfg, s, t, m);
        TimePasses(cfg, s.db, t, now, m);
        if !req.GetRelays? {
          ListingUntouched(cfg, s, now, req, m);
        }
        assert BuiltFrom(cfg, s', now, m);
      }
    }
  }

  lemma CoherentServe(cfg: Config, s: State, t: int, last: Arrival)
    requires Coherent(cfg, s, t) && t <= last.now
    ensures Coherent(cfg, Serve(cfg, s, last.caller, last.now, last.req).state, last.now)
  {
    if Admitted(cfg, s.db, last.caller, last.req) {
      CoherentStep(cfg, s, t, last.now, last.req);
    } else {
      CoherentLater(cfg, s, t, last.now);
    }
  }

  lemma CoherentLater(cfg: Config, s: State, t: int, u: int)
    requires Coherent(cfg, s, t) && t <= u
    ensures Coherent(cfg, s, u)
  {
    if s.cache.hasCached {
      var m :| BuiltFrom(cfg, s, t, m);
      TimePasses(cfg, s.db, t, u, m);
      assert BuiltFrom(cfg, s, u, m);
    }
  }

  lemma {:induction false} AlwaysCoherent(cfg: Config, run: seq<Arrival>, t: int)
    requires InOrder(run, t)
    ensures Coherent(cfg, StateAfter(cfg, run), t)
    decreases |run|
  {
    if run != [] {
      var last := run[|run| - 1];
      AlwaysCoherent(cfg, run[..|run| - 1], last.now);
      CoherentServe(cfg, StateAfter(cfg, run[..|run| - 1]), last.now, last);
      CoherentLater(cfg, StateAfter(cfg, run), last.now, t);
    }
  }

  // ----- what a cache hit serves -----

  lemma FreshPart(m: Rows, kept: Rows, limit: nat, cutoff: int)
    requires kept == Where(m, SeenSince(cutoff))
    ensures KeepFresh(ToDTOs(Take(Ordered(m), limit)), cutoff) == ToDTOs(Take(Ordered(kept), limit))
    ensures |kept| <= |m|
  {
    OrderedLists(m);
    OrderedWhere(m, SeenSince(cutoff));
    TakeThenKeepFresh(Ordered(m), limit, cutoff);
    KeepFreshOfDTOs(Take(Ordered(m), limit), cutoff);
    WhereShrinks(m, SeenSince(cutoff));
  }

  /** Keeping the entries of a page built from tracked rows that are still in the window gives
      the live page. */
  lemma FreshPartIsLive(cfg: Config, db: Db, t: int, m: Rows)
    requires Tracks(cfg, db, t, m)
    ensures KeepFresh(ToDTOs(Take(Ordered(m), ListLimit(cfg.maxRelays))), t - TtlWindow(cfg.relayTTL))
         == LiveList(cfg, db, t)
    ensures LiveTotal(cfg, db, t) <= |m|
  {
    FreshPart(m, ListedRows(db, t, cfg.relayTTL, NO_FILTER), ListLimit(cfg.maxRelays), t - TtlWindow(cfg.relayTTL));
  }

  lemma PageIsRecent(m: Rows, limit: nat, cutoff: int)
    requires forall id :: id in m ==> m[id].lastSeenAt >= cutoff
    ensures AllFresh(ToDTOs(Take(Ordered(m), limit)), cutoff)
  {
    OrderedLists(m);
    var page := Take(Ordered(m), limit);
    forall i | 0 <= i < |page|
      ensures page[i].lastSeenAt >= cutoff
    {
      assert page[i] in Ordered(m);
    }
  }

  lemma WhereShrinks(m: Rows, keep: Relay -> bool)
    ensures |Where(m, keep)| <= |m|
  {
    var w := Where(m, keep);
    assert w.Keys <= m.Keys;
    SubsetSize(w.Keys, m.Keys);
    assert |w| == |w.Keys| && |m| == |m.Keys|;
  }

  lemma SubsetSize<T>(a: set<T>, b: set<T>)
    requires a <= b
    ensures |a| <= |b|
  {
    assert b == a + (b - a);
  }

  /** In every run, whenever the cache hits at t: its entries still within the relay window are
      exactly the live listing, limit and order included; none was seen earlier than one
      relay window plus one cache window ago; and its total is never too small. */
  lemma CacheHitIsLiveListing(cfg: Config, run: seq<Arrival>, t: int)
    requires InOrder(run, t)
    requires Hits(StateAfter(cfg, run).cache, CacheWindow(cfg.cacheTTL), t)
    ensures
      var s := StateAfter(cfg, run);
      && KeepFresh(s.cache.relays, t - TtlWindow(cfg.relayTTL)) == LiveList(cfg, s.db, t)
      && AllFresh(s.cache.relays, t - TtlWindow(cfg.relayTTL) - CacheWindow(cfg.cacheTTL))
      && LiveTotal(cfg, s.db, t) <= s.cache.total
  {
    AlwaysCoherent(cfg, run, t);
    var s := StateAfter(cfg, run);
    var m :| BuiltFrom(cfg, s, t, m);
    FreshPartIsLive(cfg, s.db, t, m);
    PageIsRecent(m, ListLimit(cfg.maxRelays), s.cache.cachedAt - TtlWindow(cfg.relayTTL));
  }

  lemma KeptIsWholeIff(list: seq<RelayDTO>, live: seq<RelayDTO>, cutoff: int)
    requires KeepFresh(list, cutoff) == live
    ensures list == live <==> AllFresh(list, cutoff)
  {
    KeepFreshAll(list, cutoff);
  }

  /** A hit serves the live listing itself exactly when every relay it lists is still within
      the window. */
  lemma {:induction false} HitIsExactIff(cfg: Config, run: seq<Arrival>, t: int)
    requires InOrder(run, t)
    requires Hits(StateAfter(cfg, run).cache, CacheWindow(cfg.cacheTTL), t)
    ensures
      var s := StateAfter(cfg, run);
      (s.cache.relays == LiveList(cfg, s.db, t))
        <==> AllFresh(s.cache.relays, t - TtlWindow(cfg.relayTTL))
  {
    var s := StateAfter(cfg, run);
    CacheHitIsLiveListing(cfg, run, t);
    KeptIsWholeIff(s.cache.relays, LiveList(cfg, s.db, t), t - TtlWindow(cfg.relayTTL));
  }

  /** What any client sees: whether or not the cache answered, the fresh part of a plain GET's
      answer is the live listing. */
  lemma GetAnswersLive(cfg: Config, run: seq<Arrival>, t: int)
    requires InOrder(run, t)
    ensures
      var s := StateAfter(cfg, run);
      var answer := Step(cfg, s, t, GetRelays(NO_FILTER)).response;
      && KeepFresh(answer.relays, t - TtlWindow(cfg.relayTTL)) == LiveList(cfg, s.db, t)
      && answer.total >= LiveTotal(cfg, s.db, t)
  {
    var s := StateAfter(cfg, run);
    if Hits(s.cache, CacheWindow(cfg.cacheTTL), t) {
      CacheHitIsLiveListing(cfg, run, t);
    } else {
      TracksItself(cfg, s.db, t);
      FreshPartIsLive(cfg, s.db, t, ListedRows(s.db, t, cfg.relayTTL, NO_FILTER));
    }
  }

  /** A page of the rows m holds row id exactly if fewer rows than the limit come before it. */
  lemma OnPageIff(m: Rows, limit: nat, id: string)
    requires id in m && forall k :: k in m ==> m[k].nodeId == k
    ensures ToDTO(m[id]) in ToDTOs(Take(Ordered(m), limit)) <==> |Ahead(m, id)| < limit
  {
    var page := Take(Ordered(m), limit);
    OrderedPlace(m, id);
    if |Ahead(m, id)| < limit {
      assert ToDTOs(page)[|Ahead(m, id)|] == ToDTO(m[id]);
    }
    if i: nat :| i < |page| && ToDTOs(page)[i] == ToDTO(m[id]) {
      var k := PlaceHolder(m, i);
      assert ToDTO(m[k]).nodeId == k == id;
    }
  }

  lemma ListedIff(cfg: Config, db: Db, id: string, t: int)
    requires Tidy(db) && id in ListedRows(db, t, cfg.relayTTL, NO_FILTER)
    ensures ToDTO(db.relays[id]) in LiveList(cfg, db, t)
       <==> |Ahead(ListedRows(db, t, cfg.relayTTL, NO_FILTER), id)| < ListLimit(cfg.maxRelays)
  {
    OnPageIff(ListedRows(db, t, cfg.relayTTL, NO_FILTER), ListLimit(cfg.maxRelays), id);
  }

  lemma ListedOnPage(cfg: Config, db: Db, id: string, t: int)
    requires id in ListedRows(db, t, cfg.relayTTL, NO_FILTER)
    requires LiveTotal(cfg, db, t) <= ListLimit(cfg.maxRelays)
    ensures ToDTO(db.relays[id]) in LiveList(cfg, db, t)
  {
    var m := ListedRows(db, t, cfg.relayTTL, NO_FILTER);
    OrderedLists(m);
    OrderedPlace(m, id);
    assert LiveList(cfg, db, t)[|Ahead(m, id)|] == ToDTO(m[id]);
  }

  // ----- the tables of every run come from a server history -----

  /** The statements an admitted request or a job commits. */
  function Commits(cfg: Config, s: State, now: int, req: Request): seq<Stmt> {
    match req
    case GetRelays(_) => []
    case RegisterRelay(id, _, _, _, _, _, _) =>
      var node := FindNode(s.db, id);
      if node == None then [] else [UpsertRelay(RelayWithDefaults(NewRelay(node.value, req, now), now))]
    case PutHeartbeat(id, _, _, _, _, _) =>
      if id in s.db.relays
      then [FullUpdateOf(ReportedRelay(s.db.relays[id], req, now), now)] else []
    case Heartbeat(id, available) => [HeartbeatRelay(id, available, now)]
    case RemoveRelay(id) => [DeleteRelay(id)]
    case RegisterNode(_, _, _, _, _) => [InsertNode(WithDefaults(NewNode(req, now), now))]
    case RemoveNode(id) => [DeleteNode(id, now)]
    case NodeStatusOf(_) => []
    case CleanupRelays => [MarkStale(cfg.relayTTL, now), PurgeStale(cfg.relayTTL, now)]
    case CleanupNodes => [DeactivateNodes(cfg.inactiveHours, now)]
  }

  /** The statements an arrival commits. */
  function CommitsOf(cfg: Config, s: State, a: Arrival): seq<Stmt> {
    if Admitted(cfg, s.db, a.caller, a.req) then Commits(cfg, s, a.now, a.req) else []
  }

  function Timestamped(now: int, stmts: seq<Stmt>): (h: seq<Timed>)
    ensures |h| == |stmts| && forall i :: 0 <= i < |h| ==> h[i] == Timed(now, stmts[i])
  {
    if stmts == [] then [] else [Timed(now, stmts[0])] + Timestamped(now, stmts[1..])
  }

  ghost function HistoryOf(cfg: Config, run: seq<Arrival>): seq<Timed> {
    if run == [] then []
    else
      var last := run[|run| - 1];
      HistoryOf(cfg, run[..|run| - 1])
      + Timestamped(last.now, CommitsOf(cfg, StateAfter(cfg, run[..|run| - 1]), last))
  }

  function ApplyAll(db: Db, stmts: seq<Stmt>): Db
    decreases |stmts|
  {
    if stmts == [] then db else ApplyAll(Apply(db, stmts[0]).db, stmts[1..])
  }

  /** A step changes the tables by exactly the statements it commits. */
  lemma StepCommits(cfg: Config, s: State, now: int, req: Request)
    ensures Step(cfg, s, now, req).state.db == ApplyAll(s.db, Commits(cfg, s, now, req))
  {
    var c := Commits(cfg, s, now, req);
    if |c| > 0 {
      assert ApplyAll(s.db, c) == ApplyAll(Apply(s.db, c[0]).db, c[1..]);
    }
    if |c| == 2 {
      var db1 := Apply(s.db, c[0]).db;
      assert c[1..][1..] == [];
      assert ApplyAll(db1, c[1..]) == ApplyAll(Apply(db1, c[1]).db, c[1..][1..]);
    }
    if req.RegisterNode? && KeyHolder(s.db, req.hash).Some? {
      assert Conflicts(s.db, WithDefaults(NewNode(req, now), now));
    }
  }

  lemma CommitsFromServer(cfg: Config, s: State, now: int, req: Request)
    ensures forall stmt :: stmt in Commits(cfg, s, now, req) ==> FromServer(stmt, now, cfg.relayTTL)
  {
  }

  lemma {:induction false} AfterStamped(db: Db, history: seq<Timed>, now: int, stmts: seq<Stmt>)
    ensures After(db, history + Timestamped(now, stmts)) == ApplyAll(After(db, history), stmts)
    decreases |stmts|
  {
    if stmts == [] {
      assert history + Timestamped(now, stmts) == history;
    } else {
      var one := history + [Timed(now, stmts[0])];
      assert one[..|one| - 1] == history;
      assert history + Timestamped(now, stmts) == one + Timestamped(now, stmts[1..]);
      AfterStamped(db, one, now, stmts[1..]);
    }
  }

  /** Every run of the handlers and jobs leaves the tables of some server history, so whatever
      every history keeps, every run keeps. */
  lemma {:induction false} RunsAreHistories(cfg: Config, run: seq<Arrival>, t: int)
    requires InOrder(run, t)
    ensures ServerRun(HistoryOf(cfg, run), cfg.relayTTL) && EndsBy(HistoryOf(cfg, run), t)
    ensures StateAfter(cfg, run).db == After(EMPTY_DB, HistoryOf(cfg, run))
    decreases |run|
  {
    if run != [] {
      var last, front := run[|run| - 1], run[..|run| - 1];
      RunsAreHistories(cfg, front, last.now);
      var s, c := StateAfter(cfg, front), CommitsOf(cfg, StateAfter(cfg, front), last);
      StepCommits(cfg, s, last.now, last.req);
      CommitsFromServer(cfg, s, last.now, last.req);
      AfterStamped(EMPTY_DB, HistoryOf(cfg, front), last.now, c);
      HistoryGrows(cfg, HistoryOf(cfg, front), last.now, c, t);
    }
  }

  lemma HistoryGrows(cfg: Config, history: seq<Timed>, now: int, stmts: seq<Stmt>, t: int)
    requires ServerRun(history, cfg.relayTTL) && EndsBy(history, now) && now <= t
    requires forall stmt :: stmt in stmts ==> FromServer(stmt, now, cfg.relayTTL)
    ensures ServerRun(history + Timestamped(now, stmts), cfg.relayTTL) && EndsBy(history + Timestamped(now, stmts), t)
  {
  }

  // ----- rows sit under their keys in every run -----

  ghost function Served(cfg: Config, s: State, a: Arrival): State {
    Serve(cfg, s, a.caller, a.now, a.req).state
  }

  lemma {:induction false} ApplyAllKeepsTidy(db: Db, stmts: seq<Stmt>)
    requires Tidy(db)
    ensures Tidy(ApplyAll(db, stmts))
    decreases |stmts|
  {
    if stmts != [] {
      TidyStep(db, stmts[0]);
      ApplyAllKeepsTidy(Apply(db, stmts[0]).db, stmts[1..]);
    }
  }

  lemma ServedKeepsTidy(cfg: Config, s: State, a: Arrival)
    requires Tidy(s.db)
    ensures Tidy(Served(cfg, s, a).db)
  {
    StepCommits(cfg, s, a.now, a.req);
    ApplyAllKeepsTidy(s.db, Commits(cfg, s, a.now, a.req));
  }

  lemma {:induction false} AlwaysTidy(cfg: Config, run: seq<Arrival>)
    ensures Tidy(StateAfter(cfg, run).db)
  {
    if run != [] {
      AlwaysTidy(cfg, run[..|run| - 1]);
      ServedKeepsTidy(cfg, StateAfter(cfg, run[..|run| - 1]), run[|run| - 1]);
    }
  }

  // ----- a run with one relay -----

  function NodeArrival(hash: string, id: string, t: int): Arrival {
    Arrival(t, Operator, RegisterNode(hash, id, "", "", None))
  }

  function RelayArrival(id: string, t: int): Arrival {
    Arrival(t, Operator, RegisterRelay(id, "", "", None, 0, "", []))
  }

  /** The operator registers a node and its relay. */
  function OneRelay(hash: string, id: string, t: int): seq<Arrival> {
    [NodeArrival(hash, id, t), RelayArrival(id, t)]
  }

  lemma OneRelayRun(cfg: Config, hash: string, id: string, t: int)
    ensures
      var s := StateAfter(cfg, OneRelay(hash, id, t));
      && Tidy(s.db) && s.db.nodes.Keys == s.db.relays.Keys == {id} && s.cache == EMPTY_CACHE
      && FindNode(s.db, id).Some? && s.db.nodes[id].authKeyHash == hash
      && s.db.relays[id].status == RelayActive && s.db.relays[id].lastSeenAt == t
  {
    var a, b := NodeArrival(hash, id, t), RelayArrival(id, t);
    OneMore(cfg, [], a);
    OneMore(cfg, [a], b);
    assert [] + [a] == [a] && [a] + [b] == OneRelay(hash, id, t);
    var s := StateAfter(cfg, [a]);
    assert KeyHolder(EMPTY_DB, hash) == None;
    assert s == State(Apply(EMPTY_DB, InsertNode(WithDefaults(NewNode(a.req, t), t))).db, EMPTY_CACHE);
  }
}
