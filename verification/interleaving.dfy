/** The server with its handlers taken apart: every store call, cache call and response is a
    step of its own, and any number of requests run between each other's steps. */
module Interleaving {
  import opened Entities
  import opened Statements
  import opened History
  import opened Store
  import opened DiscoveryCache
  import opened Handlers
  import opened Coherence

  /** Where a request stands between two of its steps. Positions are places in the trace. */
  datatype Pc =
    | Idle
    | Counted(total: nat, stamp: int, at: nat)
    | Queried(list: seq<RelayDTO>, total: nat, countAt: nat, at: nat)
    | NodeFound(relay: Relay)
    | RelayFound(relay: Relay)
    | Committed(at: nat)
    | KeyMissing(node: Node)
    | Answering(answer: Answer)

  /** A registration's 200 or 201, and the position of the statement that decided it. */
  datatype Answer = Answer(hash: string, id: string, createdAt: int, decidedAt: nat)

  /** `now` is when the event happens. A `stamp` is the time the store method read before the
      statement it then ran. */
  datatype Event =
    | Count(tid: nat, now: int, stamp: int)          // a plain GET that missed counts the listed relays
    | Select(tid: nat, now: int)                     // and then lists them, with the same cutoff
    | SetCache(tid: nat, now: int)
    | LookupNode(tid: nat, now: int, req: Request)   // POST /relays finds its node and reads the clock
    | CommitUpsert(tid: nat, now: int, stamp: int)
    | LookupRelay(tid: nat, now: int, req: Request)  // PUT /v1/relays finds its relay
    | CommitFull(tid: nat, now: int, stamp: int)
    | CommitHeartbeat(tid: nat, now: int, stamp: int, id: string, available: Option<nat>)
    | CommitDelete(tid: nat, now: int, id: string)
    | Invalidate(tid: nat, now: int)
    | LookupKey(tid: nat, now: int, req: Request)    // POST /v1/nodes/register looks for the key
    | CommitInsert(tid: nat, now: int, stamp: int)
    | Respond(tid: nat, now: int)
    | SoftDelete(now: int, stamp: int, id: string)
    | Deactivate(now: int, stamp: int)
    | Mark(now: int, stamp: int)                     // first statement of a relay cleanup
    | Purge(now: int)                                // second statement, stamped like the first

  predicate Stamped(e: Event) {
    || e.Count? || e.CommitUpsert? || e.CommitFull? || e.CommitHeartbeat? || e.CommitInsert?
    || e.SoftDelete? || e.Deactivate? || e.Mark?
  }

  /** The clock does not run backwards, and no stamp comes from the future. */
  predicate Happens(w: World, e: Event) {
    w.now <= e.now && (Stamped(e) ==> e.stamp <= e.now)
  }

  /** The cache, and the positions of the two statements and the Set behind its page. */
  datatype CachedPage = CachedPage(cache: Cache, countAt: nat, queryAt: nat, setAt: nat)

  datatype World = World(
    now: int,
    db: Db,
    page: CachedPage,
    threads: map<nat, Pc>,
    cleanup: Option<int>,        // the stamp of a cleanup between its two statements
    answers: seq<Answer>)

  const START := World(0, EMPTY_DB, CachedPage(EMPTY_CACHE, 0, 0, 0), map[], None, [])

  function At(w: World, tid: nat): Pc {
    if tid in w.threads then w.threads[tid] else Idle
  }

  /** The statement event e runs in world w, if any. */
  function Runs(cfg: Config, w: World, e: Event): Option<Stmt> {
    match e
    case CommitUpsert(tid, _, stamp) =>
      if At(w, tid).NodeFound? then Some(UpsertRelay(RelayWithDefaults(At(w, tid).relay, stamp))) else None
    case CommitFull(tid, _, stamp) =>
      if At(w, tid).RelayFound? then Some(FullUpdateOf(At(w, tid).relay, stamp)) else None
    case CommitHeartbeat(tid, _, stamp, id, available) =>
      if At(w, tid) == Idle then Some(HeartbeatRelay(id, available, stamp)) else None
    case CommitDelete(tid, _, id) =>
      if At(w, tid) == Idle then Some(DeleteRelay(id)) else None
    case CommitInsert(tid, _, stamp) =>
      if At(w, tid).KeyMissing? then Some(InsertNode(WithDefaults(At(w, tid).node, stamp))) else None
    case SoftDelete(_, stamp, id) => Some(DeleteNode(id, stamp))
    case Deactivate(_, stamp) => Some(DeactivateNodes(cfg.inactiveHours, stamp))
    case Mark(_, stamp) => if w.cleanup == None then Some(MarkStale(cfg.relayTTL, stamp)) else None
    case Purge(_) => if w.cleanup.Some? then Some(PurgeStale(cfg.relayTTL, w.cleanup.value)) else None
    case _ => None
  }

  function NextDb(cfg: Config, w: World, e: Event): Db {
    match Runs(cfg, w, e)
    case Some(s) => Apply(w.db, s).db
    case None => w.db
  }

  predicate Affects(cfg: Config, w: World, e: Event) {
    Runs(cfg, w, e).Some? && Apply(w.db, Runs(cfg, w, e).value).rows > 0
  }

  predicate RelayWrite(e: Event) {
    e.CommitUpsert? || e.CommitFull? || e.CommitHeartbeat? || e.CommitDelete?
  }

  /** Where the event leaves its request; an event its request is not ready for moves nothing.
      A relay write that reached a row still has to invalidate the cache. */
  ghost function NextPc(cfg: Config, w: World, e: Event, n: nat): Pc
    requires HasThread(e)
  {
    var pc := At(w, e.tid);
    if RelayWrite(e) then
      if Affects(cfg, w, e) then Committed(n) else if Runs(cfg, w, e).Some? then Idle else pc
    else
      match e
      case Count(_, _, stamp) => if pc == Idle then Counted(LiveTotal(cfg, w.db, stamp), stamp, n) else pc
      case Select(_, _) =>
        if pc.Counted? then Queried(LiveList(cfg, w.db, pc.stamp), pc.total, pc.at, n) else pc
      case SetCache(_, _) => if pc.Queried? then Idle else pc
      case LookupNode(_, now, req) =>
        if pc == Idle && req.RegisterRelay? && FindNode(w.db, req.nodeId).Some?
        then NodeFound(NewRelay(FindNode(w.db, req.nodeId).value, req, now)) else pc
      case LookupRelay(_, now, req) =>
        if pc == Idle && req.PutHeartbeat? && req.id in w.db.relays
        then RelayFound(ReportedRelay(w.db.relays[req.id], req, now)) else pc
      case Invalidate(_, _) => if pc.Committed? then Idle else pc
      case LookupKey(_, now, req) =>
        if pc == Idle && req.RegisterNode? then
          var holder := KeyHolder(w.db, req.hash);
          if holder.Some? then Answering(Answer(req.hash, holder.value.id, holder.value.createdAt, n))
          else KeyMissing(NewNode(req, now))
        else pc
      case CommitInsert(_, _, stamp) =>
        if !pc.KeyMissing? then pc
        else if Affects(cfg, w, e) then Answering(AnswerFor(WithDefaults(pc.node, stamp), n)) else Idle
      case Respond(_, _) => if pc.Answering? then Idle else pc
  }

  function AnswerFor(created: Node, n: nat): Answer {
    Answer(created.authKeyHash, created.id, created.createdAt, n)
  }

  predicate HasThread(e: Event) {
    !e.SoftDelete? && !e.Deactivate? && !e.Mark? && !e.Purge?
  }

  function NextPage(w: World, e: Event, n: nat): CachedPage {
    if e.SetCache? && At(w, e.tid).Queried? then
      var q := At(w, e.tid);
      CachedPage(Cache(true, e.now, q.list, q.total), q.countAt, q.at, n)
    else if e.Invalidate? && At(w, e.tid).Committed? then w.page.(cache := Invalidated(w.page.cache))
    else w.page
  }

  function NextCleanup(w: World, e: Event): Option<int> {
    match e
    case Mark(_, stamp) => if w.cleanup == None then Some(stamp) else w.cleanup
    case Purge(_) => None
    case _ => w.cleanup
  }

  function NextAnswers(w: World, e: Event): seq<Answer> {
    if e.Respond? && At(w, e.tid).Answering? then w.answers + [At(w, e.tid).answer] else w.answers
  }

  /** The effect of event e at position n, if it happens. */
  ghost function Next(cfg: Config, w: World, e: Event, n: nat): World {
    if !Happens(w, e) then w
    else World(e.now, NextDb(cfg, w, e), NextPage(w, e, n),
               if HasThread(e) then w.threads[e.tid := NextPc(cfg, w, e, n)] else w.threads,
               NextCleanup(w, e), NextAnswers(w, e))
  }

  // ----- one event at a time -----

  ghost predicate OthersStay(w: World, w': World, tid: nat) {
    forall other: nat :: other != tid ==> At(w', other) == At(w, other)
  }

  /** The event only moved its own request, to pc. */
  ghost predicate OnlyMoves(w: World, w': World, tid: nat, pc: Pc, now: int) {
    && w' == World(now, w.db, w.page, w'.threads, w.cleanup, w.answers)
    && At(w', tid) == pc && OthersStay(w, w', tid)
  }

  lemma CountStep(cfg: Config, w: World, n: nat, tid: nat, t: int, stamp: int, w': World)
    requires At(w, tid) == Idle && w.now <= t && stamp <= t && w' == Next(cfg, w, Count(tid, t, stamp), n)
    ensures OnlyMoves(w, w', tid, Counted(LiveTotal(cfg, w.db, stamp), stamp, n), t)
  {
  }

  lemma SelectStep(cfg: Config, w: World, n: nat, tid: nat, t: int, pc: Pc, w': World)
    requires pc.Counted? && At(w, tid) == pc && w.now <= t && w' == Next(cfg, w, Select(tid, t), n)
    ensures OnlyMoves(w, w', tid, Queried(LiveList(cfg, w.db, pc.stamp), pc.total, pc.at, n), t)
  {
  }

  lemma SetStep(cfg: Config, w: World, n: nat, tid: nat, t: int, pc: Pc, w': World)
    requires pc.Queried? && At(w, tid) == pc && w.now <= t && w' == Next(cfg, w, SetCache(tid, t), n)
    ensures w'.page == CachedPage(Cache(true, t, pc.list, pc.total), pc.countAt, pc.at, n)
    ensures w'.db == w.db && w'.now == t && w'.cleanup == w.cleanup && At(w', tid) == Idle && OthersStay(w, w', tid)
  {
  }

  /** A relay write, followed by its Invalidate if it reached a row. */
  lemma WriteStep(cfg: Config, w: World, n: nat, e: Event, stmt: Stmt, w': World)
    requires RelayWrite(e) && Happens(w, e) && Runs(cfg, w, e) == Some(stmt) && w' == Next(cfg, w, e, n)
    ensures w' == World(e.now, Apply(w.db, stmt).db, w.page, w'.threads, w.cleanup, w.answers)
    ensures At(w', e.tid) == (if Apply(w.db, stmt).rows > 0 then Committed(n) else Idle) && OthersStay(w, w', e.tid)
  {
  }

  lemma InvalidateStep(cfg: Config, w: World, n: nat, tid: nat, t: int, w': World)
    requires w.now <= t && w' == Next(cfg, w, Invalidate(tid, t), n)
    ensures
      var page := if At(w, tid).Committed? then w.page.(cache := Invalidated(w.page.cache)) else w.page;
      w' == World(t, w.db, page, w'.threads, w.cleanup, w.answers)
    ensures At(w', tid) == (if At(w, tid).Committed? then Idle else At(w, tid)) && OthersStay(w, w', tid)
  {
  }

  lemma LookupNodeStep(cfg: Config, w: World, n: nat, tid: nat, t: int, req: Request, w': World)
    requires At(w, tid) == Idle && w.now <= t && req.RegisterRelay? && w' == Next(cfg, w, LookupNode(tid, t, req), n)
    ensures
      var found := FindNode(w.db, req.nodeId);
      OnlyMoves(w, w', tid, if found.Some? then NodeFound(NewRelay(found.value, req, t)) else Idle, t)
  {
  }

  lemma LookupRelayStep(cfg: Config, w: World, n: nat, tid: nat, t: int, req: Request, w': World)
    requires At(w, tid) == Idle && w.now <= t && req.PutHeartbeat? && w' == Next(cfg, w, LookupRelay(tid, t, req), n)
    ensures OnlyMoves(w, w', tid, if req.id in w.db.relays then RelayFound(ReportedRelay(w.db.relays[req.id], req, t))
                                  else Idle, t)
  {
  }

  lemma LookupKeyStep(cfg: Config, w: World, n: nat, tid: nat, t: int, req: Request, w': World)
    requires At(w, tid) == Idle && w.now <= t && req.RegisterNode? && w' == Next(cfg, w, LookupKey(tid, t, req), n)
    ensures
      var holder := KeyHolder(w.db, req.hash);
      OnlyMoves(w, w', tid, if holder.Some? then Answering(Answer(req.hash, holder.value.id, holder.value.createdAt, n))
                            else KeyMissing(NewNode(req, t)), t)
  {
  }

  lemma InsertStep(cfg: Config, w: World, n: nat, tid: nat, t: int, node: Node, w': World)
    requires At(w, tid) == KeyMissing(node) && w.now <= t && w' == Next(cfg, w, CommitInsert(tid, t, t), n)
    ensures
      var created := WithDefaults(node, t);
      var e := Apply(w.db, InsertNode(created));
      && w' == World(t, e.db, w.page, w'.threads, w.cleanup, w.answers)
      && At(w', tid) == (if e.rows > 0 then Answering(AnswerFor(created, n)) else Idle) && OthersStay(w, w', tid)
  {
  }

  lemma RespondStep(cfg: Config, w: World, n: nat, tid: nat, t: int, answer: Answer, w': World)
    requires At(w, tid) == Answering(answer) && w.now <= t && w' == Next(cfg, w, Respond(tid, t), n)
    ensures w' == World(t, w.db, w.page, w'.threads, w.cleanup, w.answers + [answer])
    ensures At(w', tid) == Idle && OthersStay(w, w', tid)
  {
  }

  /** An event whose request is not ready for it only lets time pass. */
  lemma NotReady(cfg: Config, w: World, n: nat, e: Event, w': World)
    requires HasThread(e) && Happens(w, e) && At(w, e.tid) == Idle && w' == Next(cfg, w, e, n)
    requires e.CommitUpsert? || e.CommitFull? || e.CommitInsert? || e.Respond? || e.Select? || e.SetCache?
    ensures OnlyMoves(w, w', e.tid, Idle, e.now)
  {
  }

  /** Statements of no request: node deletions, deactivations and cleanups. */
  lemma BackgroundStep(cfg: Config, w: World, n: nat, e: Event, w': World)
    requires !HasThread(e) && Happens(w, e) && w' == Next(cfg, w, e, n)
    ensures w' == World(e.now, NextDb(cfg, w, e), w.page, w.threads, NextCleanup(w, e), w.answers)
  {
  }

  /** ws are the worlds an execution of es goes through: ws[n] follows the first n events. */
  ghost predicate Execution(cfg: Config, es: seq<Event>, ws: seq<World>) {
    && |ws| == |es| + 1
    && ws[0] == START
    && forall i: nat :: i < |es| ==> Follows(cfg, es, ws, i)
  }

  ghost predicate Follows(cfg: Config, es: seq<Event>, ws: seq<World>, i: nat)
    requires i < |es| && |ws| == |es| + 1
  {
    ws[i + 1] == Next(cfg, ws[i], es[i], i)
  }

  ghost function Worlds(cfg: Config, es: seq<Event>): (ws: seq<World>)
    ensures |ws| == |es| + 1
  {
    if es == [] then [START]
    else
      var n := |es| - 1;
      var ws := Worlds(cfg, es[..n]);
      ws + [Next(cfg, ws[n], es[n], n)]
  }

  /** Every sequence of events has an execution. */
  lemma {:induction false} WorldsExecute(cfg: Config, es: seq<Event>)
    ensures Execution(cfg, es, Worlds(cfg, es))
  {
    if es != [] {
      var n := |es| - 1;
      WorldsExecute(cfg, es[..n]);
      var front, ws := Worlds(cfg, es[..n]), Worlds(cfg, es);
      forall i: nat | i < |es|
        ensures Follows(cfg, es, ws, i)
      {
        if i < n {
          assert Follows(cfg, es[..n], front, i);
          assert ws[i] == front[i] && ws[i + 1] == front[i + 1] && es[..n][i] == es[i];
        }
      }
    }
  }

  // ----- the statements of a trace -----

  /** What requests remember between their steps is still true or at least well formed. */
  predicate SoundThread(db: Db, now: int, pc: Pc) {
    match pc
    case NodeFound(relay) =>
      relay.status == RelayActive && relay.lastSeenAt <= now && relay.nodeId in db.nodes
    case KeyMissing(node) => node.status == NodeActive && node.lastSeenAt == None && node.deletedAt == None
    case _ => true
  }

  ghost predicate Sound(w: World) {
    && Tidy(w.db)
    && (forall tid :: tid in w.threads ==> SoundThread(w.db, w.now, w.threads[tid]))
    && (w.cleanup.Some? ==> w.cleanup.value <= w.now)
    && w.db.relays.Keys <= w.db.nodes.Keys
  }

  lemma RunsFromServer(cfg: Config, w: World, e: Event)
    requires Sound(w) && Happens(w, e) && Runs(cfg, w, e).Some?
    ensures FromServer(Runs(cfg, w, e).value, e.now, cfg.relayTTL)
    ensures Runs(cfg, w, e).value.UpsertRelay? ==> Runs(cfg, w, e).value.relay.nodeId in w.db.nodes
  {
  }

  lemma StatementKeepsOwners(db: Db, s: Stmt)
    requires db.relays.Keys <= db.nodes.Keys && (s.UpsertRelay? ==> s.relay.nodeId in db.nodes)
    ensures db.nodes.Keys <= Apply(db, s).db.nodes.Keys
    ensures Apply(db, s).db.relays.Keys <= Apply(db, s).db.nodes.Keys
  {
  }

  lemma SoundPc(cfg: Config, w: World, e: Event, n: nat)
    requires Sound(w) && Happens(w, e) && HasThread(e)
    ensures SoundThread(w.db, e.now, NextPc(cfg, w, e, n))
  {
  }

  lemma SoundDb(cfg: Config, w: World, e: Event)
    requires Sound(w) && Happens(w, e)
    ensures Tidy(NextDb(cfg, w, e)) && w.db.nodes.Keys <= NextDb(cfg, w, e).nodes.Keys
    ensures NextDb(cfg, w, e).relays.Keys <= NextDb(cfg, w, e).nodes.Keys
  {
    if Runs(cfg, w, e).Some? {
      RunsFromServer(cfg, w, e);
      TidyStep(w.db, Runs(cfg, w, e).value);
      StatementKeepsOwners(w.db, Runs(cfg, w, e).value);
    }
  }

  lemma SoundNext(cfg: Config, w: World, e: Event, n: nat, w': World)
    requires Sound(w) && w' == Next(cfg, w, e, n)
    ensures Sound(w')
  {
    if Happens(w, e) {
      SoundDb(cfg, w, e);
      if HasThread(e) {
        SoundPc(cfg, w, e, n);
      }
    }
  }

  /** In every interleaving, every relay belongs to a node in the table (perhaps deleted since),
      no two nodes share a key hash, and rows sit under their keys. */
  lemma {:induction false} AlwaysSound(cfg: Config, es: seq<Event>, ws: seq<World>, n: nat)
    requires Execution(cfg, es, ws) && n <= |es|
    ensures Sound(ws[n])
    ensures Tidy(ws[n].db) && ws[n].db.relays.Keys <= ws[n].db.nodes.Keys
  {
    if n > 0 {
      AlwaysSound(cfg, es, ws, n - 1);
      assert Follows(cfg, es, ws, n - 1);
      SoundNext(cfg, ws[n - 1], es[n - 1], n - 1, ws[n]);
    }
  }

  /** The statement, if any, that event e adds to the history. */
  function Recorded(cfg: Config, w: World, e: Event): seq<Timed> {
    if Happens(w, e) && Runs(cfg, w, e).Some? then [Timed(e.now, Runs(cfg, w, e).value)] else []
  }

  /** hs[n] holds the statements the first n events ran. */
  ghost predicate Histories(cfg: Config, es: seq<Event>, ws: seq<World>, hs: seq<seq<Timed>>)
    requires |es| < |ws|
  {
    && |hs| == |es| + 1
    && hs[0] == []
    && forall i: nat :: i < |es| ==> Appends(cfg, es, ws, hs, i)
  }

  predicate Appends(cfg: Config, es: seq<Event>, ws: seq<World>, hs: seq<seq<Timed>>, i: nat)
    requires i < |es| < |ws| && |hs| == |es| + 1
  {
    hs[i + 1] == hs[i] + Recorded(cfg, ws[i], es[i])
  }

  lemma HistoriesExist(cfg: Config, es: seq<Event>, ws: seq<World>) returns (hs: seq<seq<Timed>>)
    requires |es| < |ws|
    ensures Histories(cfg, es, ws, hs)
  {
    hs := [[]];
    while |hs| <= |es|
      invariant 1 <= |hs| <= |es| + 1 && hs[0] == []
      invariant forall i :: 0 <= i < |hs| - 1 ==> hs[i + 1] == hs[i] + Recorded(cfg, ws[i], es[i])
    {
      hs := hs + [hs[|hs| - 1] + Recorded(cfg, ws[|hs| - 1], es[|hs| - 1])];
    }
  }

  /** h is a server history that ends by now and produces the tables. */
  predicate Records(cfg: Config, h: seq<Timed>, w: World) {
    ServerRun(h, cfg.relayTTL) && EndsBy(h, w.now) && w.db == After(EMPTY_DB, h)
  }

  lemma NextRecorded(cfg: Config, w: World, e: Event, n: nat, w': World)
    requires Sound(w) && w' == Next(cfg, w, e, n)
    ensures w.now <= w'.now
    ensures Recorded(cfg, w, e) == [] ==> w'.db == w.db
    ensures Recorded(cfg, w, e) != [] ==>
      var x := Recorded(cfg, w, e)[0];
      Recorded(cfg, w, e) == [x] && x.now == w'.now && w'.db == Apply(w.db, x.stmt).db
      && FromServer(x.stmt, x.now, cfg.relayTTL)
  {
    if Happens(w, e) && Runs(cfg, w, e).Some? {
      RunsFromServer(cfg, w, e);
    }
  }

  lemma HistoryAppend(h: seq<Timed>, x: Timed, ttl: int, t: int)
    requires ServerRun(h, ttl) && EndsBy(h, t) && t <= x.now && FromServer(x.stmt, x.now, ttl)
    ensures ServerRun(h + [x], ttl) && EndsBy(h + [x], x.now)
    ensures After(EMPTY_DB, h + [x]) == Apply(After(EMPTY_DB, h), x.stmt).db
  {
    assert (h + [x])[..|h|] == h;
  }

  lemma HistoryStep(cfg: Config, w: World, e: Event, n: nat, w': World, h: seq<Timed>)
    requires Sound(w) && w' == Next(cfg, w, e, n) && Records(cfg, h, w)
    ensures Records(cfg, h + Recorded(cfg, w, e), w')
  {
    NextRecorded(cfg, w, e, n, w');
    if Recorded(cfg, w, e) == [] {
      assert h + Recorded(cfg, w, e) == h;
    } else {
      HistoryAppend(h, Recorded(cfg, w, e)[0], cfg.relayTTL, w.now);
    }
  }

  /** Every interleaving's tables are those of the server history its statements make, so what
      every history keeps, every interleaving keeps. */
  lemma {:induction false} TracesAreHistories(cfg: Config, es: seq<Event>, ws: seq<World>, hs: seq<seq<Timed>>, n: nat)
    requires Execution(cfg, es, ws) && Histories(cfg, es, ws, hs) && n <= |es|
    ensures Records(cfg, hs[n], ws[n])
  {
    if n > 0 {
      TracesAreHistories(cfg, es, ws, hs, n - 1);
      AlwaysSound(cfg, es, ws, n - 1);
      TraceStep(cfg, es, ws, hs, n - 1);
    }
  }

  lemma TraceStep(cfg: Config, es: seq<Event>, ws: seq<World>, hs: seq<seq<Timed>>, n: nat)
    requires Execution(cfg, es, ws) && Histories(cfg, es, ws, hs) && n < |es|
    requires Sound(ws[n]) && Records(cfg, hs[n], ws[n])
    ensures Records(cfg, hs[n + 1], ws[n + 1])
  {
    assert Follows(cfg, es, ws, n) && Appends(cfg, es, ws, hs, n);
    HistoryStep(cfg, ws[n], es[n], n, ws[n + 1], hs[n]);
  }

  /** For instance: however requests and cleanups interleave, dropping the status test from the
      listing or the count changes nothing, and a relay's row agrees with its timestamps. */
  lemma InterleavingsKeepStatusRedundant(cfg: Config, es: seq<Event>, ws: seq<World>, n: nat, t: int, f: ListFilter)
    requires Execution(cfg, es, ws) && n <= |es| && ws[n].now <= t
    ensures ListedRows(ws[n].db, t, cfg.relayTTL, f) == ListedWithoutStatus(ws[n].db, t, cfg.relayTTL, f)
    ensures StatusAgrees(ws[n].db, cfg.relayTTL, t)
  {
    var hs := HistoriesExist(cfg, es, ws);
    TracesAreHistories(cfg, es, ws, hs, n);
    StatusIsRedundant(hs[n], cfg.relayTTL, t, f);
    StatusAlwaysAgrees(hs[n], cfg.relayTTL, t);
  }
}
