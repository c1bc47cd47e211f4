/** The two machines agree: the events of one request, run without interruption, are its step. */
module Uninterrupted {
  import opened Entities
  import opened Statements
  import opened Store
  import opened DiscoveryCache
  import opened Handlers
  import opened Coherence
  import opened Interleaving

  /** The events of one request, in the order its handler issues them. */
  function EventsOf(cfg: Config, s: State, tid: nat, now: int, req: Request): seq<Event> {
    match req
    case GetRelays(f) =>
      if f == NO_FILTER && !Hits(s.cache, CacheWindow(cfg.cacheTTL), now)
      then [Count(tid, now, now), Select(tid, now), SetCache(tid, now)] else []
    case RegisterRelay(_, _, _, _, _, _, _) => [LookupNode(tid, now, req), CommitUpsert(tid, now, now), Invalidate(tid, now)]
    case PutHeartbeat(_, _, _, _, _, _) => [LookupRelay(tid, now, req), CommitFull(tid, now, now), Invalidate(tid, now)]
    case Heartbeat(id, available) => [CommitHeartbeat(tid, now, now, id, available), Invalidate(tid, now)]
    case RemoveRelay(id) => [CommitDelete(tid, now, id), Invalidate(tid, now)]
    case RegisterNode(_, _, _, _, _) => [LookupKey(tid, now, req), CommitInsert(tid, now, now), Respond(tid, now)]
    case RemoveNode(id) => [SoftDelete(now, now, id)]
    case NodeStatusOf(_) => []
    case CleanupRelays => [Mark(now, now), Purge(now)]
    case CleanupNodes => [Deactivate(now, now)]
  }

  ghost function RunAll(cfg: Config, w: World, es: seq<Event>, n: nat): World
    decreases |es|
  {
    if es == [] then w else RunAll(cfg, Next(cfg, w, es[0], n), es[1..], n + 1)
  }

  /** w looks like the state s to a request that is about to start. */
  predicate Shows(w: World, s: State, tid: nat, now: int) {
    w.db == s.db && w.page.cache == s.cache && At(w, tid) == Idle && w.now <= now
  }

  lemma RunTwo(cfg: Config, w: World, a: Event, b: Event, n: nat)
    ensures RunAll(cfg, w, [a, b], n) == Next(cfg, Next(cfg, w, a, n), b, n + 1)
  {
    var w1 := Next(cfg, w, a, n);
    assert [a, b][1..] == [b] && [b][1..] == [];
    assert RunAll(cfg, w1, [b], n + 1) == RunAll(cfg, Next(cfg, w1, b, n + 1), [], n + 2);
  }

  lemma RunThree(cfg: Config, w: World, a: Event, b: Event, c: Event, n: nat)
    ensures RunAll(cfg, w, [a, b, c], n) == Next(cfg, Next(cfg, Next(cfg, w, a, n), b, n + 1), c, n + 2)
  {
    assert [a, b, c][1..] == [b, c];
    RunTwo(cfg, Next(cfg, w, a, n), b, c, n + 1);
  }

  lemma GetAgrees(cfg: Config, w: World, s: State, tid: nat, now: int, n: nat, w1: World, w2: World, w3: World)
    requires Shows(w, s, tid, now) && !Hits(s.cache, CacheWindow(cfg.cacheTTL), now)
    requires w1 == Next(cfg, w, Count(tid, now, now), n) && w2 == Next(cfg, w1, Select(tid, now), n + 1)
    requires w3 == Next(cfg, w2, SetCache(tid, now), n + 2)
    ensures Shows(w3, Step(cfg, s, now, GetRelays(NO_FILTER)).state, tid, now) && w3.cleanup == w.cleanup
  {
    var total := LiveTotal(cfg, s.db, now);
    CountStep(cfg, w, n, tid, now, now, w1);
    SelectStep(cfg, w1, n + 1, tid, now, Counted(total, now, n), w2);
    SetStep(cfg, w2, n + 2, tid, now, Queried(LiveList(cfg, s.db, now), total, n, n + 1), w3);
  }

  /** The last two events of every relay write. */
  lemma WriteAgrees(cfg: Config, w: World, s: State, tid: nat, now: int, e: Event, stmt: Stmt, n: nat, w1: World,
                    w2: World)
    requires w.db == s.db && w.page.cache == s.cache && w.now <= now
    requires RelayWrite(e) && e.tid == tid && e.now == now && Happens(w, e) && Runs(cfg, w, e) == Some(stmt)
    requires Apply(s.db, stmt).rows == 0 ==> Apply(s.db, stmt).db == s.db
    requires w1 == Next(cfg, w, e, n) && w2 == Next(cfg, w1, Invalidate(tid, now), n + 1)
    ensures Shows(w2, Written(s, Apply(s.db, stmt), NoContent, NotFound).state, tid, now) && w2.cleanup == w.cleanup
  {
    WriteStep(cfg, w, n, e, stmt, w1);
    InvalidateStep(cfg, w1, n + 1, tid, now, w2);
  }

  /** A write whose request found nothing to write does nothing. */
  lemma IdleWrite(cfg: Config, w: World, s: State, tid: nat, now: int, e: Event, n: nat, w1: World, w2: World)
    requires Shows(w, s, tid, now) && (e.CommitUpsert? || e.CommitFull?) && e.tid == tid && e.now == now && Happens(w, e)
    requires w1 == Next(cfg, w, e, n) && w2 == Next(cfg, w1, Invalidate(tid, now), n + 1)
    ensures Shows(w2, s, tid, now) && w2.cleanup == w.cleanup
  {
    NotReady(cfg, w, n, e, w1);
    InvalidateStep(cfg, w1, n + 1, tid, now, w2);
  }

  lemma RegisterRelayAgrees(cfg: Config, w: World, s: State, tid: nat, now: int, req: Request, n: nat,
                            w1: World, w2: World, w3: World)
    requires Shows(w, s, tid, now) && req.RegisterRelay?
    requires w1 == Next(cfg, w, LookupNode(tid, now, req), n)
    requires w2 == Next(cfg, w1, CommitUpsert(tid, now, now), n + 1) && w3 == Next(cfg, w2, Invalidate(tid, now), n + 2)
    ensures Shows(w3, Step(cfg, s, now, req).state, tid, now) && w3.cleanup == w.cleanup
  {
    LookupNodeStep(cfg, w, n, tid, now, req, w1);
    var found := FindNode(s.db, req.nodeId);
    if found.Some? {
      var relay := NewRelay(found.value, req, now);
      WriteAgrees(cfg, w1, s, tid, now, CommitUpsert(tid, now, now), UpsertRelay(RelayWithDefaults(relay, now)), n + 1, w2, w3);
    } else {
      IdleWrite(cfg, w1, s, tid, now, CommitUpsert(tid, now, now), n + 1, w2, w3);
    }
  }

  lemma PutHeartbeatAgrees(cfg: Config, w: World, s: State, tid: nat, now: int, req: Request, n: nat,
                           w1: World, w2: World, w3: World)
    requires Shows(w, s, tid, now) && req.PutHeartbeat?
    requires w1 == Next(cfg, w, LookupRelay(tid, now, req), n)
    requires w2 == Next(cfg, w1, CommitFull(tid, now, now), n + 1) && w3 == Next(cfg, w2, Invalidate(tid, now), n + 2)
    ensures Shows(w3, Step(cfg, s, now, req).state, tid, now) && w3.cleanup == w.cleanup
  {
    LookupRelayStep(cfg, w, n, tid, now, req, w1);
    if req.id in s.db.relays {
      var relay := ReportedRelay(s.db.relays[req.id], req, now);
      WriteAgrees(cfg, w1, s, tid, now, CommitFull(tid, now, now), FullUpdateOf(relay, now), n + 1, w2, w3);
    } else {
      IdleWrite(cfg, w1, s, tid, now, CommitFull(tid, now, now), n + 1, w2, w3);
    }
  }

  lemma NotInserting(cfg: Config, w: World, n: nat, tid: nat, now: int, answer: Answer, w': World)
    requires At(w, tid) == Answering(answer) && w.now <= now && w' == Next(cfg, w, CommitInsert(tid, now, now), n)
    ensures OnlyMoves(w, w', tid, Answering(answer), now)
  {
  }

  /** What a registration's three events come to. */
  predicate Answered(w: World, w': World, resp: Response, hash: string, n: nat) {
    match resp
    case NodeExists(id, at) => w'.answers == w.answers + [Answer(hash, id, at, n)]
    case NodeCreated(id, at) => w'.answers == w.answers + [Answer(hash, id, at, n + 1)]
    case _ => w'.answers == w.answers
  }

  lemma KnownNodeAgrees(cfg: Config, w: World, s: State, tid: nat, now: int, req: Request, n: nat,
                        w1: World, w2: World, w3: World)
    requires Shows(w, s, tid, now) && req.RegisterNode? && KeyHolder(s.db, req.hash).Some?
    requires w1 == Next(cfg, w, LookupKey(tid, now, req), n)
    requires w2 == Next(cfg, w1, CommitInsert(tid, now, now), n + 1) && w3 == Next(cfg, w2, Respond(tid, now), n + 2)
    ensures Shows(w3, Step(cfg, s, now, req).state, tid, now) && w3.cleanup == w.cleanup
    ensures Answered(w, w3, Step(cfg, s, now, req).response, req.hash, n)
  {
    var holder := KeyHolder(s.db, req.hash).value;
    var answer := Answer(req.hash, holder.id, holder.createdAt, n);
    LookupKeyStep(cfg, w, n, tid, now, req, w1);
    NotInserting(cfg, w1, n + 1, tid, now, answer, w2);
    RespondStep(cfg, w2, n + 2, tid, now, answer, w3);
  }

  lemma NewNodeAgrees(cfg: Config, w: World, s: State, tid: nat, now: int, req: Request, n: nat,
                      w1: World, w2: World, w3: World)
    requires Shows(w, s, tid, now) && req.RegisterNode? && KeyHolder(s.db, req.hash) == None
    requires w1 == Next(cfg, w, LookupKey(tid, now, req), n)
    requires w2 == Next(cfg, w1, CommitInsert(tid, now, now), n + 1) && w3 == Next(cfg, w2, Respond(tid, now), n + 2)
    ensures Shows(w3, Step(cfg, s, now, req).state, tid, now) && w3.cleanup == w.cleanup
    ensures Answered(w, w3, Step(cfg, s, now, req).response, req.hash, n)
  {
    var created := WithDefaults(NewNode(req, now), now);
    LookupKeyStep(cfg, w, n, tid, now, req, w1);
    InsertStep(cfg, w1, n + 1, tid, now, NewNode(req, now), w2);
    if Apply(s.db, InsertNode(created)).rows > 0 {
      RespondStep(cfg, w2, n + 2, tid, now, AnswerFor(created, n + 1), w3);
    } else {
      NotReady(cfg, w2, n + 2, Respond(tid, now), w3);
    }
  }

  /** The answer the registration's events append is the step's response. */
  lemma RegisterNodeAgrees(cfg: Config, w: World, s: State, tid: nat, now: int, req: Request, n: nat,
                           w1: World, w2: World, w3: World)
    requires Shows(w, s, tid, now) && req.RegisterNode?
    requires w1 == Next(cfg, w, LookupKey(tid, now, req), n)
    requires w2 == Next(cfg, w1, CommitInsert(tid, now, now), n + 1) && w3 == Next(cfg, w2, Respond(tid, now), n + 2)
    ensures Shows(w3, Step(cfg, s, now, req).state, tid, now) && w3.cleanup == w.cleanup
    ensures Answered(w, w3, Step(cfg, s, now, req).response, req.hash, n)
  {
    if KeyHolder(s.db, req.hash).Some? {
      KnownNodeAgrees(cfg, w, s, tid, now, req, n, w1, w2, w3);
    } else {
      NewNodeAgrees(cfg, w, s, tid, now, req, n, w1, w2, w3);
    }
  }

  lemma CleanupAgrees(cfg: Config, w: World, s: State, tid: nat, now: int, n: nat, w1: World, w2: World)
    requires Shows(w, s, tid, now) && w.cleanup == None
    requires w1 == Next(cfg, w, Mark(now, now), n) && w2 == Next(cfg, w1, Purge(now), n + 1)
    ensures Shows(w2, Step(cfg, s, now, CleanupRelays).state, tid, now) && w2.cleanup == w.cleanup
  {
    BackgroundStep(cfg, w, n, Mark(now, now), w1);
    BackgroundStep(cfg, w1, n + 1, Purge(now), w2);
  }

  /** The events of the request, run from w, leave what its step leaves. */
  ghost predicate RunsAsStep(cfg: Config, w: World, s: State, tid: nat, now: int, req: Request, n: nat) {
    var w' := RunAll(cfg, w, EventsOf(cfg, s, tid, now, req), n);
    Shows(w', Step(cfg, s, now, req).state, tid, now) && w'.cleanup == w.cleanup
  }

  /** There is one cleanup job: it does not start while it is between its two statements. */
  predicate MayStart(w: World, req: Request) {
    req.CleanupRelays? ==> w.cleanup == None
  }

  lemma RegisterRelayIsStep(cfg: Config, w: World, s: State, tid: nat, now: int, req: Request, n: nat)
    requires Shows(w, s, tid, now) && req.RegisterRelay?
    ensures RunsAsStep(cfg, w, s, tid, now, req, n)
  {
    RunThree(cfg, w, LookupNode(tid, now, req), CommitUpsert(tid, now, now), Invalidate(tid, now), n);
    var w1 := Next(cfg, w, LookupNode(tid, now, req), n);
    var w2 := Next(cfg, w1, CommitUpsert(tid, now, now), n + 1);
    RegisterRelayAgrees(cfg, w, s, tid, now, req, n, w1, w2, Next(cfg, w2, Invalidate(tid, now), n + 2));
  }

  lemma PutHeartbeatIsStep(cfg: Config, w: World, s: State, tid: nat, now: int, req: Request, n: nat)
    requires Shows(w, s, tid, now) && req.PutHeartbeat?
    ensures RunsAsStep(cfg, w, s, tid, now, req, n)
  {
    RunThree(cfg, w, LookupRelay(tid, now, req), CommitFull(tid, now, now), Invalidate(tid, now), n);
    var w1 := Next(cfg, w, LookupRelay(tid, now, req), n);
    var w2 := Next(cfg, w1, CommitFull(tid, now, now), n + 1);
    PutHeartbeatAgrees(cfg, w, s, tid, now, req, n, w1, w2, Next(cfg, w2, Invalidate(tid, now), n + 2));
  }

  /** PUT and DELETE /relays/{id}: one statement and its Invalidate. */
  lemma OneWriteIsStep(cfg: Config, w: World, s: State, tid: nat, now: int, req: Request, e: Event, stmt: Stmt, n: nat)
    requires Shows(w, s, tid, now)
    requires || (req.Heartbeat? && e == CommitHeartbeat(tid, now, now, req.id, req.available)
                 && stmt == HeartbeatRelay(req.id, req.available, now))
             || (req.RemoveRelay? && e == CommitDelete(tid, now, req.id) && stmt == DeleteRelay(req.id))
    ensures RunsAsStep(cfg, w, s, tid, now, req, n)
  {
    RunTwo(cfg, w, e, Invalidate(tid, now), n);
    var w1 := Next(cfg, w, e, n);
    WriteAgrees(cfg, w, s, tid, now, e, stmt, n, w1, Next(cfg, w1, Invalidate(tid, now), n + 1));
  }

  lemma GetIsStep(cfg: Config, w: World, s: State, tid: nat, now: int, req: Request, n: nat)
    requires Shows(w, s, tid, now) && req.GetRelays?
    ensures RunsAsStep(cfg, w, s, tid, now, req, n)
  {
    if req.filter == NO_FILTER && !Hits(s.cache, CacheWindow(cfg.cacheTTL), now) {
      RunThree(cfg, w, Count(tid, now, now), Select(tid, now), SetCache(tid, now), n);
      var w1 := Next(cfg, w, Count(tid, now, now), n);
      var w2 := Next(cfg, w1, Select(tid, now), n + 1);
      GetAgrees(cfg, w, s, tid, now, n, w1, w2, Next(cfg, w2, SetCache(tid, now), n + 2));
    }
  }

  lemma RegisterNodeIsStep(cfg: Config, w: World, s: State, tid: nat, now: int, req: Request, n: nat)
    requires Shows(w, s, tid, now) && req.RegisterNode?
    ensures RunsAsStep(cfg, w, s, tid, now, req, n)
  {
    RunThree(cfg, w, LookupKey(tid, now, req), CommitInsert(tid, now, now), Respond(tid, now), n);
    var w1 := Next(cfg, w, LookupKey(tid, now, req), n);
    var w2 := Next(cfg, w1, CommitInsert(tid, now, now), n + 1);
    RegisterNodeAgrees(cfg, w, s, tid, now, req, n, w1, w2, Next(cfg, w2, Respond(tid, now), n + 2));
  }

  lemma BackgroundIsStep(cfg: Config, w: World, s: State, tid: nat, now: int, req: Request, n: nat)
    requires Shows(w, s, tid, now) && MayStart(w, req)
    requires (req.RemoveNode? || req.NodeStatusOf? || req.CleanupRelays? || req.CleanupNodes?)
    ensures RunsAsStep(cfg, w, s, tid, now, req, n)
  {
    if req.CleanupRelays? {
      RunTwo(cfg, w, Mark(now, now), Purge(now), n);
      var w1 := Next(cfg, w, Mark(now, now), n);
      CleanupAgrees(cfg, w, s, tid, now, n, w1, Next(cfg, w1, Purge(now), n + 1));
    } else if !req.NodeStatusOf? {
      var e := if req.RemoveNode? then SoftDelete(now, now, req.id) else Deactivate(now, now);
      assert RunAll(cfg, w, [e], n) == RunAll(cfg, Next(cfg, w, e, n), [e][1..], n + 1) == Next(cfg, w, e, n);
      BackgroundStep(cfg, w, n, e, Next(cfg, w, e, n));
    }
  }

  /** From any world, even between the two statements of a cleanup, the events of any admitted
      request or job that may start, run without interruption, leave the tables and the cache of
      its atomic step. */
  lemma UninterruptedIsStep(cfg: Config, w: World, s: State, tid: nat, now: int, req: Request, n: nat)
    requires Shows(w, s, tid, now) && MayStart(w, req)
    ensures RunsAsStep(cfg, w, s, tid, now, req, n)
  {
    match req {
      case RegisterRelay(_, _, _, _, _, _, _) => RegisterRelayIsStep(cfg, w, s, tid, now, req, n);
      case PutHeartbeat(_, _, _, _, _, _) => PutHeartbeatIsStep(cfg, w, s, tid, now, req, n);
      case Heartbeat(id, available) =>
        OneWriteIsStep(cfg, w, s, tid, now, req, CommitHeartbeat(tid, now, now, id, available),
                       HeartbeatRelay(id, available, now), n);
      case RemoveRelay(id) =>
        OneWriteIsStep(cfg, w, s, tid, now, req, CommitDelete(tid, now, id), DeleteRelay(id), n);
      case GetRelays(_) => GetIsStep(cfg, w, s, tid, now, req, n);
      case RegisterNode(_, _, _, _, _) => RegisterNodeIsStep(cfg, w, s, tid, now, req, n);
      case _ => BackgroundIsStep(cfg, w, s, tid, now, req, n);
    }
  }

  // ----- the same inside an execution -----

  lemma {:induction false} RunAllIs(cfg: Config, es: seq<Event>, ws: seq<World>, n: nat, part: seq<Event>)
    requires Execution(cfg, es, ws) && n + |part| <= |es| && es[n..n + |part|] == part
    ensures RunAll(cfg, ws[n], part, n) == ws[n + |part|]
    decreases |part|
  {
    if part != [] {
      assert Follows(cfg, es, ws, n);
      assert es[n] == part[0];
      RunAllIs(cfg, es, ws, n + 1, part[1..]);
    }
  }

  /** A request whose events follow each other in an execution does what its step does. */
  lemma UninterruptedAt(cfg: Config, es: seq<Event>, ws: seq<World>, n: nat, s: State, tid: nat, now: int,
                        req: Request, part: seq<Event>)
    requires Execution(cfg, es, ws) && n + |part| <= |es| && es[n..n + |part|] == part
    requires part == EventsOf(cfg, s, tid, now, req) && Shows(ws[n], s, tid, now) && MayStart(ws[n], req)
    ensures Shows(ws[n + |part|], Step(cfg, s, now, req).state, tid, now)
    ensures ws[n + |part|].cleanup == ws[n].cleanup
  {
    RunAllIs(cfg, es, ws, n, part);
    UninterruptedIsStep(cfg, ws[n], s, tid, now, req, n);
  }
}
