/** Executions from the empty server that show what interleaving does allow. */
module Witnesses {
  import opened Entities
  import opened Statements
  import opened DiscoveryCache
  import opened Handlers
  import opened Coherence
  import opened Interleaving
  import opened Registration
  import opened Uninterrupted

  /** A request none of whose events came up yet is idle. */
  lemma {:induction false} UnusedIsIdle(cfg: Config, es: seq<Event>, ws: seq<World>, n: nat, tid: nat)
    requires Execution(cfg, es, ws) && n <= |es|
    requires forall k :: 0 <= k < n && HasThread(es[k]) ==> es[k].tid != tid
    ensures At(ws[n], tid) == Idle
  {
    if n > 0 {
      UnusedIsIdle(cfg, es, ws, n - 1, tid);
      assert Follows(cfg, es, ws, n - 1);
    }
  }

  // ----- a registered node and relay -----

  const HASH := "key hash"
  const NODE := "node id"

  /** Request 0 registers a node, then its relay. */
  function OneRelayEvents(t: int): seq<Event> {
    var node, relay := NodeArrival(HASH, NODE, t).req, RelayArrival(NODE, t).req;
    [LookupKey(0, t, node), CommitInsert(0, t, t), Respond(0, t),
     LookupNode(0, t, relay), CommitUpsert(0, t, t), Invalidate(0, t)]
  }

  lemma OneNodeWorld(cfg: Config, es: seq<Event>, ws: seq<World>, t: int)
    requires 0 <= t && Execution(cfg, es, ws) && |es| >= 6 && es[..6] == OneRelayEvents(t)
    ensures Shows(ws[3], StateAfter(cfg, [NodeArrival(HASH, NODE, t)]), 0, t)
  {
    var a := NodeArrival(HASH, NODE, t);
    var part := EventsOf(cfg, INITIAL, 0, t, a.req);
    assert es[0..3] == part;
    UninterruptedAt(cfg, es, ws, 0, INITIAL, 0, t, a.req, part);
    OneMore(cfg, [], a);
    assert [] + [a] == [a];
  }

  lemma OneRelayWorld(cfg: Config, es: seq<Event>, ws: seq<World>, t: int)
    requires 0 <= t && Execution(cfg, es, ws) && |es| >= 6 && es[..6] == OneRelayEvents(t)
    ensures Shows(ws[6], StateAfter(cfg, OneRelay(HASH, NODE, t)), 0, t)
  {
    var a, b := NodeArrival(HASH, NODE, t), RelayArrival(NODE, t);
    var s := StateAfter(cfg, [a]);
    var part := EventsOf(cfg, s, 0, t, b.req);
    OneNodeWorld(cfg, es, ws, t);
    assert es[3..6] == part;
    UninterruptedAt(cfg, es, ws, 3, s, 0, t, b.req, part);
    OneMore(cfg, [a], b);
    assert [a] + [b] == OneRelay(HASH, NODE, t);
  }

  /** The relay is the only one, and listed at t. */
  predicate OneListed(cfg: Config, db: Db, t: int) {
    && db.relays.Keys == {NODE} && db.relays[NODE].lastSeenAt == t && db.relays[NODE].nodeId == NODE
    && NODE in ListedRows(db, t, cfg.relayTTL, NO_FILTER) && LiveTotal(cfg, db, t) == 1
    && FindNode(db, NODE).Some? && db.nodes[NODE].authKeyHash == HASH
  }

  lemma OneRelayListed(cfg: Config, t: int, db: Db)
    requires db == StateAfter(cfg, OneRelay(HASH, NODE, t)).db
    ensures OneListed(cfg, db, t)
  {
    OneRelayRun(cfg, HASH, NODE, t);
    assert TtlWindow(cfg.relayTTL) > 0;
    var m := ListedRows(db, t, cfg.relayTTL, NO_FILTER);
    assert m.Keys == {NODE} && |m| == |m.Keys|;
  }

  /** Requests 0 and 1 are idle and one relay is listed. */
  predicate Ready(cfg: Config, w: World, t: int) {
    At(w, 0) == Idle && At(w, 1) == Idle && w.now <= t && OneListed(cfg, w.db, t)
  }

  /** An execution that registers a relay at t and goes on with these events. */
  lemma Begin(cfg: Config, t: int, tail: seq<Event>) returns (es: seq<Event>, ws: seq<World>)
    requires 0 <= t
    ensures Execution(cfg, es, ws) && |es| == 6 + |tail| && forall k :: 6 <= k < |es| ==> es[k] == tail[k - 6]
    ensures Ready(cfg, ws[6], t)
  {
    es := OneRelayEvents(t) + tail;
    ws := Worlds(cfg, es);
    WorldsExecute(cfg, es);
    OneRelayWorld(cfg, es, ws, t);
    UnusedIsIdle(cfg, es, ws, 6, 1);
    OneRelayListed(cfg, t, ws[6].db);
  }

  // ----- parts of an execution -----

  lemma QueryAt(cfg: Config, es: seq<Event>, ws: seq<World>, n: nat, a: nat, t: int)
    requires Execution(cfg, es, ws) && n + 2 <= |es| && es[n] == Count(a, t, t) && es[n + 1] == Select(a, t)
    requires At(ws[n], a) == Idle && ws[n].now <= t
    ensures OnlyMoves(ws[n], ws[n + 2], a, Queried(LiveList(cfg, ws[n].db, t), LiveTotal(cfg, ws[n].db, t), n, n + 1), t)
  {
    assert Follows(cfg, es, ws, n) && Follows(cfg, es, ws, n + 1);
    CountStep(cfg, ws[n], n, a, t, t, ws[n + 1]);
    SelectStep(cfg, ws[n + 1], n + 1, a, t, Counted(LiveTotal(cfg, ws[n].db, t), t, n), ws[n + 2]);
  }

  lemma CountAt(cfg: Config, es: seq<Event>, ws: seq<World>, n: nat, a: nat, t: int)
    requires Execution(cfg, es, ws) && n < |es| && es[n] == Count(a, t, t)
    requires At(ws[n], a) == Idle && ws[n].now <= t
    ensures OnlyMoves(ws[n], ws[n + 1], a, Counted(LiveTotal(cfg, ws[n].db, t), t, n), t)
  {
    assert Follows(cfg, es, ws, n);
    CountStep(cfg, ws[n], n, a, t, t, ws[n + 1]);
  }

  lemma SelectAt(cfg: Config, es: seq<Event>, ws: seq<World>, n: nat, a: nat, t: int, pc: Pc)
    requires Execution(cfg, es, ws) && n < |es| && es[n] == Select(a, t)
    requires pc.Counted? && At(ws[n], a) == pc && ws[n].now <= t
    ensures OnlyMoves(ws[n], ws[n + 1], a, Queried(LiveList(cfg, ws[n].db, pc.stamp), pc.total, pc.at, n), t)
  {
    assert Follows(cfg, es, ws, n);
    SelectStep(cfg, ws[n], n, a, t, pc, ws[n + 1]);
  }

  lemma DeleteAt(cfg: Config, es: seq<Event>, ws: seq<World>, n: nat, b: nat, t: int, id: string)
    requires Execution(cfg, es, ws) && n + 2 <= |es| && es[n] == CommitDelete(b, t, id) && es[n + 1] == Invalidate(b, t)
    requires At(ws[n], b) == Idle && ws[n].now <= t && id in ws[n].db.relays
    ensures ws[n + 2].db == ws[n].db.(relays := ws[n].db.relays - {id})
    ensures ws[n + 2].now == t && OthersStay(ws[n], ws[n + 2], b)
  {
    assert Follows(cfg, es, ws, n) && Follows(cfg, es, ws, n + 1);
    WriteStep(cfg, ws[n], n, CommitDelete(b, t, id), DeleteRelay(id), ws[n + 1]);
    InvalidateStep(cfg, ws[n + 1], n + 1, b, t, ws[n + 2]);
  }

  lemma SetAt(cfg: Config, es: seq<Event>, ws: seq<World>, n: nat, a: nat, t: int, pc: Pc)
    requires Execution(cfg, es, ws) && n < |es| && es[n] == SetCache(a, t)
    requires pc.Queried? && At(ws[n], a) == pc && ws[n].now <= t
    ensures ws[n + 1].page.cache == Cache(true, t, pc.list, pc.total) && ws[n + 1].db == ws[n].db
  {
    assert Follows(cfg, es, ws, n);
    SetStep(cfg, ws[n], n, a, t, pc, ws[n + 1]);
  }

  // ----- a Set overtaken by a deletion -----

  /** Events n to n + 4: request a reads its page, request b deletes the relay and invalidates the
      cache, request a sets its page. */
  predicate OvertakenSet(es: seq<Event>, n: nat, a: nat, b: nat, id: string, t: int) {
    && n + 5 <= |es| && es[n] == Count(a, t, t) && es[n + 1] == Select(a, t)
    && es[n + 2] == CommitDelete(b, t, id) && es[n + 3] == Invalidate(b, t) && es[n + 4] == SetCache(a, t)
  }

  lemma QueryThenDelete(cfg: Config, es: seq<Event>, ws: seq<World>, n: nat, a: nat, b: nat, id: string, t: int)
    requires Execution(cfg, es, ws) && OvertakenSet(es, n, a, b, id, t)
    requires a != b && At(ws[n], a) == Idle && At(ws[n], b) == Idle && ws[n].now <= t && id in ws[n].db.relays
    ensures At(ws[n + 4], a) == Queried(LiveList(cfg, ws[n].db, t), LiveTotal(cfg, ws[n].db, t), n, n + 1)
    ensures ws[n + 4].now == t && id !in ws[n + 4].db.relays
  {
    QueryAt(cfg, es, ws, n, a, t);
    DeleteAt(cfg, es, ws, n + 2, b, t, id);
  }

  /** Wherever a listed relay and two idle requests are, a GET whose Set comes after a deletion's
      Invalidate puts the deleted relay back in the cache. */
  lemma OvertakenSetServesDeleted(cfg: Config, es: seq<Event>, ws: seq<World>, n: nat, a: nat, b: nat, id: string,
                                  t: int)
    requires Execution(cfg, es, ws) && OvertakenSet(es, n, a, b, id, t)
    requires a != b && At(ws[n], a) == Idle && At(ws[n], b) == Idle && ws[n].now <= t
    requires id in ListedRows(ws[n].db, t, cfg.relayTTL, NO_FILTER)
    requires LiveTotal(cfg, ws[n].db, t) <= ListLimit(cfg.maxRelays)
    ensures Hits(ws[n + 5].page.cache, CacheWindow(cfg.cacheTTL), t)
    ensures ToDTO(ws[n].db.relays[id]) in ws[n + 5].page.cache.relays && id !in ws[n + 5].db.relays
  {
    QueryThenDelete(cfg, es, ws, n, a, b, id, t);
    SetAt(cfg, es, ws, n + 4, a, t, At(ws[n + 4], a));
    ListedOnPage(cfg, ws[n].db, id, t);
  }

  /** The cache serves at t a relay that is not in the table. */
  predicate ServesDeleted(cfg: Config, w: World, t: int, id: string) {
    && Hits(w.page.cache, CacheWindow(cfg.cacheTTL), t)
    && (exists i :: 0 <= i < |w.page.cache.relays| && w.page.cache.relays[i].nodeId == id)
    && id !in w.db.relays
  }

  lemma ReadyServesDeleted(cfg: Config, es: seq<Event>, ws: seq<World>, t: int)
    requires Execution(cfg, es, ws) && |es| == 11 && Ready(cfg, ws[6], t) && OvertakenSet(es, 6, 0, 1, NODE, t)
    ensures ServesDeleted(cfg, ws[11], t, NODE)
  {
    OvertakenSetServesDeleted(cfg, es, ws, 6, 0, 1, NODE, t);
  }

  /** At any time, starting from the empty server. */
  lemma DeletedRelayIsServed(cfg: Config, t: int)
    requires 0 <= t
    ensures exists es, ws, id :: Execution(cfg, es, ws) && ServesDeleted(cfg, ws[|es|], t, id)
  {
    var tail := [Count(0, t, t), Select(0, t), CommitDelete(1, t, NODE), Invalidate(1, t), SetCache(0, t)];
    var es, ws := Begin(cfg, t, tail);
    ReadyServesDeleted(cfg, es, ws, t);
  }

  // ----- a list and a total of different moments -----

  /** The cache holds an empty list with a total of one. */
  predicate TornPage(w: World) {
    w.page.cache.hasCached && w.page.cache.relays == [] && w.page.cache.total == 1
  }

  lemma DeleteBetween(cfg: Config, es: seq<Event>, ws: seq<World>, n: nat, t: int)
    requires Execution(cfg, es, ws) && n + 5 <= |es| && es[n] == Count(0, t, t) && es[n + 1] == CommitDelete(1, t, NODE)
    requires es[n + 2] == Invalidate(1, t) && es[n + 3] == Select(0, t)
    requires Ready(cfg, ws[n], t)
    ensures At(ws[n + 4], 0) == Queried([], 1, n, n + 3) && ws[n + 4].now == t
  {
    CountAt(cfg, es, ws, n, 0, t);
    DeleteAt(cfg, es, ws, n + 1, 1, t, NODE);
    EmptyList(cfg, ws[n + 3].db, t);
    SelectAt(cfg, es, ws, n + 3, 0, t, Counted(1, t, n));
  }

  lemma EmptyList(cfg: Config, db: Db, t: int)
    requires db.relays == map[]
    ensures LiveList(cfg, db, t) == []
  {
    assert ListedRows(db, t, cfg.relayTTL, NO_FILTER) == map[];
  }

  /** A deletion between a GET's two statements: its total counts a relay its list lacks. */
  lemma TotalWithoutItsList(cfg: Config, t: int)
    requires 0 <= t
    ensures exists es, ws :: Execution(cfg, es, ws) && TornPage(ws[|es|])
  {
    var es, ws := Begin(cfg, t, [Count(0, t, t), CommitDelete(1, t, NODE), Invalidate(1, t), Select(0, t), SetCache(0, t)]);
    DeleteBetween(cfg, es, ws, 6, t);
    SetAt(cfg, es, ws, 10, 0, t, At(ws[10], 0));
    assert TornPage(ws[|es|]);
  }

  // ----- a Set that is late -----

  /** The cache serves at t a relay that was not seen for `age`. */
  predicate ServesOlder(cfg: Config, w: World, t: int, age: int) {
    && Hits(w.page.cache, CacheWindow(cfg.cacheTTL), t)
    && exists i :: 0 <= i < |w.page.cache.relays| && w.page.cache.relays[i].lastSeen == t - age
  }

  /** There is no bound on the age of what interleaved hits serve: a Set can come arbitrarily
      long after its list was read. */
  lemma HitAgeIsUnbounded(cfg: Config, age: nat)
    ensures exists es, ws, t :: Execution(cfg, es, ws) && ServesOlder(cfg, ws[|es|], t, age)
  {
    var es, ws := Begin(cfg, 0, [Count(0, 0, 0), Select(0, 0), SetCache(0, age)]);
    QueryAt(cfg, es, ws, 6, 0, 0);
    SetAt(cfg, es, ws, 8, 0, age, At(ws[8], 0));
    ListedOnPage(cfg, ws[6].db, NODE, 0);
    assert ServesOlder(cfg, ws[|es|], age, age);
  }

  // ----- an answer sent after the deletion -----

  /** An answer decided before the deletion can still be sent after it, wherever a live node and
      an idle request are. */
  lemma LateAnswerSucceeds(cfg: Config, es: seq<Event>, ws: seq<World>, n: nat, tid: nat, id: string, req: Request,
                           t: int)
    requires Execution(cfg, es, ws) && n + 3 <= |es|
    requires es[n] == LookupKey(tid, t, req) && es[n + 1] == SoftDelete(t, t, id) && es[n + 2] == Respond(tid, t)
    requires At(ws[n], tid) == Idle && ws[n].now <= t && req.RegisterNode?
    requires FindNode(ws[n].db, id).Some? && ws[n].db.nodes[id].authKeyHash == req.hash
    ensures Deleted(ws[n + 2].db, id, req.hash)
    ensures ws[n + 3].answers == ws[n + 2].answers + [Answer(req.hash, id, ws[n].db.nodes[id].createdAt, n)]
  {
    var answer := Answer(req.hash, id, ws[n].db.nodes[id].createdAt, n);
    LookupAt(cfg, es, ws, n, tid, t, req, id);
    DeletionAt(cfg, es, ws, n + 1, t, id);
    AnswerAt(cfg, es, ws, n + 2, tid, t, answer);
  }

  lemma LookupAt(cfg: Config, es: seq<Event>, ws: seq<World>, n: nat, tid: nat, t: int, req: Request, id: string)
    requires Execution(cfg, es, ws) && n < |es| && es[n] == LookupKey(tid, t, req)
    requires At(ws[n], tid) == Idle && ws[n].now <= t && req.RegisterNode?
    requires FindNode(ws[n].db, id).Some? && ws[n].db.nodes[id].authKeyHash == req.hash
    ensures OnlyMoves(ws[n], ws[n + 1], tid, Answering(Answer(req.hash, id, ws[n].db.nodes[id].createdAt, n)), t)
  {
    var db := ws[n].db;
    AlwaysSound(cfg, es, ws, n);
    KeyLookupUnique(db, req.hash, KeyHolder(db, req.hash), Some(db.nodes[id]));
    assert Follows(cfg, es, ws, n);
    LookupKeyStep(cfg, ws[n], n, tid, t, req, ws[n + 1]);
  }

  lemma DeletionAt(cfg: Config, es: seq<Event>, ws: seq<World>, n: nat, t: int, id: string)
    requires Execution(cfg, es, ws) && n < |es| && es[n] == SoftDelete(t, t, id) && ws[n].now <= t
    ensures id in ws[n].db.nodes && Live(ws[n].db.nodes[id]) ==> Deleted(ws[n + 1].db, id, ws[n].db.nodes[id].authKeyHash)
    ensures ws[n + 1].threads == ws[n].threads && ws[n + 1].now == t
  {
    assert Follows(cfg, es, ws, n);
    BackgroundStep(cfg, ws[n], n, SoftDelete(t, t, id), ws[n + 1]);
  }

  lemma AnswerAt(cfg: Config, es: seq<Event>, ws: seq<World>, n: nat, tid: nat, t: int, answer: Answer)
    requires Execution(cfg, es, ws) && n < |es| && es[n] == Respond(tid, t)
    requires At(ws[n], tid) == Answering(answer) && ws[n].now <= t
    ensures ws[n + 1].answers == ws[n].answers + [answer]
  {
    assert Follows(cfg, es, ws, n);
    RespondStep(cfg, ws[n], n, tid, t, answer, ws[n + 1]);
  }

  /** Position d follows the deletion of the hash's node, and the next event answers for it. */
  ghost predicate AnswersAfterDeletion(ws: seq<World>, d: nat, id: string, hash: string) {
    && d + 1 < |ws| && Deleted(ws[d].db, id, hash)
    && exists a :: ws[d + 1].answers == ws[d].answers + [a] && a.hash == hash
  }

  lemma DeletedKeyIsAnswered(cfg: Config, t: int)
    requires 0 <= t
    ensures exists es, ws, d, id, hash :: Execution(cfg, es, ws) && AnswersAfterDeletion(ws, d, id, hash)
  {
    var req := NodeArrival(HASH, NODE, t).req;
    var es, ws := Begin(cfg, t, [LookupKey(0, t, req), SoftDelete(t, t, NODE), Respond(0, t)]);
    LateAnswerSucceeds(cfg, es, ws, 6, 0, NODE, req, t);
    assert AnswersAfterDeletion(ws, 8, NODE, HASH);
  }
}
