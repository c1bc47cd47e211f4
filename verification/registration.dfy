/** Node registration when lookups, inserts, deletions and responses interleave. */
module Registration {
  import opened Entities
  import opened Statements
  import opened History
  import opened Handlers
  import opened Interleaving

  /** The answer names the row that holds its key hash. */
  predicate Backed(db: Db, a: Answer) {
    a.id in db.nodes && db.nodes[a.id].authKeyHash == a.hash && db.nodes[a.id].createdAt == a.createdAt
  }

  ghost predicate AllBacked(w: World) {
    && (forall i :: 0 <= i < |w.answers| ==> Backed(w.db, w.answers[i]))
    && (forall tid :: tid in w.threads && w.threads[tid].Answering? ==> Backed(w.db, w.threads[tid].answer))
  }

  lemma BackedStaysBacked(db: Db, s: Stmt, a: Answer)
    requires Backed(db, a)
    ensures Backed(Apply(db, s).db, a)
  {
    NodeIdentity(db, s, a.id);
  }

  lemma NewAnswerBacked(cfg: Config, w: World, e: Event, n: nat)
    requires Sound(w) && AllBacked(w) && HasThread(e) && NextPc(cfg, w, e, n).Answering?
    ensures At(w, e.tid) == NextPc(cfg, w, e, n) || Backed(NextDb(cfg, w, e), NextPc(cfg, w, e, n).answer)
  {
  }

  lemma BackedStep(cfg: Config, w: World, e: Event, n: nat, w': World)
    requires Sound(w) && AllBacked(w) && w' == Next(cfg, w, e, n)
    ensures AllBacked(w')
  {
    if Happens(w, e) {
      forall a | Backed(w.db, a) ensures Backed(NextDb(cfg, w, e), a) {
        if Runs(cfg, w, e).Some? {
          BackedStaysBacked(w.db, Runs(cfg, w, e).value, a);
        }
      }
      if HasThread(e) && NextPc(cfg, w, e, n).Answering? {
        NewAnswerBacked(cfg, w, e, n);
      }
    }
  }

  lemma {:induction false} AlwaysBacked(cfg: Config, es: seq<Event>, ws: seq<World>, n: nat)
    requires Execution(cfg, es, ws) && n <= |es|
    ensures AllBacked(ws[n])
  {
    if n > 0 {
      AlwaysBacked(cfg, es, ws, n - 1);
      AlwaysSound(cfg, es, ws, n - 1);
      assert Follows(cfg, es, ws, n - 1);
      BackedStep(cfg, ws[n - 1], es[n - 1], n - 1, ws[n]);
    }
  }

  /** All successful answers for one key hash carry the same node id and creation time. */
  lemma AnswersAreAFunctionOfTheKey(cfg: Config, es: seq<Event>, ws: seq<World>, n: nat, i: nat, j: nat)
    requires Execution(cfg, es, ws) && n <= |es| && i < |ws[n].answers| && j < |ws[n].answers|
    requires ws[n].answers[i].hash == ws[n].answers[j].hash
    ensures ws[n].answers[i].id == ws[n].answers[j].id && ws[n].answers[i].createdAt == ws[n].answers[j].createdAt
  {
    AlwaysBacked(cfg, es, ws, n);
    AlwaysSound(cfg, es, ws, n);
    assert Backed(ws[n].db, ws[n].answers[i]) && Backed(ws[n].db, ws[n].answers[j]);
  }

  // ----- after deletion -----

  /** Every answer for this hash, sent or about to be, was decided before position d. */
  ghost predicate DecidedBefore(w: World, hash: string, d: nat) {
    && (forall i :: 0 <= i < |w.answers| && w.answers[i].hash == hash ==> w.answers[i].decidedAt < d)
    && (forall tid :: tid in w.threads && w.threads[tid].Answering? && w.threads[tid].answer.hash == hash ==>
          w.threads[tid].answer.decidedAt < d)
  }

  lemma DecidedStep(cfg: Config, w: World, e: Event, n: nat, w': World, hash: string, d: nat)
    requires w' == Next(cfg, w, e, n) && DecidedBefore(w, hash, d)
    requires n < d || NoNewAnswer(cfg, w, e, n, hash)
    ensures DecidedBefore(w', hash, d)
  {
  }

  /** The event decides no answer for this hash. */
  ghost predicate NoNewAnswer(cfg: Config, w: World, e: Event, n: nat, hash: string) {
    HasThread(e) && NextPc(cfg, w, e, n).Answering? && NextPc(cfg, w, e, n).answer.hash == hash ==>
      At(w, e.tid) == NextPc(cfg, w, e, n)
  }

  predicate Deleted(db: Db, id: string, hash: string) {
    id in db.nodes && db.nodes[id].authKeyHash == hash && db.nodes[id].status == NodeDeleted
  }

  lemma DeletedBlocks(cfg: Config, w: World, e: Event, n: nat, id: string, hash: string)
    requires Sound(w) && Deleted(w.db, id, hash)
    ensures NoNewAnswer(cfg, w, e, n, hash)
  {
    if e.LookupKey? && e.req.RegisterNode? && e.req.hash == hash {
      assert KeyHolder(w.db, hash) == None by {
        assert IsKeyLookup(w.db, hash, KeyHolder(w.db, hash));
      }
    }
  }

  lemma {:induction false} AnswersDecided(cfg: Config, es: seq<Event>, ws: seq<World>, n: nat, hash: string)
    requires Execution(cfg, es, ws) && n <= |es|
    ensures DecidedBefore(ws[n], hash, n)
  {
    if n > 0 {
      AnswersDecided(cfg, es, ws, n - 1, hash);
      assert Follows(cfg, es, ws, n - 1);
      assert DecidedBefore(ws[n - 1], hash, n);
      DecidedStep(cfg, ws[n - 1], es[n - 1], n - 1, ws[n], hash, n);
    }
  }

  lemma DeletedStays(cfg: Config, w: World, e: Event, n: nat, w': World, id: string, hash: string)
    requires w' == Next(cfg, w, e, n) && Deleted(w.db, id, hash)
    ensures Deleted(w'.db, id, hash)
  {
    if Happens(w, e) && Runs(cfg, w, e).Some? {
      NodeIdentity(w.db, Runs(cfg, w, e).value, id);
    }
  }

  lemma StaysDecided(cfg: Config, es: seq<Event>, ws: seq<World>, d: nat, n: nat, id: string, hash: string)
    requires Execution(cfg, es, ws) && n < |es| && DecidedBefore(ws[n], hash, d) && Deleted(ws[n].db, id, hash)
    ensures DecidedBefore(ws[n + 1], hash, d) && Deleted(ws[n + 1].db, id, hash)
  {
    AlwaysSound(cfg, es, ws, n);
    assert Follows(cfg, es, ws, n);
    DeletedBlocks(cfg, ws[n], es[n], n, id, hash);
    DecidedStep(cfg, ws[n], es[n], n, ws[n + 1], hash, d);
    DeletedStays(cfg, ws[n], es[n], n, ws[n + 1], id, hash);
  }

  /** Once the node behind a key hash is deleted, at position d, every answer for that hash,
      however late it is sent, was decided before d, and the node stays deleted. */
  lemma {:induction false} NoRegistrationAfterDeletion(cfg: Config, es: seq<Event>, ws: seq<World>, d: nat, n: nat,
                                                       id: string, hash: string)
    requires Execution(cfg, es, ws) && d <= n <= |es| && Deleted(ws[d].db, id, hash)
    ensures DecidedBefore(ws[n], hash, d) && Deleted(ws[n].db, id, hash)
    decreases n
  {
    if n == d {
      AnswersDecided(cfg, es, ws, n, hash);
    } else {
      NoRegistrationAfterDeletion(cfg, es, ws, d, n - 1, id, hash);
      StaysDecided(cfg, es, ws, d, n - 1, id, hash);
    }
  }
}
