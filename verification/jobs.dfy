/** The background jobs and the loop that schedules them. */
module Jobs {
  import opened Entities
  import opened Statements
  import opened Store
  import opened Handlers
  import opened DiscoveryCache
  import opened Windows
  import History

  /** What the scheduling loop can wake up for, in whatever order the clock decides. */
  datatype Tick = RelayTick(now: int) | NodeTick(now: int) | GaugeTick(now: int) | Stopped

  /** The tables and the two gauges. */
  datatype Board = Board(db: Db, relaysActive: nat, nodesTotal: map<NodeStatus, nat>)

  function RelayGauge(cfg: Config, b: Board, now: int): Board {
    b.(relaysActive := CountRelays(b.db, now, cfg.relayTTL))
  }

  /** Only statuses that have rows are set: the others keep their last value. */
  function NodeGauges(b: Board): Board {
    b.(nodesTotal := b.nodesTotal + NodeCounts(b.db))
  }

  function BothGauges(cfg: Config, b: Board, now: int): Board {
    RelayGauge(cfg, NodeGauges(b), now)
  }

  /** One tick: the same step of the tables the server machine takes, then the gauges. */
  ghost function AfterTick(cfg: Config, b: Board, tick: Tick): Board {
    match tick
    case RelayTick(now) =>
      RelayGauge(cfg, b.(db := Step(cfg, State(b.db, EMPTY_CACHE), now, CleanupRelays).state.db), now)
    case NodeTick(now) => NodeGauges(b.(db := Step(cfg, State(b.db, EMPTY_CACHE), now, CleanupNodes).state.db))
    case GaugeTick(now) => BothGauges(cfg, b, now)
    case Stopped => b
  }

  ghost function AfterTicks(cfg: Config, b: Board, ticks: seq<Tick>): Board
    decreases |ticks|
  {
    if ticks == [] || ticks[0].Stopped? then b else AfterTicks(cfg, AfterTick(cfg, b, ticks[0]), ticks[1..])
  }

  // ----- what the gauges read after any ticks -----

  /** The loop is still going after these ticks. */
  predicate Going(ticks: seq<Tick>) {
    forall tick :: tick in ticks ==> !tick.Stopped?
  }

  lemma {:induction false} TicksSplit(cfg: Config, b: Board, front: seq<Tick>, rest: seq<Tick>)
    requires Going(front)
    ensures AfterTicks(cfg, b, front + rest) == AfterTicks(cfg, AfterTicks(cfg, b, front), rest)
    decreases |front|
  {
    if front == [] {
      assert front + rest == rest;
    } else {
      assert front[0] in front && forall tick :: tick in front[1..] ==> tick in front;
      assert (front + rest)[1..] == front[1..] + rest;
      TicksSplit(cfg, AfterTick(cfg, b, front[0]), front[1..], rest);
    }
  }

  lemma {:induction false} OtherTicksKeepRelayGauge(cfg: Config, b: Board, ticks: seq<Tick>)
    requires forall tick :: tick in ticks ==> tick.NodeTick? || tick.Stopped?
    ensures AfterTicks(cfg, b, ticks).relaysActive == b.relaysActive
    decreases |ticks|
  {
    if ticks != [] && !ticks[0].Stopped? {
      assert ticks[0] in ticks && forall tick :: tick in ticks[1..] ==> tick in ticks;
      OtherTicksKeepRelayGauge(cfg, AfterTick(cfg, b, ticks[0]), ticks[1..]);
    }
  }

  lemma {:induction false} OtherTicksKeepNodeGauges(cfg: Config, b: Board, ticks: seq<Tick>)
    requires forall tick :: tick in ticks ==> tick.RelayTick? || tick.Stopped?
    ensures AfterTicks(cfg, b, ticks).nodesTotal == b.nodesTotal
    decreases |ticks|
  {
    if ticks != [] && !ticks[0].Stopped? {
      assert ticks[0] in ticks && forall tick :: tick in ticks[1..] ==> tick in ticks;
      OtherTicksKeepNodeGauges(cfg, AfterTick(cfg, b, ticks[0]), ticks[1..]);
    }
  }

  lemma OneTick(cfg: Config, b: Board, front: seq<Tick>, last: Tick, rest: seq<Tick>)
    requires Going(front + [last])
    ensures
      var at := AfterTick(cfg, AfterTicks(cfg, b, front), last);
      && AfterTicks(cfg, b, front + [last]) == at
      && AfterTicks(cfg, b, front + [last] + rest) == AfterTicks(cfg, at, rest)
  {
    var at := AfterTicks(cfg, b, front);
    assert last in front + [last] && forall tick :: tick in front ==> tick in front + [last];
    TicksSplit(cfg, b, front, [last]);
    assert [last][1..] == [];
    assert AfterTicks(cfg, at, [last]) == AfterTicks(cfg, AfterTick(cfg, at, last), []);
    TicksSplit(cfg, b, front + [last], rest);
  }

  /** Whatever ticks came before the last cleanup of relays or refresh of the gauges, and whatever
      came after it, the gauge reads the number of relays that were active at that tick and seen
      within the window before it. */
  lemma RelayGaugeReads(cfg: Config, b: Board, front: seq<Tick>, last: Tick, rest: seq<Tick>)
    requires Going(front + [last]) && (last.RelayTick? || last.GaugeTick?)
    requires forall tick :: tick in rest ==> tick.NodeTick? || tick.Stopped?
    ensures
      var relays := AfterTicks(cfg, b, front + [last]).db.relays;
      AfterTicks(cfg, b, front + [last] + rest).relaysActive
        == |set id | id in relays && relays[id].status == RelayActive
             && last.now - relays[id].lastSeenAt <= (if cfg.relayTTL <= 0 then 300 else cfg.relayTTL) * 1_000_000_000|
  {
    OneTick(cfg, b, front, last, rest);
    var at := AfterTicks(cfg, b, front + [last]);
    OtherTicksKeepRelayGauge(cfg, at, rest);
    CountedExactly(at.db, last.now, cfg.relayTTL, 0);
  }

  /** Likewise for each status some node had at the last deactivation or refresh, the number of
      nodes that had it; a status no node had keeps whatever its gauge read before. */
  lemma NodeGaugesRead(cfg: Config, b: Board, front: seq<Tick>, last: Tick, rest: seq<Tick>, status: NodeStatus)
    requires Going(front + [last]) && (last.NodeTick? || last.GaugeTick?)
    requires forall tick :: tick in rest ==> tick.RelayTick? || tick.Stopped?
    ensures
      var nodes := AfterTicks(cfg, b, front + [last]).db.nodes;
      var before, after := AfterTicks(cfg, b, front).nodesTotal, AfterTicks(cfg, b, front + [last] + rest).nodesTotal;
      if exists id :: id in nodes && nodes[id].status == status
      then status in after && after[status] == |set id | id in nodes && nodes[id].status == status|
      else (status in after <==> status in before) && (status in after ==> after[status] == before[status])
  {
    OneTick(cfg, b, front, last, rest);
    var at := AfterTicks(cfg, b, front + [last]);
    OtherTicksKeepNodeGauges(cfg, at, rest);
    assert NodesWith(at.db.nodes, status) == set id | id in at.db.nodes && at.db.nodes[id].status == status;
  }

  /** What one tick does to the tables: a cleanup of relays, a deactivation of nodes, or nothing. */
  lemma TickTables(cfg: Config, b: Board, now: int)
    ensures AfterTick(cfg, b, RelayTick(now)).db == History.Cleaned(b.db, cfg.relayTTL, now)
    ensures AfterTick(cfg, b, NodeTick(now)).db == Apply(b.db, DeactivateNodes(cfg.inactiveHours, now)).db
    ensures AfterTick(cfg, b, GaugeTick(now)).db == b.db
  {
  }

  /** The loop's own first refresh is a tick like the others. */
  lemma StartIsTick(cfg: Config, b: Board, startedAt: int, ticks: seq<Tick>)
    ensures AfterTicks(cfg, BothGauges(cfg, b, startedAt), ticks) == AfterTicks(cfg, b, [GaugeTick(startedAt)] + ticks)
  {
    assert ([GaugeTick(startedAt)] + ticks)[1..] == ticks;
  }

  /** Copying the entries of one map into another, those of `unread` still to come. */
  predicate Copied(m: map<NodeStatus, nat>, was: map<NodeStatus, nat>, counts: map<NodeStatus, nat>,
                   unread: set<NodeStatus>) {
    unread <= counts.Keys && m == was + (counts - unread)
  }

  lemma CopyOne(m: map<NodeStatus, nat>, was: map<NodeStatus, nat>, counts: map<NodeStatus, nat>,
                unread: set<NodeStatus>, status: NodeStatus)
    requires Copied(m, was, counts, unread) && status in unread
    ensures Copied(m[status := counts[status]], was, counts, unread - {status})
  {
    var rest := counts - (unread - {status});
    assert rest == (counts - unread)[status := counts[status]];
  }

  class Runner {
    const cfg: Config
    const st: SQLiteStore
    var relaysActive: nat
    var nodesTotal: map<NodeStatus, nat>

    function View(): Board
      reads this, st
    {
      Board(st.View(), relaysActive, nodesTotal)
    }

    constructor (cfg: Config, st: SQLiteStore)
      ensures this.cfg == cfg && this.st == st
    {
      this.cfg := cfg;
      this.st := st;
      relaysActive := 0;
      nodesTotal := map[];
    }

    method RunCleanupStaleRelays(now: int)
      requires st.Valid()
      modifies st, this`relaysActive
      ensures st.Valid() && View() == AfterTick(cfg, old(View()), RelayTick(now))
    {
      var marked, deleted := st.CleanupStaleRelays(now, cfg.relayTTL);
      relaysActive := st.CountActiveRelays(now, cfg.relayTTL);
    }

    method RunCleanupInactiveNodes(now: int)
      requires st.Valid()
      modifies st, this`nodesTotal
      ensures st.Valid() && View() == AfterTick(cfg, old(View()), NodeTick(now))
    {
      var affected := st.CleanupInactiveNodes(now, cfg.inactiveHours);
      RefreshNodeGauges();
    }

    method RefreshNodeGauges()
      modifies this`nodesTotal
      ensures View() == NodeGauges(old(View()))
    {
      var counts := st.GetNodeCountsByStatus();
      SetNodeGauges(counts);
    }

    /** Sets the gauge of every status counted, and no other. */
    method SetNodeGauges(counts: map<NodeStatus, nat>)
      modifies this`nodesTotal
      ensures nodesTotal == old(nodesTotal) + counts
    {
      var unread := counts.Keys;
      assert counts - unread == map[] && counts - {} == counts;
      while unread != {}
        invariant Copied(nodesTotal, old(nodesTotal), counts, unread)
        decreases |unread|
      {
        var status :| status in unread;
        CopyOne(nodesTotal, old(nodesTotal), counts, unread, status);
        nodesTotal := nodesTotal[status := counts[status]];
        unread := unread - {status};
      }
    }

    method RefreshGauges(now: int)
      modifies this
      ensures View() == BothGauges(cfg, old(View()), now)
    {
      RefreshNodeGauges();
      relaysActive := st.CountActiveRelays(now, cfg.relayTTL);
    }

    method Start(startedAt: int, ticks: seq<Tick>)
      requires st.Valid()
      modifies st, this
      ensures st.Valid() && View() == AfterTicks(cfg, BothGauges(cfg, old(View()), startedAt), ticks)
    {
      RefreshGauges(startedAt);
      ghost var started := View();
      var i := 0;
      while i < |ticks|
        invariant i <= |ticks| && st.Valid()
        invariant AfterTicks(cfg, View(), ticks[i..]) == AfterTicks(cfg, started, ticks)
        decreases |ticks| - i
      {
        assert ticks[i..][0] == ticks[i] && ticks[i..][1..] == ticks[i + 1..];
        match ticks[i] {
          case Stopped =>
            return;
          case RelayTick(now) =>
            RunCleanupStaleRelays(now);
          case NodeTick(now) =>
            RunCleanupInactiveNodes(now);
          case GaugeTick(now) =>
            RefreshGauges(now);
        }
        i := i + 1;
      }
    }
  }
}
