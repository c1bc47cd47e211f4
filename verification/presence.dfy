/** A node reported online against a relay that is listed. */
module Presence {
  import opened Entities
  import opened Statements
  import opened History
  import opened Handlers
  import opened Coherence
  import opened Answers

  /** The operator is told at t that the node is online. */
  ghost predicate ToldOnline(cfg: Config, s: State, t: int, id: string) {
    Serve(cfg, s, Operator, t, NodeStatusOf(id)).response == Presence(true)
  }

  ghost predicate OnlineIsListed(cfg: Config, run: seq<Arrival>, t: int, id: string) {
    var s := StateAfter(cfg, run);
    ToldOnline(cfg, s, t, id) ==> id in ListedRows(s.db, t, cfg.relayTTL, ListFilter(None, 0))
  }

  ghost predicate OnlineImpliesListed(cfg: Config) {
    forall run: seq<Arrival>, t: int, id: string :: InOrder(run, t) ==> OnlineIsListed(cfg, run, t, id)
  }

  /** After every run, every node whose status is answered online is also discoverable, exactly when
      the online threshold does not exceed the relay window, in seconds. */
  lemma OnlineImpliesListedIff(cfg: Config)
    ensures OnlineImpliesListed(cfg) <==>
      (if cfg.onlineThreshold <= 0 then 180 else cfg.onlineThreshold) <= (if cfg.relayTTL <= 0 then 300 else cfg.relayTTL)
  {
    if OnlineWindow(cfg.onlineThreshold) <= TtlWindow(cfg.relayTTL) {
      forall run: seq<Arrival>, t: int, id: string | InOrder(run, t)
        ensures OnlineIsListed(cfg, run, t, id)
      {
        OnlineWithinWindow(cfg, run, t, id);
      }
    } else {
      OnlineButUnlisted(cfg);
    }
  }

  lemma OnlineWithinWindow(cfg: Config, run: seq<Arrival>, t: int, id: string)
    requires InOrder(run, t) && OnlineWindow(cfg.onlineThreshold) <= TtlWindow(cfg.relayTTL)
    ensures OnlineIsListed(cfg, run, t, id)
  {
    RunsAreHistories(cfg, run, t);
    StatusAlwaysAgrees(HistoryOf(cfg, run), cfg.relayTTL, t);
    NodeStatusAnswersExactly(cfg, StateAfter(cfg, run), Operator, t, id);
  }

  /** A node registers, its relay registers, and nothing more is heard of it. */
  lemma OnlineButUnlisted(cfg: Config)
    requires OnlineWindow(cfg.onlineThreshold) > TtlWindow(cfg.relayTTL)
    ensures !OnlineImpliesListed(cfg)
  {
    var t := FIRST_YEAR + OnlineWindow(cfg.onlineThreshold);
    var run := OneRelay("h", "n", FIRST_YEAR);
    OneRelayRun(cfg, "h", "n", FIRST_YEAR);
    OldButOnline(cfg, StateAfter(cfg, run), t, "n");
    assert InOrder(run, t) && !OnlineIsListed(cfg, run, t, "n");
  }

  lemma OldButOnline(cfg: Config, s: State, t: int, id: string)
    requires OnlineWindow(cfg.onlineThreshold) > TtlWindow(cfg.relayTTL)
    requires t == FIRST_YEAR + OnlineWindow(cfg.onlineThreshold)
    requires id in s.db.relays && s.db.relays[id].lastSeenAt == FIRST_YEAR
    ensures ToldOnline(cfg, s, t, id) && id !in ListedRows(s.db, t, cfg.relayTTL, ListFilter(None, 0))
  {
    NodeStatusAnswersExactly(cfg, s, Operator, t, id);
  }
}
