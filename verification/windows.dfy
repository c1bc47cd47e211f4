/** What the settings come to in the units an operator writes them in: seconds, hours and numbers
    of relays, against timestamps in nanoseconds. */
module Windows {
  import opened Entities
  import opened Listing
  import opened Statements
  import opened Accounting
  import opened Queries
  import opened History

  // ----- listing and count -----

  /** On a page that all relays fit on, a relay stands exactly if it is active, was seen within the
      window, no earlier than asked for, and offers the storage asked for. */
  lemma ListedExactly(db: Db, now: int, ttl: int, f: ListFilter, limit: int, id: string)
    requires id in db.relays && |db.relays| <= limit
    ensures
      var r := db.relays[id];
      r in ListRelays(db, now, ttl, f, limit).relays <==>
        && r.status == RelayActive
        && now - r.lastSeenAt <= (if ttl <= 0 then 300 else ttl) * 1_000_000_000
        && (f.since == None || f.since.value == 0 || r.lastSeenAt >= f.since.value)
        && r.availableGB >= f.minStorageGB
  {
    var rows := ListedRows(db, now, ttl, f);
    OrderedLists(rows);
    SubmapSize(rows, db.relays);
    if k :| k in rows && rows[k] == db.relays[id] {
      assert Listed(db.relays[id], now - TtlWindow(ttl), f);
    }
    assert Listed(db.relays[id], now - TtlWindow(ttl), f) ==> id in rows;
  }

  lemma SubmapSize(part: Rows, whole: Rows)
    requires part.Keys <= whole.Keys
    ensures |part| <= |whole|
  {
    SizeOfParts(whole.Keys, part.Keys, whole.Keys - part.Keys);
    assert |part| == |part.Keys| && |whole| == |whole.Keys|;
  }

  /** The total, whatever the limit, and the count are the number of relays that are active and
      were seen within the window; and a page is as long as the limit allows. */
  lemma CountedExactly(db: Db, now: int, ttl: int, limit: int)
    ensures
      var page := ListRelays(db, now, ttl, ListFilter(None, 0), limit);
      var bound := if limit <= 0 then 100 else limit;
      && page.total == |set id | id in db.relays && db.relays[id].status == RelayActive
           && now - db.relays[id].lastSeenAt <= (if ttl <= 0 then 300 else ttl) * 1_000_000_000|
      && CountRelays(db, now, ttl) == page.total
      && |page.relays| == if page.total <= bound then page.total else bound
  {
    CountIsTotal(db, now, ttl, limit);
    ListingKeepsNewest(db, now, ttl, NO_FILTER, limit);
    assert (set id | id in db.relays && db.relays[id].status == RelayActive
              && now - db.relays[id].lastSeenAt <= (if ttl <= 0 then 300 else ttl) * 1_000_000_000)
        == (set id | id in db.relays && db.relays[id].status == RelayActive
              && db.relays[id].lastSeenAt >= now - TtlWindow(ttl));
  }

  // ----- cleanup of relays -----

  /** A cleanup marks exactly the active relays not seen for more than the window, deletes exactly
      those, marked now or before, not seen for more than two, and leaves every other as it was. */
  lemma CleanedExactly(db: Db, ttl: int, now: int, id: string)
    ensures
      var cleaned := Cleaned(db, ttl, now).relays;
      var window := (if ttl <= 0 then 300 else ttl) * 1_000_000_000;
      if id !in db.relays then id !in cleaned
      else
        var r := db.relays[id];
        var age := now - r.lastSeenAt;
        if r.status == RelayActive && age > 2 * window then id !in cleaned
        else if r.status == RelayUnreachable && age > 2 * window then id !in cleaned
        else if r.status == RelayActive && age > window
        then id in cleaned && cleaned[id] == r.(status := RelayUnreachable, updatedAt := now)
        else id in cleaned && cleaned[id] == r
  {
    var marked := Apply(db, MarkStale(ttl, now)).db;
    StatementsAreRowwise(db, MarkStale(ttl, now), id);
    StatementsAreRowwise(marked, PurgeStale(ttl, now), id);
  }

  /** And reports how many it marked and how many it deleted. */
  lemma CleanupReportsExactly(db: Db, ttl: int, now: int)
    ensures
      var window := (if ttl <= 0 then 300 else ttl) * 1_000_000_000;
      var first := Apply(db, MarkStale(ttl, now));
      var second := Apply(first.db, PurgeStale(ttl, now));
      && first.rows == |set id | id in db.relays && db.relays[id].status == RelayActive
                                 && now - db.relays[id].lastSeenAt > window|
      && second.rows == |set id | id in db.relays
                                  && (db.relays[id].status == RelayActive || db.relays[id].status == RelayUnreachable)
                                  && now - db.relays[id].lastSeenAt > 2 * window|
  {
    var window := (if ttl <= 0 then 300 else ttl) * 1_000_000_000;
    var relays := db.relays;
    var marked := Marked(relays, now - TtlWindow(ttl), now);
    assert StaleIds(relays, now - TtlWindow(ttl))
        == set id | id in relays && relays[id].status == RelayActive && now - relays[id].lastSeenAt > window;
    assert ExpiredIds(marked, now - 2 * TtlWindow(ttl))
        == set id | id in relays && (relays[id].status == RelayActive || relays[id].status == RelayUnreachable)
                    && now - relays[id].lastSeenAt > 2 * window;
  }

  // ----- deactivation of nodes -----

  /** A deactivation makes inactive exactly the active nodes never seen, or not for more than the
      threshold, reports their number, and leaves every other node and all relays as they were. */
  lemma DeactivatedExactly(db: Db, hours: int, now: int)
    ensures
      var threshold := (if hours <= 0 then 24 else hours) * 3_600_000_000_000;
      var e := Apply(db, DeactivateNodes(hours, now));
      var silent := set id | id in db.nodes && db.nodes[id].status == NodeActive
        && (db.nodes[id].lastSeenAt == None || now - db.nodes[id].lastSeenAt.value > threshold);
      && e.rows == |silent| && e.db.relays == db.relays && e.db.nodes.Keys == db.nodes.Keys
      && forall id :: id in db.nodes ==>
           e.db.nodes[id] == if id in silent then db.nodes[id].(status := NodeInactive, updatedAt := now) else db.nodes[id]
  {
    var cutoff := now - InactivityWindow(hours);
    assert SilentIds(db.nodes, cutoff) == set id | id in db.nodes && db.nodes[id].status == NodeActive
      && (db.nodes[id].lastSeenAt == None
          || now - db.nodes[id].lastSeenAt.value > (if hours <= 0 then 24 else hours) * 3_600_000_000_000);
  }
}
