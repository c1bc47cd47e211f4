/** What a listing promises its caller. */
module Queries {
  import opened Entities
  import opened Listing
  import opened Statements

  /** A listing is: order all relays, keep the matching ones, cut at the limit. */
  lemma ListingIsSortFilterTake(db: Db, now: int, ttl: int, f: ListFilter, limit: int)
    ensures
      var page := ListRelays(db, now, ttl, f, limit);
      var matching := Filter(Ordered(db.relays), (r: Relay) => Listed(r, now - TtlWindow(ttl), f));
      && page.relays == Take(matching, ListLimit(limit))
      && page.total == |matching|
  {
    var keep := (r: Relay) => Listed(r, now - TtlWindow(ttl), f);
    assert ListedRows(db, now, ttl, f) == Where(db.relays, keep);
    OrderedWhere(db.relays, keep);
    OrderedLists(ListedRows(db, now, ttl, f));
  }

  /** It is newest first, exactly as long as the limit allows, and leaves out no matching relay
      newer than one it holds. */
  lemma ListingKeepsNewest(db: Db, now: int, ttl: int, f: ListFilter, limit: int)
    ensures
      var page := ListRelays(db, now, ttl, f, limit);
      && Descending(page.relays)
      && |page.relays| == (if page.total <= ListLimit(limit) then page.total else ListLimit(limit))
      && (forall id :: id in db.relays && Listed(db.relays[id], now - TtlWindow(ttl), f) && db.relays[id] !in page.relays ==>
            forall r :: r in page.relays ==> r.lastSeenAt >= db.relays[id].lastSeenAt)
  {
    var rows := ListedRows(db, now, ttl, f);
    OrderedLists(rows);
    TakeKeepsNewest(rows, ListLimit(limit));
    assert forall id :: id in db.relays && Listed(db.relays[id], now - TtlWindow(ttl), f) ==>
      id in rows && rows[id] == db.relays[id];
  }

  /** It holds only rows of the table that match. */
  lemma ListingHoldsMatches(db: Db, now: int, ttl: int, f: ListFilter, limit: int, r: Relay)
    requires r in ListRelays(db, now, ttl, f, limit).relays
    ensures Listed(r, now - TtlWindow(ttl), f) && exists id :: id in db.relays && db.relays[id] == r
  {
    var rows := ListedRows(db, now, ttl, f);
    OrderedLists(rows);
    assert r in Ordered(rows);
    var id :| id in rows && rows[id] == r;
    assert id in db.relays && db.relays[id] == r;
  }

  /** The gauge of active relays is the total of an unfiltered listing. */
  lemma CountIsTotal(db: Db, now: int, ttl: int, limit: int)
    ensures CountRelays(db, now, ttl) == ListRelays(db, now, ttl, NO_FILTER, limit).total
  {
    var rows := ListedRows(db, now, ttl, NO_FILTER);
    assert rows.Keys == set id | id in db.relays && db.relays[id].status == RelayActive
                                 && db.relays[id].lastSeenAt >= now - TtlWindow(ttl);
    assert |rows| == |rows.Keys|;
  }

  /** g asks for everything f asks for. */
  predicate Narrows(g: ListFilter, f: ListFilter) {
    && (f.since.Some? && f.since.value != ZERO_TIME ==>
          g.since.Some? && g.since.value != ZERO_TIME && g.since.value >= f.since.value)
    && g.minStorageGB >= f.minStorageGB
  }

  /** What g asks for beyond the window and the status. */
  predicate Passes(r: Relay, g: ListFilter) {
    && (g.since.Some? && g.since.value != ZERO_TIME ==> r.lastSeenAt >= g.since.value)
    && r.availableGB >= g.minStorageGB
  }

  /** Adding or raising a filter keeps exactly the rows that pass it, in the same order, and
      never reports a larger total. */
  lemma NarrowingFilters(db: Db, now: int, ttl: int, f: ListFilter, g: ListFilter)
    requires Narrows(g, f)
    ensures
      var wide, narrow := ListedRows(db, now, ttl, f), ListedRows(db, now, ttl, g);
      && Ordered(narrow) == Filter(Ordered(wide), (r: Relay) => Passes(r, g))
      && |narrow| <= |wide|
  {
    var wide, narrow := ListedRows(db, now, ttl, f), ListedRows(db, now, ttl, g);
    var keep := (r: Relay) => Passes(r, g);
    assert narrow == Where(wide, keep);
    OrderedWhere(wide, keep);
    OrderedLists(wide);
    OrderedLists(narrow);
    FilterShrinks(Ordered(wide), keep);
  }

  lemma {:induction false} FilterShrinks(s: seq<Relay>, keep: Relay -> bool)
    ensures |Filter(s, keep)| <= |s|
  {
    if s != [] {
      FilterShrinks(s[1..], keep);
    }
  }
}
