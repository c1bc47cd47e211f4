/** Row counts: what the background jobs report adds up. */
module Accounting {
  import opened Entities
  import opened Listing
  import opened Statements

  function RelaysWith(relays: Rows, status: RelayStatus): set<string> {
    set id | id in relays && relays[id].status == status
  }

  lemma SizeOfParts<T>(whole: set<T>, a: set<T>, b: set<T>)
    requires whole == a + b && a !! b
    ensures |whole| == |a| + |b|
  {
  }

  lemma MarkLeavesActive(relays: Rows, cutoff: int, stamp: int)
    ensures |RelaysWith(relays, RelayActive)|
         == |RelaysWith(Marked(relays, cutoff, stamp), RelayActive)| + |StaleIds(relays, cutoff)|
  {
    SizeOfParts(RelaysWith(relays, RelayActive), RelaysWith(Marked(relays, cutoff, stamp), RelayActive),
                StaleIds(relays, cutoff));
  }

  lemma MarkAddsUnreachable(relays: Rows, cutoff: int, stamp: int)
    ensures |RelaysWith(Marked(relays, cutoff, stamp), RelayUnreachable)|
         == |RelaysWith(relays, RelayUnreachable)| + |StaleIds(relays, cutoff)|
  {
    SizeOfParts(RelaysWith(Marked(relays, cutoff, stamp), RelayUnreachable), RelaysWith(relays, RelayUnreachable),
                StaleIds(relays, cutoff));
  }

  lemma PurgeRemovesUnreachable(relays: Rows, cutoff: int)
    ensures RelaysWith(relays, RelayActive) == RelaysWith(Purged(relays, cutoff), RelayActive)
    ensures |RelaysWith(relays, RelayUnreachable)|
         == |RelaysWith(Purged(relays, cutoff), RelayUnreachable)| + |ExpiredIds(relays, cutoff)|
  {
    SizeOfParts(RelaysWith(relays, RelayUnreachable), RelaysWith(Purged(relays, cutoff), RelayUnreachable),
                ExpiredIds(relays, cutoff));
  }

  lemma PurgeShrinks(relays: Rows, cutoff: int)
    ensures |relays| == |Purged(relays, cutoff)| + |ExpiredIds(relays, cutoff)|
  {
    SizeOfParts(relays.Keys, Purged(relays, cutoff).Keys, ExpiredIds(relays, cutoff));
  }

  /** A cleanup's two counts account for every row. */
  predicate CleanupCounts(before: Rows, after: Rows, marked: nat, deleted: nat) {
    && |before| == |after| + deleted
    && |RelaysWith(before, RelayActive)| == |RelaysWith(after, RelayActive)| + marked
    && |RelaysWith(before, RelayUnreachable)| + marked == |RelaysWith(after, RelayUnreachable)| + deleted
  }

  lemma CleanupAccounts(before: Rows, unreachableCutoff: int, deleteCutoff: int, stamp: int)
    ensures
      var marked := Marked(before, unreachableCutoff, stamp);
      CleanupCounts(before, Purged(marked, deleteCutoff),
                    |StaleIds(before, unreachableCutoff)|, |ExpiredIds(marked, deleteCutoff)|)
  {
    var marked := Marked(before, unreachableCutoff, stamp);
    assert |before| == |marked| by {
      assert before.Keys == marked.Keys;
    }
    MarkLeavesActive(before, unreachableCutoff, stamp);
    MarkAddsUnreachable(before, unreachableCutoff, stamp);
    PurgeRemovesUnreachable(marked, deleteCutoff);
    PurgeShrinks(marked, deleteCutoff);
  }

  /** Exactly `moved` nodes went from active to inactive, and no other status gained or lost any. */
  ghost predicate DeactivationCounts(before: map<string, Node>, after: map<string, Node>, moved: nat) {
    && |NodesWith(before, NodeActive)| == |NodesWith(after, NodeActive)| + moved
    && |NodesWith(after, NodeInactive)| == |NodesWith(before, NodeInactive)| + moved
    && forall other :: other != NodeActive && other != NodeInactive ==> NodesWith(after, other) == NodesWith(before, other)
  }

  lemma DeactivationAccounts(nodes: map<string, Node>, cutoff: int, stamp: int)
    ensures DeactivationCounts(nodes, Deactivated(nodes, cutoff, stamp), |SilentIds(nodes, cutoff)|)
  {
    var nodes' := Deactivated(nodes, cutoff, stamp);
    DeactivationLeavesActive(nodes, cutoff, stamp);
    SizeOfParts(NodesWith(nodes', NodeInactive), NodesWith(nodes, NodeInactive), SilentIds(nodes, cutoff));
  }

  lemma DeactivationLeavesActive(nodes: map<string, Node>, cutoff: int, stamp: int)
    ensures |NodesWith(nodes, NodeActive)|
         == |NodesWith(Deactivated(nodes, cutoff, stamp), NodeActive)| + |SilentIds(nodes, cutoff)|
  {
    SizeOfParts(NodesWith(nodes, NodeActive), NodesWith(Deactivated(nodes, cutoff, stamp), NodeActive),
                SilentIds(nodes, cutoff));
  }

  /** The counts the store returns from a cleanup of stale relays. */
  lemma StaleCleanupAccounts(db: Db, ttl: int, now: int)
    ensures
      var first := Apply(db, MarkStale(ttl, now));
      var second := Apply(first.db, PurgeStale(ttl, now));
      CleanupCounts(db.relays, second.db.relays, first.rows, second.rows)
  {
    var cutoff, deleteCutoff := now - TtlWindow(ttl), now - 2 * TtlWindow(ttl);
    var first := Apply(db, MarkStale(ttl, now));
    assert first.db.relays == Marked(db.relays, cutoff, now) && first.rows == |StaleIds(db.relays, cutoff)|;
    var second := Apply(first.db, PurgeStale(ttl, now));
    assert second.db.relays == Purged(first.db.relays, deleteCutoff);
    assert second.rows == |ExpiredIds(first.db.relays, deleteCutoff)|;
    CleanupAccounts(db.relays, cutoff, deleteCutoff, now);
  }

  /** The count the store returns from a deactivation. */
  lemma NodeCleanupAccounts(db: Db, hours: int, now: int)
    ensures
      var e := Apply(db, DeactivateNodes(hours, now));
      DeactivationCounts(db.nodes, e.db.nodes, e.rows)
  {
    DeactivationAccounts(db.nodes, now - InactivityWindow(hours), now);
  }
}
