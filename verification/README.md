# Verification of the coord-server registry, cache and limiter

`coord-server` coordinates a mesh network: nodes register with an auth key, relays announce
themselves and send heartbeats, clients discover the relays that were seen recently, background
jobs retire the silent ones, and every request first passes a per-address rate limiter. This
project models that behaviour in Dafny and proves what it keeps over every run.

| file | what it holds |
|---|---|
| `entities.dfy` | rows of the two tables, time units, the relay window |
| `listing.dfy`, `queries.dfy` | the newest-first order, filters and limits |
| `statements.dfy`, `accounting.dfy` | every SQL statement as a function of the tables; row counts |
| `store.dfy` | the store as a class whose methods change the tables in place |
| `windows.dfy`, `writes.dfy` | what the settings come to in seconds, hours and numbers of relays, and which columns each write changes |
| `history.dfy` | what every sequence of server statements keeps, however interleaved |
| `cleanup_runs.dfy` | the same statements on cleaned and on uncleaned tables |
| `relay_cache.dfy`, `handlers.dfy`, `jobs.dfy` | the discovery cache, the routes and who is admitted to them, the background jobs |
| `answers.dfy` | what each route answers, whom it refuses and what it leaves behind |
| `coherence.dfy`, `discovery.dfy`, `presence.dfy`, `ownership.dfy` | the cache against the query it saves, what clients discover, who is online, whose relay and node a key writes, with atomic handlers |
| `interleaving.dfy`, `interleaved_cache.dfy`, `served_relays.dfy`, `page_totals.dfy`, `registration.dfy`, `uninterrupted.dfy`, `witnesses.dfy` | the same server with every statement, cache call and response a step of its own, and executions that show what this allows |
| `token_bucket.dfy`, `limiter_bounds.dfy`, `limiter_fairness.dfy`, `rate_limiter.dfy`, `limiter_routes.dfy` | the token bucket, its theorems, the limiter class, and the bounds each kind of request meets behind the middleware |
| `paths.dfy`, `labels.dfy` | path labels for the request metrics, and which part of a path each part of its label is |

The model has three layers. A *statement* changes the tables; `History` proves properties of all
sequences of statements the server can issue, with commit times that never decrease and stamps
that may lag behind them by any time. A *step* is one whole handler or job over tables and cache,
behind the test of who presents the request; `Coherence` proves properties of all runs of steps. An
*event* is one statement, cache call or response of one request among many, with the stamp its
store method read before; `Interleaving` proves properties of all event sequences.
`RunsAreHistories` and `TracesAreHistories` carry everything proved about histories to the other two
layers, and `UninterruptedIsStep` shows that a request's events, run without interruption, are its
step. The classes are proved against the same functions, method by method, and these functions are
fixed in turn by results in plain numbers, rows and strings: `Windows`, `Answers`, `Writes`, `Labels`
and `LimiterRoutes`.

Assumptions: the clock does not run backwards, each SQL statement is atomic (so a listing's COUNT
and SELECT, and a cleanup's two statements, are not), `ORDER BY
last_seen_at DESC` breaks ties by ascending node id, and the relay window is one value everywhere
(`cmd/server/main.go:120-126`, `internal/api/relays.go:177`).

## What turned out different from the promise

- `docs/api.md:279` says deleting a node removes its relay. It does not
  (`internal/store/sqlite.go:330-337`), and heartbeats keep the relay listed: `DeletedNodeStaysListed`.
- `docs/architecture.md:181` says nodes without contact for longer than a threshold become inactive.
  A touched node would indeed be spared exactly within the threshold (`TouchedNodesStayActive`), but no
  handler ever touches one, so each deactivation leaves no node active: `DeactivationSparesNobody`.
- Sweeping idle buckets is invisible, and the admission bound holds, only for some settings; the exact
  settings are in `SweepSafeIff` and `WindowSafeIff`. Nothing checks them at startup.
- "Online" implies "listed" exactly when the online threshold is at most the relay window:
  `OnlineImpliesListedIff`.
- Heartbeats protect a relay exactly as long as every cleanup is stamped within one window of the
  time stored last: `ActiveThroughoutIff`. It is the stored time that counts, so a registration that
  read the clock early can undo a later heartbeat: `LateRegistrationUndoesHeartbeat`.
- A cleanup can change a later listing, in exactly one way: a refresh finds the relay deleted that
  would otherwise still be there (`CleanupInvisibleIff`), as it does after two silent windows
  (`CleanupForgetsSilentRelay`).
- `docs/api.md:484` and `docs/api.md:582` show PUT and DELETE /relays/{id} with the operator's key.
  The server admits any well-formed node key there and on POST /relays, for any relay: a request
  with one node's key changes another node's relay exactly if it comes by one of these three routes
  and finds its row (`OtherKeysLeaveRelayIff`, `OtherKeyRemovesRelay`). PUT /v1/relays/{id} is the
  only route that ties a key to its relay, as `docs/api.md:515` says.
- `docs/api.md:284` shows DELETE /v1/nodes/{id} with the operator's key. The server admits any
  well-formed node key there too, registered or not: among requests with node keys, a live node's row
  changes exactly by that one (`NodeKeysLeaveNodeIff`).
- A path label is not always its own label; `IdempotentIff` says when it is.
- With interleaved handlers the cache can serve a relay that is no longer in the table
  (`DeletedRelayIsServed`). An entry still in the relay window is served so in one way only: a write
  of that very relay committed after the page's list was read, and has not invalidated yet or did so
  before the page was set (`DeletedRelayServedOnlyIfMissed`). The same holds of every other
  difference between a served and a listed relay: `ServedRelayIsListed`, `ListedRelayIsServedIff`.
  Nothing bounds how old entries are: `HitAge` and `HitAgeIsUnbounded`.
- A listing's total and list are read by two statements, and can disagree (`TotalWithoutItsList`).
  They agree exactly if as many relays left the listing in between as joined it: `TotalIsExactIff`;
  and if no request wrote in between, exactly if no cleanup marked a counted relay:
  `UnwrittenTotalIsExactIff`.
- A registration decided before a deletion can be answered after it: `DeletedKeyIsAnswered`; none
  decided later succeeds: `NoRegistrationAfterDeletion`.

## Model

| member | source | states |
|---|---|---|
| Coherence.CacheHitIsLiveListing | internal/api/relays.go:40-69 | in every run, a hit's entries still in the relay window are the live listing, limit and order included; none is older than relay window plus cache window; the cached total is never too small |
| Coherence.HitIsExactIff | internal/api/relays.go:161-173 | a hit equals the live listing if and only if every relay it lists is still in the window |
| Coherence.GetAnswersLive | internal/api/relays.go:161-205 | hit or miss, the fresh part of any plain GET's answer is the live listing |
| Coherence.AlwaysCoherent | internal/api/relays.go:267-275 | in every run whatever is cached was built from rows the table still tracks, although cleanup never invalidates |
| Coherence.CleanupKeepsTrack | internal/jobs/runner.go:94-116 | neither statement of a cleanup changes which cached rows are still listed |
| Coherence.RunsAreHistories | internal/api/relays.go:136-465 | the tables of every run of atomic handlers and jobs are those of a server history |
| Discovery.RegisteredRelayIsDiscovered | internal/api/relays.go:209-281 | in every run, after POST /relays and until another request names the relay, a plain GET within the window, cached or not, returns the posted fields (storage falling back to the node's, replication factor 0 becoming 1) if and only if fewer relays than the limit are listed before it |
| Discovery.ReportedRelayIsDiscovered | internal/api/relays.go:362-398 | likewise after PUT /v1/relays/{id}, the reported fields with the old capabilities and replication factor |
| Discovery.RemovedRelayIsNotDiscovered | internal/api/relays.go:440-464 | in every run, after DELETE /relays/{id} and until the relay registers again, no plain GET returns it |
| Ownership.OtherKeysLeaveRelayIff | internal/middleware/auth.go:73-89 | through any run of requests with other nodes' keys a node's relay stays as it is if and only if none of them reaches it by POST, PUT or DELETE /relays |
| Ownership.NodeKeyReaches | internal/api/router.go:54-63 | another node's key: those three routes write the row they find, every other request leaves it, PUT /v1/relays/{id} included |
| Ownership.OtherKeyRemovesRelay | internal/api/relays.go:440-464 | two nodes and a relay: the other node's key removes the relay |
| Ownership.NodeKeysLeaveNodeIff | internal/api/nodes.go:196-217 | through any run of requests with node keys a live node's row stays as it is if and only if none is DELETE /v1/nodes/{id} for it |
| Presence.OnlineImpliesListedIff | internal/api/nodes.go:252-261 | after every run of the handlers and jobs every node whose status is answered online has a listed relay, if and only if the online threshold is at most the relay window, both in seconds with their defaults |
| Answers.UnauthorizedIff | internal/middleware/auth.go:32-91 | 401 is answered, and nothing changes, exactly for a stranger's request, a full heartbeat with a key not the live node's own, and a status asked for by anyone but the operator, with authentication on |
| Answers.StrangersChangeNothing | internal/middleware/auth.go:50-86 | with authentication on, no run of requests without an accepted token changes tables or cache |
| Answers.OwnKeyIsAdmitted | internal/api/relays.go:285-398 | the operator and the live node's own key always get through PUT /v1/relays/{id}, which writes the reported columns or answers 404 |
| Answers.GetAnswersExactly | internal/api/relays.go:161-205 | a GET is answered from the cache exactly if it has no filter and a page was cached within the cache window; otherwise with sort, filter and cut of the table and the number of matches, whatever is cached; only an unfiltered answer is cached |
| Answers.FilteredEntriesMatch | internal/api/relays.go:175-182 | every entry of a filtered GET offers the storage asked for and was seen as late as asked and within the window |
| Answers.AnswersFitTheLimit | internal/api/relays.go:175-196 | in every run no plain GET, cached or not, returns more relays than the limit |
| Answers.HeartbeatAnswersExactly | internal/api/relays.go:403-437 | 204 and the refreshed row if there is one, 404 and no change otherwise |
| Answers.RemoveRelayAnswersExactly | internal/api/relays.go:440-465 | 204 and the row removed if there is one, 404 and no change otherwise |
| Answers.RemoveNodeAnswersExactly | internal/api/nodes.go:196-217 | 204 and the node marked deleted if it is live, 404 and no change otherwise |
| Answers.RegisterRelayAnswersExactly | internal/api/relays.go:209-283 | the whole row written for a live node, keeping an old row's creation time, or 404 and no change |
| Answers.RegisterNodeAnswersExactly | internal/api/nodes.go:51-104 | the live holder of the key, or a new row if key and id are new to the table, or a failure and no change |
| Answers.NodeStatusAnswersExactly | internal/api/nodes.go:282-317 | 404 without a relay, else online exactly if it was seen within the threshold in seconds and after the first year |
| Answers.JobsAnswerExactly | internal/jobs/runner.go:94-135 | the two jobs run the two cleanups with their own settings and leave the cache alone |
| Discovery.RegistrationIsIdempotent | internal/api/nodes.go:66-102 | a created node is found with the registered fields, and registering its key again returns it unchanged |
| Uninterrupted.UninterruptedIsStep | internal/api/relays.go:136-465 | from any world, also between the two statements of a cleanup, an admitted request's events run without interruption leave the tables and cache of its atomic step |
| Uninterrupted.UninterruptedAt | internal/api/relays.go:136-465 | the same wherever these events follow each other inside an execution |
| Uninterrupted.RegisterNodeAgrees | internal/api/nodes.go:51-104 | and the answer a registration's events send is the step's response |
| Handlers.Server.GetRelaysHandler | internal/api/relays.go:136-206 | cache and answer after GET /relays are those of the step function |
| Handlers.Server.RegisterRelayHandler | internal/api/relays.go:209-283 | tables, cache and answer after POST /relays, or 404 and no change |
| Handlers.Server.Handle | internal/middleware/auth.go:33-91 | every route behind the token test: state and answer are those of the step of an admitted request, or 401 and no change |
| Handlers.Server.AuthorizeNodeOwnership | internal/api/relays.go:285-318 | admits exactly the operator and the live node itself, or everyone when authentication is off |
| Handlers.Server.AuthorizeAdminOnly | internal/api/nodes.go:263-280 | admits exactly the operator, or everyone when authentication is off |
| Handlers.Server.PutV1RelayHeartbeatHandler | internal/api/relays.go:321-400 | tables, cache and answer after PUT /v1/relays/{id}, with its 401 and 404 cases |
| Handlers.Server.HeartbeatRelayHandler | internal/api/relays.go:403-437 | tables, cache and answer after PUT /relays/{id} |
| Handlers.Server.DeleteRelayHandler | internal/api/relays.go:440-465 | tables, cache and answer after DELETE /relays/{id} |
| Handlers.Server.RegisterNodeHandler | internal/api/nodes.go:51-104 | existing node returned, new node created, or failure with no change |
| Handlers.Server.DeleteNodeHandler | internal/api/nodes.go:196-217 | soft deletion, or 404 |
| Handlers.Server.GetNodeStatusHandler | internal/api/nodes.go:282-317 | the reported presence of a relay, to the operator only |
| DiscoveryCache.RelayCache.Get | internal/api/relays.go:40-52 | hits exactly when something is cached no longer than the cache window ago |
| DiscoveryCache.RelayCache.Set | internal/api/relays.go:54-62 | replaces the page and its time |
| DiscoveryCache.RelayCache.Invalidate | internal/api/relays.go:64-69 | makes the next Get miss, keeping the page |
| InterleavedCache.CachedPageIsPastQuery | internal/api/relays.go:162-196 | in every interleaving the cached page is what one past request read: the total of its COUNT, the list of its later SELECT, both with the cutoff it read first, set after both |
| InterleavedCache.UnseenWriteIsMissed | internal/api/relays.go:384-392 | a committed write the page did not see is still pending, or its Invalidate came before a Set whose list was read before the commit |
| InterleavedCache.HitIsLiveOrOvertaken | internal/api/relays.go:162-196 | in every interleaving a hit's fresh part is the live listing unless such a write exists |
| InterleavedCache.HitAge | internal/api/relays.go:40-62 | no entry of a hit is older than relay window, cache window and the time its request took from reading the clock to its Set |
| ServedRelays.ServedRelayIsListed | internal/api/relays.go:162-196 | in every interleaving, each entry of a hit still in the relay window is what the table lists for that relay, or a write of that relay was missed: it committed after the list was read and is pending or was overtaken by the Set |
| ServedRelays.DeletedRelayServedOnlyIfMissed | internal/api/relays.go:448-460 | so a relay the table no longer has is served with a time in the window only if a write of that relay was missed |
| ServedRelays.ListedRelayIsServedIff | internal/api/relays.go:162-196 | a listed relay with no missed write is served with its fields if and only if fewer relays than the limit come before it in the rows the page was cut from |
| PageTotals.TotalsBalance | internal/store/sqlite.go:641-657 | between any two moments of any interleaving, rows listed plus rows left equals rows counted plus rows joined, each read off the statements' own conditions |
| PageTotals.TotalIsExactIff | internal/store/sqlite.go:641-657 | a page's total is the number of rows its list was cut from if and only if as many rows left between COUNT and SELECT as joined |
| PageTotals.UnwrittenTotalIsExactIff | internal/store/sqlite.go:641-657 | with no relay write in between, list and total come from the same rows if and only if no cleanup marked a counted relay as out of its window |
| Witnesses.OvertakenSetServesDeleted | internal/api/relays.go:448-460 | wherever a listed relay and two idle requests are, five events put a deleted relay back in the cache |
| Witnesses.DeletedRelayIsServed | internal/api/relays.go:448-460 | and an execution from the empty server gets there |
| Witnesses.TotalWithoutItsList | internal/store/sqlite.go:641-657 | an execution that caches an empty list with a total of one |
| Witnesses.HitAgeIsUnbounded | internal/api/relays.go:54-62 | for every age an execution whose hit serves a relay not seen for that long |
| Interleaving.AlwaysSound | internal/api/relays.go:236-271 | in every interleaving every relay's node has a row, and key hashes are unique |
| Interleaving.TracesAreHistories | internal/store/sqlite.go:537-858 | the tables of every interleaving are those of a server history |
| Interleaving.InterleavingsKeepStatusRedundant | internal/store/sqlite.go:825-858 | in every interleaving the status column agrees with the timestamps and the listing does not need it |
| Registration.AnswersAreAFunctionOfTheKey | internal/api/nodes.go:66-102 | all 200 and 201 answers for one key hash carry one node id and creation time |
| Registration.NoRegistrationAfterDeletion | internal/store/sqlite.go:275-293 | after a key's node is deleted, every answer for the key was decided before |
| Witnesses.LateAnswerSucceeds | internal/api/nodes.go:67-71 | an answer decided before the deletion is still sent after it, wherever a live node and an idle request are |
| Witnesses.DeletedKeyIsAnswered | internal/api/nodes.go:67-71 | and an execution from the empty server in which it is |
| History.StatusAlwaysAgrees | internal/store/sqlite.go:679-763 | after every history a relay is active, or unreachable and out of the window |
| History.StatusIsRedundant | internal/store/sqlite.go:629-655 | after every history listing and count are unchanged without the status test |
| History.CleanupIsInvisible | internal/store/sqlite.go:834-855 | from any tables, a cleanup's statements change no listing of the tables they leave, at any later time before another statement, for any filter and limit |
| CleanupRuns.CleanupInvisibleIff | internal/store/sqlite.go:825-858 | from any tables and through any later statements, a cleanup or either of its statements changes what some listing answers if and only if some refresh stamped within the window finds its relay's row deleted and would have found it without the cleanup |
| CleanupRuns.CleanupInvisibleAtAnyTime | internal/store/sqlite.go:825-858 | without such a refresh all listings agree after the run at any later time, for every filter and limit |
| CleanupRuns.CleanupForgetsSilentRelay | internal/store/sqlite.go:846-855 | a relay silent for more than two windows is refused and unlisted on its next heartbeat after a cleanup, accepted and listed without it |
| History.CleanupKeepsExactly | internal/store/sqlite.go:825-858 | a cleanup keeps exactly the relays seen within twice the window |
| History.ActiveThroughoutIff | internal/store/sqlite.go:825-858 | through any server statements, however late they commit, a relay is never marked nor deleted if and only if no cleanup is stamped more than one window past the time stored last and nothing deletes it |
| History.HeartbeatsProtect | internal/store/sqlite.go:679-715 | in particular if no statement commits more than one window after the time stored last |
| History.HeartbeatBetweenStatements | internal/store/sqlite.go:834-855 | a heartbeat committing between mark and delete keeps the row from that delete |
| History.LateRegistrationUndoesHeartbeat | internal/api/relays.go:248-257 | a registration carrying an old time makes a just-refreshed relay stale; `ActiveThroughoutIff` says exactly when |
| History.HeartbeatListsForOneWindow | internal/store/sqlite.go:685-699 | whatever runs on other rows, one heartbeat lists the relay for exactly one window, and stores the reported space |
| History.RelayIdentity | internal/store/sqlite.go:556-574 | only upserts add relays; creation time is fixed while a row lives; heartbeats keep capabilities and replication factor |
| History.LivingRelayKeepsIdentity | internal/store/sqlite.go:679-763 | through any run in which a relay's row lives its creation time is fixed, and without a new registration its capabilities and replication factor too |
| History.DeletedNodeStaysListed | internal/store/sqlite.go:330-353 | deleting a node leaves its relay, which a heartbeat keeps listed |
| History.NodeIdentity | internal/store/sqlite.go:295-353 | a deleted node is frozen, a node with a deletion time changes only by deactivation, and id, key hash and creation time never change |
| History.DeletedIsAbsorbing | internal/store/sqlite.go:422-472 | through any statements a deleted node's row stays as it is |
| History.CountsAreConserved | internal/store/sqlite.go:474-493 | the counts by status always sum to the successful creations |
| History.TouchedNodesStayActive | internal/store/sqlite.go:422-445 | an active node survives a deactivation if and only if it was touched within the threshold |
| History.DeactivationSparesNobody | internal/store/sqlite.go:447-472 | after any server history a deactivation leaves no node active |
| Windows.ListedExactly | internal/store/sqlite.go:619-645 | on a page all relays fit on, a relay stands if and only if it is active, was seen at most the configured seconds ago and as late as asked, and offers the storage asked for |
| Windows.CountedExactly | internal/store/sqlite.go:641-656 | total and count are the number of relays active and seen at most the configured seconds ago, and a page is as long as the limit allows |
| Windows.CleanedExactly | internal/store/sqlite.go:825-858 | a cleanup marks exactly the active relays not seen for more than the configured seconds, deletes exactly those not seen for more than twice that, and leaves every other row |
| Windows.CleanupReportsExactly | internal/store/sqlite.go:834-857 | its two counts are the numbers of these relays |
| Windows.DeactivatedExactly | internal/store/sqlite.go:447-472 | a deactivation changes exactly the active nodes never seen or not for more than the configured hours, and counts them |
| Writes.UpdateNodeWritesExactly | internal/store/sqlite.go:295-328 | seven columns and the time of update of a live node, nothing else |
| Writes.TouchNodeWritesExactly | internal/store/sqlite.go:422-445 | two times of a live node, nothing else |
| Writes.MarkUnreachableWritesExactly | internal/store/sqlite.go:765-788 | status and time of update of one relay, nothing else |
| Writes.NodeBlanksFilled | internal/store/sqlite.go:174-184 | only zero times and a blank status of a new node are filled in |
| Writes.RelayBlanksFilled | internal/store/sqlite.go:537-549 | only a zero creation time, a blank status and a zero replication factor are, besides the time of update |
| Accounting.StaleCleanupAccounts | internal/store/sqlite.go:825-858 | the two returned counts balance rows, active rows and unreachable rows |
| Accounting.NodeCleanupAccounts | internal/store/sqlite.go:447-472 | exactly the returned number moves from active to inactive, other statuses unchanged |
| Queries.ListingIsSortFilterTake | internal/store/sqlite.go:619-677 | a page is: order all relays, keep the matching ones, cut at the limit; the total counts the matches |
| Queries.ListingKeepsNewest | internal/store/sqlite.go:647-656 | newest first, of length min(total, limit), omitting only relays no newer than those kept |
| Queries.ListingHoldsMatches | internal/store/sqlite.go:629-645 | every listed relay is a row that matches |
| Queries.NarrowingFilters | internal/store/sqlite.go:632-639 | adding or raising a filter keeps exactly the rows that pass it, in order, never a larger total |
| Queries.CountIsTotal | internal/store/sqlite.go:809-823 | the count behind the gauge is the total of an unfiltered listing |
| Listing.OrderedLists | internal/store/sqlite.go:647-656 | the ordering holds every row once, newest first |
| Listing.OrderedIsTheEnumeration | internal/store/sqlite.go:647-656 | any enumeration of the rows in listing order is this one |
| Listing.OrderedPlace | internal/store/sqlite.go:647-656 | each row stands in the place given by the number of rows listed before it |
| Coherence.OnPageIff | internal/store/sqlite.go:647-656 | a page holds a row if and only if fewer rows than the limit come before it |
| Listing.TakeThenKeepFresh | internal/store/sqlite.go:647-656 | keeping fresh entries of a newest-first list keeps a prefix, so it commutes with the limit |
| Store.SQLiteStore.CreateNode | internal/store/sqlite.go:174-212 | defaults filled in, row added, or a constraint error and no change |
| Store.SQLiteStore.GetNodeByID | internal/store/sqlite.go:255-273 | the row if it is not deleted |
| Store.SQLiteStore.GetNodeByAuthKeyHash | internal/store/sqlite.go:275-293 | the live holder of the hash, or none exists |
| Store.SQLiteStore.UpdateNode | internal/store/sqlite.go:295-328 | the listed columns of a live row, or not found |
| Store.SQLiteStore.DeleteNode | internal/store/sqlite.go:330-353 | a live row becomes deleted, or not found |
| Store.SQLiteStore.TouchNode | internal/store/sqlite.go:422-445 | a live row's contact time, or not found |
| Store.SQLiteStore.CleanupInactiveNodes | internal/store/sqlite.go:447-472 | the silent active rows become inactive, and their number |
| Store.SQLiteStore.GetNodeCountsByStatus | internal/store/sqlite.go:474-493 | the size of each status group that has rows, and no other |
| Store.SQLiteStore.UpsertRelay | internal/store/sqlite.go:537-597 | defaults filled in, row inserted or updated without its creation time |
| Store.SQLiteStore.GetRelayByNodeID | internal/store/sqlite.go:599-617 | the row, whatever its status |
| Store.SQLiteStore.ListActiveRelays | internal/store/sqlite.go:619-677 | the page and total of the listing |
| Store.SQLiteStore.UpdateRelayHeartbeat | internal/store/sqlite.go:679-715 | the row seen now and active, its space if reported, or not found |
| Store.SQLiteStore.UpdateRelayFull | internal/store/sqlite.go:717-763 | the reported columns of the row, or not found |
| Store.SQLiteStore.MarkRelayUnreachable | internal/store/sqlite.go:765-788 | the row's status, or not found |
| Store.SQLiteStore.DeleteRelay | internal/store/sqlite.go:790-807 | the row removed, or not found |
| Store.SQLiteStore.CountActiveRelays | internal/store/sqlite.go:809-823 | the number of active relays in the window |
| Store.SQLiteStore.CleanupStaleRelays | internal/store/sqlite.go:825-858 | the tables after both statements, and their two counts |
| Jobs.Runner.RunCleanupStaleRelays | internal/jobs/runner.go:94-116 | the tables of a cleanup step, and the gauge of active relays |
| Jobs.Runner.RunCleanupInactiveNodes | internal/jobs/runner.go:119-135 | the tables of a deactivation step, and the node gauges that have rows |
| Jobs.Runner.RefreshNodeGauges | internal/jobs/runner.go:153-162 | only statuses with rows are set |
| Jobs.Runner.SetNodeGauges | internal/jobs/runner.go:159-161 | the loop sets every counted status and no other |
| Jobs.Runner.RefreshGauges | internal/jobs/runner.go:138-151 | both gauges |
| Jobs.Runner.Start | internal/jobs/runner.go:48-81 | for any order of ticks until a stop, the tables and both gauges are those of the first refresh and the tick steps |
| Jobs.RelayGaugeReads | internal/jobs/runner.go:94-116 | after any ticks the gauge is the number of relays that were active and within the window at the last cleanup or refresh |
| Jobs.NodeGaugesRead | internal/jobs/runner.go:153-162 | after any ticks the gauge of a status is the number of nodes that had it at the last deactivation or refresh, or, if none had, what it was before |
| Jobs.TickTables | internal/jobs/runner.go:48-81 | each tick runs its own cleanup on the tables, or none |
| Jobs.StartIsTick | internal/jobs/runner.go:62-64 | the loop's first refresh is a tick like the others |
| LimiterBounds.WindowBound | internal/middleware/ratelimit.go:78-128 | one address is admitted at most burst plus the refill of the window at the largest rate of its own calls, in any run with sweeps and changing rates |
| LimiterBounds.WindowSafeIff | internal/middleware/ratelimit.go:78-128 | the bound holds on every run of a deployment if and only if ten times the faster rpm is at least the burst |
| LimiterBounds.SweepingInvisible | internal/middleware/ratelimit.go:78-113 | a sweeping limiter answers like one that never sweeps when idle buckets refill |
| LimiterBounds.SweepSafeIff | internal/middleware/ratelimit.go:78-113 | sweeping changes no answer on any run if and only if ten times the slower rpm is at least the burst |
| LimiterFairness.GreedyIsOptimal | internal/middleware/ratelimit.go:91-128 | on every prefix of every run no other policy over the same refills admits more |
| LimiterFairness.GreedyIsLegal | internal/middleware/ratelimit.go:115-118 | the limiter's own choices are such a policy, so the optimum is attained |
| LimiterFairness.RetryAfterExact | internal/middleware/ratelimit.go:115-127 | denied with answer n: everything up to n - 1 seconds later is denied, and from n seconds on the next call is admitted |
| LimiterFairness.AddressesAreIndependent | internal/middleware/ratelimit.go:78-128 | an address's answers are those of a limiter run on its calls and the sweeps only |
| TokenBucket.RefillSplits | internal/middleware/ratelimit.go:107-113 | polling in the middle of an interval does not change what is refilled over it |
| RateLimiter.IPRateLimiter.Allow | internal/middleware/ratelimit.go:91-128 | buckets and answer after one call |
| RateLimiter.IPRateLimiter.CleanupStaleBuckets | internal/middleware/ratelimit.go:78-88 | exactly the buckets idle beyond ten minutes are removed |
| RateLimiter.IPRateLimiter.Guard | internal/middleware/ratelimit.go:131-169 | public paths pass untouched; every other request is one call at the rate its method and path select |
| LimiterRoutes.NormalBound | internal/middleware/ratelimit.go:146-154 | an address that sends no PUT below /relays/ in a window is admitted at most the burst plus the window at the normal requests per minute, whatever others send |
| LimiterRoutes.HeartbeatBound | internal/middleware/ratelimit.go:149-154 | one that sends only such PUTs, at most the burst plus the window at the heartbeat requests per minute |
| LimiterRoutes.NormalRateAttained | internal/middleware/ratelimit.go:146-154 | every other request that is not public attains the normal bound |
| LimiterRoutes.HeartbeatRateAttained | internal/middleware/ratelimit.go:149-154 | every PUT below /relays/ that is not public attains the heartbeat bound |
| LimiterRoutes.AttainedExceeds | internal/middleware/ratelimit.go:146-154 | what attains one rate is more than any lower rate allows |
| LimiterRoutes.PassForgetsExactly | internal/middleware/ratelimit.go:78-88 | a pass of the cleanup loop forgets exactly the addresses idle for more than 600 seconds |
| LimiterRoutes.PublicRequestsAreFree | internal/middleware/ratelimit.go:134-142 | requests to public paths and below them leave the limiter as without them; every other request is one event |
| Paths.NormalizePath | internal/metrics/metrics.go:82-114 | the loop computes the label |
| Paths.IdempotentIff | internal/metrics/metrics.go:82-114 | labelling a label changes nothing if and only if no run of slashes hides an identifier behind a collection |
| Paths.IdempotentWithoutDoubleSlash | internal/metrics/metrics.go:82-114 | in particular on every path without consecutive slashes |
| Paths.NotIdempotent | internal/metrics/metrics.go:91-104 | a path whose label changes |
| Paths.NormalTwiceIsStable | internal/metrics/metrics.go:82-114 | on every path a third labelling changes nothing after the second |
| Paths.NormalIsClean | internal/metrics/metrics.go:109-113 | a label is never empty and never has consecutive slashes |
| Paths.LabelForgetsId | internal/metrics/metrics.go:99-104 | paths that differ only in an identifier share one label |
| Labels.LabelledExactly | internal/metrics/metrics.go:87-109 | the label's parts are, in order, the path's first part and its other non-empty parts, each by itself but ":id" for what follows "nodes" or "relays" and is neither "register" nor "status" |
| Labels.RootLabel | internal/metrics/metrics.go:83-85 | a path of slashes only is labelled "/" |
| Labels.RelayRoute | internal/metrics/metrics.go:99-104 | /relays/{id} is labelled /relays/:id for every id that is no verb |
| Labels.NodeStatusRoute | internal/metrics/metrics.go:99-104 | /v1/nodes/{id}/status is labelled /v1/nodes/:id/status |
| Labels.RegisterRoute | internal/metrics/metrics.go:101 | /v1/nodes/register keeps its name |
| Paths.SplitJoin | internal/metrics/metrics.go:87-109 | splitting undoes joining for parts without slashes |
| Paths.JoinSplit | internal/metrics/metrics.go:87-109 | joining undoes splitting |

## Left out

- RateLimiter.IPRateLimiter.Allow: tokens and times are reals, so floating-point rounding is not modelled, and the rate must be positive; the configuration checks that for the normal rate only.
- LimiterBounds.WindowSafeIff: stated for a burst of at least one; with none, the first call of an address still passes and the bucket then never holds a token.
- LimiterFairness.RetryAfterExact: says nothing about the second between n - 1 and n, where rounding up to whole seconds leaves the answer open.
- Jobs.Runner.Start: the endless loop over tickers is a finite sequence of ticks in any order, ended by a stop; timeouts of the job contexts are not modelled.
- Handlers.Server.RegisterNodeHandler: the fresh node id and the key hash are inputs; nothing assumes the hash is injective. The VPN keys in the response are not modelled.
- Handlers.Server.AuthorizeNodeOwnership: reading the bearer token, its shape and the key comparisons are replaced by the caller's kind: the operator, a token shaped like a node's key with its hash, or neither. Public paths a configuration adds are not modelled.
- Interleaving.TracesAreHistories: the ownership lookup of PUT /v1/relays and the cache lookup of a GET are not events, since they change nothing; a GET that missed may run its query at any later time. POST /relays reads the clock in the same event as it finds its node.
- Database failures, cancelled requests and integers beyond the database's range are not modelled; a statement either runs or finds no row.
- The nil-cache branches of the handlers, which the router never uses.
- ListNodes, HealthCheck, TableCount, migrations, connection pooling and the text form of timestamps and capabilities.
- HTTP decoding and encoding, the URL, fingerprint and capability validators, routing, logging and the Prometheus registry.
- Address extraction from request headers, configuration loading, the VPN clients, the startup banner and the installer.
- UpdateNode, TouchNode and MarkRelayUnreachable are modelled as store operations but, as in the server, no handler or job issues them.
