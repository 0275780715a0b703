# meshmcp: a verified model of its protocols

This project models, in Dafny, the parts of meshmcp that make promises about whole runs, and proves
those promises for every input, every run and every interleaving. Each critical section is one
step, and each token request is one step as a whole. Clocks, random draws, disk writes, the co-sign store and the JSON codec are parameters, so a
theorem holds whatever they answer, within the conditions it names.

| file | what it models |
|---|---|
| `KgLog.dfy`, `KgStore.dfy`, `KgSync.dfy` | the hash-chained triple log, the store that owns it, and replicas that exchange deltas |
| `Subgraph.dfy`, `Alias.dfy` | the bounded k-hop traversal and alias resolution |
| `Idempotency.dfy`, `ClaimTiming.dfy`, `Keys.dfy` | idempotency claims shared by concurrent callers; clock readings out of order; composite string keys |
| `Beacon.dfy`, `Rendezvous.dfy` | gateway registration, slot budgets, and the race between public connections, data connections and timeouts |
| `Orchestrator.dfy` | the stage pipeline with its co-sign gate |
| `Handoff.dfy` | the consent and delivery life of a handoff |
| `Tokens.dfy` | authorization codes and refresh-token families |
| `Grants.dfy` | single-use and standing grants with rollback, and move grants |
| `Glob.dfy`, `GlobMeaning.dfy`, `Exchange.dfy` | `path.Match`, what its patterns mean, and narrowing a requested scope to a grant |
| `TokenBucket.dfy`, `FixedWindow.dfy`, `SlidingLog.dfy`, `SlidingTiming.dfy` | the three rate limiters; clock readings out of order at the last |
| `Strings.dfy`, `Text.dfy`, `Common.dfy` | string order, the shared text checks, and what several modules share |

Objects the source updates in place are classes whose methods are proved equal to a function of the
old state. The theorems about runs are then about those functions. Where the source hashes, the hash
function is a parameter: tamper evidence is stated as "the logs are equal, or a record of one and a record of the other collide".

## What turned out different from the source's own words

- `Verify` alone does not show truncation (kg/store.go:244-245): every prefix of a verifying log
  verifies (`LinkedPrefix`). Truncation shows in the head hash (`TamperingMovesTheHead`).
- A failed append can leave its line in the file (kg/store.go:148-151), which is then ahead of memory until
  the file is reopened. The file verifies exactly when no append reached it while it was ahead; memory
  verifies exactly when it was never loaded from such a file (`FileVerifiesIff`, over every run of appends
  and reopenings; `FileCanFork` and `ReopeningHeals` are the shortest cases). Reopening leaves every earlier
  read looking at the same records exactly when nothing was stored while the file was ahead
  (`HistorySurvivesIff`).
- `Merge` is called order-insensitive (kg/store.go:272-278). Its ids always are; its contents are exactly
  when no live id was asserted with two contents (`OrderFreeIff`). A network of replicas keeps
  that as long as each drawn id is new (`RunKeepsCoherent`).
- The claim loop reads the clock before it enters the store (mcp/idempotency.go:131-133), so readings can
  arrive out of order. That alone does no harm. Wins on a key stay more than a time to live apart,
  whatever the keys, exactly when no reading within the time to live of an earlier arrival comes after one
  past it (`ApartIff`); `LateReadingBreaksIt` is the shortest run that breaks it.
- "Never wider than the org's grant" (federation/exchange.go:512-520) fails for a concrete request
  with a working backslash escape: the boundary matches its letters, a capability its meaning.
  `NeverWidensIff` is the exact condition on the request.
- The deny-all corpus entry (federation/exchange.go:521-526) is a valid pattern that matches one name,
  itself (`DenyAllCoversItself`).
- The fixed-window limiter's true bound is `2 * max - 1` per window length, and it is attained. The
  limiter in federation/dcr.go:149-152 is called a fixed-window cap; the code keeps a sliding log.
- That limiter also takes a clock reading made before its lock (federation/dcr.go:572). Readings out of order
  keep its cap, for every cap and whichever of them are a key's, exactly when none arrives after a reading
  that made the limiter forget two others of its own window (`BoundIff`, `LateReadingBreaksBound`).
- A token bucket configured with a burst below one still lets its first call through
  (edge/limits.go:92-94); `BurstBoundIff` gives the exact condition for the advertised bound.
- `ClaimDelivery` accepts an attempt that already carries an acknowledgement (air/handoff.go:650-671).
  The record is then stuck for good; `CustodyIff` is the exact condition for custody and `PreAckedSticks`
  a run that fails it.
- A failed OPEN write does not drain the hand-over channel (beacon/beacon.go:381-387): a data
  connection is lost exactly when the gateway had already answered (`NoConnectionLostIff`), as in
  `AnsweredThenFailed`.
- Reuse detection looks at expiry first (edge/token.go:112-115), so an expired rotated token does not
  end its family (`ExpiredReuseSpares`); `RefreshOutcome` states when a family's tokens are deleted.
- `Advance` resumes "from the recorded stage" (harness/orchestrator.go:216-218), but the cursor can move
  back. In every mode and at either risk it never does if and only if at most one call is in progress
  at a time (`MonotoneIff`). The co-sign gate holds however calls overlap (`ExecuteNeedsApproval`).

## Model

| member | source | states |
|---|---|---|
| KgStore.Store.Open | kg/store.go:95-107 | a store holds whatever its file holds, verifying or not, with the counter and head taken from the last record |
| KgStore.OpenFile | kg/store.go:80-109 | a file is refused if and only if some line does not parse; otherwise its records are its lines, in order |
| KgStore.Store.AppendRecord | kg/store.go:129-156 | an append extends the chain by one stamped record or, on a failed write, rolls memory back exactly; a line may still have reached the file |
| KgStore.Store.AssertProv | kg/store.go:168-178 | an assertion needs subject, predicate and object; memory and file grow by it exactly as the write went |
| KgStore.Store.Delete | kg/store.go:181-185 | a deletion is a tombstone carrying only the id and the peer; memory and file grow by it exactly as the write went |
| KgStore.FoldTo | kg/store.go:195-211 | the fold stops at the first record past the cursor and holds its tombstones, last assertions and first-assertion order |
| KgStore.Store.ActiveAsOf | kg/store.go:189-219 | the answer is the active fold of the records up to the cursor; at the head of a verifying log it is the fold of the whole log, the one the convergence results speak of |
| KgStore.Store.Query | kg/store.go:223-231 | a query filters the active fold, in order |
| KgStore.MatchingExact | kg/store.go:223-231 | exactly the matching live records, an empty field being a wildcard |
| KgStore.Store.Neighbors | kg/store.go:234-242 | neighbours filter the active fold, in order |
| KgStore.TouchingExact | kg/store.go:234-242 | exactly the live records with the node as subject or object |
| KgStore.Store.Verify | kg/store.go:246-263 | the walk accepts if and only if every record has its sequence number, its predecessor's hash and its own hash |
| KgStore.Store.DeltaFrom | kg/store.go:306-316 | the records past the watermark, in order |
| KgStore.Store.ApplyDelta | kg/store.go:333-359 | the log becomes the specified re-append of what was lacking, stopping at the first failed write; the count is exact, and the file grows by what was stored and by the line of a failure that reached it |
| KgLog.LinkedPrefix | kg/store.go:246-263 | every prefix of a verifying log verifies |
| KgLog.HeadDeterminesLog | kg/store.go:112-117 | two non-empty verifying logs with one head hash are equal record for record, or some record of one and some record of the other differ and hash alike |
| KgLog.TamperingMovesTheHead | kg/store.go:244-263 | unless their own records collide, two non-empty verifying logs differ if and only if their heads differ |
| KgLog.ActiveExact | kg/store.go:187-219 | one record for each id asserted and never deleted, its last assertion |
| KgLog.FirstOrderInOrder | kg/store.go:205-217 | ids are listed in the order of their first assertion |
| KgLog.TimeTravelStable | kg/store.go:189-201 | a read as of n is the fold of the first n records, in this log and in every extension of it |
| KgLog.DeltaSinceIsTail | kg/store.go:302-316 | in a verifying log a delta is the tail past the watermark |
| KgLog.KeyInjective | kg/store.go:338-345 | among assertions and deletions the composite key names one operation and one id |
| KgLog.ApplyExtends | kg/store.go:333-359 | whatever fails, an apply only extends a log, keeps it verifying and copies content it was given |
| KgLog.ApplyKeys | kg/store.go:341-357 | without failures the log then holds exactly its own keys and the delta's well-formed ones |
| KgLog.ApplyIdempotent | kg/store.go:329-331 | applying a delta again appends nothing, if the first time met no write failure |
| KgLog.IncrementalRefinesFull | kg/store.go:302-316 | a receiver that holds everything below the watermark appends the same from the delta as from the whole log |
| KgLog.FileVerifiesIff | kg/store.go:80-155 | over any life of a store, reopenings included, the file verifies if and only if no append reached it while it was ahead of memory, and memory if and only if it was never loaded from such a file; while the file verifies, memory is a prefix of it |
| KgLog.FileCanFork | kg/store.go:148-151 | a landed failure and a stored append leave a file that does not verify; reopening it loads that log and changes what an earlier read looks at |
| KgLog.ReopeningHeals | kg/store.go:95-107 | with a reopening between the two, memory and file verify and agree |
| KgLog.HistorySurvivesIff | kg/store.go:187-201 | reopening the file of a store whose memory verifies leaves every read as of a known number looking at the same records if and only if no append was stored while the file was ahead |
| KgLog.PulledIsApplied | kg/store.go:333-359 | whatever reaches the file, a sync leaves in memory the specified re-append |
| KgSync.Merge | kg/store.go:279-300 | sorted by id, exactly the last assertion of each id asserted somewhere and deleted nowhere |
| KgSync.MergeOrderInsensitive | kg/store.go:272-278 | the merged ids depend only on which records the logs hold between them, and so do the contents if no live id has two |
| KgSync.OrderFreeIff | kg/store.go:272-278 | the merged contents are independent of order, grouping and repetition if and only if no live id was asserted with two contents |
| KgSync.MergeIsView | kg/store.go:272-300 | the merged list is the active content of the joined logs |
| KgSync.ActiveShowsView | kg/store.go:212-218 | the active list shows exactly the live ids with their content |
| KgSync.AssertTakesIff | kg/store.go:168-178 | an assertion that is written is appended if and only if it has a subject, a predicate and an object |
| KgSync.RunKeepsCoherent | kg/store.go:318-332 | every run, restarts on any files included, keeps one content per id and every known record on file |
| KgSync.RunKeepsHealthy | kg/store.go:318-332 | every run of assertions, deletions, partial syncs and restarts with any failures leaves all replicas verifying, only extended, with one content per id, as long as no replica restarts on a file that does not verify |
| KgSync.RunKeepsHistory | kg/store.go:187-201 | no such run, restarts included, changes what any replica answered as of an earlier sequence number |
| KgSync.ReplicaVerifiesIff | kg/store.go:80-156 | for every replica of every run from empty stores, memory verifies if and only if it was never restarted on a forked file, and the file if and only if no append reached it while it was ahead of memory |
| KgSync.CaughtUpReplicasAgree | kg/store.go:329-332 | any number of replicas that have received each other's records show the same facts, those of the merge |
| KgSync.PairConverges | kg/store.go:302-359 | two replicas of any reachable network, restarts on any files included, that apply each other's deltas without write failures, in either order and from any watermarks up to which nothing is missing, end with the facts of the merge of the two original logs |
| Subgraph.IndexIncident | air/kgraph.go:53-62 | the index lists for every node the triples that touch it, once each, in order |
| Subgraph.CollectEdges | air/kgraph.go:71-89 | one node's edges are collected as specified, or the cap is met with more to come |
| Subgraph.ExpandLayer | air/kgraph.go:70-90 | one layer is expanded as specified, or the cap is met with more to come |
| Subgraph.Subgraph | air/kgraph.go:47-94 | with a cap, the prefix of that length of the uncapped list, truncated if and only if something was left out |
| Subgraph.NeighbourhoodExact | air/kgraph.go:30-46 | without repetition, exactly the active triples touching a node at undirected distance below the hop count through non-empty nodes |
| Subgraph.MoreHopsOnlyAppend | air/kgraph.go:68-92 | a further hop only appends to the list |
| Subgraph.IncidentInOrder | air/kgraph.go:53-62 | a node's edges are the active triples that touch it, one for each, in active order |
| Subgraph.LayerInOrder | air/kgraph.go:70-90 | within a layer the nodes are taken in the order they were queued, each contributing its new edges in active order |
| Subgraph.QueuedInOrder | air/kgraph.go:71-89 | nodes are queued as they are met, of each new edge its subject and then its object |
| Subgraph.OneHop | air/kgraph.go:47-94 | one hop is the seed's own edges, without repetition, in active order |
| Alias.BuildIndex | air/kgresolve.go:29-48 | a name maps to the target of the first triple that proposes one, and to nothing if none does |
| Alias.ProposedBy | air/kgresolve.go:29-48 | which way a sameAs and an alias triple map, and that no other triple does |
| Alias.Canonical | air/kgresolve.go:54-65 | the walk stops after at most as many distinct names as the index has entries, at an unmapped name or where it re-enters itself |
| Alias.EndsUnique | air/kgresolve.go:50-53 | there is one such answer |
| Alias.CanonicalIdempotent | air/kgresolve.go:50-65 | resolving an answer again changes nothing, cycles included |
| Alias.AnswerOnCycle | air/kgresolve.go:50-53 | an answer that still has a mapping lies on a cycle |
| Keys.ClaimKeyInjective | mcp/idempotency.go:158-163 | no two (tool, key) pairs share a claim key |
| Keys.GrantKeyUnambiguous | air/grant.go:92-96 | a lookup with arbitrary arguments meets an entry stored under NUL-free parts only if all three parts are equal |
| Idempotency.MemClaimStore.TryClaim | mcp/idempotency.go:269-286 | exactly the expired claims are forgotten, then the key is won, pending, done or refused at capacity |
| Idempotency.MemClaimStore.Complete | mcp/idempotency.go:292-302 | only the live, pending claim of that very generation is completed |
| Idempotency.ReplayExact | mcp/idempotency.go:201-237 | with a faithful codec, a replay repeats the outcome if and only if it could be encoded in at most 65536 bytes and is not an empty-text error; otherwise it is an error |
| Idempotency.AtMostOnce | mcp/idempotency.go:130-153 | for any callers and interleaving with readings in order: wins on a key are more than a time to live apart, nobody executes twice, live claims stay within the cap, everyone else is served a recorded outcome or an error |
| Idempotency.DuplicatesReplayed | mcp/idempotency.go:130-153 | in every run, once a winner has finished within its time to live, a caller of its key that asks no later than its expiry is answered at that ask with the outcome it recorded |
| Idempotency.FreeKeyIsWon | mcp/idempotency.go:269-286 | a caller whose key has no claim within its time to live, in a store with room, wins and executes |
| Idempotency.WaiterMayLeave | mcp/idempotency.go:133-152 | a waiting caller may give up and is told so; one that cannot reach the store is refused |
| Idempotency.OncePerToolAndKey | mcp/idempotency.go:12-36 | the same read on (tool, key) pairs |
| Idempotency.StaleCompleteIsNoOp | mcp/idempotency.go:288-302 | completing a generation that is no longer the stored one changes nothing |
| ClaimTiming.NotLateKeepsApart | mcp/idempotency.go:130-153 | in every run, ordered or not, of any callers, times to live, capacity, completions and retries, wins on a key are more than a time to live apart unless a reading that reaches the store within a win's time to live does so after one past it |
| ClaimTiming.InOrderKeepsApart | mcp/idempotency.go:130-153 | readings that arrive in order are never late, so the guarantee holds of them |
| ClaimTiming.ApartIff | mcp/idempotency.go:131-133 | readings that reach a store with room for them keep wins apart for every assignment of keys if and only if none of them is late |
| ClaimTiming.LateReadingBreaksIt | mcp/idempotency.go:131-133 | the shortest run with a late reading wins one key twice within its time to live |
| Beacon.Server.Bind | beacon/beacon.go:248-260 | the last registration of a host wins; a new host is refused at capacity |
| Beacon.Server.Deregister | beacon/beacon.go:298-306 | only the tunnel that holds a host releases it |
| Beacon.HolderIsLastBound | beacon/beacon.go:298-306 | over any run a host is held by exactly the tunnel that bound it last and has not left since |
| Beacon.GatewaysCapped | beacon/beacon.go:250-255 | the table never outgrows its cap |
| Beacon.RegistrationTakes | beacon/beacon.go:248-260 | a registration takes its host unless the host is new and 65536 are registered |
| Beacon.Server.ReserveSlot | beacon/beacon.go:364-373 | a slot is reserved and counted if both budgets have room |
| Beacon.RoomIff | beacon/beacon.go:364-373 | there is room if and only if fewer than 1024 connections are pending and fewer than 128 of them are the host's |
| Beacon.Server.RemovePending | beacon/beacon.go:310-320 | a pending slot is removed once and its counter dropped at zero |
| Rendezvous.Conservation | beacon/beacon.go:322-406 | in every interleaving counters equal pending entries, both budgets hold, each slot is claimed exactly once, no hand-over blocks, and a draining handler has its connection coming |
| Rendezvous.Delivered | beacon/beacon.go:322-391 | in any reachable world a new data connection for a waiting handler is spliced to it by its send and the handler's receive, whatever else happens in between, unless that handler's timer fires |
| Rendezvous.ArrivalIsServed | beacon/beacon.go:358-391 | a connection there is room for gets a slot, waits, and is spliced |
| Rendezvous.TimedOut | beacon/beacon.go:392-405 | a timer on a pending slot closes the handler and frees the slot; on a claimed one the connection is drained and closed |
| Rendezvous.NoConnectionLostIff | beacon/beacon.go:375-406 | every data connection is spliced, closed or on its way to a waiting handler, if and only if no OPEN write failed after being answered |
| Rendezvous.AnsweredThenFailed | beacon/beacon.go:381-387 | for every host, a connection answered before its OPEN write fails is lost |
| Orchestrator.StagesOrdered | harness/mode.go:45-71 | every mode lists its stages in pipeline order |
| Orchestrator.StagesExact | harness/mode.go:51-71 | which stages each mode leaves out of the pipeline |
| Orchestrator.RunCtx.Advance | harness/orchestrator.go:219-276 | a stopped run is left alone; otherwise the call is the specified pass over the mode's stages |
| Orchestrator.RunCtx.Drive | harness/orchestrator.go:239-275 | the stage loop leaves the cursor, status and list of stages run as specified |
| Orchestrator.RunCtx.Cancel | harness/orchestrator.go:289-303 | a cancelled run is stopped and keeps its cursor |
| Orchestrator.SoloIsGo | harness/orchestrator.go:219-276 | a call that begins, moves and finishes while no other call moves, in the model of overlapping calls, leaves the cursor and has run the stages that one pass over the list reports |
| Orchestrator.GoForward | harness/orchestrator.go:240-269 | a call never moves the cursor back |
| Orchestrator.GoRunsListed | harness/orchestrator_stages.go:475-485 | a call runs only stages of its list at or past the cursor |
| Orchestrator.GoGate | harness/orchestrator_stages.go:223-248 | a high-risk call that starts at or before the gate runs execute, or passes the gate, only on an approval it saw |
| Orchestrator.GoCompletes | harness/orchestrator.go:216-218 | a call that meets no cancellation, failed stage, closed gate or failed persist runs every remaining stage and is done |
| Orchestrator.GoStops | harness/orchestrator.go:240-269 | a call that meets one ends exactly there: a cancelled pass runs nothing, a failed stage or the gate is the last one run with the cursor before it, a failed persist leaves the cursor past it; all but the gate end failed |
| Orchestrator.RemainingExact | harness/orchestrator_stages.go:475-485 | what remains is, in order, every listed stage at or past the cursor |
| Orchestrator.WorkEnds | harness/orchestrator.go:246-264 | among overlapping calls a stage whose work fails, and the gate without approval, end their call and leave the cursor; any other stage passes |
| Orchestrator.BlockedStopsAtGate | harness/orchestrator.go:251-264 | a blocked call ends at approve with the cursor not past it |
| Orchestrator.ExecuteNeedsApproval | harness/orchestrator.go:252-256 | for every mode that lists execute and every interleaving of overlapping calls, failures and cancellations, a high-risk run runs execute, verify, fix or settle only after an earlier approve stage saw approval |
| Orchestrator.NothingRunsAfterCancel | harness/orchestrator.go:224-230 | no call begun after cancellation ever runs a stage |
| Orchestrator.CursorNeverBack | harness/orchestrator.go:240-269 | in a run whose calls do not overlap the cursor never moves back |
| Orchestrator.OverlapCanMoveBack | harness/orchestrator_stages.go:80-84 | in every mode and at either risk some run with two calls moves it back |
| Orchestrator.MonotoneIff | harness/orchestrator.go:216-218 | in every mode and at either risk, all runs with at most n calls in progress at a time keep the cursor from moving back if and only if n is at most one |
| Handoff.Handoff.Offer | cmd/meshmcp/airhandoff_store.go:177-185 | a fresh record is offered with no attempts |
| Handoff.Handoff.MoveTo | air/handoff.go:604-646 | a transition succeeds or leaves the record exactly as it was |
| Handoff.Handoff.TransitionTo | air/handoff.go:597-602 | delivery states cannot be reached through the generic transition |
| Handoff.Handoff.ClaimDelivery | air/handoff.go:650-671 | a claim moves an accepted record to dispatching and appends its receipt together, or does nothing |
| Handoff.Handoff.AcknowledgeDelivery | air/handoff.go:675-692 | an acknowledgement moves a dispatching record to continued and marks its last attempt, or does nothing |
| Handoff.Handoff.RearmDelivery | air/handoff.go:697-718 | a re-arm returns an unacknowledged, unexpired dispatch to accepted, or does nothing |
| Handoff.CustodyIff | air/handoff.go:648-692 | over any run from a fresh offer: at most 16 attempts, only the last acknowledged, continued exactly then; if and only if no accepted claim was already acknowledged |
| Handoff.PreAckedSticks | air/handoff.go:650-671 | every valid attempt that carries an acknowledgement, claimed on an accepted offer in time, leaves the record stuck and out of custody |
| Handoff.DeliveryReachable | air/handoff.go:594-692 | every valid attempt accepted, claimed and acknowledged in time ends continued with that attempt on record |
| Handoff.RetryReachable | air/handoff.go:650-718 | an unacknowledged dispatch with room for another attempt can be re-armed, claimed again and acknowledged, with both attempts on record |
| Handoff.TransitionTakesIff | air/handoff.go:597-646 | which transitions take effect: accepting and declining before expiry, expiring while waiting, the state a record is in, and no other |
| Handoff.ClaimTakesIff | air/handoff.go:650-671 | a claim takes effect exactly on an accepted record with fewer than 16 attempts, before expiry |
| Handoff.AcknowledgeTakesIff | air/handoff.go:675-692 | an acknowledgement takes effect exactly on a dispatch whose last attempt has none, before expiry |
| Handoff.RearmTakesIff | air/handoff.go:697-718 | a re-arm takes effect exactly on a dispatch whose last attempt is not acknowledged, before expiry |
| Handoff.AttemptValidIff | air/handoff.go:561-583 | what makes a delivery attempt valid |
| Handoff.AppendOnly | air/handoff.go:669-690 | attempts are never removed or altered, and an acknowledgement is never withdrawn |
| Handoff.RearmBetweenClaims | air/handoff.go:694-718 | two claims that took effect have a re-arm that took effect between them |
| Handoff.NothingAfterExpiry | air/handoff.go:604-718 | nothing is claimed, acknowledged or re-armed at or after expiry |
| Handoff.TerminalForever | air/handoff.go:585-592 | declined, continued and expired records never change again |
| Handoff.LapsedForever | air/handoff.go:585-592 | a lapsed offer stays lapsed for every later reader |
| Text.TrimExact | air/handoff.go:331-342 | trimmed text is non-empty text that trimming leaves as it is, and trimming leaves nothing exactly of blank text |
| Tokens.TokenServer.IssueCode | edge/tokens.go:44-58 | a code is stored with everything it binds and its expiry |
| Tokens.TokenServer.TokenFromCode | edge/token.go:48-92 | a code is spent by the first attempt and mints a new family only if every check passes |
| Tokens.FirstRedemption | edge/token.go:48-92 | in every run the first attempt on a code mints a token set for its client if and only if it is in time, from that client, with that redirect, a good verifier, no contradicting resource and an approved client |
| Tokens.SecondRedemption | edge/tokens.go:60-76 | good or bad, the first attempt spends the code: no later attempt changes anything |
| Tokens.TokenServer.MintTokenSet | edge/token.go:177-213 | one access and one unrotated refresh record of the family and generation |
| Tokens.TokenServer.TokenFromRefresh | edge/token.go:96-161 | a presentable token rotates once; shown again it is refused within the grace and ends its family beyond it |
| Tokens.TokenServer.DeleteFamily | edge/tokens.go:169-184 | exactly the family's access and refresh tokens are deleted |
| Tokens.FamilySafety | edge/token.go:94-161 | over any run a code starts at most one family, a live family is one rotation chain with consecutive generations and one unrotated token, a revoked one has no token |
| Tokens.ReuseEndsFamily | edge/token.go:127-142 | after reuse beyond the grace no token of the family exists or is ever minted again |
| Tokens.ShownAgain | edge/token.go:127-142 | in every run, a token rotated at one time and shown again unexpired by its client changes nothing within 30 seconds and after that leaves no refresh or access token of its family |
| Tokens.RefreshIssuesIff | edge/token.go:96-161 | a refresh issues if and only if the token is known, unrotated, unexpired, its client's, and the client approved; then the successor has the next generation and the times to live configured |
| Tokens.RefreshOutcome | edge/token.go:117-161 | a refresh adds exactly one refresh and one access token to its family, leaves it alone, or deletes every stored token of it, the last if and only if it is reuse; other families keep their tokens |
| Tokens.ExpiredReuseSpares | edge/token.go:112-115 | for every configuration and timing in which a rotated token is shown again after its own expiry and the grace, and before its successor expires: the store is reached, nothing changes, and the current token still rotates |
| Grants.GrantStore.Open | air/grant.go:102-143 | what is loaded is the file's complete entries, a granted ask dropped from pending |
| Grants.GrantStore.Persist | air/grant.go:381-416 | the file then lists exactly memory and reopens to it, or is unchanged |
| Grants.GrantStore.Add | air/grant.go:148-186 | a valid grant is written, its triple is then granted with that very grant and its ask resolved, or memory and file are exactly as before |
| Grants.GrantStore.Remove | air/grant.go:190-204 | the triple is then not granted, or memory and file are exactly as before |
| Grants.GrantStore.DropOpportunity | air/grant.go:208-222 | an ask is dropped, or memory and file are exactly as before |
| Grants.GrantStore.Record | air/grant.go:229-266 | an ungranted ask is added or counted within the bound, and told new or repeated, or memory and file are exactly as before |
| Grants.GrantStore.Check | air/grant.go:271-276 | true of every granted triple, and in a store of NUL-free entries of no other |
| Grants.GrantStore.Reopen | air/grant.go:98-143 | a restart at any moment loads exactly what memory held |
| Grants.GrantStore.ConsumeOnceMatching | air/grant.go:309-333 | the first authorizing single-use grant in key order is spent, or there is none, or the write failed, and then memory and file are exactly as before |
| Grants.AddExact | air/grant.go:148-186 | a committed add leaves exactly that grant for its triple, no ask pending for it, and every other triple as it was |
| Grants.RemoveExact | air/grant.go:190-204 | a committed removal or consumption leaves the triple ungranted and every other triple as it was |
| Grants.DropExact | air/grant.go:208-222 | a committed drop leaves no ask for the triple, its grant and every other triple as they were |
| Grants.RecordExact | air/grant.go:229-266 | a first ask is pending with a count of one, a repeated one is counted once more, a granted triple or a new one beyond 256 is not recorded, every other triple is as it was |
| Grants.ValidIff | air/grant.go:445-456 | what makes the parts of a triple valid |
| Grants.OpenedWellFormed | air/grant.go:125-142 | whatever the file, entries sit under their own key and granted and pending are disjoint |
| Grants.ReopenYieldsMemory | air/grant.go:381-440 | reopening a written file yields exactly the in-memory sets |
| Grants.SingleUseConserved | air/grant.go:301-333 | over any run of operations, failed writes and restarts, committed consumptions of a triple plus what is unspent never exceed the single-use grants written for it plus what was unspent |
| Grants.RunKeeps | air/grant.go:145-266 | over any run of operations, failed writes and restarts, the file reopens to memory, granted and pending stay disjoint, and NUL-free entries stay NUL-free |
| Grants.LookupExact | air/grant.go:268-276 | an arbitrary lookup hits if, and in a store of NUL-free entries only if, exactly that triple is granted |
| Grants.GrantMoveTarget | air/move_grant.go:30-32 | a move grant is a single-use grant for that destination and session |
| Grants.ConsumeMoveGrant | air/move_grant.go:46-51 | a commit spends that very grant and is refused without one; with one, in a store of NUL-free entries, only a failed write refuses it |
| Grants.MoveCommitsOnce | air/move_grant.go:5-12 | over any such run that starts without one, commits for a destination and session never exceed the single-use grants written for them |
| Glob.MatchLiteral | federation/exchange.go:560-565 | a pattern without wildcards matches exactly the name its escapes spell, or nothing if malformed |
| GlobMeaning.MatchSound | federation/exchange.go:560-565 | whatever is matched is what the pattern means: a star any characters but slashes, any other element one character it admits |
| GlobMeaning.MatchExact | federation/exchange.go:560-565 | a pattern in which only a slash admits a slash, and any pattern on a name without one, matches exactly the names it means |
| GlobMeaning.SearchCanMiss | federation/exchange.go:560-565 | a class that admits a slash between two stars can make the search miss a name the pattern means |
| GlobMeaning.PrefixGrant | federation/exchange.go:560-565 | a literal prefix and a star match the names that start with it and go on without a slash |
| Exchange.IntersectGranted | federation/exchange.go:544-570 | the kept requests, once each, in order |
| Exchange.IntersectionExact | federation/exchange.go:512-520 | a request survives if and only if it was asked for and some granted entry admits it |
| Exchange.ConcreteKeptIffAllowed | federation/boundary.go:223-237 | a concrete name is kept if and only if the boundary would admit it |
| Exchange.KeptIffMeant | federation/exchange.go:544-570 | a concrete name without a slash is kept if and only if some granted entry is a bare star, is that name, or means it |
| Exchange.PrefixGrantKeeps | federation/exchange.go:544-570 | a grant of a prefix and a star keeps exactly the concrete names that start with it and go on without a slash |
| Exchange.NeverWidensIff | federation/exchange.go:512-520 | keeping a non-empty request admits no name outside the grant, for every grant, if and only if the request is plain: it has a wildcard, no backslash, or a dangling one |
| Exchange.EscapeWidens | federation/exchange.go:560-565 | for a request that is not plain, a grant that covers exactly its letters is widened to another name |
| Exchange.DenyAllCoversItself | federation/exchange.go:521-526 | the deny-all entry covers its own name and no other |
| Exchange.MintedNarrow | federation/exchange.go:213-217 | from plain requests, a minted tool list covers only what was both requested and granted |
| Exchange.MintedCorporaNarrow | federation/exchange.go:528-542 | from plain requests a minted corpus list likewise, and an empty intersection reaches no corpus but the sentinel's name |
| Exchange.KeptCorpusMinted | federation/exchange.go:528-542 | a corpus that a kept request covers is reached by the minted capability |
| Exchange.ActionsExact | federation/exchange.go:469-484 | the union holds exactly the non-empty actions of the entries |
| Exchange.LocationsExact | federation/exchange.go:474-510 | the locations are the non-empty ones of all the entries |
| Exchange.UnionAuthDetails | federation/exchange.go:474-510 | refused unless the entries name exactly one location and some action |
| Exchange.ExchangeScope | federation/exchange.go:207-221 | refused if and only if the entries do not name exactly one location or no requested action is granted; otherwise plain requests never mint beyond the request or the grant |
| TokenBucket.Limiter.Allow | edge/limits.go:84-107 | the verdict and the new bucket are the specified ones |
| TokenBucket.BucketBound | edge/limits.go:84-107 | at a positive rate, any interval of any run in clock order lets through at most the burst, or one call, plus the refill of the interval |
| TokenBucket.BurstBoundIff | edge/limits.go:91-95 | at a positive rate, the bound with the plain burst holds for all runs if and only if the burst is at least one |
| TokenBucket.IdleKeyIsServed | edge/limits.go:96-106 | with a burst of at least one, a key left alone for one token's time is served |
| TokenBucket.BurstIsServed | edge/limits.go:84-107 | in any run a key with n tokens available, the whole burst for a new key, is served n calls at one instant |
| TokenBucket.IdleRefills | edge/limits.go:96-100 | a key left alone for n tokens' time has n available, up to the burst |
| TokenBucket.NoRateAllowsAll | edge/limits.go:85-87 | without a positive rate nothing is limited |
| FixedWindow.Limiter.Allow | edge/limits.go:37-54 | the verdict and the new window are the specified ones |
| FixedWindow.WindowBound | edge/limits.go:37-54 | with a positive cap, no interval of one window length lets through more than twice the cap less one |
| FixedWindow.BoundAttained | edge/limits.go:10-14 | for every positive cap and every window longer than one tick some run attains that bound |
| FixedWindow.NoCapAllowsAll | edge/limits.go:38-40 | without a positive cap nothing is limited |
| SlidingLog.Compact | federation/dcr.go:173-180 | compaction in place keeps exactly the timestamps after the cutoff, in order |
| SlidingLog.Append | federation/dcr.go:185-185 | an append shares the buffer while it has room and moves to a fresh one otherwise |
| SlidingLog.Limiter.Allow | federation/dcr.go:170-187 | the verdict and the new log are the specified ones, and no two keys ever share a buffer |
| SlidingLog.NothingNeededIsLost | federation/dcr.go:173-184 | the stored log and the full history agree on everything a later call can see |
| SlidingLog.DecisionExact | federation/dcr.go:181-186 | a call is let through if and only if fewer than the cap were let through in the window that ends now |
| SlidingTiming.KeysApart | federation/dcr.go:170-187 | what a key is let through depends on its own readings only |
| SlidingTiming.NotLateKeepsBound | federation/dcr.go:170-187 | whatever order a key's readings arrive in, no window sees more than the cap let through, unless one of them arrives after a reading that made the limiter forget two others of its window |
| SlidingTiming.SlidingBound | federation/dcr.go:170-187 | no window of any run in clock order sees more than the cap let through |
| SlidingTiming.BoundIff | federation/dcr.go:170-187 | readings in a given order keep the bound, for every cap and whichever of them are the key's, if and only if none of them is late |
| SlidingTiming.LateReadingBreaksBound | federation/dcr.go:572-572 | four readings let three calls through in one window under a cap of two |

## Left out

- Byte strings: strings are sequences of characters, so length limits count characters and invalid UTF-8 does not occur.
- KgStore.OpenFile: a read error and a line over the scanner's limit, which also refuse the file, are not modelled.
- Torn lines in the knowledge log: a failed write leaves the whole line or none of it.
- Several processes on one knowledge file: each store is the only writer of its file.
- Idempotency: the polling loop is its sequence of store calls; the waiting time between them is not bounded, and the PostgreSQL claim store (pgstore/claims.go) is not part of this model.
- JSON: an encodable claim record decodes to itself; that hypothesis is named where it is used.
- Rendezvous.Conservation: a public connection may arrive for any host, whether or not a gateway is registered, which only adds runs; splicing itself and TXT records are not modelled.
- Orchestrator: what the stages do besides passing, blocking or failing, and the audit records, are left out.
- Orchestrator.CursorNeverBack: only for calls that do not overlap, because `MonotoneIff` shows that others can move the cursor back.
- Orchestrator.RunCtx.Cancel: cancelling the in-flight context and the recorded reason are left out.
- Tokens: storage failures and requests on two tokens of one family at once are left out; the capability inside an access token is opaque.
- Grants.LookupExact: promises the exact triple only for NUL-free entries, because opening a hand-edited file does not check for NUL.
- Grants.GrantStore.Open: a file that does not parse or has a newer schema version is not modelled.
- Beacon.Server.Deregister: the TXT records dropped with the host are not modelled.
- Handoff.Handoff.Offer: the offer's validation and its source fields are not modelled.
- Exchange.ExchangeScope: ends where the scope is decided; the issuer called next refuses a malformed tool pattern (policy/capability.go:97-101) and other unfit claims.
- Exchange.MintedNarrow: assumes plain requests, because `NeverWidensIff` shows the others do widen.
- Grants: the order in which the file lists entries is not modelled.
- GlobMeaning.MatchExact: `path.Match` belongs to Go's library; which patterns with a class that admits a slash still match all they mean is not characterised beyond `SearchCanMiss`.
- Float rounding in the token bucket: tokens and seconds are real numbers.
- Subject-token validation, identity mapping, TLS, DNS, HTTP handlers and the policy engine are left out.
- The pairing store (air/pairing.go), a near-copy of the grant store, and single-branch validators would only add easy members.
