# A model of the Across SDK, with proofs

The SDK reads the Across bridge from logs. Its clients query block windows of a contract's events, sort them, and fold
them into in-memory indexes; everything else asks these indexes what was true as of some block. This project models
that machinery in Dafny and proves what the rest of the SDK takes for granted about it. `dafny verify dfyconfig.toml`
checks all of it.

| file | what it models |
|---|---|
| `Wrappers`, `Numbers`, `Sequences`, `ObjectUtils` | thrown errors as results, `filter`/`find`, the dictionaries that `assign` builds |
| `EventUtils` | event order, stable sorting, "newest at or before", paging of queries |
| `BaseAbstractClient` | the update latch, the search cursor, and runs of updates |
| `SpokePool`, `SpokeIndexes`, `SpokeReplay`, `SpokeRecords`, `SpokeHistory`, `SpokePoolClient` | the SpokePool client: one update, any schedule of them, what the indexes then say of the log, and histories with updates that throw |
| `RootBundles`, `BundleQueries`, `BundleUtils` | the propose / execute / dispute protocol, and what is reconstructed from its logs |
| `ConfigStore`, `ConfigHistory`, `ConfigStoreClient` | chain lists, disabled chains, lite chains and versions, replayed and told from the log |
| `HubPoolTokens`, `HubPoolClient`, `HubPoolOrder`, `HubPoolFees` | token mappings, the HubPool client, which of its answers survive unsorted nodes and retries, LP fees of a batch |
| `BlockUtils` | the BlockFinder under interleaved calls |
| `SpokeUtils`, `CachingUtils` | binary searches over blocks, the deposit cache |
| `DepositSearch`, `DepositBuffer`, `DepositUtils` | finding a deposit on chain, in the client's memory or in the cache, and when the three agree |
| `FixedPoint`, `LpFeeCalculator`, `RelayFeeCalculator` | truncating fixed-point arithmetic, the LP rate curve, the capital fee |

A chain is an immutable log ordered by (block, transaction index, log index), together with functions of the block
number: timestamps, deposit counts, fill statuses, utilizations. A node lists the events of a query in any order. Objects whose methods change their fields are classes
(`BaseClient`, `SpokePoolClient`, `HubPoolClient`, `AcrossConfigStoreClient`, `BlockFinder`, `DepositCache`), loops are
loops, and each such method is proved against a function of the old state; the theorems are about those functions.

## Where the code departs from what it promises

Each of these is a lemma, with the exact condition beside it where there is one.

- A speed-up ingested before its deposit is not applied until another speed-up names the deposit
  (`SpokeReplay.LateDepositMissesItsSpeedUp`); a schedule of updates equals one fold if and only if every deposit is
  settled in that respect (`SpokeReplay.ScheduleIsOneFold`).
- An update that throws while deriving deposits leaves deposits and bridged tokens behind. However it is retried, over a
  longer window or shorter ones, the client is in the state of the completed updates alone if and only if no bridged
  tokens were in a window that threw and no deposit stored early heard of a speed-up that it would have missed
  (`SpokeHistory.BridgedTwice`, `SpokeHistory.SpedUpAhead`, exactly when: `ThrowsMatterIff`, `CaughtUpIff`).
- A caller who sets `toBlock` past the node's head loses the events in between for good
  (`BaseAbstractClient.SearchingPastTheHeadLosesEvents`, exactly when: `EveryEventOnce`).
- `findDeposit` asks for an open output token without a quote block, so it gets the latest mapping and can disagree with
  the buffer about the same deposit (`DepositUtils.RemappedOutputToken`, exactly when: `DepositSearch.VerdictsAgreeIff`,
  and in terms of the HubPool's routes: `DepositSearch.TokenIsKeptByRoutesIff`). A cached deposit keeps the mapping of
  the time when it was stored (`DepositUtils.RemappedSinceCached`, exactly when: `CacheAgreesIff`).
- `batchComputeRealizedLpFeePct` prices a deposit in the pool that its token is mapped to now, not at the quote block
  (`HubPoolFees.PricedAtTheLatestMapping`, exactly when they coincide: `PricedAsQuotedIff`).
- The HubPool client does not sort what its node lists. Token, contract and leaf lookups do not mind
  (`HubPoolOrder.ListingIsImmaterial`). A bundle may be judged wrongly if proposals are listed out of order
  (`HubPoolOrder.NewestProposalFirst`, exactly when: `ListedIsJudgedRightIff`), and the activation block of a SpokePool
  may be a later one (exactly when: `ActivationAlikeIff`).
- A bundle is identified by the block of its proposal, so two proposals in one block can defeat `isRootBundleValid`
  (`RootBundles.TwoProposalsInOneBlock`, exactly when: `JudgedRightIff`).
- `getNthFullyExecutedRootBundle` starts over when asked past the last bundle (`BundleQueries.NthWrapsAround`), and
  counting backwards misses a bundle completed in the block of the next proposal, and only then (for each n:
  `NthFromBackIff`).
- `getRootBundleEvalBlockNumberContainingBlock` also counts bundles completed after the block it is asked as of, if they
  were followed by another proposal, so its undefined answers can move as the log grows
  (`BundleQueries.AnswerMoves`, exactly when: `EvalAnswerMovesIff`).
- Two updates of the disabled chains in one block can make a chain count as enabled that was disabled at every block
  (`ConfigStoreClient.TwoUpdatesInOneBlock`, exactly when: `LookupIsRightIff`, `EnabledOverRange`).
- `BlockFinder` documents the latest block at or before a timestamp; where blocks share that timestamp it returns the
  first of them that it looks at (`BlockUtils.SharedTimestampAnswersEarly`, `BlockUtils.InterpolationDecides`; exactly
  when that is the latest: `GetBlockForTimestamp`).
- `MAX_BIG_INT` is `Number.MAX_SAFE_INTEGER`, 0.9% in fixed point and not the 100% that its comments have in mind
  (`RelayFeeCalculator.ZeroAmountTooLow`).
- A negative cutoff passes validation and can overcharge (`RelayFeeCalculator.NegativeCutoffTriples`, exactly when:
  `WholeTokensWithinBoundIff`); so does a negative lower bound (`NegativeLowerBoundRoundsUp`, by how much:
  `FeeWithinBounds`).
- An LP rate curve whose kink is at 0 with R1 > 0 is not the curve it describes (`LpFeeCalculator.KinkAtZeroIsNoCurve`).

## Model

| member | source | states |
|---|---|---|
| EventUtils.OlderIsStrictTotalOrder | src/utils/EventUtils.ts:215-223 | `isEventOlder` is a strict order, total on distinct positions |
| EventUtils.SortSorts | src/utils/EventUtils.ts:177-213 | both sorts put no event before one that precedes it and keep every event with its multiplicity |
| EventUtils.SortRestoresLog | src/utils/EventUtils.ts:177-213 | sorting any permutation of a log gives back the log, in either direction |
| EventUtils.FindNewestIsNewest | src/clients/HubPoolClient.ts:190-194 | "sort descending, then find" yields the greatest event in event order that satisfies the predicate, whatever order the list is kept in and even if events are in it twice, and undefined only if none does |
| EventUtils.FindNewestOnLog | src/clients/AcrossConfigStoreClient/AcrossConfigStoreClient.ts:274-279 | on a list in log order the same lookup is the last match |
| EventUtils.AsOfIsStable | src/clients/AcrossConfigStoreClient/AcrossConfigStoreClient.ts:148-157 | an answer as of a block does not change when events of later blocks arrive |
| EventUtils.AsOfMovesForward | src/clients/AcrossConfigStoreClient/AcrossConfigStoreClient.ts:148-157 | between two blocks the event that answers only moves forward along the log |
| EventUtils.WindowsAbut | src/utils/EventUtils.ts:86-96 | the events of two abutting windows, one after the other, are those of the joint window |
| EventUtils.GetPaginatedBlockRanges | src/utils/EventUtils.ts:121-164 | aligned, ascending, disjoint pages of at most maxBlockLookBack blocks that cover the window and end at its end; an error exactly for a non-positive look-back over a non-empty window |
| EventUtils.PagesJoin | src/utils/EventUtils.ts:121-164 | querying such pages one by one returns each event of one query from the first page's start to the last one's end as often, for a node that lists each page in any order, and in order if the node does |
| EventUtils.PagedQueryIsExact | src/utils/EventUtils.ts:86-96 | paging to aligned boundaries and filtering back returns what one unpaged query would, for a node that lists events in any order, and in the same order if the node lists them in log order |
| EventUtils.PaginatedEventQuery | src/utils/EventUtils.ts:70-105 | whatever the order of the node, a query that succeeds returns each event of the window exactly once and nothing else; it fails only for a negative look-back or after all retries failed; a look-back of 0 is one query without retry |
| BaseAbstractClient.BaseClient.SetIsUpdated | src/clients/BaseAbstractClient.ts:48-53 | the latch: never back to false, and an error exactly for trying |
| BaseAbstractClient.BaseClient.UpdateSearchConfig | src/clients/BaseAbstractClient.ts:60-76 | the next window starts at the cursor, ends at the caller's `toBlock` or else the head, and is never empty; it throws exactly for a `toBlock` behind the cursor and is rejected exactly where the head is |
| BaseAbstractClient.BaseClient.Advance | src/clients/SpokePoolClient.ts:662-670 | an update leaves the cursor one past the block searched, and the caller's `toBlock` cleared |
| BaseAbstractClient.RunCovers | src/clients/BaseAbstractClient.ts:60-76 | over any run of updates the events ingested and the events overrun add up to those below the cursor |
| BaseAbstractClient.EveryEventOnce | src/clients/BaseAbstractClient.ts:60-76 | a run ingests every event up to latestBlockSearched exactly once and in order if and only if no update searched past an event its node had yet to reach |
| BaseAbstractClient.EveryEventOnceBelowHead | src/clients/BaseAbstractClient.ts:60-76 | callers that keep `toBlock` at or below the node's head get every event exactly once |
| BaseAbstractClient.SearchingPastTheHeadLosesEvents | src/clients/BaseAbstractClient.ts:60-76 | a run with `toBlock` past the head that never ingests an event below its cursor |
| ObjectUtils.GroupByContents | src/utils/ObjectUtils.ts:6-31 | arrays that `assign` appends to hold, under each key, exactly the elements with that key in order |
| ObjectUtils.FirstByContents | src/clients/SpokePoolClient.ts:555-558 | a first-wins dictionary holds the first element with each key |
| ObjectUtils.FlagByContents | src/utils/ObjectUtils.ts:18-31 | although `true` over `true` leaves `{}`, a boolean leaf is truthy exactly when the last value assigned was true |
| SpokeReplay.LeastIsLastOfTheLeast | src/clients/SpokePoolClient.ts:241-243 | the `reduce` picks the last of the speed-ups with the least output amount |
| SpokeReplay.QuotedAgain | src/clients/SpokePoolClient.ts:234-261 | requoting a deposit with a longer list of speed-ups forgets the earlier quote |
| SpokeReplay.SpeedUpsRecord | src/clients/SpokePoolClient.ts:573-578 | the speed-up dictionary holds, per depositor and id, every speed-up ingested, in order |
| SpokeIndexes.DerivedFromEvent | src/clients/SpokePoolClient.ts:532-553 | a deposit is derived exactly if it can be priced and its output token is known as of the quote block, and is then as logged, field by field, with an open output token filled in |
| SpokeRecords.SpeedUpsFromTheLog | src/clients/SpokePoolClient.ts:573-578 | each depositor and id has the speed-ups of exactly the events by that depositor for that id, as logged |
| SpokeReplay.DepositRecord | src/clients/SpokePoolClient.ts:532-591 | after any schedule of updates: the first deposit of each id with unchanged relay data, carrying the last of the least speed-ups by its own depositor below its output amount, once some update that knew it ingested a speed-up naming it |
| SpokeRecords.DepositFromTheLog | src/clients/SpokePoolClient.ts:532-591 | the same read off the raw events: an id is stored from its first deposit that can be derived, every field as logged, with the terms of the last of the least speed-ups that its depositor signed, if they ask for less, once an update that knew it read a speed-up naming it |
| SpokeReplay.SplitIsImmaterial | src/clients/SpokePoolClient.ts:515-674 | every index but the deposits' terms is that of one fold over the whole log, however the log was split into updates |
| SpokeReplay.ScheduleIsOneFold | src/clients/SpokePoolClient.ts:515-674 | a schedule of updates leaves the state of one fold over the whole log if and only if no deposit still misses a speed-up that came before it |
| SpokeReplay.InOrderScheduleIsOneFold | src/clients/SpokePoolClient.ts:515-674 | if every speed-up is ingested with or after its deposit, any schedule equals one fold |
| SpokeReplay.OneUpdateIsCanonical | src/clients/SpokePoolClient.ts:234-261 | one update over everything leaves each deposit with the best quote among all speed-ups of its depositor |
| SpokeReplay.LateDepositMissesItsSpeedUp | src/clients/SpokePoolClient.ts:580-588 | two updates that leave a deposit without the speed-up one update would give it |
| SpokeReplay.FillsRecord | src/clients/SpokePoolClient.ts:608-628 | the two fill indexes hold the same fills, each in log order |
| SpokeRecords.FillsFromTheLog | src/clients/SpokePoolClient.ts:608-628 | under each origin chain and each deposit are exactly the fill events for it, with relay data, relayer, repayment chain and position as logged |
| SpokeReplay.SlowFillsRecord | src/clients/SpokePoolClient.ts:593-606 | the first slow-fill request of each relay hash is kept |
| SpokeRecords.SlowFillsFromTheLog | src/clients/SpokePoolClient.ts:593-606 | under each relay hash is the first request event with that hash, as logged |
| SpokeReplay.RoutesRecord | src/clients/SpokePoolClient.ts:630-641 | after any schedule of updates a deposit route is truthy exactly when the last assignment to it was true |
| SpokeRecords.RoutesFromTheLog | src/clients/SpokePoolClient.ts:630-641 | a deposit route is truthy exactly when the last EnabledDepositRoute event for its token and chain says enabled |
| SpokeReplay.IdBounds | src/clients/SpokePoolClient.ts:560-565 | the id bounds are the least and the greatest id ingested |
| SpokeRecords.BoundsFromTheLog | src/clients/SpokePoolClient.ts:560-565 | the bounds are the least and the greatest id of the deposit events that can be derived |
| SpokeReplay.ListsRecord | src/clients/SpokePoolClient.ts:526-530 | bridged tokens, root bundle relays and refund executions are all events of their kind, in order |
| SpokeRecords.ListsFromTheLog | src/clients/SpokePoolClient.ts:526-530 | the three lists are the TokensBridged, RelayedRootBundle and ExecutedRelayerRefundRoot events, as logged |
| SpokeReplay.UnfilledFromTheLog | src/clients/SpokePoolClient.ts:312-359 | a deposit counts as filled exactly when the log holds a fill with its id and relay hash, and valid and invalid fills add up to the fills of the id |
| SpokeRecords.UnfilledFromTheEvents | src/clients/SpokePoolClient.ts:312-359 | the fill count is that of the fill events of the deposit with its relay hash, nothing is left unfilled if there is one, and the invalid fills are exactly those with another hash, as logged |
| SpokePoolClient.SpokePoolClient.Query | src/clients/SpokePoolClient.ts:451-494 | a sorted query for one kind is the window of that kind in log order, in whatever order the node lists it, or nothing if not asked for |
| SpokePoolClient.SpokePoolClient.QueryAll | src/clients/SpokePoolClient.ts:451-494 | the queries of one update answer its window, with routes from the deployment on for the first update |
| SpokePoolClient.SpokePoolClient.FetchUpdate | src/clients/SpokePoolClient.ts:435-505 | what `_update` reads: the next window's events, times and deposit counts; time never runs backwards |
| SpokePoolClient.PoolViewOfNode | src/clients/SpokePoolClient.ts:435-505 | times and deposit counts are those of the chain at the ends of the blocks searched and at the deployment, the first ones kept |
| SpokePoolClient.SpokePoolClient.IngestDeposits | src/clients/SpokePoolClient.ts:532-568 | deposits are stored up to the first that cannot be derived, and none if one of the batch has no quote block or an input token that no pool is mapped to |
| SpokePoolClient.SpokePoolClient.IngestSpeedUps | src/clients/SpokePoolClient.ts:573-592 | the loop equals the fold that appends each speed-up and requotes the deposit it names |
| SpokePoolClient.SpokePoolClient.IngestSlowFills | src/clients/SpokePoolClient.ts:593-606 | the loop keeps the first request of each relay hash |
| SpokePoolClient.SpokePoolClient.IngestFills | src/clients/SpokePoolClient.ts:608-628 | the loop groups fills by origin chain and by deposit |
| SpokePoolClient.SpokePoolClient.IngestRoutes | src/clients/SpokePoolClient.ts:630-641 | the loop assigns every route flag in order |
| SpokePoolClient.SpokePoolClient.Update | src/clients/SpokePoolClient.ts:515-674 | a completed update ingests exactly its window, with the hub's answers of the time, and moves the cursor past it; a throw leaves the cursor and, at most, the deposits and bridged tokens written before it; the indexes are always the replay of what was written, and a client in sync stays in sync whenever it asks for all there is |
| SpokePoolClient.IngestByKind | src/clients/SpokePoolClient.ts:515-674 | the writes of one update, list by list, amount to one ingest of its window |
| SpokePoolClient.SyncStepIff | src/clients/SpokePoolClient.ts:451-494 | a completed update, of any kinds of event, up to a block its node had reached keeps all events below the cursor ingested once and in order, and the routes since the deployment, if and only if it asks for every kind that occurs and reaches the deployment |
| SpokePoolClient.SyncAfterThrow | src/clients/SpokePoolClient.ts:526-568 | an update that throws leaves the client in sync up to the cursor, where it was |
| SpokePoolClient.InSyncIsOneFold | src/clients/SpokePoolClient.ts:515-674 | whatever its updates met with, a client in sync holds what one update over the chain would give, but for deposits and bridged tokens |
| SpokePoolClient.RoutesOnChain | src/clients/SpokePoolClient.ts:460-463 | a deposit route of a client in sync is truthy exactly when the last EnabledDepositRoute event for its token and chain since the deployment, up to the cursor, says enabled |
| SpokePoolClient.IndexesOnChain | src/clients/SpokePoolClient.ts:593-660 | the fills, slow fill requests, speed-ups, root bundle relays and refund executions of a client in sync are those of the chain's events up to the cursor, as logged |
| SpokeHistory.InterruptedIsIngest | src/clients/SpokePoolClient.ts:526-568 | an update that throws leaves the state of one that fetched its bridged tokens and the deposits before the throw only |
| SpokeHistory.ReplayIsRun | src/clients/SpokePoolClient.ts:515-674 | a history of updates, thrown or not, each with its own answers of the hub, leaves what a run over what was written does under any one view of the hub that derives it alike |
| SpokeHistory.FirstWritten | src/clients/SpokePoolClient.ts:555-558 | after any such history each id is stored from the first deposit of it on the chain |
| SpokeHistory.ThrowsRecord | src/clients/SpokePoolClient.ts:526-592 | the record of each deposit after any such history: that of the completed updates, except for deposits stored ahead of them and for terms that such a deposit got while ahead |
| SpokeHistory.ThrowsMatterIff | src/clients/SpokePoolClient.ts:515-674 | for retries over any windows, any number of times, the client is in the state of the completed updates alone if and only if no update threw over bridged tokens, no deposit is stored ahead, and none was when a speed-up was ingested that it would have missed |
| SpokeHistory.CaughtUpIff | src/clients/SpokePoolClient.ts:515-674 | once the completed updates have caught up with those that threw, if and only if no update threw over bridged tokens and no deposit heard early of a speed-up that it would have missed |
| SpokeHistory.CompletesIff | src/clients/SpokePoolClient.ts:526-568 | while the hub's answers stay the same, an update from the cursor completes exactly if its window ends before the block of the first deposit that throws |
| SpokeHistory.SpedUpAhead | src/clients/SpokePoolClient.ts:526-592 | a window that throws and two shorter retries that complete under the same answers, after which a deposit has a speed-up that it misses without the throw |
| SpokeHistory.RetriedAtOnce | src/clients/SpokePoolClient.ts:526-568 | from any state, an interrupted update retried at once over the same window or a longer one, with what was stored derived alike, amounts to one update but for the window's bridged tokens, which are there twice, and altogether if and only if there were none |
| SpokeHistory.BridgedTwice | src/clients/SpokePoolClient.ts:526-568 | a window and two views of the hub, the first throwing and the second completing, after which a bridged token is in the list twice |
| HubPoolTokens.RoutesIndexed | src/clients/HubPoolClient.ts:838-856 | both token indexes know the same routes; one holds each route's mappings in order, the other the last one |
| HubPoolTokens.L2AnswerIsNewest | src/clients/HubPoolClient.ts:180-202 | `getL2TokenForL1TokenAtBlock` answers from the route's mapping greatest in event order at or before the block, and throws if there is none, for routes ingested in any order and even twice; a token is enabled exactly if it has a mapping |
| HubPoolTokens.GetL1TokenForL2TokenAtBlock | src/clients/HubPoolClient.ts:205-227 | the L1 token of the newest mapping to the L2 token at or before the block, over all L1 tokens in any order of keys, for routes ingested in any order and even twice |
| HubPoolTokens.AnswersFromTheLog | src/clients/HubPoolClient.ts:180-227 | either answer is a token exactly if some route event maps the two onto each other on the chain by the block and every other one by then for the token asked about is older |
| HubPoolTokens.TokenAnswersAreFinal | src/clients/HubPoolClient.ts:180-227 | mappings of later blocks never change an answer in either direction |
| HubPoolTokens.AreTokensEquivalent | src/clients/HubPoolClient.ts:482-504 | true exactly when both tokens stand for the same L1 token, each being that token's current one on its chain; errors make it false |
| HubPoolTokens.EquivalenceOfTokens | src/clients/HubPoolClient.ts:482-504 | at each block it is symmetric, transitive, reflexive on tokens in use, and one to one between two chains |
| HubPoolTokens.EquivalenceIsFinal | src/clients/HubPoolClient.ts:482-504 | later mappings never change whether two tokens are equivalent at an earlier block |
| HubPoolTokens.CanonicalIff | src/clients/HubPoolClient.ts:497-500 | a token stands for the L1 token of its newest mapping exactly when no later mapping gave that L1 token another one on the chain |
| HubPoolTokens.L1TokenMoves | src/clients/HubPoolClient.ts:205-227 | between two blocks the L1 token of an L2 token becomes that of the newest mapping to it in between, and stays what it was if there is none |
| HubPoolTokens.L2TokenMoves | src/clients/HubPoolClient.ts:180-202 | between two blocks the L2 token of an L1 token becomes that of its newest mapping in between, and stays what it was if there is none |
| HubPoolTokens.CounterpartKeptIff | src/clients/HubPoolClient.ts:236-257 | the counterpart of a deposited token on the destination chain is the same at two blocks exactly when the newest mappings in between, if any, keep its pool or lead to one with that same counterpart |
| HubPoolTokens.CounterpartIsFinal | src/clients/HubPoolClient.ts:236-257 | mappings of later blocks never change the counterpart of a deposited token |
| HubPoolClient.HubPoolClient.QueryHub | src/clients/HubPoolClient.ts:735-801 | the queries of one update find exactly its windows, in the node's order; routes and contracts go back to the deployment until the client has been updated |
| HubPoolClient.HubPoolClient.SetContracts | src/clients/HubPoolClient.ts:820-836 | the loop groups contract updates by chain |
| HubPoolClient.HubPoolClient.SetTokens | src/clients/HubPoolClient.ts:838-856 | the loop makes both assignments for each route in order |
| HubPoolClient.HubPoolClient.PushLeaves | src/clients/HubPoolClient.ts:918-941 | the loop appends every executed leaf but those of ignored blocks |
| HubPoolClient.HubPoolClient.Update | src/clients/HubPoolClient.ts:803-986 | a completed update ingests exactly its window in the node's order, keeps a client in sync in sync if that is log order, and reports the last proposal as pending while leaves are unclaimed; it throws after writing exactly when leaves are unclaimed and no proposal is known |
| HubPoolClient.HubSyncStep | src/clients/HubPoolClient.ts:979-984 | a completed update, up to a block its node had reached, leaves nothing out and nothing in twice |
| HubPoolClient.StateFromTheLog | src/clients/HubPoolClient.ts:820-941 | a client in sync holds exactly the proposals and leaves of its blocks that it is not told to ignore, each chain's contract updates and the mappings |
| HubPoolClient.TokensAreFinal | src/clients/HubPoolClient.ts:180-227 | every token answer of a client in sync as of a searched block is that of the whole chain, at any later time |
| HubPoolClient.BundlesAreFinal | src/clients/HubPoolClient.ts:512-519 | a client in sync calls a bundle valid as of a searched block exactly when all its leaves were executed by then, and later updates never change that |
| HubPoolClient.PendingIsOutstanding | src/clients/HubPoolClient.ts:943-977 | the leaves of the bundle reported as pending are either executed or unclaimed, its proposal is the contract's, and its end blocks are those proposed, 0 where unsafe as a number |
| HubPoolOrder.ListedSyncStep | src/clients/HubPoolClient.ts:735-801 | whatever order the node lists events in, a completed update leaves nothing out and nothing in twice |
| HubPoolOrder.ListingIsImmaterial | src/clients/HubPoolClient.ts:735-941 | token and contract lookups as of a block and the leaves counted for a bundle are those of a client that took the same events in log order; the order of the proposals and of a chain's registrations is the node's |
| HubPoolOrder.ActivationAlikeIff | src/clients/HubPoolClient.ts:170-177 | the activation block of a SpokePool is the same for every order of the node if and only if all its registrations on the chain share a block |
| HubPoolOrder.FollowAlikeIff | src/clients/HubPoolClient.ts:583-593 | with one proposal per block, each bundle is followed by the right one if and only if the proposals are listed in order |
| HubPoolOrder.ListedIsJudgedRightIff | src/clients/HubPoolClient.ts:512-519 | for proposals and leaves listed in any order, the verdict on a bundle is right at every block if and only if the leaves that count for it are as many as it has with the last in the block of its own last one, or, if it is never fully executed, number as many at no block |
| HubPoolOrder.NewestProposalFirst | src/clients/HubPoolClient.ts:512-519 | a node that lists the newest proposal first makes a bundle executed in time count as invalid |
| HubPoolOrder.RetryAfterInterruption | src/clients/HubPoolClient.ts:858-977 | an update interrupted for want of a proposal writes its routes, contracts and leaves again when retried; for retries over any windows no answer as of the blocks retried differs from that without the throw, and once they have caught up none at all |
| HubPoolOrder.RetriesJoin | src/clients/HubPoolClient.ts:979-984 | retries one after the other find and leave what one over their joint window would |
| RootBundles.PendingIsLast | src/clients/HubPoolClient.ts:949-951 | the contract's pending proposal is the last one made |
| RootBundles.ListsFromTheRun | src/clients/HubPoolClient.ts:893-941 | the client's two lists are the ProposeRootBundle and RootBundleExecuted events, as logged and in order |
| RootBundles.LeavesWithinCount | src/clients/HubPoolClient.ts:943-947 | executed and unclaimed leaves of a bundle never exceed its leaf count |
| RootBundles.WindowHoldsOwnLeaves | src/clients/HubPoolClient.ts:595-608 | in every run of the protocol the leaves executed after a block with proposals, up to the next such block, are those of the last proposal in it and all of them |
| RootBundles.CountedLeaves | src/clients/HubPoolClient.ts:512-519 | what `isRootBundleValid` counts are the leaves, up to the block asked about, of the last proposal in the bundle's block |
| RootBundles.ValidMeansFullyExecuted | src/clients/HubPoolClient.ts:512-519 | for every run and every bundle that is the last proposed in its block, `isRootBundleValid(b, m)` holds exactly when every leaf of b was executed at or before block m |
| RootBundles.JudgedRightIff | src/clients/HubPoolClient.ts:512-519 | in any run `isRootBundleValid` is right about a bundle at every block if and only if it is the last proposed in its block, or the leaves of that last one at no block number exactly as many as the bundle has |
| RootBundles.FullExecutionIsFinal | src/clients/HubPoolClient.ts:512-519 | whether a bundle was fully executed by a block is settled once the log has been read up to that block |
| RootBundles.UnclaimedAreOutstanding | src/clients/HubPoolClient.ts:943-947 | while a proposal is pending, its executed and unclaimed leaves add up to its leaf count |
| RootBundles.TwoProposalsInOneBlock | src/clients/HubPoolClient.ts:583-593 | a run in which a disputed bundle passes as fully executed because another was proposed in its block |
| BundleQueries.ValidFromCompletion | src/clients/HubPoolClient.ts:512-519 | a bundle is valid from the block of its last leaf on, after its own proposal and no later than the next |
| BundleQueries.GetNthFullyExecutedRootBundle | src/clients/HubPoolClient.ts:646-681 | both loops equal the recursive walks forwards and backwards; an error exactly for n = 0 or a client not updated |
| BundleQueries.NthForward | src/clients/HubPoolClient.ts:668-678 | positive n steps through the validated bundles one by one from the start block, then gives undefined, then starts over from the first |
| BundleQueries.NthFromFront | src/clients/HubPoolClient.ts:668-678 | for 1 <= n <= their number it is the n-th validated bundle |
| BundleQueries.NthWrapsAround | src/clients/HubPoolClient.ts:668-678 | one past the last is undefined and two past the last is the first bundle again |
| BundleQueries.NthBackward | src/clients/HubPoolClient.ts:658-667 | negative n counts from the end as long as each bundle passed was completed before the block of its successor's proposal |
| BundleQueries.BackwardIndex | src/clients/HubPoolClient.ts:658-667 | the n-th turn backwards is never less than n bundles from the end, and a skipped bundle is never caught up with |
| BundleQueries.NthFromBackIff | src/clients/HubPoolClient.ts:658-667 | for each n within the list, negative n gives the n-th validated bundle from the end if and only if no bundle passed was completed in the block of its successor's proposal, and past the list undefined |
| BundleQueries.FoundBefore | src/clients/HubPoolClient.ts:619-628 | the latest fully executed bundle before a bundle's block is in the validated list, at or before its predecessor |
| BundleQueries.GetRootBundleEvalBlockNumberContainingBlock | src/clients/HubPoolClient.ts:523-557 | the backwards loop with its early exit equals the scan over the end blocks of the bundles completed before the next proposal or, for the last one, by the latest block |
| BundleQueries.ScannedBundles | src/clients/HubPoolClient.ts:523-557 | the bundles scanned are those fully executed as of the latest block and, beyond the validated list, those completed later but followed by another proposal |
| BundleQueries.EvalBlockIsLeastEnd | src/clients/HubPoolClient.ts:523-557 | in any run whose scanned bundles have non-decreasing end blocks for the chain, it returns the least such end block at or past the block, and undefined exactly when there is none |
| BundleQueries.EvalAnswerMovesIff | src/clients/HubPoolClient.ts:523-557 | asked as of a block, a defined answer never moves as the log grows, and an undefined one moves if and only if a bundle completed after that block and followed by another proposal ends at or past the block asked about |
| BundleQueries.AnswerMoves | src/clients/HubPoolClient.ts:523-557 | a run of the protocol in which an undefined answer as of block 7 becomes defined |
| BundleQueries.ScanFindsLeast | src/clients/HubPoolClient.ts:523-557 | on end blocks that do not decrease, the scan with its early exit finds the least one at or past the block, and nothing exactly when there is none |
| BundleUtils.BlockForChainIsEndBlock | src/utils/BundleUtils.ts:15-29 | `getBlockForChain` is the number at the chain's first place in the list, and an error if there is none; the HubPool client's lookup agrees but for returning 0 where it throws |
| BundleUtils.ImpliedRanges | src/utils/BundleUtils.ts:60-109 | each chain that is listed, and not disabled, as of the predecessor's mainnet end block gets the blocks from one past the predecessor's end to its own, every other one its end block alone; it throws exactly if such a chain does not get ahead or the predecessor's list is empty |
| BundleUtils.PredecessorIsPrevious | src/utils/BundleUtils.ts:65-67 | the predecessor of a fully executed bundle is the fully executed bundle just before it |
| BundleUtils.RangesAbut | src/utils/BundleUtils.ts:60-109 | the first range of a chain that takes part in every bundle starts at 0 and each later one right after the previous bundle's end |
| BundleUtils.RangesTile | src/utils/BundleUtils.ts:60-109 | these ranges cover every block up to the last end, each exactly once |
| BundleUtils.NextStartIsImpliedStart | src/clients/HubPoolClient.ts:683-704 | the start block a proposer computes is the one its bundle is later read to have |
| ConfigStore.ReplayConcat | src/clients/AcrossConfigStoreClient/AcrossConfigStoreClient.ts:431-553 | replaying window after window is replaying the whole log |
| ConfigStore.ReplayInvariant | src/clients/AcrossConfigStoreClient/AcrossConfigStoreClient.ts:477-515 | in every reachable state accepted chain lists are free of duplicates, each extends the previous one, and all lists are in log order |
| ConfigStore.ChainListsArePrefixes | src/clients/AcrossConfigStoreClient/AcrossConfigStoreClient.ts:148-157 | the chain list at a block has no duplicates and is a prefix of the list at any later block |
| ConfigStore.EndBlockIsStable | src/clients/HubPoolClient.ts:992-1009 | a bundle's end block for a chain already listed is the same under any later list |
| ConfigStore.AnswersAreFinal | src/clients/AcrossConfigStoreClient/AcrossConfigStoreClient.ts:148-157 | chain lists and disabled chains as of a searched block survive every later update |
| ConfigStore.VersionIsHighest | src/clients/AcrossConfigStoreClient/AcrossConfigStoreClient.ts:520-542 | the version at a block is the highest integer version published by then, and only increments are accepted |
| ConfigHistory.ChainListFromTheLog | src/clients/AcrossConfigStoreClient/AcrossConfigStoreClient.ts:148-157 | the chain list as of a block is the one in force after the events up to it: that of the last published list of distinct positive integers that starts with the one in force before, or the implicit list |
| ConfigHistory.LastExtension | src/clients/AcrossConfigStoreClient/AcrossConfigStoreClient.ts:477-515 | no valid extension is dropped and nothing else is taken: the list in force is that of the last event which extends the list before it |
| ConfigHistory.DisabledFromTheLog | src/clients/AcrossConfigStoreClient/AcrossConfigStoreClient.ts:272-279 | the disabled chains as of a block are those of the last parsed list by then, less chain 1 and non-integers |
| ConfigHistory.LiteChainsFromTheLog | src/clients/AcrossConfigStoreClient/AcrossConfigStoreClient.ts:176-191 | a chain is a lite chain as of a time exactly if the last list of distinct positive integers written by then has it |
| ConfigStoreClient.GetEnabledChainsInBlockRange | src/clients/AcrossConfigStoreClient/AcrossConfigStoreClient.ts:234-262 | the chains listed at `to`, in list order, that are not disabled at `from` or are left out by some update in the range; an error exactly for an empty range |
| ConfigStoreClient.EnabledSometimeIff | src/clients/AcrossConfigStoreClient/AcrossConfigStoreClient.ts:234-279 | a chain is off the disabled list at some block of the range exactly when it is at the first block or some update in the range that closes its block leaves it out |
| ConfigStoreClient.LookupIsRightIff | src/clients/AcrossConfigStoreClient/AcrossConfigStoreClient.ts:234-279 | the lookup is right about a chain exactly unless the chain is disabled at the first block and all updates in the range that leave it out are superseded in their own block |
| ConfigStoreClient.EnabledOverRange | src/clients/AcrossConfigStoreClient/AcrossConfigStoreClient.ts:234-279 | in any reachable configuration the lookup returns exactly the listed chains that were off the disabled list at some block of the range, if and only if no listed chain is hidden in a block; with one update per block none is |
| ConfigStoreClient.TwoUpdatesInOneBlock | src/clients/AcrossConfigStoreClient/AcrossConfigStoreClient.ts:249-258 | the replay of a log of three updates, in which a chain disabled at every block of the range counts as enabled |
| ConfigStoreClient.AcrossConfigStoreClient.ApplyEvents | src/clients/AcrossConfigStoreClient/AcrossConfigStoreClient.ts:431-553 | the loop over global config events equals the replay of them |
| ConfigStoreClient.AcrossConfigStoreClient.Update | src/clients/AcrossConfigStoreClient/AcrossConfigStoreClient.ts:340-565 | a completed update replays exactly the events of its window and moves the cursor past it, anything else changes nothing, and a client that has replayed the log up to its cursor stays so |
| HubPoolFees.ResolveTokens | src/clients/HubPoolClient.ts:348-370 | the first pass resolves every deposit's token or throws, and its tables hold all that the deposits need and nothing else |
| HubPoolFees.ResolveUtilizations | src/clients/HubPoolClient.ts:381-397 | the utilization table has an entry for each token at each of its quote blocks |
| HubPoolFees.BatchComputeRealizedLpFeePct | src/clients/HubPoolClient.ts:334-452 | the batch succeeds exactly when all that each deposit needs is known; result i has the quote block of deposit i and is 0 without a payment chain, and else the weekly fee for the APY between its pool's utilizations at that block before and after the deposit's amount, on its route's rate model; every table lookup is defined |
| HubPoolFees.ComputeRealizedLpFeePct | src/clients/HubPoolClient.ts:329-332 | a batch of one succeeds and is priced in the same way |
| HubPoolFees.FeeIsPriced | src/clients/HubPoolClient.ts:400-440 | a deposit has a fee exactly if its pool, quote block, utilizations and rate model are known, and it is the weekly fee for an APY within the exact rates at both ends |
| HubPoolFees.PricedOnce | src/clients/HubPoolClient.ts:400-440 | there is one such fee |
| HubPoolFees.PricedAtTheLatestMapping | src/clients/HubPoolClient.ts:350-363 | a token remapped after the quote block is priced as its new pool |
| HubPoolFees.PricedAsQuotedIff | src/clients/HubPoolClient.ts:350-363 | the pool at the quote block is used exactly when the newest mapping since then, if any, still names it |
| BlockUtils.WithBlockKeepsCache | src/utils/BlockUtils.ts:161-181 | inserting a received block keeps the cache strictly sorted and free of duplicates, and adds that block only |
| BlockUtils.BlockFinder.Receive | src/utils/BlockUtils.ts:169-181 | the splice after an await, with its second duplicate check, keeps the cache valid and everything in it |
| BlockUtils.BlockFinder.Await | src/utils/BlockUtils.ts:161-181 | any number of other calls resuming at an await keep the cache valid and only let it grow |
| BlockUtils.BlockFinder.GetLatestBlock | src/utils/BlockUtils.ts:161-166 | under interleaving, a head seen during the call, now cached |
| BlockUtils.BlockFinder.GetBlock | src/utils/BlockUtils.ts:169-181 | under interleaving, the block of that number, now cached |
| BlockUtils.BlockFinder.FindBlock | src/utils/BlockUtils.ts:186-217 | for any interpolation and interleaving it terminates, none of its assertions fires, its bounds are still cached when it resumes, and it returns the first block it looks at that carries the timestamp, or else an earlier one |
| BlockUtils.BlockFinder.FindFloor | src/utils/BlockUtils.ts:132-153 | the backwards search terminates for any estimate and finds a floor exactly when block 0 is not after the timestamp |
| BlockUtils.BlockFinder.GetBlockForTimestamp | src/utils/BlockUtils.ts:114-158 | it throws exactly for timestamps before block 0; otherwise it returns the head it saw, if at or before the timestamp, or the latest block at or before it up to blocks sharing that timestamp; of these it returns the first it looks at in its cache and interpolation, which is the latest if and only if no later block carries the timestamp too, and never if another one was cached before the call |
| BlockUtils.AnswerIsLatest | src/utils/BlockUtils.ts:109-114 | where at most one block carries the timestamp, so wherever timestamps strictly increase, the answer is the latest block at or before the timestamp |
| BlockUtils.SharedTimestampAnswersEarly | src/utils/BlockUtils.ts:109-158 | a cache and a timestamp for which the answer is not the latest |
| BlockUtils.InterpolationDecides | src/utils/BlockUtils.ts:186-217 | with neither of two blocks that share the timestamp cached, the answer is the one that the interpolation hits |
| SpokeUtils.GetBlockRangeForDepositId | src/utils/SpokeUtils.ts:72-196 | it succeeds exactly when its checks pass; the block of the deposit is within the range, which is one block or halved maxSearches + 1 times; the final error is unreachable |
| SpokeUtils.NarrowRange | src/utils/SpokeUtils.ts:154-186 | the loop keeps the least block that counts past the target inside the range and runs up to maxSearches + 1 times |
| SpokeUtils.DepositBlockExists | src/utils/SpokeUtils.ts:154-195 | a range that ends past the target and starts at or below it holds the target's block |
| SpokeUtils.FindFillBlock | src/utils/SpokeUtils.ts:318-372 | the least filled block in the range for a status that stays filled; undefined exactly when unfilled at the end; an error when filled at the start |
| CachingUtils.DepositCache.SetDepositInCache | src/utils/CachingUtils.ts:26-46 | deposits quoted in the future or too recently are not cached; times without ten digits throw; anything else is stored under its own key |
| CachingUtils.TenDigits | src/utils/CachingUtils.ts:9-13 | the range that passes for seconds is that of numbers with ten digits |
| CachingUtils.ReachableEntries | src/utils/CachingUtils.ts:26-56 | in every reachable cache each deposit is under its own key and was stored by someone, when the hub had been searched up to some block |
| DepositSearch.FindDeposit | src/clients/SpokePoolClient.ts:783-858 | a result is the chain's deposit with that id, destination and depositor, every field as logged, with an open output token as the hub maps it now; for deposits made after the deployment block and searched, the bounded search never cuts one off, in whatever order the node lists events |
| DepositSearch.FoundFromEvent | src/clients/SpokePoolClient.ts:828-848 | a deposit found is as logged, field by field, and is found exactly if it can be priced and its output token is known now |
| DepositSearch.DepositOfIsUnique | src/clients/SpokePoolClient.ts:828-848 | an event makes one deposit as of a block, speed-ups aside: nothing about it is left open |
| DepositSearch.SeenMatches | src/utils/FlowUtils.ts:35-48 | a derived deposit validates exactly the fills whose relay hash is that of the logged relay data with the output token filled in |
| DepositSearch.SeenAlikeIff | src/clients/SpokePoolClient.ts:838-846 | two ways to derive a deposit, at its quote block or as of some block of the hub, give the same exactly when its output token is explicit or has the same mapping in both |
| DepositSearch.VerdictsAgreeIff | src/utils/DepositUtils.ts:63-115 | two ways to derive deposits give the same verdict on every fill of an id exactly when the output token of that deposit is the same in both |
| DepositSearch.TokenIsKeptByRoutesIff | src/clients/HubPoolClient.ts:236-257 | an open output token is the same at two blocks exactly when the routes set in between keep it: the newest of the input token and the newest of that pool on the destination chain |
| DepositBuffer.InSyncBuffers | src/clients/SpokePoolClient.ts:532-568 | a client in sync, whatever throws it had, holds the deposits of a first part of the chain that goes at least up to its cursor |
| DepositBuffer.CompletedBuffers | src/clients/SpokePoolClient.ts:532-568 | a completed update, also after one that threw, carries that part up to its new cursor |
| DepositBuffer.InterruptedBuffers | src/clients/SpokePoolClient.ts:526-568 | after an update that throws, the client holds a first part of the chain's deposits that goes at least up to its cursor |
| DepositBuffer.GrowingHubDerivesAlike | src/clients/SpokePoolClient.ts:545-553 | what an update wrote is derived alike by a hub that has gone on since, if its routes are of blocks after the quote blocks |
| DepositBuffer.BufferedIdsAreInPart | src/clients/SpokePoolClient.ts:560-565 | a deposit with an id between the bounds of the buffer is in the part of the chain that the client holds |
| DepositBuffer.BufferedDeposit | src/clients/SpokePoolClient.ts:269-272 | an id between the bounds is in the buffer exactly when the chain has a deposit of it that can be derived; it is stored as logged, and matches exactly the fills with the hash of the logged relay data |
| DepositBuffer.DepositForFillIff | src/clients/SpokePoolClient.ts:300-303 | `getDepositForFill` answers exactly when the chain logged a deposit with the fill's id and relay hash, and with that deposit |
| DepositUtils.ReachableIsFaithful | src/utils/CachingUtils.ts:26-56 | a cache shared by clients that store only what they found, each with the hub as it was then, holds under each key a deposit that the chain had as of some time up to now |
| DepositUtils.CacheHit | src/utils/DepositUtils.ts:78-98 | a cached deposit under a fill's key matches the fill, and the chain held it as of some time up to now |
| DepositUtils.FindInCacheOrOnChain | src/utils/DepositUtils.ts:77-104 | a cached deposit means that the chain held one when it was stored, a search decides the fill as the chain does now, and the cache stays faithful |
| DepositUtils.QueryHistoricalDepositForFill | src/utils/DepositUtils.ts:38-115 | whenever it returns for an id inside the bounds, found is true exactly when the chain logged a deposit with that id whose relay data has the fill's hash, with an open output token as of the quote block in the buffer, as of now on chain and as of when it was stored in the cache; the deposit is as logged; it returns whenever the fill's deposit can be searched; for every cache reached while the hub went on and every client that holds a first part of the chain |
| DepositUtils.ClientBuffers | src/clients/SpokePoolClient.ts:515-674 | every client that asked for all there is holds such a part, after any updates that completed or threw |
| DepositUtils.InvalidIdsAreOutside | src/utils/DepositUtils.ts:55-63 | no deposit made after the deployment block and up to the last searched one has an id that is rejected as out of bounds |
| DepositUtils.IdsInsideWereDeposited | src/utils/DepositUtils.ts:55-63 | and every id inside the bounds was deposited in one of these blocks |
| DepositUtils.CacheAgreesIff | src/utils/DepositUtils.ts:77-104 | a cached deposit answers its fill as a search on chain would now exactly when its output token is explicit or has kept its mapping since it was stored |
| DepositUtils.RemappedSinceCached | src/utils/DepositUtils.ts:77-104 | a reachable cache and a fill that it validates after a remapping, when a search on chain rejects it |
| DepositUtils.RemappedOutputToken | src/clients/SpokePoolClient.ts:838-846 | a deposit and a fill that is valid for it in the buffer and invalid when found on chain |
| LpFeeCalculator.AreaIsIntegral | src/lpFeeCalculator/lpFeeCalculator.ts:39-66 | the exact area grows, over any interval, by between the exact rates at its two ends |
| LpFeeCalculator.AreaError | src/lpFeeCalculator/lpFeeCalculator.ts:44-66 | the computed area is never above the exact one and less than 4.5 wei below it |
| LpFeeCalculator.AreaMonotone | src/lpFeeCalculator/lpFeeCalculator.ts:44-66 | the computed area is non-negative and does not decrease with utilization |
| LpFeeCalculator.RateMonotone | src/lpFeeCalculator/lpFeeCalculator.ts:73-85 | the computed rate starts at R0 and does not decrease with utilization |
| LpFeeCalculator.RateError | src/lpFeeCalculator/lpFeeCalculator.ts:73-85 | the computed rate is the exact rate rounded down |
| LpFeeCalculator.ApyBetweenRates | src/lpFeeCalculator/lpFeeCalculator.ts:111-122 | the realized APY is non-negative and within 4.5e18/(after - before) + 1 of the interval between the exact rates at the two ends, and the exact rate rounded down where these coincide |
| LpFeeCalculator.ApySymmetric | src/lpFeeCalculator/lpFeeCalculator.ts:111-122 | the order of the two utilizations does not matter |
| LpFeeCalculator.KinkAtZeroIsNoCurve | src/lpFeeCalculator/lpFeeCalculator.ts:73-85 | with the kink at 0 the rate at full utilization lacks R1 and the area lacks half of it |
| RelayFeeCalculator.FeeFollowsCurve | src/relayFeeCalculator/relayFeeCalculator.ts:273-327 | for a non-negative cutoff the capital fee is below the exact kinked curve by less than 3e18/y + s/2e18 + 3/2, and never above it, or above by less than 1e18/y + 1 if the lower bound is negative |
| RelayFeeCalculator.FeeWithinBounds | src/relayFeeCalculator/relayFeeCalculator.ts:273-327 | for every validated config the fee is above lowerBound - 1e18/y - 1 and exceeds upperBound by at most 1/y of the excess of a negative cutoff, plus 1e18/y + 1 for a negative lower bound; an amount that outweighs both respects a non-negative upperBound |
| RelayFeeCalculator.WholeTokensWithinBoundIff | src/relayFeeCalculator/relayFeeCalculator.ts:192-196 | all amounts of at least one whole token respect upperBound if and only if rise times negative cutoff is below 1e18, for every validated config with a non-negative lower bound, or whose upperBound and cutoff are not negative, or where that product is 1e18 or more |
| RelayFeeCalculator.NegativeCutoffTriples | src/relayFeeCalculator/relayFeeCalculator.ts:192-196 | a validated config that charges three times its upperBound |
| RelayFeeCalculator.NegativeLowerBoundRoundsUp | src/relayFeeCalculator/relayFeeCalculator.ts:273-327 | a validated config with both bounds at -1 that charges 0 |
| RelayFeeCalculator.TooLowMeansOverLimit | src/relayFeeCalculator/relayFeeCalculator.ts:368-395 | for every validated config, if the amount is not too low, gas and capital fee exceed the limit by less than one token unit, or by that and the room a negative capital fee makes; if it is, they fall short of it by less than one |
| RelayFeeCalculator.DetailsAddUp | src/relayFeeCalculator/relayFeeCalculator.ts:368-395 | gas percentage, totals and their sums are the rounded quotients they stand for, the gas fee may take what the capital fee leaves of the limit, and the minimum deposit is the amount of which that pays for the gas, rounded down |
| RelayFeeCalculator.GasFeeCoversGas | src/relayFeeCalculator/relayFeeCalculator.ts:267-268 | the gas fee charged is the gas cost rounded down, by less than one unit and one more for each 1e18 relayed |
| RelayFeeCalculator.ZeroAmountTooLow | src/relayFeeCalculator/relayFeeCalculator.ts:279-280 | a zero amount is too low exactly under fee limits up to MAX_BIG_INT, which is below 1% |

## Left out

- RelayFeeCalculator.FeeFollowsCurve: under a negative cutoff there is no curve to follow; FeeWithinBounds and WholeTokensWithinBoundIff cover these configs.
- RelayFeeCalculator.WholeTokensWithinBoundIff: not for a negative lower bound together with a negative upper bound or cutoff and a product below 1e18, where it depends on how the truncations fall for each amount; FeeWithinBounds gives the rounding that can exceed upperBound there, and covers amounts below one whole token.
- LpFeeCalculator.AreaError: for non-negative rates. A kink at exactly 100% is excluded, as the code then divides by zero, and so is a kink at 0 with R1 > 0, which KinkAtZeroIsNoCurve is about.
- BundleUtils.RangesAbut: for a chain that is enabled in every bundle from some bundle on; a chain disabled for a while gets single-block ranges and no claim is made about it.
- RootBundles.ValidMeansFullyExecuted: for bundles that are the last proposed in their block; JudgedRightIff says when the others are judged rightly too.
- HubPoolClient.HubPoolClient.Update: for the default list of events, and without two checks of it, on the length of running balances and on token decimals; these throw on immutable events, so a client that meets one cannot be updated again. Token info, LP token info, cancelled and disputed bundles are not stored.
- SpokePoolClient.SpokePoolClient.Update: nested dictionaries are maps with compound keys, held in one record field, so aliasing between the client's lists and its callers is not modelled.
- RPC, ethers contracts, ABI decoding, multicalls, node failures other than failed queries, and chain reorganisations.
- keccak256 of relay data: a parameter, assumed injective only where a lemma says so.
- The HubPool and ConfigStore clients' answers to a SpokePool client: one view for each update, from which theorems about several updates ask that it derives what was written alike (GrowingHubDerivesAlike says when).
- Promise.all and mapAsync: sequential, except in BlockFinder, where other calls interleave at every await.
- JSON, regular expressions and the cache's serialisation: values arrive parsed, or as malformed.
- `convertApyToWeeklyFee` and its truncation: a parameter, as its fractional powers come from a decimal library that is not part of this model.
- The BlockFinder's estimates of blocks elapsed: arbitrary integers; its interpolation: an arbitrary function of two blocks and the timestamp.
- `getCachedBlockForTimestamp` and the external utilization cache: they answer what the chain would, or throw.
- Route-dependent overrides of the capital cost config, token prices and gas estimation: the config of the route and the gas cost are inputs.
- `getExecutedRefundLeafL2Token`, running balances, rate model dictionaries, token transfer thresholds, refund leaf limits, lite chain lookups beyond their list: they would add easy members only.
