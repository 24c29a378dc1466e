/**
 Looking up the deposit of a fill in the client's buffer, in the external cache or on chain
 (src/utils/DepositUtils.ts), and when the three agree.
 */
module DepositUtils {
  import opened Wrappers
  import opened Numbers
  import opened Sequences
  import opened EventUtils
  import opened SpokePool
  import opened SpokeIndexes
  import opened SpokeHistory
  import opened CachingUtils
  import opened DepositSearch
  import opened DepositBuffer
  import SpokeUtils
  import Client = SpokePoolClient

  // ---------- the cache and the chain ----------

  /** A deposit of the chain as logged, its output token read when the hub had been searched up to `hubBlock`. */
  ghost predicate IsFound(cfg: SpokeConfig, log: Log, d: Deposit, hubBlock: nat) {
    d.updated == None && exists e :: e in log && IsDepositOf(cfg, e, hubBlock, d)
  }

  /**
   The cache's deposits of this chain are under their own keys and were found on the chain, each when the hub had been
   searched up to some block, not past the latest one.
   */
  ghost predicate Faithful(cfg: SpokeConfig, log: Log, hubBlock: nat, entries: Entries) {
    forall k :: k in entries && entries[k].Cached? ==>
      && KeyOfDeposit(cfg.hash, entries[k].deposit) == k
      && (k.originChainId == cfg.chainId ==>
            exists time: nat :: time <= hubBlock && IsFound(cfg, log, entries[k].deposit, time))
  }

  /** A cache stays faithful while the hub goes on, if every client only ever stores what it found. */
  lemma ReachableIsFaithful(cfg: SpokeConfig, log: Log, hubBlock: nat, run: seq<CacheStep>)
    requires forall d: Deposit, time: nat :: Store(d, time) in run && d.relay.originChainId == cfg.chainId ==>
               time <= hubBlock && IsFound(cfg, log, d, time)
    ensures Faithful(cfg, log, hubBlock, CacheAfter(cfg.hash, run))
  {
    var entries := CacheAfter(cfg.hash, run);
    forall k | k in entries && entries[k].Cached?
      ensures KeyOfDeposit(cfg.hash, entries[k].deposit) == k
      ensures k.originChainId == cfg.chainId ==>
                exists time: nat :: time <= hubBlock && IsFound(cfg, log, entries[k].deposit, time)
    {
      var time := ReachableEntries(cfg.hash, run, k);
    }
  }

  predicate IsHit(entries: Entries, key: CacheKey) {
    key in entries && entries[key].Cached?
  }

  /** The chain held a deposit for the fill, the way the hub saw it at some time up to `hubBlock`. */
  ghost predicate ChainHeld(cfg: SpokeConfig, log: Log, fill: Fill, hubBlock: nat) {
    exists time: nat :: time <= hubBlock && ChainHolds(cfg, log, fill, AtHub(time))
  }

  /** A cached deposit answers a fill with its key: it was the chain's, and matches. */
  lemma CacheHit(cfg: SpokeConfig, log: Log, hubBlock: nat, entries: Entries, fill: Fill)
    requires Faithful(cfg, log, hubBlock, entries) && fill.relay.originChainId == cfg.chainId
    requires IsHit(entries, KeyOfFill(cfg.hash, fill))
    ensures var d := entries[KeyOfFill(cfg.hash, fill)].deposit;
            && d.relay.depositId == fill.relay.depositId
            && ValidateFillForDeposit(cfg.hash, fill, Some(d)) && ChainHeld(cfg, log, fill, hubBlock)
  {
    var d := entries[KeyOfFill(cfg.hash, fill)].deposit;
    assert KeyOfDeposit(cfg.hash, d) == KeyOfFill(cfg.hash, fill);
    var time: nat :| time <= hubBlock && IsFound(cfg, log, d, time);
    var e :| e in log && IsDepositOf(cfg, e, time, d);
    assert Matches(cfg, e, fill, AtHub(time));
  }

  /** A deposit found on chain decides the fill. */
  lemma FoundDecides(cfg: SpokeConfig, log: Log, count: SpokeUtils.Counts, hubBlock: nat, fill: Fill, d: Deposit)
    requires IsSpokeChain(log, count) && d.relay.depositId == fill.relay.depositId && IsFound(cfg, log, d, hubBlock)
    ensures ValidateFillForDeposit(cfg.hash, fill, Some(d)) <==> ChainHolds(cfg, log, fill, AtHub(hubBlock))
  {
    var e :| e in log && IsDepositOf(cfg, e, hubBlock, d);
    HoldsIffMatches(cfg, log, count, e, fill, AtHub(hubBlock));
  }

  lemma StoredKeepsFaith(cfg: SpokeConfig, log: Log, hubBlock: nat, entries: Entries, d: Deposit)
    requires Faithful(cfg, log, hubBlock, entries) && IsFound(cfg, log, d, hubBlock)
    ensures Faithful(cfg, log, hubBlock, entries[KeyOfDeposit(cfg.hash, d) := Cached(d)])
  {
  }

  /** What the node answers, and what the clocks say. */
  datatype Surroundings = Surroundings(
    log: Log, count: SpokeUtils.Counts, outage: nat -> bool, order: Listing<SpokeEvent>, now: nat, later: nat)
  {
    ghost predicate Valid() {
      IsSpokeChain(log, count) && IsListing(order)
    }
  }

  /** The deposit is as logged, its output token read as of the quote block, of when it was stored, or of now. */
  ghost predicate IsFromChain(cfg: SpokeConfig, log: Log, hubBlock: nat, inBuffer: bool, isHit: bool, d: Deposit) {
    if inBuffer then exists e :: e in log && IsDepositOf(cfg, e, d.quoteBlockNumber, d)
    else if isHit then exists time: nat :: time <= hubBlock && IsFound(cfg, log, d, time)
    else IsFound(cfg, log, d, hubBlock)
  }

  /**
   The fill's deposit was made in a block that the client has searched, the node answers, and the hub knows what the deposit
   needs; with a cache to store it in, times are in seconds.
   */
  predicate CanBeSearched(cfg: SpokeConfig, client: SpokeUtils.ClientBounds, lookBack: Option<int>, fill: Fill,
                          e: Event<SpokeEvent>, hubBlock: nat, env: Surroundings, caches: bool)
  {
    && IsAskedFor(e, fill.relay.depositId, fill.destinationChainId, fill.relay.depositor)
    && client.isUpdated && 0 <= client.deploymentBlock < e.pos.block <= client.latestBlockSearched
    && (lookBack.None? || lookBack.value >= 0) && !env.outage(0)
    && CanBeFound(cfg, e, hubBlock)
    && (caches ==> Digits(e.args.quoteTimestamp) == 10 && Digits(env.now) == 10)
  }

  /** The path past the buffer: the cache if it has the deposit, the chain otherwise. */
  method FindInCacheOrOnChain(cfg: SpokeConfig, hubBlock: nat, client: SpokeUtils.ClientBounds, lookBack: Option<int>,
                              fill: Fill, cache: DepositCache?, env: Surroundings)
    returns (r: Result<Deposit>)
    requires env.Valid() && fill.relay.originChainId == cfg.chainId
    requires cache != null ==> Faithful(cfg, env.log, hubBlock, cache.entries)
    modifies if cache == null then {} else {cache}
    ensures cache != null ==> Faithful(cfg, env.log, hubBlock, cache.entries)
    ensures r.Success? ==>
              && r.value.relay.depositId == fill.relay.depositId
              && IsFromChain(cfg, env.log, hubBlock, false,
                             cache != null && old(IsHit(cache.entries, KeyOfFill(cfg.hash, fill))), r.value)
              && if cache != null && old(IsHit(cache.entries, KeyOfFill(cfg.hash, fill)))
                 then ValidateFillForDeposit(cfg.hash, fill, Some(r.value)) && ChainHeld(cfg, env.log, fill, hubBlock)
                 else ValidateFillForDeposit(cfg.hash, fill, Some(r.value))
                      <==> ChainHolds(cfg, env.log, fill, AtHub(hubBlock))
    ensures (exists e :: e in env.log && CanBeSearched(cfg, client, lookBack, fill, e, hubBlock, env, cache != null)) ==>
              r.Success?
  {
    if cache != null {
      var cached := cache.GetDepositInCache(KeyOfFill(cfg.hash, fill));
      if cached.Some? && cached.value.Cached? {
        CacheHit(cfg, env.log, hubBlock, cache.entries, fill);
        return Success(cached.value.deposit);
      }
    }
    r := FindDeposit(cfg, hubBlock, client, lookBack, env.log, env.count, fill.relay.depositId, fill.destinationChainId,
                     fill.relay.depositor, env.outage, env.order);
    if r.Failure? {
      return;
    }
    assert IsFound(cfg, env.log, r.value, hubBlock);
    FoundDecides(cfg, env.log, env.count, hubBlock, fill, r.value);
    if cache != null {
      StoredKeepsFaith(cfg, env.log, hubBlock, cache.entries, r.value);
      var stored := cache.SetDepositInCache(cfg.hash, r.value, env.now, env.later, DEFAULT_CACHING_SAFE_LAG);
      if stored.Failure? {
        return Failure(stored.error);
      }
    }
  }

  // ---------- the three paths together ----------

  datatype InvalidFill = DepositIdInvalid | DepositIdNotFound | FillMismatch

  datatype DepositSearchResult = Found(deposit: Deposit) | NotFound(code: InvalidFill)

  /**
   The verdict on a fill with an id inside the SpokePool's bounds. In the buffer, and past it without a cached deposit,
   it is the chain's; a cached deposit means that the chain held one when it was stored.
   */
  ghost predicate IsVerdict(cfg: SpokeConfig, log: Log, hubBlock: nat, fill: Fill, inBuffer: bool, isHit: bool, found: bool) {
    if inBuffer then found <==> ChainHolds(cfg, log, fill, AtQuote)
    else if isHit then found && ChainHeld(cfg, log, fill, hubBlock)
    else found <==> ChainHolds(cfg, log, fill, AtHub(hubBlock))
  }

  /** A client that asked for all there is, whatever its updates met with, holds a first part of the chain's deposits. */
  lemma ClientBuffers(client: Client.SpokePoolClient, hub: HubView, log: Log)
    requires client.Valid() && client.InSyncWith(log) && DerivedAlike(client.Config(hub), client.history)
    ensures Buffers(client.Config(hub), log, client.fromBlock, client.base.firstBlockToSearch, client.indexes)
  {
    InSyncBuffers(client.Config(hub), log, client.deploymentBlock, client.fromBlock, client.history,
                  client.base.firstBlockToSearch);
  }

  /** The path through the buffer. */
  method FindInBuffer(cfg: SpokeConfig, fromBlock: nat, cursor: nat, st: Indexes, fill: Fill, env: Surroundings)
    returns (r: DepositSearchResult)
    requires env.Valid() && fill.relay.originChainId == cfg.chainId
    requires Buffers(cfg, env.log, fromBlock, cursor, st)
    requires st.earliestDepositIdQueried <= fill.relay.depositId <= st.latestDepositIdQueried
    ensures r.Found? <==> ChainHolds(cfg, env.log, fill, AtQuote)
    ensures r.Found? ==>
              && r.deposit.relay.depositId == fill.relay.depositId
              && cfg.hash(fill.relay, fill.destinationChainId) == cfg.hash(r.deposit.relay, r.deposit.destinationChainId)
              && exists e :: e in env.log && IsDepositOf(cfg, e, r.deposit.quoteBlockNumber, r.deposit)
    ensures r != NotFound(DepositIdInvalid)
    ensures r == NotFound(DepositIdNotFound) <==>
              forall e :: e in env.log && IsDeposit(e, fill.relay.depositId) ==> !CanBeDerived(cfg, e)
  {
    BufferedDeposit(cfg, env.log, env.count, fromBlock, cursor, st, fill);
    hide Buffers, CanBeDerived, ChainHolds;
    var k := DepositKey(fill.relay.depositId, cfg.chainId);
    if k !in st.deposits {
      return NotFound(DepositIdNotFound);
    }
    if ValidateFillForDeposit(cfg.hash, fill, Some(st.deposits[k])) {
      return Found(st.deposits[k]);
    }
    return NotFound(FillMismatch);
  }

  /**
   `queryHistoricalDepositForFill`, for any client that holds a first part of the chain's deposits, as every client in
   sync does, interrupted or not (`ClientBuffers`).
   Whenever it returns for an id inside the SpokePool's bounds, the deposit is found exactly when the origin chain holds
   one with that id and the fill's relay hash, with an output token left open read from the mapping that the path goes
   by: as of the quote block in the buffer, as of now on chain, and as of when it was stored in the cache.
   */
  method QueryHistoricalDepositForFill(client: Client.SpokePoolClient, hub: HubView, hubBlock: nat, fill: Fill,
                                       cache: DepositCache?, env: Surroundings)
    returns (r: Result<DepositSearchResult>)
    requires env.Valid()
    requires Buffers(client.Config(hub), env.log, client.fromBlock, client.base.firstBlockToSearch, client.indexes)
    requires cache != null ==> Faithful(client.Config(hub), env.log, hubBlock, cache.entries)
    modifies if cache == null then {} else {cache}
    ensures cache != null ==> Faithful(client.Config(hub), env.log, hubBlock, cache.entries)
    ensures fill.relay.originChainId != client.chainId || !client.base.isUpdated ==> r.Failure?
    ensures r.Success? ==>
              var (id, pool, st) := (fill.relay.depositId, client.pool, client.indexes);
              var inBuffer := st.earliestDepositIdQueried <= id <= st.latestDepositIdQueried;
              var isHit := cache != null && old(IsHit(cache.entries, KeyOfFill(client.hash, fill)));
              if id < pool.firstDepositIdForSpokePool || id > pool.lastDepositIdForSpokePool
              then r.value == NotFound(DepositIdInvalid)
              else IsVerdict(client.Config(hub), env.log, hubBlock, fill, inBuffer, isHit, r.value.Found?)
    ensures r.Success? && r.value.Found? ==>
              var (d, cfg) := (r.value.deposit, client.Config(hub));
              && d.relay.depositId == fill.relay.depositId
              && client.hash(fill.relay, fill.destinationChainId) == client.hash(d.relay, d.destinationChainId)
              && var isHit := cache != null && old(IsHit(cache.entries, KeyOfFill(client.hash, fill)));
                 var inBuffer := client.indexes.earliestDepositIdQueried <= d.relay.depositId
                                 <= client.indexes.latestDepositIdQueried;
                 IsFromChain(cfg, env.log, hubBlock, inBuffer, isHit, d)
    ensures fill.relay.originChainId == client.chainId
            && (var bounds := SpokeUtils.ClientBounds(isUpdated := client.base.isUpdated,
                                                      deploymentBlock := client.deploymentBlock,
                                                      latestBlockSearched := client.base.latestBlockSearched);
                exists e :: e in env.log && CanBeSearched(client.Config(hub), bounds, client.base.maxBlockLookBack,
                                                          fill, e, hubBlock, env, cache != null))
            ==> r.Success?
    ensures r == Success(NotFound(DepositIdNotFound)) ==>
              forall e :: e in env.log && IsDeposit(e, fill.relay.depositId) ==> !CanBeDerived(client.Config(hub), e)
  {
    hide IsFound, ChainHolds, ChainHeld, Buffers, CanBeDerived, Faithful, IsDepositOf, IsHit, CanBeFound;
    if fill.relay.originChainId != client.chainId {
      return Failure("OriginChainId mismatch");
    }
    if !client.base.isUpdated {
      return Failure("SpokePoolClient must be updated before querying historical deposits");
    }
    var cfg, id, st := client.Config(hub), fill.relay.depositId, client.indexes;
    if id < client.pool.firstDepositIdForSpokePool || id > client.pool.lastDepositIdForSpokePool {
      return Success(NotFound(DepositIdInvalid));
    }
    if id >= st.earliestDepositIdQueried && id <= st.latestDepositIdQueried {
      var buffered := FindInBuffer(cfg, client.fromBlock, client.base.firstBlockToSearch, st, fill, env);
      return Success(buffered);
    }
    hide CanBeSearched;
    var bounds := SpokeUtils.ClientBounds(client.base.isUpdated, client.deploymentBlock, client.base.latestBlockSearched);
    var deposit := FindInCacheOrOnChain(cfg, hubBlock, bounds, client.base.maxBlockLookBack, fill, cache, env);
    if deposit.Failure? {
      return Failure(deposit.error);
    }
    if ValidateFillForDeposit(cfg.hash, fill, Some(deposit.value)) {
      return Success(Found(deposit.value));
    }
    return Success(NotFound(FillMismatch));
  }

  /** An id outside the SpokePool's bounds belongs to no deposit of the blocks after the deployment that were searched. */
  lemma InvalidIdsAreOutside(log: Log, count: SpokeUtils.Counts, node: Client.Node, v: Client.PoolView,
                             deploymentBlock: nat, from: nat, to: nat, e: Event<SpokeEvent>)
    requires IsSpokeChain(log, count) && e in log && e.args.V3FundsDeposited?
    requires forall b: nat :: node.numberOfDeposits(b) == count(b)
    requires v.firstDepositIdForSpokePool in {MAX_SAFE_INTEGER, count(deploymentBlock)}
    requires deploymentBlock < e.pos.block <= to
    ensures var pool := Client.NextPoolView(v, node, deploymentBlock, from, to);
            pool.firstDepositIdForSpokePool <= e.args.relay.depositId <= pool.lastDepositIdForSpokePool
  {
    var id, b := e.args.relay.depositId, e.pos.block;
    assert SpokeUtils.IsDepositBlock(count, id, b);
    assert count(deploymentBlock) <= id;
    assert count(b) <= count(to);
  }

  /** And every id inside them belongs to one of these blocks. */
  lemma IdsInsideWereDeposited(count: SpokeUtils.Counts, node: Client.Node, v: Client.PoolView, deploymentBlock: nat,
                               from: nat, to: nat, id: nat)
    requires SpokeUtils.NonDecreasing(count) && (forall b: nat :: node.numberOfDeposits(b) == count(b)) && count(to) > 0
    requires v.firstDepositIdForSpokePool in {MAX_SAFE_INTEGER, count(deploymentBlock)}
    requires var pool := Client.NextPoolView(v, node, deploymentBlock, from, to);
             pool.firstDepositIdForSpokePool <= id <= pool.lastDepositIdForSpokePool
    ensures exists b: nat :: deploymentBlock < b <= to && SpokeUtils.IsDepositBlock(count, id, b)
  {
    assert deploymentBlock < to;
    var b := SpokeUtils.DepositBlockExists(count, id, deploymentBlock + 1, to);
    assert SpokeUtils.IsDepositBlock(count, id, b);
  }

  // ---------- when the paths agree ----------

  /**
   A cached deposit, stored when the hub had been searched up to `time`, answers its fill as a search on chain would now
   exactly when its output token was explicit or has kept its mapping since.
   */
  lemma CacheAgreesIff(cfg: SpokeConfig, log: Log, count: SpokeUtils.Counts, entries: Entries, fill: Fill,
                       e: Event<SpokeEvent>, time: nat, hubBlock: nat)
    requires IsSpokeChain(log, count) && IsInjective(cfg.hash) && IsHit(entries, KeyOfFill(cfg.hash, fill))
    requires var d := entries[KeyOfFill(cfg.hash, fill)].deposit;
             && KeyOfDeposit(cfg.hash, d) == KeyOfFill(cfg.hash, fill)
             && e in log && IsDepositOf(cfg, e, time, d)
    ensures ChainHolds(cfg, log, fill, AtHub(hubBlock)) <==> TokenIsKept(cfg, e, AtHub(time), AtHub(hubBlock))
  {
    var d := entries[KeyOfFill(cfg.hash, fill)].deposit;
    assert fill.relay == d.relay && fill.destinationChainId == d.destinationChainId;
    HoldsIffMatches(cfg, log, count, e, fill, AtHub(hubBlock));
    if Matches(cfg, e, fill, AtHub(hubBlock)) {
      var token := OutputTokenAsOf(cfg, e, hubBlock).value;
      assert RelayFor(cfg, e, token) == RelayFor(cfg, e, d.relay.outputToken);
      assert RelayFor(cfg, e, token).outputToken == token;
    }
  }

  // A deposit that leaves its output token open, quoted at block 7; the token is remapped at block 8.

  const REMAPPED := SpokeConfig(
    10, (r: RelayData, d: nat) => r.outputToken,
    HubView((token: string, t: nat) => Some(7), (c: nat, t: nat) => false,
            (r: RelayData, d: nat, block: nat) => Some(if block <= 7 then "old" else "new")))
  const OPEN_RELAY := RelayData(10, "alice", "bob", 0, "in", 5, ZERO_ADDRESS, 5, "", 0, "", 0)
  const OPEN_DEPOSIT: Event<SpokeEvent> := Event(LogPos(5, 0, 0), V3FundsDeposited(OPEN_RELAY, 1, 3))
  const OLD_TOKEN_FILL := Fill(OPEN_RELAY.(outputToken := "old"), 1, "relayer", 1, LogPos(9, 0, 0))
  const OLD_DEPOSIT := Deposit(OPEN_RELAY.(outputToken := "old"), 1, 3, 7, false, false, None, LogPos(5, 0, 0))

  /** The fill is valid for the buffered deposit and invalid for the same deposit found on chain at block 9. */
  lemma RemappedOutputToken()
    ensures ChainHolds(REMAPPED, [OPEN_DEPOSIT], OLD_TOKEN_FILL, AtQuote)
    ensures !ChainHolds(REMAPPED, [OPEN_DEPOSIT], OLD_TOKEN_FILL, AtHub(9))
  {
    assert OPEN_DEPOSIT in [OPEN_DEPOSIT];
    assert DeriveDeposit(REMAPPED, OPEN_DEPOSIT).value.relay.outputToken == "old";
    assert FoundDeposit(REMAPPED, OPEN_DEPOSIT, 9).value.relay.outputToken == "new";
    assert REMAPPED.hash(OLD_TOKEN_FILL.relay, 1) == "old" && "old" != "new";
    assert Matches(REMAPPED, OPEN_DEPOSIT, OLD_TOKEN_FILL, AtQuote);
  }

  /** A cache filled at block 7 and faithful at block 9 accepts the fill that a search on chain then rejects. */
  lemma RemappedSinceCached()
    ensures var entries := CacheAfter(REMAPPED.hash, [Store(OLD_DEPOSIT, 7)]);
            && Faithful(REMAPPED, [OPEN_DEPOSIT], 9, entries)
            && IsHit(entries, KeyOfFill(REMAPPED.hash, OLD_TOKEN_FILL))
            && !ChainHolds(REMAPPED, [OPEN_DEPOSIT], OLD_TOKEN_FILL, AtHub(9))
  {
    RemappedOutputToken();
    var run := [Store(OLD_DEPOSIT, 7)];
    assert Init(run) == [];
    assert OPEN_DEPOSIT in [OPEN_DEPOSIT];
    assert FoundDeposit(REMAPPED, OPEN_DEPOSIT, 7) == Some(OLD_DEPOSIT);
    assert IsFound(REMAPPED, [OPEN_DEPOSIT], OLD_DEPOSIT, 7);
    ReachableIsFaithful(REMAPPED, [OPEN_DEPOSIT], 9, run);
  }
}
