/** Deposits on their origin chain, and the search for one by its id (src/clients/SpokePoolClient.ts:783-858). */
module DepositSearch {
  import opened Wrappers
  import opened Numbers
  import opened Sequences
  import opened EventUtils
  import opened SpokePool
  import opened SpokeIndexes
  import opened HubPoolTokens
  import SpokeUtils

  // ---------- the origin chain ----------

  predicate IsDeposit(e: Event<SpokeEvent>, depositId: nat) {
    e.args.V3FundsDeposited? && e.args.relay.depositId == depositId
  }

  /** Deposit ids count up along the log, as `numberOfDeposits` does. */
  ghost predicate IsSpokeChain(log: Log, count: SpokeUtils.Counts) {
    && IsLog(log)
    && SpokeUtils.NonDecreasing(count)
    && (forall e :: e in log && e.args.V3FundsDeposited? ==>
          && e.args.relay.depositId <= MAX_SAFE_INTEGER
          && SpokeUtils.IsDepositBlock(count, e.args.relay.depositId, e.pos.block))
    && (forall e, f :: e in log && f in log && e.args.V3FundsDeposited? && f.args.V3FundsDeposited? ==>
          (Older(e.pos, f.pos) <==> e.args.relay.depositId < f.args.relay.depositId))
  }

  /** No two deposits share an id. */
  lemma IdsAreUnique(log: Log, count: SpokeUtils.Counts, e: Event<SpokeEvent>, f: Event<SpokeEvent>)
    requires IsSpokeChain(log, count) && e in log && f in log
    requires e.args.V3FundsDeposited? && IsDeposit(f, e.args.relay.depositId)
    ensures e == f
  {
    LogIsDistinct(log);
    if e != f {
      DistinctEventsAreApart(log, e, f);
    }
  }

  // ---------- deriving a deposit ----------

  /** Where an output token that the deposit leaves open is read: at the quote block, or at what the hub knows then. */
  datatype TokenAsOf = AtQuote | AtHub(block: nat)

  /** What the hub answers for the output token of the event, as of a block. */
  function OutputTokenAt(cfg: SpokeConfig, e: Event<SpokeEvent>, block: nat): Option<string>
    requires e.args.V3FundsDeposited?
  {
    cfg.hub.destinationToken(e.args.relay.(originChainId := cfg.chainId), e.args.destinationChainId, block)
  }

  /**
   A deposit as `findDeposit` derives it. It asks for the output token without a quote block, so for the newest mapping
   that the hub client knows, which is the one as of `hubBlock`, the latest block that client has searched.
   */
  function FoundDeposit(cfg: SpokeConfig, e: Event<SpokeEvent>, hubBlock: nat): Option<Deposit>
    requires e.args.V3FundsDeposited?
  {
    var args := e.args;
    match cfg.hub.quoteBlock(args.relay.inputToken, args.quoteTimestamp)
    case None => None
    case Some(quoteBlock) =>
      var relay := args.relay.(originChainId := cfg.chainId);
      var from := cfg.hub.isLiteChain(cfg.chainId, args.quoteTimestamp);
      var to := cfg.hub.isLiteChain(args.destinationChainId, args.quoteTimestamp);
      var token := if relay.outputToken == ZERO_ADDRESS then OutputTokenAt(cfg, e, hubBlock) else Some(relay.outputToken);
      if token.None? then None
      else Some(Deposit(relay.(outputToken := token.value), args.destinationChainId, args.quoteTimestamp, quoteBlock,
                        from, to, None, e.pos))
  }

  /** The deposit of an event as the buffer holds it, or as a search finds it. */
  function DepositSeen(cfg: SpokeConfig, e: Event<SpokeEvent>, at: TokenAsOf): Option<Deposit>
    requires e.args.V3FundsDeposited?
  {
    match at
    case AtQuote => DeriveDeposit(cfg, e)
    case AtHub(block) => FoundDeposit(cfg, e, block)
  }

  function TokenBlock(quoteBlock: nat, at: TokenAsOf): nat {
    match at
    case AtQuote => quoteBlock
    case AtHub(block) => block
  }

  /** The fill has the relay hash of what the contract logged, for the output token that is read as of `at`. */
  predicate Matches(cfg: SpokeConfig, e: Event<SpokeEvent>, fill: Fill, at: TokenAsOf)
    requires e.args.V3FundsDeposited?
  {
    var quoteBlock := cfg.hub.quoteBlock(e.args.relay.inputToken, e.args.quoteTimestamp);
    && quoteBlock.Some?
    && var token := OutputTokenAsOf(cfg, e, TokenBlock(quoteBlock.value, at));
       && token.Some?
       && cfg.hash(fill.relay, fill.destinationChainId)
          == cfg.hash(RelayFor(cfg, e, token.value), e.args.destinationChainId)
  }

  /** The deposit can be priced, and its output token is known as of the block. */
  predicate CanBeFound(cfg: SpokeConfig, e: Event<SpokeEvent>, hubBlock: nat) {
    && e.args.V3FundsDeposited?
    && cfg.hub.quoteBlock(e.args.relay.inputToken, e.args.quoteTimestamp).Some?
    && OutputTokenAsOf(cfg, e, hubBlock).Some?
  }

  lemma FoundFromEvent(cfg: SpokeConfig, e: Event<SpokeEvent>, hubBlock: nat)
    requires e.args.V3FundsDeposited?
    ensures var d := FoundDeposit(cfg, e, hubBlock);
            && (d.Some? <==> CanBeFound(cfg, e, hubBlock))
            && (d.Some? ==> d.value.updated == None && IsDepositOf(cfg, e, hubBlock, d.value))
  {
  }

  /** An event makes one deposit, speed-ups aside. */
  lemma DepositOfIsUnique(cfg: SpokeConfig, e: Event<SpokeEvent>, block: nat, a: Deposit, b: Deposit)
    requires IsDepositOf(cfg, e, block, a) && IsDepositOf(cfg, e, block, b) && a.updated == b.updated
    ensures a == b
  {
  }

  /** The deposit as it is derived decides a fill as the log does. */
  lemma SeenMatches(cfg: SpokeConfig, e: Event<SpokeEvent>, fill: Fill, at: TokenAsOf)
    requires e.args.V3FundsDeposited?
    ensures ValidateFillForDeposit(cfg.hash, fill, DepositSeen(cfg, e, at)) <==> Matches(cfg, e, fill, at)
  {
    match at {
      case AtQuote => DerivedFromEvent(cfg, e);
      case AtHub(block) => FoundFromEvent(cfg, e, block);
    }
    hide DeriveDeposit, FoundDeposit;
  }

  /** The origin chain holds a deposit with the fill's id and relay hash. */
  ghost predicate ChainHolds(cfg: SpokeConfig, log: Log, fill: Fill, at: TokenAsOf) {
    exists e :: e in log && IsDeposit(e, fill.relay.depositId) && Matches(cfg, e, fill, at)
  }

  lemma HoldsIffMatches(cfg: SpokeConfig, log: Log, count: SpokeUtils.Counts, e: Event<SpokeEvent>, fill: Fill, at: TokenAsOf)
    requires IsSpokeChain(log, count) && e in log && IsDeposit(e, fill.relay.depositId)
    ensures ChainHolds(cfg, log, fill, at) <==> Matches(cfg, e, fill, at)
  {
    if ChainHolds(cfg, log, fill, at) {
      var f :| f in log && IsDeposit(f, fill.relay.depositId) && Matches(cfg, f, fill, at);
      IdsAreUnique(log, count, e, f);
    }
  }

  // ---------- when derivations agree ----------

  /** The output token is explicit, or its mapping is the same at both blocks. */
  predicate TokenIsKept(cfg: SpokeConfig, e: Event<SpokeEvent>, a: TokenAsOf, b: TokenAsOf)
    requires e.args.V3FundsDeposited?
  {
    var quoteBlock := cfg.hub.quoteBlock(e.args.relay.inputToken, e.args.quoteTimestamp);
    || e.args.relay.outputToken != ZERO_ADDRESS
    || quoteBlock.None?
    || OutputTokenAt(cfg, e, TokenBlock(quoteBlock.value, a)) == OutputTokenAt(cfg, e, TokenBlock(quoteBlock.value, b))
  }

  /** The buffer derives a deposit like a search whose hub has searched up to the quote block. */
  lemma BufferReadsAtQuote(cfg: SpokeConfig, e: Event<SpokeEvent>, quoteBlock: nat)
    requires e.args.V3FundsDeposited?
    requires cfg.hub.quoteBlock(e.args.relay.inputToken, e.args.quoteTimestamp) == Some(quoteBlock)
    ensures DeriveDeposit(cfg, e) == FoundDeposit(cfg, e, quoteBlock)
  {
    var relay := e.args.relay.(originChainId := cfg.chainId);
    assert relay.(outputToken := relay.outputToken) == relay;
  }

  lemma SeenAlikeIff(cfg: SpokeConfig, e: Event<SpokeEvent>, a: TokenAsOf, b: TokenAsOf)
    requires e.args.V3FundsDeposited?
    ensures DepositSeen(cfg, e, a) == DepositSeen(cfg, e, b) <==> TokenIsKept(cfg, e, a, b)
  {
    var quote := cfg.hub.quoteBlock(e.args.relay.inputToken, e.args.quoteTimestamp);
    if quote.Some? {
      BufferReadsAtQuote(cfg, e, quote.value);
      var x, y := TokenBlock(quote.value, a), TokenBlock(quote.value, b);
      if e.args.relay.outputToken == ZERO_ADDRESS && OutputTokenAt(cfg, e, x).Some? {
        assert FoundDeposit(cfg, e, x).value.relay.outputToken == OutputTokenAt(cfg, e, x).value;
      }
    }
  }

  ghost predicate IsInjective(hash: RelayHash) {
    forall r1, d1, r2, d2 :: hash(r1, d1) == hash(r2, d2) ==> r1 == r2 && d1 == d2
  }

  /** Two ways to derive deposits give the same verdict on every fill of an id exactly when its output token is kept. */
  lemma VerdictsAgreeIff(cfg: SpokeConfig, log: Log, count: SpokeUtils.Counts, e: Event<SpokeEvent>, a: TokenAsOf, b: TokenAsOf)
    requires IsSpokeChain(log, count) && e in log && e.args.V3FundsDeposited? && IsInjective(cfg.hash)
    ensures (forall fill: Fill :: fill.relay.depositId == e.args.relay.depositId ==>
               ChainHolds(cfg, log, fill, a) == ChainHolds(cfg, log, fill, b))
            <==> TokenIsKept(cfg, e, a, b)
  {
    SeenAlikeIff(cfg, e, a, b);
    var seenA, seenB := DepositSeen(cfg, e, a), DepositSeen(cfg, e, b);
    if TokenIsKept(cfg, e, a, b) {
      forall fill: Fill | fill.relay.depositId == e.args.relay.depositId
        ensures ChainHolds(cfg, log, fill, a) == ChainHolds(cfg, log, fill, b)
      {
        HoldsIffMatches(cfg, log, count, e, fill, a);
        HoldsIffMatches(cfg, log, count, e, fill, b);
        SeenMatches(cfg, e, fill, a);
        SeenMatches(cfg, e, fill, b);
      }
    } else {
      var d := if seenA.Some? then seenA.value else seenB.value;
      var fill := Fill(d.relay, d.destinationChainId, "", 0, e.pos);
      HoldsIffMatches(cfg, log, count, e, fill, a);
      HoldsIffMatches(cfg, log, count, e, fill, b);
      SeenMatches(cfg, e, fill, a);
      SeenMatches(cfg, e, fill, b);
      hide Matches, IsSpokeChain, ChainHolds, TokenIsKept;
      assert Matches(cfg, e, fill, a) != Matches(cfg, e, fill, b);
      assert fill.relay.depositId == e.args.relay.depositId;
    }
  }

  // ---------- the hub's answers from its route log ----------

  /** The client's hub answers from the pool rebalance routes. */
  ghost predicate ReadsRoutes(hub: HubView, routes: RouteLog) {
    && IsLog(routes)
    && forall relay: RelayData, chain: nat, block: nat ::
         hub.destinationToken(relay, chain, block)
         == CounterpartAsOf(routes, relay.inputToken, relay.originChainId, chain, block)
  }

  /**
   A deposit with an open output token is derived alike at two blocks exactly when the routes set between them keep it:
   those of its input token name the pool to look at, and those of that pool on the destination chain, if any, the token.
   */
  lemma TokenIsKeptByRoutesIff(cfg: SpokeConfig, routes: RouteLog, e: Event<SpokeEvent>, quoteBlock: nat,
                               a: TokenAsOf, b: TokenAsOf)
    requires e.args.V3FundsDeposited? && ReadsRoutes(cfg.hub, routes)
    requires cfg.hub.quoteBlock(e.args.relay.inputToken, e.args.quoteTimestamp) == Some(quoteBlock)
    requires TokenBlock(quoteBlock, a) <= TokenBlock(quoteBlock, b)
    ensures TokenIsKept(cfg, e, a, b) <==>
            || e.args.relay.outputToken != ZERO_ADDRESS
            || RoutesKeepCounterpart(routes, e.args.relay.inputToken, cfg.chainId, e.args.destinationChainId,
                                     TokenBlock(quoteBlock, a), TokenBlock(quoteBlock, b))
  {
    CounterpartKeptIff(routes, e.args.relay.inputToken, cfg.chainId, e.args.destinationChainId,
                       TokenBlock(quoteBlock, a), TokenBlock(quoteBlock, b));
    hide CounterpartAsOf, RoutesKeepCounterpart;
  }

  // ---------- the search ----------

  function AskedFor(depositId: nat, destinationChainId: nat, depositor: string): Event<SpokeEvent> -> bool {
    (e: Event<SpokeEvent>) => IsAskedFor(e, depositId, destinationChainId, depositor)
  }

  /** The deposit of that id, for that destination and by that depositor. */
  predicate IsAskedFor(e: Event<SpokeEvent>, depositId: nat, destinationChainId: nat, depositor: string) {
    && e.args.V3FundsDeposited?
    && e.args.relay.depositId == depositId && e.args.destinationChainId == destinationChainId
    && e.args.relay.depositor == depositor
  }

  function WithId(depositId: nat): Event<SpokeEvent> -> bool {
    (e: Event<SpokeEvent>) => IsDeposit(e, depositId)
  }

  const MAX_SEARCHES := 7

  /**
   `findDeposit`. The binary search bounds the blocks to query without ever cutting off the deposit, so it throws only
   where the client has not searched that far, the node fails, the hub has no answer, or no such deposit was made. In
   which order the node lists events does not matter.
   */
  method FindDeposit(cfg: SpokeConfig, hubBlock: nat, client: SpokeUtils.ClientBounds, lookBack: Option<int>, log: Log,
                     count: SpokeUtils.Counts, depositId: nat, destinationChainId: nat, depositor: string,
                     outage: nat -> bool, order: Listing<SpokeEvent>)
    returns (r: Result<Deposit>)
    requires IsSpokeChain(log, count) && IsListing(order)
    ensures r.Success? ==> r.value.destinationChainId == destinationChainId && r.value.relay.depositor == depositor
    ensures r.Success? ==>
              exists e ::
                && e in log && IsAskedFor(e, depositId, destinationChainId, depositor)
                && IsDepositOf(cfg, e, hubBlock, r.value) && r.value.updated == None
    ensures client.isUpdated && 0 <= client.deploymentBlock <= client.latestBlockSearched
            && (lookBack.None? || lookBack.value >= 0) && !outage(0) ==>
              forall e :: e in log && IsAskedFor(e, depositId, destinationChainId, depositor)
                          && client.deploymentBlock < e.pos.block <= client.latestBlockSearched ==>
                && (r.Success? <==> CanBeFound(cfg, e, hubBlock))
                && (r.Success? ==> IsDepositOf(cfg, e, hubBlock, r.value))
  {
    var searchBounds := SpokeUtils.GetBlockRangeForDepositId(
      depositId, client.deploymentBlock, client.latestBlockSearched, MAX_SEARCHES, client, count);
    if searchBounds.Failure? {
      InRangeIsSane(log, count, client, depositId);
      assert forall e :: IsAskedFor(e, depositId, destinationChainId, depositor) ==> IsDeposit(e, depositId);
      return Failure(searchBounds.error);
    }
    var (low, high) := (searchBounds.value.low, searchBounds.value.high);
    var asked := AskedFor(depositId, destinationChainId, depositor);
    FilterKeepsOrder(Ascending, log, asked);
    var query := PaginatedEventQuery(Filter(log, asked), EventSearchConfig(low, high, lookBack), outage, order);
    if query.Failure? {
      return Failure(query.error);
    }
    AskedIsQueried(log, count, low, high, depositId, destinationChainId, depositor, query.value);
    var event := Find(query.value, WithId(depositId));
    var i := FindWitness(query.value, WithId(depositId));
    if event.None? {
      return Failure("Could not find deposit");
    }
    assert event.value in query.value && IsAskedFor(event.value, depositId, destinationChainId, depositor);
    var deposit := FoundDeposit(cfg, event.value, hubBlock);
    FoundFromEvent(cfg, event.value, hubBlock);
    forall e | e in log && IsAskedFor(e, depositId, destinationChainId, depositor) ensures e == event.value {
      IdsAreUnique(log, count, e, event.value);
    }
    hide IsSpokeChain, FoundDeposit, CanBeFound;
    if deposit.None? {
      return Failure("Could not derive deposit");
    }
    return Success(deposit.value);
  }

  /** The query returns every event asked for: the deposit's block is within its bounds. */
  lemma AskedIsQueried(log: Log, count: SpokeUtils.Counts, low: int, high: int, depositId: nat, destinationChainId: nat,
                       depositor: string, queried: Log)
    requires IsSpokeChain(log, count)
    requires exists b :: low <= b <= high && SpokeUtils.IsDepositBlock(count, depositId, b)
    requires multiset(queried) == multiset(Window(Filter(log, AskedFor(depositId, destinationChainId, depositor)), low, high))
    ensures forall e :: e in queried <==> e in log && AskedFor(depositId, destinationChainId, depositor)(e)
  {
    var asked := AskedFor(depositId, destinationChainId, depositor);
    var window := Window(Filter(log, asked), low, high);
    forall e ensures e in queried <==> e in log && asked(e) {
      assert e in multiset(queried) <==> e in multiset(window);
      FilterMembers(log, asked, e);
      FilterMembers(Filter(log, asked), InBlocks<SpokeEvent>(low, high), e);
      if e in log && asked(e) {
        DepositIsInRange(log, count, e, low, high);
      }
    }
  }

  lemma DepositIsInRange(log: Log, count: SpokeUtils.Counts, e: Event<SpokeEvent>, low: int, high: int)
    requires IsSpokeChain(log, count) && e in log && e.args.V3FundsDeposited?
    requires exists b :: low <= b <= high && SpokeUtils.IsDepositBlock(count, e.args.relay.depositId, b)
    ensures low <= e.pos.block <= high
  {
    var id := e.args.relay.depositId;
    var b :| low <= b <= high && SpokeUtils.IsDepositBlock(count, id, b);
    SpokeUtils.DepositBlockIsUnique(count, id, b, e.pos.block);
  }

  /** The search's checks pass for every deposit made after the deployment block and searched by the client. */
  lemma InRangeIsSane(log: Log, count: SpokeUtils.Counts, client: SpokeUtils.ClientBounds, depositId: nat)
    requires IsSpokeChain(log, count)
    ensures forall e :: e in log && IsDeposit(e, depositId)
                        && client.deploymentBlock < e.pos.block <= client.latestBlockSearched ==>
              count(client.deploymentBlock) <= depositId < count(client.latestBlockSearched)
  {
    forall e | e in log && IsDeposit(e, depositId) && client.deploymentBlock < e.pos.block <= client.latestBlockSearched
      ensures count(client.deploymentBlock) <= depositId < count(client.latestBlockSearched)
    {
      assert SpokeUtils.IsDepositBlock(count, depositId, e.pos.block);
      assert count(e.pos.block) <= count(client.latestBlockSearched);
    }
  }
}
