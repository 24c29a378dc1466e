/**
 The SpokePoolClient's indexes as values: what one update does to them (src/clients/SpokePoolClient.ts:234-261 and
 526-660), and what any schedule of updates leaves in them.
 */
module SpokeIndexes {
  import opened Wrappers
  import opened Numbers
  import opened Sequences
  import opened EventUtils
  import opened ObjectUtils
  import opened SpokePool

  const ZERO_ADDRESS := "0x0000000000000000000000000000000000000000"
  /**
   The answers a client gets from its HubPool and ConfigStore clients; `None` where they throw. A deposit is priced by
   its input token and quote timestamp: either can be unknown to the HubPool client.
   */
  datatype HubView = HubView(
    quoteBlock: (string, nat) -> Option<nat>,
    isLiteChain: (nat, nat) -> bool,
    destinationToken: (RelayData, nat, nat) -> Option<string>)

  datatype SpokeConfig = SpokeConfig(chainId: nat, hash: RelayHash, hub: HubView)

  type SpeedUpKey = (string, nat)

  datatype Indexes = Indexes(
    tokensBridged: Log,
    deposits: map<DepositKey, Deposit>,
    earliestDepositIdQueried: nat,
    latestDepositIdQueried: nat,
    speedUps: map<SpeedUpKey, seq<SpeedUp>>,
    slowFillRequests: map<string, SlowFillRequest>,
    fills: map<nat, seq<Fill>>,
    depositHashesToFills: map<DepositKey, seq<Fill>>,
    depositRoutes: map<(string, nat), Flag>,
    rootBundleRelays: Log,
    relayerRefundExecutions: Log)

  const EMPTY := Indexes([], map[], MAX_SAFE_INTEGER, 0, map[], map[], map[], map[], map[], [], [])

  // ---------- typed views of a window of events ----------

  /** An event's deposit with the properties that are not part of the onchain event; `None` where that throws. */
  function DeriveDeposit(cfg: SpokeConfig, e: Event<SpokeEvent>): Option<Deposit>
    requires e.args.V3FundsDeposited?
  {
    var args := e.args;
    match cfg.hub.quoteBlock(args.relay.inputToken, args.quoteTimestamp)
    case None => None
    case Some(quoteBlock) =>
      var relay := args.relay.(originChainId := cfg.chainId);
      var from := cfg.hub.isLiteChain(cfg.chainId, args.quoteTimestamp);
      var to := cfg.hub.isLiteChain(args.destinationChainId, args.quoteTimestamp);
      if relay.outputToken != ZERO_ADDRESS then
        Some(Deposit(relay, args.destinationChainId, args.quoteTimestamp, quoteBlock, from, to, None, e.pos))
      else
        match cfg.hub.destinationToken(relay, args.destinationChainId, quoteBlock)
        case None => None
        case Some(token) =>
          Some(Deposit(relay.(outputToken := token), args.destinationChainId, args.quoteTimestamp, quoteBlock,
                       from, to, None, e.pos))
  }

  function DepositOf(cfg: SpokeConfig): Event<SpokeEvent> -> Option<Deposit> {
    (e: Event<SpokeEvent>) => if e.args.V3FundsDeposited? then DeriveDeposit(cfg, e) else None
  }

  function SpeedUpOf(e: Event<SpokeEvent>): Option<SpeedUp> {
    if e.args.RequestedSpeedUpV3Deposit? then Some(e.args.speedUp) else None
  }

  function SlowFillOf(cfg: SpokeConfig): Event<SpokeEvent> -> Option<SlowFillRequest> {
    (e: Event<SpokeEvent>) =>
      if e.args.RequestedV3SlowFill? then Some(SlowFillRequest(e.args.slowFill, cfg.chainId, e.pos)) else None
  }

  function FillOf(cfg: SpokeConfig): Event<SpokeEvent> -> Option<Fill> {
    (e: Event<SpokeEvent>) =>
      if e.args.FilledV3Relay?
      then Some(Fill(e.args.filled, cfg.chainId, e.args.relayer, e.args.repaymentChainId, e.pos))
      else None
  }

  function RouteOf(e: Event<SpokeEvent>): Option<((string, nat), bool)> {
    if e.args.EnabledDepositRoute? then Some(((e.args.originToken, e.args.routeChainId), e.args.enabled)) else None
  }

  function IsKind(k: EventKind): Event<SpokeEvent> -> bool {
    (e: Event<SpokeEvent>) => KindOf(e.args) == k
  }

  function OfKind(log: Log, k: EventKind): Log {
    Filter(log, IsKind(k))
  }

  function SlowFillHash(cfg: SpokeConfig): SlowFillRequest -> string {
    (s: SlowFillRequest) => cfg.hash(s.relay, cfg.chainId)
  }

  function DepositsIn(cfg: SpokeConfig, log: Log): seq<Deposit> { Collect(log, DepositOf(cfg)) }

  function SpeedUpsIn(log: Log): seq<SpeedUp> { Collect(log, SpeedUpOf) }

  function SlowFillsIn(cfg: SpokeConfig, log: Log): seq<SlowFillRequest> { Collect(log, SlowFillOf(cfg)) }

  function FillsIn(cfg: SpokeConfig, log: Log): seq<Fill> { Collect(log, FillOf(cfg)) }

  function RoutesIn(log: Log): seq<((string, nat), bool)> { Collect(log, RouteOf) }

  // ---------- a deposit and its event ----------

  /** The output token a deposit is for: its own, or where it leaves that open what the HubPool answers as of the block. */
  function OutputTokenAsOf(cfg: SpokeConfig, e: Event<SpokeEvent>, block: nat): Option<string>
    requires e.args.V3FundsDeposited?
  {
    if e.args.relay.outputToken != ZERO_ADDRESS then Some(e.args.relay.outputToken)
    else cfg.hub.destinationToken(e.args.relay.(originChainId := cfg.chainId), e.args.destinationChainId, block)
  }

  /**
   The relay data that a fill of the deposit has to match: as the contract logged it, on this chain, for that output
   token.
   */
  function RelayFor(cfg: SpokeConfig, e: Event<SpokeEvent>, outputToken: string): RelayData
    requires e.args.V3FundsDeposited?
  {
    e.args.relay.(originChainId := cfg.chainId, outputToken := outputToken)
  }

  /**
   A deposit as its event and the HubPool client make it, speed-ups aside: an open output token is read as of `block`,
   everything else comes from the event and its quote timestamp.
   */
  ghost predicate IsDepositOf(cfg: SpokeConfig, e: Event<SpokeEvent>, block: nat, d: Deposit) {
    && e.args.V3FundsDeposited?
    && OutputTokenAsOf(cfg, e, block) == Some(d.relay.outputToken)
    && d.relay == RelayFor(cfg, e, d.relay.outputToken)
    && d.destinationChainId == e.args.destinationChainId
    && d.quoteTimestamp == e.args.quoteTimestamp
    && cfg.hub.quoteBlock(e.args.relay.inputToken, e.args.quoteTimestamp) == Some(d.quoteBlockNumber)
    && d.fromLiteChain == cfg.hub.isLiteChain(cfg.chainId, e.args.quoteTimestamp)
    && d.toLiteChain == cfg.hub.isLiteChain(e.args.destinationChainId, e.args.quoteTimestamp)
    && d.pos == e.pos
  }

  /** The HubPool client can price the deposit and knows its output token as of the quote block. */
  predicate CanBeDerived(cfg: SpokeConfig, e: Event<SpokeEvent>) {
    && e.args.V3FundsDeposited?
    && var quoteBlock := cfg.hub.quoteBlock(e.args.relay.inputToken, e.args.quoteTimestamp);
       quoteBlock.Some? && OutputTokenAsOf(cfg, e, quoteBlock.value).Some?
  }

  lemma DerivedFromEvent(cfg: SpokeConfig, e: Event<SpokeEvent>)
    requires e.args.V3FundsDeposited?
    ensures var d := DeriveDeposit(cfg, e);
            && (d.Some? <==> CanBeDerived(cfg, e))
            && (d.Some? ==> d.value.updated == None && IsDepositOf(cfg, e, d.value.quoteBlockNumber, d.value))
  {
  }

  // ---------- deposits ----------

  /** The deposit dictionary with the bounds on the ids it has seen. */
  datatype DepositIndex = DepositIndex(deposits: map<DepositKey, Deposit>, earliest: nat, latest: nat)

  function DepositIndexOf(st: Indexes): DepositIndex {
    DepositIndex(st.deposits, st.earliestDepositIdQueried, st.latestDepositIdQueried)
  }

  function StoreDeposit(ix: DepositIndex, d: Deposit): DepositIndex {
    if DepositHash(d) in ix.deposits then ix
    else DepositIndex(
           ix.deposits[DepositHash(d) := d],
           if d.relay.depositId < ix.earliest then d.relay.depositId else ix.earliest,
           if d.relay.depositId > ix.latest then d.relay.depositId else ix.latest)
  }

  function StoreDeposits(ix: DepositIndex, ds: seq<Deposit>): DepositIndex {
    if ds == [] then ix else StoreDeposit(StoreDeposits(ix, Init(ds)), Last(ds))
  }

  // ---------- speed-ups ----------

  function SpeedUpKeyOf(s: SpeedUp): SpeedUpKey {
    (s.depositor, s.depositId)
  }

  function OwnKey(d: Deposit): SpeedUpKey {
    (d.relay.depositor, d.relay.depositId)
  }

  /** The `reduce` of `appendMaxSpeedUpSignatureToDeposit`. */
  function LeastSpeedUp(s: seq<SpeedUp>): SpeedUp
    requires s != []
  {
    if |s| == 1 then s[0]
    else
      var prev := LeastSpeedUp(Init(s));
      if prev.terms.outputAmount < Last(s).terms.outputAmount then prev else Last(s)
  }

  /** A deposit with the terms that `speedups` leave it. */
  function Quoted(speedups: seq<SpeedUp>, d: Deposit): Deposit {
    if speedups == [] then d
    else if LeastSpeedUp(speedups).terms.outputAmount >= d.relay.outputAmount then d
    else d.(updated := Some(LeastSpeedUp(speedups).terms))
  }

  /** `appendMaxSpeedUpSignatureToDeposit`. */
  function AppendMaxSpeedUpSignatureToDeposit(speedUps: map<SpeedUpKey, seq<SpeedUp>>, d: Deposit): Deposit {
    Quoted(Get(speedUps, OwnKey(d)), d)
  }

  datatype Quotes = Quotes(speedUps: map<SpeedUpKey, seq<SpeedUp>>, deposits: map<DepositKey, Deposit>)

  function ApplySpeedUp(chainId: nat, q: Quotes, s: SpeedUp): Quotes {
    var speedUps := AssignArray(q.speedUps, SpeedUpKeyOf(s), s);
    var key := DepositKey(s.depositId, chainId);
    if key in q.deposits
    then Quotes(speedUps, q.deposits[key := AppendMaxSpeedUpSignatureToDeposit(speedUps, q.deposits[key])])
    else Quotes(speedUps, q.deposits)
  }

  function ApplySpeedUps(chainId: nat, q: Quotes, xs: seq<SpeedUp>): Quotes {
    if xs == [] then q else ApplySpeedUp(chainId, ApplySpeedUps(chainId, q, Init(xs)), Last(xs))
  }

  // ---------- one update, and schedules of updates ----------

  /** What one update ingests: its window, and the deposit routes, which the first update reads from deployment on. */
  datatype Batch = Batch(events: Log, routes: Log)

  function Ingest(cfg: SpokeConfig, st: Indexes, b: Batch): Indexes {
    var stored := StoreDeposits(DepositIndexOf(st), DepositsIn(cfg, b.events));
    var quotes := ApplySpeedUps(cfg.chainId, Quotes(st.speedUps, stored.deposits), SpeedUpsIn(b.events));
    Indexes(
      st.tokensBridged + OfKind(b.events, Bridged),
      quotes.deposits,
      stored.earliest,
      stored.latest,
      quotes.speedUps,
      FirstBy(st.slowFillRequests, SlowFillsIn(cfg, b.events), SlowFillHash(cfg)),
      GroupBy(st.fills, FillsIn(cfg, b.events), FillOrigin),
      GroupBy(st.depositHashesToFills, FillsIn(cfg, b.events), FillDepositHash),
      FlagBy(st.depositRoutes, RoutesIn(b.routes)),
      st.rootBundleRelays + OfKind(b.events, Roots),
      st.relayerRefundExecutions + OfKind(b.events, Refunds))
  }

  function Run(cfg: SpokeConfig, run: seq<Batch>): Indexes {
    if run == [] then EMPTY else Ingest(cfg, Run(cfg, Init(run)), Last(run))
  }

  /** All that a run ingests, as if one update had fetched it. */
  function Merge(run: seq<Batch>): Batch {
    if run == [] then Batch([], [])
    else Batch(Merge(Init(run)).events + Last(run).events, Merge(Init(run)).routes + Last(run).routes)
  }
}
