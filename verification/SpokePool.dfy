/** What the SpokePool contracts emit and the clients store (src/interfaces/SpokePool.ts, src/utils/FlowUtils.ts). */
module SpokePool {
  import opened Wrappers
  import opened EventUtils

  datatype RelayData = RelayData(
    originChainId: nat,
    depositor: string,
    recipient: string,
    depositId: nat,
    inputToken: string,
    inputAmount: int,
    outputToken: string,
    outputAmount: int,
    message: string,
    fillDeadline: nat,
    exclusiveRelayer: string,
    exclusivityDeadline: nat)

  /** keccak256 over the encoded relay data and destination chain: any function will do. */
  type RelayHash = (RelayData, nat) -> string

  /** The four fields that a speed-up replaces together. */
  datatype UpdatedTerms = UpdatedTerms(signature: string, outputAmount: int, recipient: string, message: string)

  datatype Deposit = Deposit(
    relay: RelayData,
    destinationChainId: nat,
    quoteTimestamp: nat,
    quoteBlockNumber: nat,
    fromLiteChain: bool,
    toLiteChain: bool,
    updated: Option<UpdatedTerms>,
    pos: LogPos)

  datatype Fill = Fill(relay: RelayData, destinationChainId: nat, relayer: string, repaymentChainId: nat, pos: LogPos)

  datatype SlowFillRequest = SlowFillRequest(relay: RelayData, destinationChainId: nat, pos: LogPos)

  datatype SpeedUp = SpeedUp(depositor: string, depositId: nat, terms: UpdatedTerms)

  /** `${depositId}-${originChainId}`. */
  datatype DepositKey = DepositKey(depositId: nat, originChainId: nat)

  function DepositHash(d: Deposit): DepositKey {
    DepositKey(d.relay.depositId, d.relay.originChainId)
  }

  function FillDepositHash(f: Fill): DepositKey {
    DepositKey(f.relay.depositId, f.relay.originChainId)
  }

  function FillOrigin(f: Fill): nat {
    f.relay.originChainId
  }

  /** `validateFillForDeposit`. */
  predicate ValidateFillForDeposit(hash: RelayHash, fill: Fill, deposit: Option<Deposit>) {
    deposit.Some? &&
    hash(fill.relay, fill.destinationChainId) == hash(deposit.value.relay, deposit.value.destinationChainId)
  }

  /** `filledSameDeposit`. */
  predicate FilledSameDeposit(hash: RelayHash, a: Fill, b: Fill) {
    a.relay.depositId == b.relay.depositId && hash(a.relay, a.destinationChainId) == hash(b.relay, b.destinationChainId)
  }

  // ---------- contract events ----------

  /** The origin chain id of a deposit's relay data is not emitted; the client fills it in. */
  datatype SpokeEvent =
    | V3FundsDeposited(relay: RelayData, destinationChainId: nat, quoteTimestamp: nat)
    | RequestedSpeedUpV3Deposit(speedUp: SpeedUp)
    | RequestedV3SlowFill(slowFill: RelayData)
    | FilledV3Relay(filled: RelayData, relayer: string, repaymentChainId: nat)
    | EnabledDepositRoute(originToken: string, routeChainId: nat, enabled: bool)
    | TokensBridged(amountToReturn: int, leafId: nat, l2TokenAddress: string)
    | RelayedRootBundle(rootBundleId: nat, relayerRefundRoot: string, slowRelayRoot: string)
    | ExecutedRelayerRefundRoot(refundRootBundleId: nat, refundLeafId: nat, refundToken: string)

  datatype EventKind = Deposits | SpeedUps | SlowFills | Fills | Routes | Bridged | Roots | Refunds

  function KindOf(e: SpokeEvent): EventKind {
    match e
    case V3FundsDeposited(_, _, _) => Deposits
    case RequestedSpeedUpV3Deposit(_) => SpeedUps
    case RequestedV3SlowFill(_) => SlowFills
    case FilledV3Relay(_, _, _) => Fills
    case EnabledDepositRoute(_, _, _) => Routes
    case TokensBridged(_, _, _) => Bridged
    case RelayedRootBundle(_, _, _) => Roots
    case ExecutedRelayerRefundRoot(_, _, _) => Refunds
  }

  type Log = seq<Event<SpokeEvent>>
}
