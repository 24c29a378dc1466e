/** The block ranges that a root bundle implies (src/utils/BundleUtils.ts). */
module BundleUtils {
  import opened Wrappers
  import opened Sequences
  import opened EventUtils
  import opened ConfigStore
  import opened RootBundles
  import opened BundleQueries

  datatype BlockRange = BlockRange(start: nat, end: nat)

  /** `getBlockForChain`. */
  function GetBlockForChain(bundleEvaluationBlockNumbers: seq<nat>, chain: int, chainIdList: ChainList): Result<nat> {
    match IndexOf(chainIdList, chain)
    case None => Failure("Could not find chain in chain ID list")
    case Some(i) =>
      if i >= |bundleEvaluationBlockNumbers| then Failure("Invalid block range for chain")
      else Success(bundleEvaluationBlockNumbers[i])
  }

  /** It agrees with the HubPool client's lookup, except that it throws where that one returns 0. */
  lemma BlockForChainIsEndBlock(ends: seq<nat>, chain: int, chainIdList: ChainList)
    ensures GetBundleEndBlockForChain(ends, chain, chainIdList) ==
            match GetBlockForChain(ends, chain, chainIdList) case Success(b) => b case Failure(_) => 0
    ensures forall i :: 0 <= i < |chainIdList| && chainIdList[i] == chain && chain !in chainIdList[..i] ==>
              if i < |ends| then GetBlockForChain(ends, chain, chainIdList) == Success(ends[i])
              else GetBlockForChain(ends, chain, chainIdList).Failure?
    ensures chain !in chainIdList ==> GetBlockForChain(ends, chain, chainIdList).Failure?
  {
    forall i | 0 <= i < |chainIdList| && chainIdList[i] == chain && chain !in chainIdList[..i]
      ensures IndexOf(chainIdList, chain) == Some(i)
    {
    }
  }

  /** The bundle's mainnet start block is taken from its predecessor, whose list must not be empty. */
  function MainnetStartBlock(prev: Option<Event<RootBundle>>): Option<nat> {
    match prev
    case None => Some(0)
    case Some(b) =>
      if b.args.bundleEvaluationBlockNumbers == [] then None else Some(b.args.bundleEvaluationBlockNumbers[0])
  }

  /** Whether the i-th chain of the bundle's list was enabled at the mainnet start block. */
  predicate IsEnabledAt(chainId: int, c: Config, prev: Option<Event<RootBundle>>, bundle: Event<RootBundle>, i: nat) {
    var indices := GetChainIdIndicesForBlock(chainId, c, bundle.pos.block);
    && MainnetStartBlock(prev).Some?
    && i < |indices| && indices[i] in GetEnabledChains(chainId, c, MainnetStartBlock(prev).value)
  }

  function RangeAt(chainId: int, c: Config, prev: Option<Event<RootBundle>>, bundle: Event<RootBundle>, i: nat): BlockRange
    requires i < |bundle.args.bundleEvaluationBlockNumbers|
  {
    var endBlock := bundle.args.bundleEvaluationBlockNumbers[i];
    var fromBlock := if prev.Some? && i < |prev.value.args.bundleEvaluationBlockNumbers|
                     then prev.value.args.bundleEvaluationBlockNumbers[i] + 1 else 0;
    if IsEnabledAt(chainId, c, prev, bundle, i) then BlockRange(fromBlock, endBlock) else BlockRange(endBlock, endBlock)
  }

  /** `getImpliedBundleBlockRanges`. */
  function GetImpliedBundleBlockRanges(p: Proposals, leaves: Leaves, chainId: int, c: Config, bundle: Event<RootBundle>)
    : Result<seq<BlockRange>>
  {
    var prev := GetLatestFullyExecutedRootBundle(p, leaves, bundle.pos.block);
    if MainnetStartBlock(prev).None? then Failure("Cannot read properties of undefined")
    else
      var n := |bundle.args.bundleEvaluationBlockNumbers|;
      var result := seq(n, i requires 0 <= i < n => RangeAt(chainId, c, prev, bundle, i));
      if exists i :: 0 <= i < n && IsEnabledAt(chainId, c, prev, bundle, i) && result[i].start >= result[i].end
      then Failure("Invalid block range for enabled chain")
      else Success(result)
  }

  /** Where the range of the i-th chain starts if the chain takes part: one past the predecessor's end for it. */
  function StartAfter(prev: Option<Event<RootBundle>>, i: nat): nat {
    match prev
    case None => 0
    case Some(b) => if i < |b.args.bundleEvaluationBlockNumbers| then b.args.bundleEvaluationBlockNumbers[i] + 1 else 0
  }

  /**
   The chain at this place of the list as of the proposal is listed, and not disabled, as of the mainnet end block of the
   predecessor, or block 0 without one.
   */
  predicate TakesPart(chainId: int, c: Config, prev: Option<Event<RootBundle>>, bundle: Event<RootBundle>, i: nat) {
    var listed := GetChainIdIndicesForBlock(chainId, c, bundle.pos.block);
    && i < |listed|
    && (prev.Some? ==> prev.value.args.bundleEvaluationBlockNumbers != [])
    && var mainnetBlock := if prev.Some? then prev.value.args.bundleEvaluationBlockNumbers[0] else 0;
       && listed[i] in GetChainIdIndicesForBlock(chainId, c, mainnetBlock)
       && listed[i] !in GetDisabledChainsForBlock(c, mainnetBlock)
  }

  /** The bundle follows its predecessor: every chain that takes part ends past its start. */
  ghost predicate Advances(chainId: int, c: Config, prev: Option<Event<RootBundle>>, bundle: Event<RootBundle>) {
    && (prev.Some? ==> prev.value.args.bundleEvaluationBlockNumbers != [])
    && forall i: nat :: i < |bundle.args.bundleEvaluationBlockNumbers| && TakesPart(chainId, c, prev, bundle, i) ==>
         StartAfter(prev, i) < bundle.args.bundleEvaluationBlockNumbers[i]
  }

  /**
   Each chain that takes part gets the blocks from one past the predecessor's end to its own end, every other one its own
   end block alone; it throws exactly if some chain that takes part does not get ahead, or the predecessor's list is empty.
   */
  lemma ImpliedRanges(p: Proposals, leaves: Leaves, chainId: int, c: Config, bundle: Event<RootBundle>)
    ensures var prev := GetLatestFullyExecutedRootBundle(p, leaves, bundle.pos.block);
            var ends := bundle.args.bundleEvaluationBlockNumbers;
            var r := GetImpliedBundleBlockRanges(p, leaves, chainId, c, bundle);
            && (r.Success? <==> Advances(chainId, c, prev, bundle))
            && (r.Success? ==>
                  && |r.value| == |ends|
                  && forall i: nat :: i < |ends| ==>
                       && r.value[i].end == ends[i]
                       && r.value[i].start == if TakesPart(chainId, c, prev, bundle, i) then StartAfter(prev, i) else ends[i])
  {
    var prev := GetLatestFullyExecutedRootBundle(p, leaves, bundle.pos.block);
    forall i: nat ensures IsEnabledAt(chainId, c, prev, bundle, i) <==> TakesPart(chainId, c, prev, bundle, i) {
      EnabledIsTakingPart(chainId, c, prev, bundle, i);
    }
    hide IsEnabledAt, TakesPart, GetLatestFullyExecutedRootBundle;
  }

  lemma EnabledIsTakingPart(chainId: int, c: Config, prev: Option<Event<RootBundle>>, bundle: Event<RootBundle>, i: nat)
    ensures IsEnabledAt(chainId, c, prev, bundle, i) <==> TakesPart(chainId, c, prev, bundle, i)
  {
    var listed := GetChainIdIndicesForBlock(chainId, c, bundle.pos.block);
    if MainnetStartBlock(prev).Some? && i < |listed| {
      var block := MainnetStartBlock(prev).value;
      FilterMembers(GetChainIdIndicesForBlock(chainId, c, block), ConfigStore.NotIn(GetDisabledChainsForBlock(c, block)),
                    listed[i]);
    }
  }

  /** The predecessor that a fully executed bundle is measured against is the fully executed bundle just before it. */
  lemma PredecessorIsPrevious(s: Pool, run: PoolLog, m: int, j: nat)
    requires IsProtocolRun(s, run)
    requires j < |GetValidatedRootBundles(ProposalsIn(run), LeavesIn(run), m)|
    ensures var (p, leaves) := (ProposalsIn(run), LeavesIn(run));
            var v := GetValidatedRootBundles(p, leaves, m);
            GetLatestFullyExecutedRootBundle(p, leaves, v[j].pos.block) == if j == 0 then None else Some(v[j - 1])
  {
    var p, leaves := ProposalsIn(run), LeavesIn(run);
    var v := GetValidatedRootBundles(p, leaves, m);
    FoundBefore(s, run, m, j, v[j].pos.block);
    if j > 0 {
      var k := ValidatedBundle(s, run, m, v[j - 1]);
      CompletedBySuccessor(s, run, m, j, k);
      FoundIsAtLeast(s, run, k, v[j].pos.block);
    }
  }

  lemma CompletedBySuccessor(s: Pool, run: PoolLog, m: int, j: nat, k: nat)
    requires IsProtocolRun(s, run)
    requires var v := GetValidatedRootBundles(ProposalsIn(run), LeavesIn(run), m);
             0 < j < |v| && k < |ProposalsIn(run)| && ProposalsIn(run)[k] == v[j - 1]
    requires CompletedAt(run, k).Some?
    ensures CompletedAt(run, k).value <= GetValidatedRootBundles(ProposalsIn(run), LeavesIn(run), m)[j].pos.block
  {
    var p := ProposalsIn(run);
    var v := GetValidatedRootBundles(p, LeavesIn(run), m);
    var next := ValidatedBundle(s, run, m, v[j]);
    FilterKeepsBlocks(p, IsValidatedAt(p, LeavesIn(run), m));
    assert v[j - 1].pos.block < v[j].pos.block;
    assert forall t :: 0 <= t < k ==> p[t].pos.block < p[k].pos.block;
    assert k < next;
    ValidFromCompletion(s, run, k, m);
    assert k + 1 < next ==> p[k + 1].pos.block < p[next].pos.block;
  }

  /** The i-th chain takes part in every fully executed bundle from the a-th on, and these follow one another. */
  ghost predicate AlwaysEnabled(run: PoolLog, chainId: int, c: Config, m: int, i: nat, a: nat) {
    var (p, leaves) := (ProposalsIn(run), LeavesIn(run));
    var v := GetValidatedRootBundles(p, leaves, m);
    forall j :: a <= j < |v| ==>
      var prev := GetLatestFullyExecutedRootBundle(p, leaves, v[j].pos.block);
      && i < |v[j].args.bundleEvaluationBlockNumbers|
      && TakesPart(chainId, c, prev, v[j], i) && Advances(chainId, c, prev, v[j])
  }

  /** The range of the i-th chain in the j-th fully executed bundle. */
  ghost function ImpliedRange(run: PoolLog, chainId: int, c: Config, m: int, i: nat, j: nat): BlockRange {
    var (p, leaves) := (ProposalsIn(run), LeavesIn(run));
    var v := GetValidatedRootBundles(p, leaves, m);
    if j < |v| then
      var ranges := GetImpliedBundleBlockRanges(p, leaves, chainId, c, v[j]);
      if ranges.Success? && i < |ranges.value| then ranges.value[i] else BlockRange(0, 0)
    else BlockRange(0, 0)
  }

  /** Ranges abut: the first starts at 0 and each later one right after the end of the previous bundle's. */
  lemma RangesAbut(s: Pool, run: PoolLog, chainId: int, c: Config, m: int, i: nat, a: nat, j: nat)
    requires IsProtocolRun(s, run) && AlwaysEnabled(run, chainId, c, m, i, a)
    requires var v := GetValidatedRootBundles(ProposalsIn(run), LeavesIn(run), m);
             && a <= j < |v|
             && (a > 0 ==> i >= |v[a - 1].args.bundleEvaluationBlockNumbers|)
    ensures var v := GetValidatedRootBundles(ProposalsIn(run), LeavesIn(run), m);
            var range := ImpliedRange(run, chainId, c, m, i, j);
            && range.end == v[j].args.bundleEvaluationBlockNumbers[i]
            && range.start < range.end
            && range.start == if j == a then 0 else ImpliedRange(run, chainId, c, m, i, j - 1).end + 1
  {
    var (p, leaves) := (ProposalsIn(run), LeavesIn(run));
    var v := GetValidatedRootBundles(p, leaves, m);
    PredecessorIsPrevious(s, run, m, j);
    ImpliedRanges(p, leaves, chainId, c, v[j]);
    if j > a {
      PredecessorIsPrevious(s, run, m, j - 1);
      ImpliedRanges(p, leaves, chainId, c, v[j - 1]);
    }
    hide GetImpliedBundleBlockRanges, TakesPart, GetLatestFullyExecutedRootBundle, GetValidatedRootBundles;
  }

  // ---------- where the next bundle starts ----------

  /** `getLatestBundleEndBlockForChain`. */
  function GetLatestBundleEndBlockForChain(p: Proposals, leaves: Leaves, chainIdList: ChainList, latestMainnetBlock: int,
                                           chain: int): nat
  {
    match GetLatestFullyExecutedRootBundle(p, leaves, latestMainnetBlock)
    case None => 0
    case Some(bundle) => GetBundleEndBlockForChain(bundle.args.bundleEvaluationBlockNumbers, chain, chainIdList)
  }

  /** `getNextBundleStartBlockNumber`: what a proposer starts the next bundle from. */
  function GetNextBundleStartBlockNumber(p: Proposals, leaves: Leaves, chainIdList: ChainList, latestMainnetBlock: int,
                                         chain: int): nat
  {
    var endBlock := GetLatestBundleEndBlockForChain(p, leaves, chainIdList, latestMainnetBlock, chain);
    if endBlock > 0 then endBlock + 1 else 0
  }

  /** The proposer's start block, asked for in the block of the proposal, is the one its bundle is later read to have. */
  lemma NextStartIsImpliedStart(s: Pool, run: PoolLog, chainId: int, c: Config, m: int, i: nat, a: nat, j: nat,
                                chainIdList: ChainList, chain: int)
    requires IsProtocolRun(s, run) && AlwaysEnabled(run, chainId, c, m, i, a)
    requires var v := GetValidatedRootBundles(ProposalsIn(run), LeavesIn(run), m);
             && a <= j < |v|
             && (a > 0 ==> i >= |v[a - 1].args.bundleEvaluationBlockNumbers|)
    requires IndexOf(chainIdList, chain) == Some(i)
    ensures var (p, leaves) := (ProposalsIn(run), LeavesIn(run));
            var v := GetValidatedRootBundles(p, leaves, m);
            GetNextBundleStartBlockNumber(p, leaves, chainIdList, v[j].pos.block, chain)
            == ImpliedRange(run, chainId, c, m, i, j).start
  {
    PredecessorIsPrevious(s, run, m, j);
    RangesAbut(s, run, chainId, c, m, i, a, j);
    if j > a {
      RangesAbut(s, run, chainId, c, m, i, a, j - 1);
    }
    hide ImpliedRange, AlwaysEnabled, IsProtocolRun, GetLatestFullyExecutedRootBundle, GetValidatedRootBundles;
  }

  // ---------- the ranges tile the chain ----------

  ghost predicate Covers(r: BlockRange, block: nat) {
    r.start <= block <= r.end
  }

  /**
   Over the fully executed bundles of any run, the ranges of an always-enabled chain cover every block up to the last
   end, each exactly once.
   */
  lemma {:induction false} RangesTile(s: Pool, run: PoolLog, chainId: int, c: Config, m: int, i: nat, a: nat, b: nat,
                                      block: nat)
    returns (j: nat)
    requires IsProtocolRun(s, run) && AlwaysEnabled(run, chainId, c, m, i, a)
    requires var v := GetValidatedRootBundles(ProposalsIn(run), LeavesIn(run), m);
             && a <= b < |v|
             && (a > 0 ==> i >= |v[a - 1].args.bundleEvaluationBlockNumbers|)
    requires block <= ImpliedRange(run, chainId, c, m, i, b).end
    ensures a <= j <= b && Covers(ImpliedRange(run, chainId, c, m, i, j), block)
    ensures forall k :: a <= k <= b && Covers(ImpliedRange(run, chainId, c, m, i, k), block) ==> k == j
    decreases b
  {
    hide *;
    RangesAbut(s, run, chainId, c, m, i, a, b);
    if block >= ImpliedRange(run, chainId, c, m, i, b).start {
      j := b;
      forall k | a <= k < b ensures !Covers(ImpliedRange(run, chainId, c, m, i, k), block) {
        EndsBefore(s, run, chainId, c, m, i, a, k, b);
        NotCovered(ImpliedRange(run, chainId, c, m, i, k), block);
      }
      Covered(ImpliedRange(run, chainId, c, m, i, b), block);
    } else {
      j := RangesTile(s, run, chainId, c, m, i, a, b - 1, block);
      NotCovered(ImpliedRange(run, chainId, c, m, i, b), block);
    }
  }

  lemma Covered(r: BlockRange, block: nat)
    requires r.start <= block <= r.end
    ensures Covers(r, block)
  {
  }

  lemma NotCovered(r: BlockRange, block: nat)
    requires block < r.start || block > r.end
    ensures !Covers(r, block)
  {
  }

  lemma {:induction false} EndsBefore(s: Pool, run: PoolLog, chainId: int, c: Config, m: int, i: nat, a: nat, k: nat, b: nat)
    requires IsProtocolRun(s, run) && AlwaysEnabled(run, chainId, c, m, i, a)
    requires var v := GetValidatedRootBundles(ProposalsIn(run), LeavesIn(run), m);
             && a <= k < b < |v|
             && (a > 0 ==> i >= |v[a - 1].args.bundleEvaluationBlockNumbers|)
    ensures ImpliedRange(run, chainId, c, m, i, k).end < ImpliedRange(run, chainId, c, m, i, b).start
    decreases b
  {
    hide *;
    RangesAbut(s, run, chainId, c, m, i, a, b);
    RangesAbut(s, run, chainId, c, m, i, a, b - 1);
    if k < b - 1 {
      EndsBefore(s, run, chainId, c, m, i, a, k, b - 1);
    }
  }
}
