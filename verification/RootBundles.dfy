/**
 Root bundles: the HubPool's propose / dispute / cancel / execute protocol, and how the client tells from its logs which
 bundles were fully executed (src/clients/HubPoolClient.ts:512-681).
 */
module RootBundles {
  import opened Wrappers
  import opened Numbers
  import opened Sequences
  import opened EventUtils
  import opened ObjectUtils

  datatype RootBundle = RootBundle(poolRebalanceLeafCount: nat, bundleEvaluationBlockNumbers: seq<nat>)

  datatype Leaf = Leaf(chainId: nat, leafId: nat)

  type Proposals = seq<Event<RootBundle>>
  type Leaves = seq<Event<Leaf>>

  // ---------- the protocol ----------

  datatype PoolEvent =
    | ProposeRootBundle(bundle: RootBundle)
    | RootBundleExecuted(leaf: Leaf)
    | RootBundleDisputed
    | RootBundleCanceled

  type PoolLog = seq<Event<PoolEvent>>

  /** The pending proposal: how many of its leaves are unclaimed, and the block it was made in. */
  datatype Pool = Pool(unclaimed: nat, proposalBlock: int)

  /**
   What the contract allows: propose when nothing is unclaimed, execute a leaf strictly after the block of its
   proposal, dispute or cancel a pending proposal.
   */
  predicate Allows(s: Pool, e: Event<PoolEvent>) {
    match e.args
    case ProposeRootBundle(bundle) => s.unclaimed == 0 && bundle.poolRebalanceLeafCount > 0
    case RootBundleExecuted(_) => s.unclaimed > 0 && e.pos.block > s.proposalBlock
    case RootBundleDisputed => s.unclaimed > 0
    case RootBundleCanceled => s.unclaimed > 0
  }

  function Step(s: Pool, e: Event<PoolEvent>): Pool {
    match e.args
    case ProposeRootBundle(bundle) => Pool(bundle.poolRebalanceLeafCount, e.pos.block)
    case RootBundleExecuted(_) => s.(unclaimed := if s.unclaimed > 0 then s.unclaimed - 1 else 0)
    case _ => s.(unclaimed := 0)
  }

  function After(s: Pool, run: PoolLog): Pool {
    if run == [] then s else Step(After(s, Init(run)), Last(run))
  }

  /** A run of the contract from any state, whose proposal may predate the first block searched. */
  ghost predicate IsRun(s: Pool, run: PoolLog) {
    run != [] ==> IsRun(s, Init(run)) && Allows(After(s, Init(run)), Last(run))
  }

  function ProposalOf(e: Event<PoolEvent>): Option<Event<RootBundle>> {
    if e.args.ProposeRootBundle? then Some(Event(e.pos, e.args.bundle)) else None
  }

  function LeafOf(e: Event<PoolEvent>): Option<Event<Leaf>> {
    if e.args.RootBundleExecuted? then Some(Event(e.pos, e.args.leaf)) else None
  }

  /** `proposedRootBundles` and `executedRootBundles`: the client keeps the two kinds of events apart. */
  function ProposalsIn(run: PoolLog): Proposals { Collect(run, ProposalOf) }

  function LeavesIn(run: PoolLog): Leaves { Collect(run, LeafOf) }

  predicate IsProposal(e: Event<PoolEvent>) { e.args.ProposeRootBundle? }

  predicate IsExecution(e: Event<PoolEvent>) { e.args.RootBundleExecuted? }

  function AnyEvent<T>(): Event<T> -> bool {
    (e: Event<T>) => true
  }

  /** Both lists are the events of their kind, as logged and in order. */
  lemma ListsFromTheRun(run: PoolLog)
    ensures var (made, p) := (Filter(run, IsProposal), ProposalsIn(run));
            |p| == |made| && forall i :: 0 <= i < |p| ==>
              made[i].args.ProposeRootBundle? && p[i].pos == made[i].pos && p[i].args == made[i].args.bundle
    ensures var (made, leaves) := (Filter(run, IsExecution), LeavesIn(run));
            |leaves| == |made| && forall i :: 0 <= i < |leaves| ==>
              made[i].args.RootBundleExecuted? && leaves[i].pos == made[i].pos && leaves[i].args == made[i].args.leaf
  {
    CollectedAre(run, ProposalOf, AnyEvent<RootBundle>(), IsProposal);
    CollectedAre(run, LeafOf, AnyEvent<Leaf>(), IsExecution);
    FilterAll(ProposalsIn(run), AnyEvent<RootBundle>());
    FilterAll(LeavesIn(run), AnyEvent<Leaf>());
    var (proposals, executions) := (Filter(run, IsProposal), Filter(run, IsExecution));
    forall i | 0 <= i < |proposals|
      ensures proposals[i].args.ProposeRootBundle? && ProposalsIn(run)[i] == Event(proposals[i].pos, proposals[i].args.bundle)
    {
      assert ProposalOf(proposals[i]) == Some(ProposalsIn(run)[i]);
    }
    forall i | 0 <= i < |executions|
      ensures executions[i].args.RootBundleExecuted? && LeavesIn(run)[i] == Event(executions[i].pos, executions[i].args.leaf)
    {
      assert LeafOf(executions[i]) == Some(LeavesIn(run)[i]);
    }
  }

  /** The leaves executed while the k-th proposal of the run was the pending one. */
  function LeavesOf(run: PoolLog, k: nat): Leaves {
    if run == [] then []
    else if Last(run).args.RootBundleExecuted? && |ProposalsIn(Init(run))| == k + 1
    then LeavesOf(Init(run), k) + [Event(Last(run).pos, Last(run).args.leaf)]
    else LeavesOf(Init(run), k)
  }

  ghost predicate OneProposalPerBlock(p: Proposals) {
    forall i, j :: 0 <= i < j < |p| ==> p[i].pos.block < p[j].pos.block
  }

  /** A run as the chain logs it. */
  ghost predicate IsLoggedRun(s: Pool, run: PoolLog) {
    IsLog(run) && IsRun(s, run)
  }

  /** The run and the hypothesis under which the client reads it. */
  ghost predicate IsProtocolRun(s: Pool, run: PoolLog) {
    IsLoggedRun(s, run) && OneProposalPerBlock(ProposalsIn(run))
  }

  /** All leaves of the k-th proposal have been executed, the last of them at or before block `m`. */
  ghost predicate FullyExecutedBy(run: PoolLog, k: nat, m: int) {
    && k < |ProposalsIn(run)|
    && |LeavesOf(run, k)| == ProposalsIn(run)[k].args.poolRebalanceLeafCount
    && forall leaf :: leaf in LeavesOf(run, k) ==> leaf.pos.block <= m
  }

  // ---------- the client's queries ----------

  /** `getFollowingRootBundle`, which finds its bundle by block number. */
  function GetFollowingRootBundle(p: Proposals, bundle: Event<RootBundle>): Option<Event<RootBundle>> {
    match LastIndexInBlock(p, bundle.pos.block)
    case None => None
    case Some(i) => if i == |p| - 1 then None else Some(p[i + 1])
  }

  /** lodash `_.findLastIndex(p, (bundle) => bundle.blockNumber === block)`. */
  function LastIndexInBlock(p: Proposals, block: nat): (i: Option<nat>)
    ensures i.Some? ==> i.value < |p| && p[i.value].pos.block == block
    ensures i.Some? ==> forall j :: i.value < j < |p| ==> p[j].pos.block != block
    ensures i.None? ==> forall j :: 0 <= j < |p| ==> p[j].pos.block != block
  {
    if p == [] then None
    else if Last(p).pos.block == block then Some(|p| - 1)
    else
      assert forall j :: 0 <= j < |p| - 1 ==> Init(p)[j] == p[j];
      LastIndexInBlock(Init(p), block)
  }

  function ExecutedIn(after: int, upTo: int): Event<Leaf> -> bool {
    (leaf: Event<Leaf>) => leaf.pos.block <= upTo && leaf.pos.block > after
  }

  function GetExecutedLeavesForRootBundle(leaves: Leaves, bundle: Event<RootBundle>, latestMainnetBlock: int): Leaves {
    Filter(leaves, ExecutedIn(bundle.pos.block, latestMainnetBlock))
  }

  predicate IsRootBundleValid(p: Proposals, leaves: Leaves, bundle: Event<RootBundle>, latestMainnetBlock: int) {
    var next := GetFollowingRootBundle(p, bundle);
    var upTo := if next.Some? then Min(next.value.pos.block, latestMainnetBlock) else latestMainnetBlock;
    |GetExecutedLeavesForRootBundle(leaves, bundle, upTo)| == bundle.args.poolRebalanceLeafCount
  }

  function IsValidatedAt(p: Proposals, leaves: Leaves, latestMainnetBlock: int): Event<RootBundle> -> bool {
    (bundle: Event<RootBundle>) =>
      bundle.pos.block <= latestMainnetBlock && IsRootBundleValid(p, leaves, bundle, latestMainnetBlock)
  }

  function GetValidatedRootBundles(p: Proposals, leaves: Leaves, latestMainnetBlock: int): Proposals {
    Filter(p, IsValidatedAt(p, leaves, latestMainnetBlock))
  }

  function GetLatestFullyExecutedRootBundle(p: Proposals, leaves: Leaves, latestMainnetBlock: int): Option<Event<RootBundle>> {
    FindLast(p, IsValidatedAt(p, leaves, latestMainnetBlock))
  }

  function IsValidatedFrom(p: Proposals, leaves: Leaves, latestMainnetBlock: int, startBlock: int): Event<RootBundle> -> bool {
    (bundle: Event<RootBundle>) =>
      && bundle.pos.block <= latestMainnetBlock
      && !(bundle.pos.block < startBlock)
      && IsRootBundleValid(p, leaves, bundle, latestMainnetBlock)
  }

  function GetEarliestFullyExecutedRootBundle(p: Proposals, leaves: Leaves, latestMainnetBlock: int, startBlock: int)
    : Option<Event<RootBundle>>
  {
    Find(p, IsValidatedFrom(p, leaves, latestMainnetBlock, startBlock))
  }

  // ---------- leaves belong to the proposal before them ----------

  /** Blocks in which leaves of the k-th proposal can be executed. */
  function LeafWindow(p: Proposals, k: nat): Event<Leaf> -> bool
    requires k < |p|
  {
    (leaf: Event<Leaf>) =>
      leaf.pos.block > p[k].pos.block && (k + 1 < |p| ==> leaf.pos.block <= p[k + 1].pos.block)
  }

  lemma {:induction false} CollectKeepsOrder<A, B>(log: seq<Event<A>>, f: Event<A> -> Option<Event<B>>)
    requires forall e :: f(e).Some? ==> f(e).value.pos == e.pos
    requires IsLog(log)
    ensures IsLog(Collect(log, f))
  {
    if log != [] {
      InitKeepsOrder(Ascending, log);
      CollectKeepsOrder(Init(log), f);
      forall x | x in Collect(Init(log), f) ensures Older(x.pos, Last(log).pos) {
        CollectMembers(Init(log), f, x);
        var e :| e in Init(log) && f(e) == Some(x);
        var i :| 0 <= i < |Init(log)| && Init(log)[i] == e;
        assert log[i] == e;
      }
    }
  }

  lemma InitIsLogged(s: Pool, run: PoolLog)
    requires run != [] && IsLoggedRun(s, run)
    ensures IsLoggedRun(s, Init(run))
    ensures ProposalsIn(Init(run)) <= ProposalsIn(run)
  {
    assert forall k :: 0 <= k < |Init(run)| ==> Init(run)[k] == run[k];
  }

  lemma InitIsRun(s: Pool, run: PoolLog)
    requires run != [] && IsProtocolRun(s, run)
    ensures IsProtocolRun(s, Init(run))
    ensures ProposalsIn(Init(run)) <= ProposalsIn(run)
  {
    InitIsLogged(s, run);
    assert forall k :: 0 <= k < |ProposalsIn(Init(run))| ==> ProposalsIn(Init(run))[k] == ProposalsIn(run)[k];
  }

  lemma {:induction false} CollectedBlocks(run: PoolLog, block: int)
    requires forall e :: e in run ==> e.pos.block <= block
    ensures forall leaf :: leaf in LeavesIn(run) ==> leaf.pos.block <= block
    ensures forall b :: b in ProposalsIn(run) ==> b.pos.block <= block
  {
    if run != [] {
      assert run == Init(run) + [Last(run)];
      CollectedBlocks(Init(run), block);
    }
  }

  /** Everything already in the log is no later than its last event. */
  lemma NoneLater(run: PoolLog)
    requires run != [] && IsLog(run)
    ensures forall e :: e in Init(run) ==> e.pos.block <= Last(run).pos.block
  {
    forall e | e in Init(run) ensures e.pos.block <= Last(run).pos.block {
      var k :| 0 <= k < |Init(run)| && Init(run)[k] == e;
      assert Older(run[k].pos, run[|run| - 1].pos);
    }
  }

  /** The pending proposal is the last one made. */
  lemma {:induction false} PendingIsLast(s: Pool, run: PoolLog)
    ensures ProposalsIn(run) != [] ==> After(s, run).proposalBlock == Last(ProposalsIn(run)).pos.block
    ensures ProposalsIn(run) == [] ==> After(s, run).proposalBlock == s.proposalBlock
  {
    if run != [] {
      PendingIsLast(s, Init(run));
    }
  }

  /** A bundle's leaves and its unclaimed leaves never add up to more than it has. */
  lemma {:induction false} LeavesWithinCount(s: Pool, run: PoolLog, k: nat)
    requires IsRun(s, run) && k < |ProposalsIn(run)|
    ensures |LeavesOf(run, k)| <= ProposalsIn(run)[k].args.poolRebalanceLeafCount
    ensures k == |ProposalsIn(run)| - 1 ==>
              |LeavesOf(run, k)| + After(s, run).unclaimed <= ProposalsIn(run)[k].args.poolRebalanceLeafCount
  {
    if k < |ProposalsIn(Init(run))| {
      LeavesWithinCount(s, Init(run), k);
    } else {
      NoLeavesYet(Init(run), k);
    }
  }

  lemma {:induction false} NoLeavesYet(run: PoolLog, k: nat)
    requires |ProposalsIn(run)| <= k
    ensures LeavesOf(run, k) == []
  {
    if run != [] {
      NoLeavesYet(Init(run), k);
    }
  }

  /** The next proposal, if any, is in a later block. */
  predicate ClosesBlock(p: Proposals, k: nat) {
    k < |p| && (k + 1 < |p| ==> p[k].pos.block < p[k + 1].pos.block)
  }

  /** The last proposal in the block of the k-th one. */
  function Closing(p: Proposals, k: nat): (j: nat)
    requires k < |p|
    ensures k <= j < |p| && p[j].pos.block == p[k].pos.block
  {
    LastIndexInBlock(p, p[k].pos.block).value
  }

  lemma ClosingCloses(run: PoolLog, k: nat)
    requires IsLog(run) && k < |ProposalsIn(run)|
    ensures ClosesBlock(ProposalsIn(run), Closing(ProposalsIn(run), k))
    ensures OneProposalPerBlock(ProposalsIn(run)) ==> Closing(ProposalsIn(run), k) == k
  {
    var p := ProposalsIn(run);
    CollectKeepsOrder(run, ProposalOf);
    var j := Closing(p, k);
    if j + 1 < |p| {
      assert Older(p[j].pos, p[j + 1].pos);
    }
  }

  /** In every run the leaves executed after a block with proposals, up to the next such block, are those of its last one. */
  lemma {:induction false} WindowHoldsOwnLeaves(s: Pool, run: PoolLog, k: nat)
    requires IsLoggedRun(s, run) && ClosesBlock(ProposalsIn(run), k)
    ensures Filter(LeavesIn(run), LeafWindow(ProposalsIn(run), k)) == LeavesOf(run, k)
  {
    var p, e := ProposalsIn(run), Last(run);
    var p0, leaves := ProposalsIn(Init(run)), LeavesIn(Init(run));
    InitIsLogged(s, run);
    EarlierLeavesKeepWindow(s, run, k);
    LastLeafInWindow(s, run, k);
    if k < |p0| {
      assert p0[k] == p[k] && (k + 1 < |p0| ==> p0[k + 1] == p[k + 1]);
      WindowHoldsOwnLeaves(s, Init(run), k);
    } else {
      NoLeavesYet(Init(run), k);
    }
    hide IsLoggedRun, LeafWindow;
  }

  /** A leaf just executed is in the window of the pending proposal and in no other. */
  lemma LastLeafInWindow(s: Pool, run: PoolLog, k: nat)
    requires run != [] && IsLoggedRun(s, run) && ClosesBlock(ProposalsIn(run), k)
    ensures Last(run).args.RootBundleExecuted? ==>
              (LeafWindow(ProposalsIn(run), k)(Event(Last(run).pos, Last(run).args.leaf))
               <==> |ProposalsIn(Init(run))| == k + 1)
  {
    var p := ProposalsIn(run);
    PendingIsLast(s, Init(run));
    CollectKeepsOrder(run, ProposalOf);
    assert k + 1 < |p| - 1 ==> Older(p[k + 1].pos, p[|p| - 1].pos);
  }

  /** The last event changes nothing about the leaves before it. */
  lemma EarlierLeavesKeepWindow(s: Pool, run: PoolLog, k: nat)
    requires run != [] && IsLoggedRun(s, run) && k < |ProposalsIn(run)|
    ensures var (p, p0, leaves) := (ProposalsIn(run), ProposalsIn(Init(run)), LeavesIn(Init(run)));
            Filter(leaves, LeafWindow(p, k)) == if k < |p0| then Filter(leaves, LeafWindow(p0, k)) else []
  {
    var p, p0, leaves := ProposalsIn(run), ProposalsIn(Init(run)), LeavesIn(Init(run));
    InitIsLogged(s, run);
    NoneLater(run);
    CollectedBlocks(Init(run), Last(run).pos.block);
    if k < |p0| {
      FilterAgree(leaves, LeafWindow(p, k), LeafWindow(p0, k));
    } else {
      FilterNone(leaves, LeafWindow(p, k));
    }
  }

  /** A bundle's leaves come in order, after its own block and no later than the next proposal. */
  lemma {:induction false} LeavesAreOrdered(s: Pool, run: PoolLog, k: nat)
    requires IsLoggedRun(s, run) && k < |ProposalsIn(run)|
    ensures ProposalsIn(run)[k].args.poolRebalanceLeafCount > 0
    ensures forall leaf :: leaf in LeavesOf(run, k) ==>
              && ProposalsIn(run)[k].pos.block < leaf.pos.block <= Last(LeavesOf(run, k)).pos.block
              && (k + 1 < |ProposalsIn(run)| ==> leaf.pos.block <= ProposalsIn(run)[k + 1].pos.block)
              && leaf.pos.block <= Last(run).pos.block
  {
    InitIsLogged(s, run);
    NoneLater(run);
    PendingIsLast(s, Init(run));
    CollectedBlocks(Init(run), Last(run).pos.block);
    var p0 := ProposalsIn(Init(run));
    if k < |p0| {
      LeavesAreOrdered(s, Init(run), k);
      if Init(run) != [] {
        assert Last(Init(run)) in Init(run);
      }
    } else {
      NoLeavesYet(Init(run), k);
    }
  }

  lemma {:induction false} LeavesInOrder(s: Pool, run: PoolLog, k: nat)
    requires IsLoggedRun(s, run) && k < |ProposalsIn(run)|
    ensures InOrder(LeavesOf(run, k))
  {
    InitIsLogged(s, run);
    LeavesAreOrdered(s, run, k);
    if k < |ProposalsIn(Init(run))| {
      LeavesInOrder(s, Init(run), k);
    } else {
      NoLeavesYet(Init(run), k);
    }
    hide IsLoggedRun;
  }

  /** A proposal replaced within its own block has no leaves. */
  lemma ReplacedHasNoLeaves(s: Pool, run: PoolLog, k: nat)
    requires IsLoggedRun(s, run) && k < |ProposalsIn(run)| && Closing(ProposalsIn(run), k) != k
    ensures LeavesOf(run, k) == []
  {
    var p, leaves := ProposalsIn(run), LeavesOf(run, k);
    assert leaves != [] ==> leaves[0] in leaves;
    LeavesAreOrdered(s, run, k);
    CollectKeepsOrder(run, ProposalOf);
    var j := Closing(p, k);
    assert k + 1 < j ==> Older(p[k + 1].pos, p[j].pos);
  }

  function UpTo(m: int): Event<Leaf> -> bool {
    (leaf: Event<Leaf>) => leaf.pos.block <= m
  }

  /** What the client counts for a bundle are the leaves of the last proposal in its block, up to the block asked about. */
  lemma CountedLeaves(s: Pool, run: PoolLog, k: nat, m: int)
    requires IsLoggedRun(s, run) && k < |ProposalsIn(run)|
    ensures var (p, leaves) := (ProposalsIn(run), LeavesIn(run));
            IsRootBundleValid(p, leaves, p[k], m)
            <==> |Filter(LeavesOf(run, Closing(p, k)), UpTo(m))| == p[k].args.poolRebalanceLeafCount
  {
    var p, leaves := ProposalsIn(run), LeavesIn(run);
    var j := Closing(p, k);
    ClosingCloses(run, k);
    WindowHoldsOwnLeaves(s, run, j);
    var upTo := if j + 1 < |p| then Min(p[j + 1].pos.block, m) else m;
    FilterTwice(leaves, LeafWindow(p, j), UpTo(m), ExecutedIn(p[k].pos.block, upTo));
  }

  lemma {:induction false} FilterShortens<T>(s: seq<T>, p: T -> bool)
    ensures |Filter(s, p)| <= |s|
    ensures |Filter(s, p)| == |s| ==> forall x :: x in s ==> p(x)
  {
    if s != [] {
      assert s == Init(s) + [Last(s)];
      FilterShortens(Init(s), p);
    }
  }

  /**
   For every run of the protocol, and every bundle that is the last proposed in its block, `isRootBundleValid(b, m)`
   holds exactly when every leaf of `b` was executed at or before block `m`: leaves of other bundles never count, even
   where a bundle's last leaf and the next proposal share a block.
   */
  lemma ValidMeansFullyExecuted(s: Pool, run: PoolLog, k: nat, m: int)
    requires IsLoggedRun(s, run) && k < |ProposalsIn(run)|
    requires Closing(ProposalsIn(run), k) == k
    ensures IsRootBundleValid(ProposalsIn(run), LeavesIn(run), ProposalsIn(run)[k], m) <==> FullyExecutedBy(run, k, m)
  {
    CountedLeaves(s, run, k, m);
    LeavesWithinCount(s, run, k);
    FilterShortens(LeavesOf(run, k), UpTo(m));
    if FullyExecutedBy(run, k, m) {
      FilterAll(LeavesOf(run, k), UpTo(m));
    }
  }

  /** With one proposal per block, every bundle is judged rightly. */
  lemma ProtocolRunIsJudgedRight(s: Pool, run: PoolLog, k: nat, m: int)
    requires IsProtocolRun(s, run) && k < |ProposalsIn(run)|
    ensures IsRootBundleValid(ProposalsIn(run), LeavesIn(run), ProposalsIn(run)[k], m) <==> FullyExecutedBy(run, k, m)
  {
    ClosingCloses(run, k);
    ValidMeansFullyExecuted(s, run, k, m);
  }

  /** Leaf `c` is executed in a later block than leaf `c - 1`, or there is none. */
  predicate StopsAt(leaves: Leaves, c: nat) {
    0 < c <= |leaves| && (c < |leaves| ==> leaves[c - 1].pos.block < leaves[c].pos.block)
  }

  ghost predicate InOrder(leaves: Leaves) {
    forall i, j :: 0 <= i <= j < |leaves| ==> leaves[i].pos.block <= leaves[j].pos.block
  }

  /** The leaves executed by a block are the first so many. */
  lemma {:induction false} CountIsPrefix(leaves: Leaves, m: int) returns (n: nat)
    requires InOrder(leaves)
    ensures n <= |leaves| && Filter(leaves, UpTo(m)) == leaves[..n]
    ensures forall i :: 0 <= i < |leaves| ==> (leaves[i].pos.block <= m <==> i < n)
  {
    if leaves == [] {
      n := 0;
    } else if Last(leaves).pos.block <= m {
      n := |leaves|;
      FilterAll(leaves, UpTo(m));
    } else {
      n := CountIsPrefix(Init(leaves), m);
      assert Init(leaves)[..n] == leaves[..n];
    }
  }

  /** At some block exactly `c` of the leaves have been executed, or at none. */
  lemma CountReachedIff(leaves: Leaves, c: nat)
    requires c > 0 && InOrder(leaves)
    ensures StopsAt(leaves, c) ==> |Filter(leaves, UpTo(leaves[c - 1].pos.block))| == c
    ensures (exists m: int :: |Filter(leaves, UpTo(m))| == c) ==> StopsAt(leaves, c)
  {
    if StopsAt(leaves, c) {
      var n := CountIsPrefix(leaves, leaves[c - 1].pos.block);
    }
    if m: int :| |Filter(leaves, UpTo(m))| == c {
      var n := CountIsPrefix(leaves, m);
    }
  }

  /**
   In any run at all, `isRootBundleValid` is right about a bundle at every block if and only if the bundle is the last
   proposed in its block, or the leaves of that last one never number exactly as many as the bundle has: they are fewer,
   or the leaf that would reach the number shares its block with the next.
   */
  lemma JudgedRightIff(s: Pool, run: PoolLog, k: nat)
    requires IsLoggedRun(s, run) && k < |ProposalsIn(run)|
    ensures var (p, leaves) := (ProposalsIn(run), LeavesIn(run));
            var j := Closing(p, k);
            (forall m: int :: IsRootBundleValid(p, leaves, p[k], m) <==> FullyExecutedBy(run, k, m))
            <==> j == k || !StopsAt(LeavesOf(run, j), p[k].args.poolRebalanceLeafCount)
  {
    var p := ProposalsIn(run);
    var j, c := Closing(p, k), p[k].args.poolRebalanceLeafCount;
    LeavesAreOrdered(s, run, k);
    LeavesInOrder(s, run, j);
    CountReachedIff(LeavesOf(run, j), c);
    forall m: int
      ensures IsRootBundleValid(p, LeavesIn(run), p[k], m) <==> |Filter(LeavesOf(run, j), UpTo(m))| == c
    {
      CountedLeaves(s, run, k, m);
    }
    if j == k {
      forall m: int ensures IsRootBundleValid(p, LeavesIn(run), p[k], m) <==> FullyExecutedBy(run, k, m) {
        ValidMeansFullyExecuted(s, run, k, m);
      }
    } else {
      ReplacedHasNoLeaves(s, run, k);
      assert forall m: int :: !FullyExecutedBy(run, k, m);
      if StopsAt(LeavesOf(run, j), c) {
        var m := LeavesOf(run, j)[c - 1].pos.block;
        assert IsRootBundleValid(p, LeavesIn(run), p[k], m);
      }
    }
  }

  /** While a proposal is pending, its leaves are either executed or unclaimed. */
  lemma {:induction false} UnclaimedAreOutstanding(s: Pool, run: PoolLog)
    requires IsRun(s, run) && ProposalsIn(run) != [] && After(s, run).unclaimed > 0
    ensures |LeavesOf(run, |ProposalsIn(run)| - 1)| + After(s, run).unclaimed
            == Last(ProposalsIn(run)).args.poolRebalanceLeafCount
  {
    if Last(run).args.ProposeRootBundle? {
      NoLeavesYet(Init(run), |ProposalsIn(run)| - 1);
    } else {
      UnclaimedAreOutstanding(s, Init(run));
    }
  }

  lemma {:induction false} LaterLeaves(run: PoolLog, more: PoolLog, k: nat, m: int)
    requires forall e :: e in more ==> e.pos.block > m
    ensures Filter(LeavesOf(run + more, k), UpTo(m)) == Filter(LeavesOf(run, k), UpTo(m))
    ensures k < |ProposalsIn(run)| ==> k < |ProposalsIn(run + more)| && ProposalsIn(run + more)[k] == ProposalsIn(run)[k]
  {
    if more == [] {
      assert run + more == run;
    } else {
      assert Init(run + more) == run + Init(more);
      assert more == Init(more) + [Last(more)];
      LaterLeaves(run, Init(more), k, m);
    }
  }

  /** Whether a bundle was fully executed by a block is settled once the log has been read up to that block. */
  lemma FullExecutionIsFinal(s: Pool, run: PoolLog, more: PoolLog, k: nat, m: int)
    requires IsProtocolRun(s, run + more) && k < |ProposalsIn(run)|
    requires forall e :: e in more ==> e.pos.block > m
    ensures IsProtocolRun(s, run)
    ensures FullyExecutedBy(run, k, m) <==> FullyExecutedBy(run + more, k, m)
  {
    PrefixIsRun(s, run, more);
    LaterLeaves(run, more, k, m);
    ClosingCloses(run, k);
    ClosingCloses(run + more, k);
    CountedLeaves(s, run, k, m);
    CountedLeaves(s, run + more, k, m);
    ValidMeansFullyExecuted(s, run, k, m);
    ValidMeansFullyExecuted(s, run + more, k, m);
  }

  lemma {:induction false} PrefixIsRun(s: Pool, run: PoolLog, more: PoolLog)
    requires IsProtocolRun(s, run + more)
    ensures IsProtocolRun(s, run)
  {
    if more == [] {
      assert run + more == run;
    } else {
      assert Init(run + more) == run + Init(more);
      InitIsRun(s, run + more);
      PrefixIsRun(s, run, Init(more));
    }
  }

  // Two proposals in one block, the first disputed before the second.

  const FIRST := Event(LogPos(5, 0, 0), RootBundle(1, [7]))
  const SECOND := Event(LogPos(5, 2, 0), RootBundle(1, [9]))
  const PROPOSED_TWICE: PoolLog := [Event(FIRST.pos, ProposeRootBundle(FIRST.args)),
                                    Event(LogPos(5, 1, 0), RootBundleDisputed),
                                    Event(SECOND.pos, ProposeRootBundle(SECOND.args))]
  const SECOND_LEAF := Event(LogPos(6, 0, 0), Leaf(1, 0))
  const SAME_BLOCK_RUN: PoolLog := PROPOSED_TWICE + [Event(SECOND_LEAF.pos, RootBundleExecuted(SECOND_LEAF.args))]

  lemma ProposedTwice()
    ensures IsRun(Pool(0, 0), PROPOSED_TWICE) && After(Pool(0, 0), PROPOSED_TWICE) == Pool(1, 5)
    ensures ProposalsIn(PROPOSED_TWICE) == [FIRST, SECOND] && LeavesIn(PROPOSED_TWICE) == []
    ensures LeavesOf(PROPOSED_TWICE, 0) == []
  {
    var run := PROPOSED_TWICE;
    assert run[..0] == [] && Init(run[..1]) == run[..0] && Init(run[..2]) == run[..1] && Init(run) == run[..2];
    assert After(Pool(0, 0), run[..1]) == Pool(1, 5) && IsRun(Pool(0, 0), run[..1]);
    assert After(Pool(0, 0), run[..2]) == Pool(0, 5) && IsRun(Pool(0, 0), run[..2]);
    assert run[..1] == [] + [run[0]] && run[..2] == run[..1] + [run[1]] && run == run[..2] + [run[2]];
    CollectSnoc([], run[0], ProposalOf);
    CollectSnoc(run[..1], run[1], ProposalOf);
    CollectSnoc(run[..2], run[2], ProposalOf);
    CollectSnoc([], run[0], LeafOf);
    CollectSnoc(run[..1], run[1], LeafOf);
    CollectSnoc(run[..2], run[2], LeafOf);
    assert LeavesOf(run[..0], 0) == [];
    assert LeavesOf(run[..1], 0) == LeavesOf(run[..0], 0);
    assert LeavesOf(run[..2], 0) == LeavesOf(run[..1], 0);
  }

  /** The first bundle is taken for the second and passes as fully executed, though none of its leaves was. */
  lemma TwoProposalsInOneBlock()
    ensures IsLog(SAME_BLOCK_RUN) && IsRun(Pool(0, 0), SAME_BLOCK_RUN)
    ensures |ProposalsIn(SAME_BLOCK_RUN)| == 2 && ProposalsIn(SAME_BLOCK_RUN)[0] == FIRST
    ensures IsRootBundleValid(ProposalsIn(SAME_BLOCK_RUN), LeavesIn(SAME_BLOCK_RUN), FIRST, 6)
    ensures !FullyExecutedBy(SAME_BLOCK_RUN, 0, 6)
  {
    var run := SAME_BLOCK_RUN;
    ProposedTwice();
    assert Init(run) == PROPOSED_TWICE;
    CollectSnoc(PROPOSED_TWICE, Last(run), ProposalOf);
    CollectSnoc(PROPOSED_TWICE, Last(run), LeafOf);
    assert ProposalsIn(run) == [FIRST, SECOND] && LeavesIn(run) == [SECOND_LEAF];
    assert GetFollowingRootBundle([FIRST, SECOND], FIRST) == None;
    FilterOne(SECOND_LEAF, ExecutedIn(5, 6));
  }
}
