/**
 What the HubPool client answers although it takes its events in whatever order nodes list them
 (src/clients/HubPoolClient.ts:735-801), and although an update that throws leaves its lists written (lines 858-927).
 */
module HubPoolOrder {
  import opened Wrappers
  import opened Numbers
  import opened Sequences
  import opened EventUtils
  import opened ObjectUtils
  import opened HubPoolTokens
  import opened RootBundles
  import opened HubPoolClient

  // ---------- any order ----------

  /** The state holds every event up to the cursor, once each, as listed in `u`. */
  ghost predicate Lists(st: HubState, u: HubUpdate, chain: HubChain, deploymentBlock: nat, fromBlock: nat, next: nat,
                        ignoredProposals: set<nat>, ignoredLeaves: set<nat>)
  {
    && st == IngestHub(NOTHING, u, ignoredProposals, ignoredLeaves)
    && Permutes(u, FoundBefore(chain, fromBlock, next, deploymentBlock))
  }

  /** Whatever the order of the nodes, a completed update leaves nothing out and nothing in twice. */
  lemma ListedSyncStep(st: HubState, u: HubUpdate, v: HubUpdate, chain: HubChain, deploymentBlock: nat, fromBlock: nat,
                       next: nat, to: nat, ignoredProposals: set<nat>, ignoredLeaves: set<nat>)
    requires chain.Valid()
    requires deploymentBlock <= next && fromBlock <= next <= to
    requires Lists(st, u, chain, deploymentBlock, fromBlock, next, ignoredProposals, ignoredLeaves)
    requires Permutes(v, Found(chain, next, to, next))
    ensures Lists(IngestHub(st, v, ignoredProposals, ignoredLeaves), Joined(u, v),
                  chain, deploymentBlock, fromBlock, to + 1, ignoredProposals, ignoredLeaves)
  {
    FoundJoins(chain, deploymentBlock, fromBlock, next, to);
    hide IngestHub, FoundBefore, Found;
    IngestHubTwice(NOTHING, u, v, ignoredProposals, ignoredLeaves);
  }

  /**
   The order of the nodes decides nothing about tokens or contracts as of a block, nor about which leaves count for a
   bundle. It decides the order of the proposals, and of each chain's registrations (see ActivationAlikeIff).
   */
  lemma ListingIsImmaterial(st: HubState, u: HubUpdate, inOrder: HubState, chain: HubChain, deploymentBlock: nat,
                            fromBlock: nat, next: nat, ignoredProposals: set<nat>, ignoredLeaves: set<nat>)
    requires chain.Valid()
    requires Lists(st, u, chain, deploymentBlock, fromBlock, next, ignoredProposals, ignoredLeaves)
    requires HoldsUpTo(inOrder, chain, deploymentBlock, fromBlock, next, ignoredProposals, ignoredLeaves)
    ensures Indexes(st.tokens, Window(chain.routes, deploymentBlock, next - 1))
    ensures forall c, block :: AsOf(Get(st.crossChainContracts, c), block) == AsOf(Get(inOrder.crossChainContracts, c), block)
    ensures forall p, bundle, m :: IsRootBundleValid(p, st.executedRootBundles, bundle, m)
                                   == IsRootBundleValid(p, inOrder.executedRootBundles, bundle, m)
    ensures multiset(st.proposedRootBundles) == multiset(inOrder.proposedRootBundles)
  {
    var found := FoundBefore(chain, fromBlock, next, deploymentBlock);
    PermutedHasSameEvents(u.routes, found.routes);
    PermutedHasSameEvents(u.contracts, found.contracts);
    WindowMembers(chain.contracts, deploymentBlock, next - 1);
    forall c, block ensures AsOf(Get(st.crossChainContracts, c), block) == AsOf(Get(inOrder.crossChainContracts, c), block) {
      ContractsOfListed(chain.contracts, u.contracts, found.contracts, c, block);
    }
    FilterPermuted(u.proposals, found.proposals, NotIn(ignoredProposals));
    FilterPermuted(u.leaves, found.leaves, NotIn(ignoredLeaves));
    forall p, bundle, m ensures IsRootBundleValid(p, st.executedRootBundles, bundle, m)
                                == IsRootBundleValid(p, inOrder.executedRootBundles, bundle, m)
    {
      var next := GetFollowingRootBundle(p, bundle);
      var upTo := if next.Some? then Min(next.value.pos.block, m) else m;
      LeavesCountAlike(st.executedRootBundles, inOrder.executedRootBundles, ExecutedIn(bundle.pos.block, upTo));
    }
  }

  lemma LeavesCountAlike(a: Leaves, b: Leaves, p: Event<Leaf> -> bool)
    requires multiset(a) == multiset(b)
    ensures |Filter(a, p)| == |Filter(b, p)|
  {
    FilterPermuted(a, b, p);
    assert |multiset(Filter(a, p))| == |multiset(Filter(b, p))|;
  }

  /** Contracts as of a block, from any two lists with the same events of the chain up to that block. */
  lemma ContractsOfListed(log: ContractLog, a: ContractLog, b: ContractLog, c: nat, block: int)
    requires IsLog(log) && Includes(log, a) && Includes(log, b)
    requires forall e: Event<SpokePoolSet> :: e.pos.block <= block ==> (e in a <==> e in b)
    ensures AsOf(Get(GroupBy(map[], a, ChainOf), c), block) == AsOf(Get(GroupBy(map[], b, ChainOf), c), block)
  {
    var p := HasKey(ChainOf, c);
    GroupByContents(map[], a, ChainOf, c);
    GroupByContents(map[], b, ChainOf, c);
    LogIsDistinct(log);
    hide GroupBy, Filter, FindNewest, IsLog;
    forall e ensures e in Filter(a, p) <==> e in a && p(e)
      ensures e in Filter(b, p) <==> e in b && p(e)
    {
      FilterMembers(a, p, e);
      FilterMembers(b, p, e);
    }
    FindNewestOfListed(Filter(a, p), Filter(b, p), AtOrBefore(block));
    assert Get(GroupBy(map[], a, ChainOf), c) == Filter(a, p) && Get(GroupBy(map[], b, ChainOf), c) == Filter(b, p);
  }

  function Registers(chain: nat, spokePool: string): Event<SpokePoolSet> -> bool {
    (e: Event<SpokePoolSet>) => e.args.l2ChainId == chain && e.args.spokePool == spokePool
  }

  function IsPool(spokePool: string): Event<SpokePoolSet> -> bool {
    (e: Event<SpokePoolSet>) => e.args.spokePool == spokePool
  }

  /** `getSpokePoolActivationBlock`: the block of the first registration listed; it throws for an unknown chain. */
  function GetSpokePoolActivationBlock(contracts: map<nat, ContractLog>, chain: nat, spokePool: string)
    : Result<Option<nat>>
  {
    if chain !in contracts then Failure("Cannot read properties of undefined")
    else
      match Find(contracts[chain], IsPool(spokePool))
      case None => Success(None)
      case Some(e) => Success(Some(e.pos.block))
  }

  lemma ActivationIsFirstListed(listed: ContractLog, chain: nat, spokePool: string)
    ensures var contracts := GroupBy(map[], listed, ChainOf);
            var hits := Filter(listed, Registers(chain, spokePool));
            && (hits != [] ==>
                  GetSpokePoolActivationBlock(contracts, chain, spokePool) == Success(Some(hits[0].pos.block)))
            && (hits == [] ==> GetSpokePoolActivationBlock(contracts, chain, spokePool)
                               == if Filter(listed, HasKey(ChainOf, chain)) != [] then Success(None)
                                  else Failure("Cannot read properties of undefined"))
  {
    GroupByContents(map[], listed, ChainOf, chain);
    var onChain := Filter(listed, HasKey(ChainOf, chain));
    FilterTwice(listed, HasKey(ChainOf, chain), IsPool(spokePool), Registers(chain, spokePool));
    FindFirst(onChain, IsPool(spokePool));
    assert Get(GroupBy(map[], listed, ChainOf), chain) == onChain;
  }

  ghost predicate ActivatesAlike(a: ContractLog, b: ContractLog, chain: nat, spokePool: string) {
    GetSpokePoolActivationBlock(GroupBy(map[], a, ChainOf), chain, spokePool)
    == GetSpokePoolActivationBlock(GroupBy(map[], b, ChainOf), chain, spokePool)
  }

  /**
   The activation block of a SpokePool is what it would be in log order, whatever the order of the node, if and only if
   all its registrations on the chain were made in one block.
   */
  lemma ActivationAlikeIff(log: ContractLog, chain: nat, spokePool: string)
    ensures (forall listed: ContractLog :: multiset(listed) == multiset(log) ==>
               ActivatesAlike(listed, log, chain, spokePool))
            <==> forall e, f :: e in log && f in log && Registers(chain, spokePool)(e) && Registers(chain, spokePool)(f) ==>
                   e.pos.block == f.pos.block
  {
    var p := Registers(chain, spokePool);
    ActivationIsFirstListed(log, chain, spokePool);
    if forall e, f :: e in log && f in log && p(e) && p(f) ==> e.pos.block == f.pos.block {
      forall listed: ContractLog | multiset(listed) == multiset(log) ensures ActivatesAlike(listed, log, chain, spokePool) {
        ActivationIsFirstListed(listed, chain, spokePool);
        SameMatches(listed, log, HasKey(ChainOf, chain));
        SameMatches(listed, log, p);
      }
    }
    if forall listed: ContractLog :: multiset(listed) == multiset(log) ==> ActivatesAlike(listed, log, chain, spokePool) {
      forall e, f | e in log && f in log && p(e) && p(f) ensures e.pos.block == f.pos.block {
        ActivationOfFirst(log, e, chain, spokePool);
        ActivationOfFirst(log, f, chain, spokePool);
      }
    }
  }

  /** Filtering either list finds the same events. */
  lemma SameMatches(a: ContractLog, b: ContractLog, p: Event<SpokePoolSet> -> bool)
    requires multiset(a) == multiset(b)
    ensures Filter(a, p) == [] <==> Filter(b, p) == []
    ensures Filter(a, p) != [] ==> Filter(a, p)[0] in b && p(Filter(a, p)[0])
    ensures Filter(b, p) != [] ==> Filter(b, p)[0] in b && p(Filter(b, p)[0])
  {
    PermutedHasSameEvents(a, b);
    FilterSameEvents(a, b, p);
    if Filter(a, p) != [] {
      FilterMembers(a, p, Filter(a, p)[0]);
    }
    if Filter(b, p) != [] {
      FilterMembers(b, p, Filter(b, p)[0]);
      assert Filter(b, p)[0] in Filter(a, p);
    }
  }

  lemma MovedToFront<T>(s: seq<T>, x: T) returns (rest: seq<T>)
    requires x in s
    ensures multiset([x] + rest) == multiset(s)
  {
    var i :| 0 <= i < |s| && s[i] == x;
    rest := s[..i] + s[i + 1..];
    assert s == s[..i] + [x] + s[i + 1..];
  }

  /** A node may list any registration first, and then its block is the answer. */
  lemma ActivationOfFirst(log: ContractLog, e: Event<SpokePoolSet>, chain: nat, spokePool: string)
    requires e in log && Registers(chain, spokePool)(e)
    requires forall listed: ContractLog :: multiset(listed) == multiset(log) ==> ActivatesAlike(listed, log, chain, spokePool)
    ensures GetSpokePoolActivationBlock(GroupBy(map[], log, ChainOf), chain, spokePool) == Success(Some(e.pos.block))
  {
    var rest := MovedToFront(log, e);
    var listed := [e] + rest;
    hide GroupBy, GetSpokePoolActivationBlock;
    ActivationIsFirstListed(listed, chain, spokePool);
    FilterConcat([e], rest, Registers(chain, spokePool));
    FilterOne(e, Registers(chain, spokePool));
    assert ActivatesAlike(listed, log, chain, spokePool);
  }

  ghost predicate FollowAlike(listed: Proposals, p: Proposals) {
    forall b :: b in p ==> GetFollowingRootBundle(listed, b) == GetFollowingRootBundle(p, b)
  }

  /** With one proposal per block, every bundle is followed by the right one only if the proposals are listed in order. */
  lemma FollowAlikeIff(listed: Proposals, p: Proposals)
    requires multiset(listed) == multiset(p) && OneProposalPerBlock(p)
    ensures FollowAlike(listed, p) <==> listed == p
  {
    if FollowAlike(listed, p) {
      TailsAgree(listed, p, 0);
    }
  }

  lemma {:induction false} TailsAgree(listed: Proposals, p: Proposals, i: nat)
    requires multiset(listed) == multiset(p) && OneProposalPerBlock(p)
    requires FollowAlike(listed, p) && i <= |p|
    ensures |listed| == |p| && listed[i..] == p[i..]
    decreases |p| - i
  {
    assert |multiset(listed)| == |multiset(p)|;
    if i < |p| {
      TailsAgree(listed, p, i + 1);
      hide FollowAlike;
      var x := PlaceOf(listed, p, i);
      if x < i {
        SameFollower(listed, p, i, x);
        var y := InFront(listed, p, i + 1, x + 1);
        assert false;
      } else {
        var y := InFront(listed, p, i + 1, i);
        assert listed[i..] == [p[i]] + listed[i + 1..];
      }
    }
  }

  /** Where the list has the i-th proposal. */
  lemma PlaceOf(listed: Proposals, p: Proposals, i: nat) returns (x: nat)
    requires multiset(listed) == multiset(p) && OneProposalPerBlock(p) && i < |p|
    ensures x < |listed| && listed[x] == p[i] && LastIndexInBlock(listed, p[i].pos.block) == Some(x)
    ensures LastIndexInBlock(p, p[i].pos.block) == Some(i)
  {
    assert p[i] in p && p[i] in multiset(listed);
    var y :| 0 <= y < |listed| && listed[y] == p[i];
    x := LastIndexInBlock(listed, p[i].pos.block).value;
    assert listed[x] in multiset(p);
    var z :| 0 <= z < |p| && p[z] == listed[x];
  }

  lemma SameFollower(listed: Proposals, p: Proposals, i: nat, x: nat)
    requires FollowAlike(listed, p) && i < |p| && x < |listed| - 1
    requires LastIndexInBlock(listed, p[i].pos.block) == Some(x) && LastIndexInBlock(p, p[i].pos.block) == Some(i)
    ensures i + 1 < |p| && p[i + 1] == listed[x + 1]
  {
    assert p[i] in p;
  }

  /** Two lists that agree from the n-th element on have the same elements before it. */
  lemma InFront(a: Proposals, b: Proposals, n: nat, k: nat) returns (y: nat)
    requires multiset(a) == multiset(b) && k < n <= |a| == |b| && a[n..] == b[n..]
    ensures y < n && b[y] == a[k]
  {
    assert a == a[..n] + a[n..] && b == b[..n] + b[n..];
    assert multiset(a[..n]) == multiset(a) - multiset(a[n..]);
    assert multiset(b[..n]) == multiset(b) - multiset(b[n..]);
    assert a[k] in a[..n];
    assert a[..n][k] in multiset(b[..n]);
    y :| 0 <= y < n && b[..n][y] == a[k];
  }

  /** After the bundle's block, and no later than the proposal taken for the next one, if any. */
  function UntilNext(bundle: Event<RootBundle>, next: Option<Event<RootBundle>>): Event<Leaf> -> bool {
    (leaf: Event<Leaf>) => leaf.pos.block > bundle.pos.block && (next.Some? ==> leaf.pos.block <= next.value.pos.block)
  }

  /** The leaves that ever count for a bundle of the run when the client lists the proposals as in `listed`. */
  function Counting(listed: Proposals, run: PoolLog, k: nat): Leaves
    requires k < |ProposalsIn(run)|
  {
    var bundle := ProposalsIn(run)[k];
    Filter(LeavesIn(run), UntilNext(bundle, GetFollowingRootBundle(listed, bundle)))
  }

  /** The verdict counts those of them executed by the block asked about, in whatever order the leaves are listed. */
  lemma VerdictCounts(s: Pool, run: PoolLog, k: nat, listed: Proposals, leaves: Leaves, m: int)
    requires IsLoggedRun(s, run) && k < |ProposalsIn(run)| && multiset(leaves) == multiset(LeavesIn(run))
    ensures IsRootBundleValid(listed, leaves, ProposalsIn(run)[k], m)
            <==> |Filter(Counting(listed, run, k), UpTo(m))| == ProposalsIn(run)[k].args.poolRebalanceLeafCount
    ensures InOrder(Counting(listed, run, k))
  {
    var bundle := ProposalsIn(run)[k];
    var next := GetFollowingRootBundle(listed, bundle);
    var counts := ExecutedIn(bundle.pos.block, if next.Some? then Min(next.value.pos.block, m) else m);
    LeavesCountAlike(leaves, LeavesIn(run), counts);
    FilterTwice(LeavesIn(run), UntilNext(bundle, next), UpTo(m), counts);
    CollectKeepsOrder(run, LeafOf);
    FilterKeepsOrder(Ascending, LeavesIn(run), UntilNext(bundle, next));
    var w := Counting(listed, run, k);
    forall i, j | 0 <= i <= j < |w| ensures w[i].pos.block <= w[j].pos.block {
      assert i < j ==> Older(w[i].pos, w[j].pos);
    }
  }

  /** All the leaves of a list in order are executed exactly from the block of the last one on. */
  lemma CountedFromLast(leaves: Leaves, m: int)
    requires InOrder(leaves) && leaves != []
    ensures |Filter(leaves, UpTo(m))| == |leaves| <==> Last(leaves).pos.block <= m
  {
    FilterShortens(leaves, UpTo(m));
    assert Last(leaves) in leaves;
    if Last(leaves).pos.block <= m {
      FilterAll(leaves, UpTo(m));
    }
  }

  /**
   With all `c` own leaves executed, as many count and the last of them is in the block of the last own one; otherwise
   they number `c` at no block.
   */
  predicate CountsRightly(w: Leaves, own: Leaves, c: nat) {
    if own != [] && |own| == c then |w| == c && Last(w).pos.block == Last(own).pos.block else !StopsAt(w, c)
  }

  /**
   However the node lists proposals and leaves, `isRootBundleValid` is right about a bundle at every block if and only
   if the leaves that count for it are as many as it has, the last in the block of its own last one; or, if the bundle is
   never fully executed, if they number as many at no block.
   */
  lemma ListedIsJudgedRightIff(s: Pool, run: PoolLog, k: nat, listed: Proposals, leaves: Leaves)
    requires IsLoggedRun(s, run) && k < |ProposalsIn(run)| && multiset(leaves) == multiset(LeavesIn(run))
    ensures var (bundle, own, w) := (ProposalsIn(run)[k], LeavesOf(run, k), Counting(listed, run, k));
            var c := bundle.args.poolRebalanceLeafCount;
            (forall m: int :: IsRootBundleValid(listed, leaves, bundle, m) <==> FullyExecutedBy(run, k, m))
            <==> CountsRightly(w, own, c)
  {
    var (bundle, own, w) := (ProposalsIn(run)[k], LeavesOf(run, k), Counting(listed, run, k));
    var c := bundle.args.poolRebalanceLeafCount;
    LeavesAreOrdered(s, run, k);
    VerdictCounts(s, run, k, listed, leaves, 0);
    CountReachedIff(w, c);
    forall m: int
      ensures IsRootBundleValid(listed, leaves, bundle, m) <==> |Filter(w, UpTo(m))| == c
      ensures FullyExecutedBy(run, k, m) <==> own != [] && |own| == c && Last(own).pos.block <= m
    {
      VerdictCounts(s, run, k, listed, leaves, m);
      assert own != [] ==> Last(own) in own;
    }
    hide IsRootBundleValid, FullyExecutedBy, Counting, LeavesOf, ProposalsIn, LeavesIn, IsLoggedRun;
    ReachedWithIff(w, own, c);
    if forall m: int :: IsRootBundleValid(listed, leaves, bundle, m) <==> FullyExecutedBy(run, k, m) {
      assert CountsAlike(w, own, c);
    }
    if CountsAlike(w, own, c) {
      assert forall m: int :: IsRootBundleValid(listed, leaves, bundle, m) <==> FullyExecutedBy(run, k, m);
    }
  }

  /** `c` leaves of `w` have been executed exactly at the blocks at which all of the `c` own ones have. */
  ghost predicate CountsAlike(w: Leaves, own: Leaves, c: nat) {
    forall m: int :: |Filter(w, UpTo(m))| == c <==> own != [] && |own| == c && Last(own).pos.block <= m
  }

  lemma ReachedWithIff(w: Leaves, own: Leaves, c: nat)
    requires InOrder(w) && c > 0
    ensures CountsAlike(w, own, c) <==> CountsRightly(w, own, c)
  {
    CountReachedIff(w, c);
    if w != [] {
      forall m: int ensures |Filter(w, UpTo(m))| == |w| <==> Last(w).pos.block <= m {
        CountedFromLast(w, m);
      }
    }
    if CountsAlike(w, own, c) && |own| == c {
      var at := Last(own).pos.block;
      assert |Filter(w, UpTo(at))| == c;
      FilterShortens(w, UpTo(at));
      var late := Max(at, Last(w).pos.block);
      assert |Filter(w, UpTo(late))| == c && |Filter(w, UpTo(late))| == |w|;
      assert |Filter(w, UpTo(Last(w).pos.block))| == |w|;
    }
  }

  // Two bundles of one leaf each, both executed before the next.

  const BUNDLES: Proposals := [Event(LogPos(5, 0, 0), RootBundle(1, [4])), Event(LogPos(8, 0, 0), RootBundle(1, [7]))]
  const EXECUTED: Leaves := [Event(LogPos(6, 0, 0), Leaf(1, 0)), Event(LogPos(9, 0, 0), Leaf(1, 0))]

  lemma ExecutedUpTo(upTo: nat)
    requires upTo >= 6
    ensures |Filter(EXECUTED, ExecutedIn(5, upTo))| == if upTo < 9 then 1 else 2
  {
    var p := ExecutedIn(5, upTo);
    assert EXECUTED == [EXECUTED[0]] + [EXECUTED[1]];
    hide Filter;
    FilterConcat([EXECUTED[0]], [EXECUTED[1]], p);
    FilterOne(EXECUTED[0], p);
    FilterOne(EXECUTED[1], p);
  }

  /** A node that lists the newest proposal first makes the client reject a bundle whose leaf was executed in time. */
  lemma NewestProposalFirst()
    ensures IsRootBundleValid(BUNDLES, EXECUTED, BUNDLES[0], 9)
    ensures !IsRootBundleValid([BUNDLES[1], BUNDLES[0]], EXECUTED, BUNDLES[0], 9)
  {
    var swapped := [BUNDLES[1], BUNDLES[0]];
    assert GetFollowingRootBundle(BUNDLES, BUNDLES[0]) == Some(BUNDLES[1]);
    assert GetFollowingRootBundle(swapped, BUNDLES[0]) == None;
    hide Filter, LastIndexInBlock, GetFollowingRootBundle;
    ExecutedUpTo(8);
    ExecutedUpTo(9);
  }

  // ---------- retries ----------

  ghost predicate Includes<T(!new)>(all: seq<T>, some: seq<T>) {
    forall e :: e in some ==> e in all
  }

  /** Events of the log, and all that `found` has of them up to block `later`. */
  ghost predicate CoversUpTo<T(!new)>(log: seq<Event<T>>, retried: seq<Event<T>>, found: seq<Event<T>>, later: nat) {
    && Includes(log, retried) && Includes(log, found)
    && forall e :: e in found && e.pos.block <= later ==> e in retried
  }

  /** What a retry up to block `later` finds, next to what the interrupted update up to block `to` found. */
  ghost predicate FindsAgain(u: HubUpdate, v: HubUpdate, chain: HubChain, to: nat, later: nat) {
    && CoversUpTo(chain.routes, v.routes, u.routes, later) && CoversUpTo(chain.contracts, v.contracts, u.contracts, later)
    && (forall e :: e in u.routes ==> e.pos.block <= to) && (forall e :: e in u.contracts ==> e.pos.block <= to)
    && (forall e :: e in u.leaves ==> e.pos.block <= to)
    && forall e :: e in v.proposals && e.pos.block <= to ==> e in u.proposals
  }

  lemma FoundAgain(u: HubUpdate, v: HubUpdate, chain: HubChain, from: nat, to: nat, later: nat, configFrom: nat)
    requires Permutes(u, Found(chain, from, to, configFrom)) && Permutes(v, Found(chain, from, later, configFrom))
    ensures FindsAgain(u, v, chain, to, later)
  {
    var (first, second) := (Found(chain, from, to, configFrom), Found(chain, from, later, configFrom));
    PermutedHasSameEvents(u.routes, first.routes);
    PermutedHasSameEvents(v.routes, second.routes);
    PermutedHasSameEvents(u.contracts, first.contracts);
    PermutedHasSameEvents(v.contracts, second.contracts);
    PermutedHasSameEvents(u.leaves, first.leaves);
    PermutedHasSameEvents(u.proposals, first.proposals);
    PermutedHasSameEvents(v.proposals, second.proposals);
    WindowMembers(chain.routes, configFrom, to);
    WindowMembers(chain.routes, configFrom, later);
    WindowMembers(chain.contracts, configFrom, to);
    WindowMembers(chain.contracts, configFrom, later);
    WindowMembers(LeavesIn(chain.pool), from, to);
    WindowMembers(ProposalsIn(chain.pool), from, to);
    WindowMembers(ProposalsIn(chain.pool), from, later);
  }

  /** Every question about tokens, contracts and bundles as of a block up to `later` is answered alike. */
  ghost predicate AgreeUpTo(a: HubState, b: HubState, later: int) {
    TokensAgreeUpTo(a.tokens, b.tokens, later) && ContractsAgreeUpTo(a, b, later) && BundlesAlike(a, b)
  }

  ghost predicate TokensAgreeUpTo(a: TokenIndex, b: TokenIndex, later: int) {
    exists x: RouteLog, y: RouteLog ::
      IsLog(x) && Indexes(a, x) && IsLog(y) && Indexes(b, y) && RoutesAgreeUpTo(x, y, later)
  }

  ghost predicate RoutesAgreeUpTo(x: RouteLog, y: RouteLog, later: int) {
    forall token, chain, block: int :: block <= later ==>
      && L1TokenAsOf(x, token, chain, block) == L1TokenAsOf(y, token, chain, block)
      && L2TokenAsOf(x, token, chain, block) == L2TokenAsOf(y, token, chain, block)
  }

  ghost predicate ContractsAgreeUpTo(a: HubState, b: HubState, later: int) {
    forall c, block: int :: block <= later ==>
      AsOf(Get(a.crossChainContracts, c), block) == AsOf(Get(b.crossChainContracts, c), block)
  }

  ghost predicate BundlesAlike(a: HubState, b: HubState) {
    && a.proposedRootBundles == b.proposedRootBundles
    && forall bundle, m :: bundle in b.proposedRootBundles ==>
         IsRootBundleValid(a.proposedRootBundles, a.executedRootBundles, bundle, m)
         == IsRootBundleValid(b.proposedRootBundles, b.executedRootBundles, bundle, m)
  }

  /**
   An update up to block `to`, interrupted because no proposal was known yet, has written its routes, contracts and
   leaves, and the retries write them again; `v` is what one retry finds up to block `later`, or several (`RetriesJoin`).
   It makes no difference to any answer as of the blocks retried, then or later: mappings and contracts are looked up as
   of a block, and the leaves that are there twice are older than every proposal known. Once the retries have caught up
   with the interrupted update, the latest mappings are the same too, and so are all answers as of any block.
   */
  lemma RetryAfterInterruption(known: HubUpdate, u: HubUpdate, v: HubUpdate, chain: HubChain, from: nat, to: nat,
                               later: nat, configFrom: nat, ignoredProposals: set<nat>, ignoredLeaves: set<nat>)
    requires chain.Valid()
    requires Includes(chain.routes, known.routes) && Includes(chain.contracts, known.contracts)
    requires Permutes(u, Found(chain, from, to, configFrom)) && Permutes(v, Found(chain, from, later, configFrom))
    requires IngestHub(IngestHub(NOTHING, known, ignoredProposals, ignoredLeaves), u, ignoredProposals, ignoredLeaves)
             .proposedRootBundles == []
    ensures var st := IngestHub(NOTHING, known, ignoredProposals, ignoredLeaves);
            var once := IngestHub(st, v, ignoredProposals, ignoredLeaves);
            var twice := IngestHub(IngestHub(st, u, ignoredProposals, ignoredLeaves), v, ignoredProposals, ignoredLeaves);
            && AgreeUpTo(twice, once, later)
            && (to <= later ==> twice.tokens.latest == once.tokens.latest && forall block: nat :: AgreeUpTo(twice, once, block))
  {
    var st := IngestHub(NOTHING, known, ignoredProposals, ignoredLeaves);
    var once := IngestHub(st, v, ignoredProposals, ignoredLeaves);
    var twice := IngestHub(IngestHub(st, u, ignoredProposals, ignoredLeaves), v, ignoredProposals, ignoredLeaves);
    FoundAgain(u, v, chain, from, to, later, configFrom);
    BundlesTwice(st, u, v, chain, to, later, ignoredProposals, ignoredLeaves);
    forall block: nat | block <= later || to <= later ensures AgreeUpTo(twice, once, block) {
      RoutesTwice(known.routes, u.routes, v.routes, chain.routes, block);
      ContractsTwice(twice, once, known.contracts, u.contracts, v.contracts, chain.contracts, block);
    }
    if to <= later {
      LatestTwice(known.routes, u.routes, v.routes);
    }
  }

  lemma BundlesTwice(st: HubState, u: HubUpdate, v: HubUpdate, chain: HubChain, to: nat, later: nat,
                     ignoredProposals: set<nat>, ignoredLeaves: set<nat>)
    requires FindsAgain(u, v, chain, to, later)
    requires IngestHub(st, u, ignoredProposals, ignoredLeaves).proposedRootBundles == []
    ensures BundlesAlike(
              IngestHub(IngestHub(st, u, ignoredProposals, ignoredLeaves), v, ignoredProposals, ignoredLeaves),
              IngestHub(st, v, ignoredProposals, ignoredLeaves))
  {
    var once := IngestHub(st, v, ignoredProposals, ignoredLeaves);
    var twice := IngestHub(IngestHub(st, u, ignoredProposals, ignoredLeaves), v, ignoredProposals, ignoredLeaves);
    var p := Filter(v.proposals, NotIn(ignoredProposals));
    assert once.proposedRootBundles == p && twice.proposedRootBundles == p;
    hide SetRoutes, GroupBy, Filter, IsRootBundleValid;
    forall bundle, m | bundle in p
      ensures IsRootBundleValid(p, twice.executedRootBundles, bundle, m)
              == IsRootBundleValid(p, once.executedRootBundles, bundle, m)
    {
      ProposedLater(u, v, chain, to, later, ignoredProposals, bundle);
      LeavesTwice(st.executedRootBundles, u.leaves, Filter(v.leaves, NotIn(ignoredLeaves)), ignoredLeaves, to, bundle, p, m);
    }
  }

  lemma RoutesTwice(known: RouteLog, u: RouteLog, v: RouteLog, log: RouteLog, later: int)
    requires IsLog(log) && Includes(log, known + u + v)
    requires forall e :: e in u && e.pos.block <= later ==> e in v
    ensures TokensAgreeUpTo(SetRoutes(SetRoutes(SetRoutes(NO_TOKENS, known), u), v),
                            SetRoutes(SetRoutes(NO_TOKENS, known), v), later)
  {
    SetRoutesConcat(NO_TOKENS, known, v);
    SetRoutesConcat(NO_TOKENS, known, u);
    SetRoutesConcat(NO_TOKENS, known + u, v);
    RoutesOfListed(log, known + u + v, known + v, later);
  }

  lemma RoutesOfListed(log: RouteLog, a: RouteLog, b: RouteLog, later: int)
    requires IsLog(log) && Includes(log, a) && Includes(log, b)
    requires forall e: Event<Route> :: e.pos.block <= later ==> (e in a <==> e in b)
    ensures TokensAgreeUpTo(SetRoutes(NO_TOKENS, a), SetRoutes(NO_TOKENS, b), later)
  {
    var (x, y) := (Filter(log, IsIn(a)), Filter(log, IsIn(b)));
    LogOf(log, a);
    LogOf(log, b);
    LogIsDistinct(x);
    LogIsDistinct(y);
    forall token, chain, block: int | block <= later
      ensures L1TokenAsOf(x, token, chain, block) == L1TokenAsOf(y, token, chain, block)
      ensures L2TokenAsOf(x, token, chain, block) == L2TokenAsOf(y, token, chain, block)
    {
      FindNewestOfListed(x, y, MappedFrom(token, chain, block));
      FindNewestOfListed(x, y, MappedOnto(token, chain, block));
    }
    assert Indexes(SetRoutes(NO_TOKENS, a), x) && Indexes(SetRoutes(NO_TOKENS, b), y);
    hide *;
    assert RoutesAgreeUpTo(x, y, later);
  }

  function IsIn<T(==)>(listed: seq<T>): T -> bool {
    (e: T) => e in listed
  }

  /** The listed events in log order. */
  lemma LogOf(log: RouteLog, listed: RouteLog)
    requires IsLog(log) && Includes(log, listed)
    ensures IsLog(Filter(log, IsIn(listed))) && SameEvents(listed, Filter(log, IsIn(listed)))
  {
    FilterKeepsOrder(Ascending, log, IsIn(listed));
    forall e ensures e in listed <==> e in Filter(log, IsIn(listed)) {
      FilterMembers(log, IsIn(listed), e);
    }
  }

  /** The latest mapping of a route is the same if all mappings listed in between are listed again. */
  lemma LatestTwice(known: RouteLog, u: RouteLog, v: RouteLog)
    requires Includes(v, u)
    ensures SetRoutes(SetRoutes(SetRoutes(NO_TOKENS, known), u), v).latest
            == SetRoutes(SetRoutes(NO_TOKENS, known), v).latest
  {
    SetRoutesConcat(NO_TOKENS, known, v);
    SetRoutesConcat(NO_TOKENS, known, u);
    SetRoutesConcat(NO_TOKENS, known + u, v);
    var (once, twice) := (SetRoutes(NO_TOKENS, known + v), SetRoutes(NO_TOKENS, known + u + v));
    forall k ensures k in twice.latest <==> k in once.latest
      ensures k in once.latest ==> twice.latest[k] == once.latest[k]
    {
      LatestOfRoute(known, u, v, k);
    }
  }

  lemma LatestOfRoute(known: RouteLog, u: RouteLog, v: RouteLog, k: RouteKey)
    requires Includes(v, u)
    ensures var (once, twice) := (SetRoutes(NO_TOKENS, known + v), SetRoutes(NO_TOKENS, known + u + v));
            && (k in twice.latest <==> k in once.latest)
            && (k in once.latest ==> twice.latest[k] == once.latest[k])
  {
    var p := HasKey(KeyOfRoute, k);
    RoutesIndexed(known + v, k);
    RoutesIndexed(known + u + v, k);
    FilterConcat(known, v, p);
    FilterConcat(known, u, p);
    FilterConcat(known + u, v, p);
    if Filter(v, p) == [] && Filter(u, p) != [] {
      var e := Filter(u, p)[0];
      FilterMembers(u, p, e);
      FilterMembers(v, p, e);
      assert false;
    }
  }

  lemma ContractsTwice(twice: HubState, once: HubState, known: ContractLog, u: ContractLog, v: ContractLog,
                       log: ContractLog, later: int)
    requires IsLog(log) && Includes(log, known + u + v)
    requires forall e :: e in u && e.pos.block <= later ==> e in v
    requires twice.crossChainContracts == GroupBy(GroupBy(GroupBy(map[], known, ChainOf), u, ChainOf), v, ChainOf)
    requires once.crossChainContracts == GroupBy(GroupBy(map[], known, ChainOf), v, ChainOf)
    ensures ContractsAgreeUpTo(twice, once, later)
  {
    GroupByConcat(map[], known, u, ChainOf);
    GroupByConcat(map[], known + u, v, ChainOf);
    GroupByConcat(map[], known, v, ChainOf);
    hide GroupBy, IsLog, AsOf;
    forall c, block: int | block <= later
      ensures AsOf(Get(twice.crossChainContracts, c), block) == AsOf(Get(once.crossChainContracts, c), block)
    {
      ContractsOfListed(log, known + u + v, known + v, c, block);
    }
  }

  /** Retries one after the other find what one over their joint window would. */
  lemma RetriesJoin(st: HubState, v: HubUpdate, w: HubUpdate, chain: HubChain, from: nat, later: nat, last: nat,
                    configFrom: nat, ignoredProposals: set<nat>, ignoredLeaves: set<nat>)
    requires chain.Valid() && from <= later <= last && configFrom <= later + 1
    requires Permutes(v, Found(chain, from, later, configFrom)) && Permutes(w, Found(chain, later + 1, last, later + 1))
    ensures IngestHub(IngestHub(st, v, ignoredProposals, ignoredLeaves), w, ignoredProposals, ignoredLeaves)
            == IngestHub(st, Joined(v, w), ignoredProposals, ignoredLeaves)
    ensures Permutes(Joined(v, w), Found(chain, from, last, configFrom))
  {
    IngestHubTwice(st, v, w, ignoredProposals, ignoredLeaves);
    WindowsAbut(chain.routes, configFrom, later, last);
    WindowsAbut(chain.contracts, configFrom, later, last);
    CollectKeepsOrder(chain.pool, ProposalOf);
    CollectKeepsOrder(chain.pool, LeafOf);
    WindowsAbut(ProposalsIn(chain.pool), from, later, last);
    WindowsAbut(LeavesIn(chain.pool), from, later, last);
    hide IngestHub, Window;
    assert Joined(Found(chain, from, later, configFrom), Found(chain, later + 1, last, later + 1))
           == Found(chain, from, last, configFrom);
  }

  /** Every proposal that the retry finds was made after the blocks of the interrupted update. */
  lemma ProposedLater(u: HubUpdate, v: HubUpdate, chain: HubChain, to: nat, later: nat, ignoredProposals: set<nat>,
                      bundle: Event<RootBundle>)
    requires FindsAgain(u, v, chain, to, later)
    requires Filter(u.proposals, NotIn(ignoredProposals)) == [] && bundle in Filter(v.proposals, NotIn(ignoredProposals))
    ensures bundle.pos.block > to
  {
    FilterMembers(v.proposals, NotIn(ignoredProposals), bundle);
    FilterMembers(u.proposals, NotIn(ignoredProposals), bundle);
  }

  /** Leaves no later than `to` count for no bundle proposed after it. */
  lemma LeavesTwice(known: Leaves, u: Leaves, v: Leaves, ignored: set<nat>, to: nat, bundle: Event<RootBundle>,
                    p: Proposals, m: int)
    requires bundle.pos.block > to && forall leaf :: leaf in u ==> leaf.pos.block <= to
    ensures IsRootBundleValid(p, known + Filter(u, NotIn(ignored)) + v, bundle, m) == IsRootBundleValid(p, known + v, bundle, m)
  {
    var next := GetFollowingRootBundle(p, bundle);
    var counts := ExecutedIn(bundle.pos.block, if next.Some? then Min(next.value.pos.block, m) else m);
    var again := Filter(u, NotIn(ignored));
    forall leaf | leaf in again ensures !counts(leaf) {
      FilterMembers(u, NotIn(ignored), leaf);
    }
    FilterNone(again, counts);
    FilterConcat(known, again, counts);
    FilterConcat(known + again, v, counts);
    FilterConcat(known, v, counts);
  }
}
