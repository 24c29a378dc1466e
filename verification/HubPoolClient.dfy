/** The HubPoolClient: windowed updates of its lists and indexes (src/clients/HubPoolClient.ts:693-986). */
module HubPoolClient {
  import opened Wrappers
  import opened Numbers
  import opened Sequences
  import opened EventUtils
  import opened ObjectUtils
  import opened BaseAbstractClient
  import opened HubPoolTokens
  import opened RootBundles

  datatype SpokePoolSet = SpokePoolSet(l2ChainId: nat, spokePool: string)

  type ContractLog = seq<Event<SpokePoolSet>>

  function ChainOf(e: Event<SpokePoolSet>): nat {
    e.args.l2ChainId
  }

  /** The HubPool's log by kind of event, and the unclaimed leaves of its pending proposal by block. */
  datatype HubChain = HubChain(routes: RouteLog, contracts: ContractLog, pool: PoolLog, unclaimedAt: nat -> nat) {
    ghost predicate Valid() {
      IsLog(routes) && IsLog(contracts) && IsLog(pool)
    }
  }

  /** The order in which the HubPool's node lists the events of each kind; the client does not sort them. */
  datatype HubListing = HubListing(
    routes: Listing<Route>, contracts: Listing<SpokePoolSet>, proposals: Listing<RootBundle>, leaves: Listing<Leaf>)
  {
    ghost predicate Valid() {
      IsListing(routes) && IsListing(contracts) && IsListing(proposals) && IsListing(leaves)
    }

    ghost predicate InOrder() {
      ListsInOrder(routes) && ListsInOrder(contracts) && ListsInOrder(proposals) && ListsInOrder(leaves)
    }
  }

  datatype HubPoolEvent = SetPoolRebalanceRoute | CrossChainContractsSet | ProposeRootBundle | RootBundleExecuted

  datatype PendingRootBundle = PendingRootBundle(
    unclaimedPoolRebalanceLeafCount: nat, bundleEvaluationBlockNumbers: seq<nat>, proposalBlockNumber: nat)

  /** `BigNumber.toNumber`, or 0 where that throws. */
  function SafeNumber(n: nat): nat {
    if n <= MAX_SAFE_INTEGER then n else 0
  }

  function Pending(unclaimed: nat, latest: Event<RootBundle>): PendingRootBundle {
    var ends := latest.args.bundleEvaluationBlockNumbers;
    PendingRootBundle(unclaimed, seq(|ends|, i requires 0 <= i < |ends| => SafeNumber(ends[i])), latest.pos.block)
  }

  function NotIn<T>(ignored: set<nat>): Event<T> -> bool {
    (e: Event<T>) => e.pos.block !in ignored
  }

  /** The events of one update. */
  datatype HubUpdate = HubUpdate(routes: RouteLog, contracts: ContractLog, proposals: Proposals, leaves: Leaves)

  /** The same events, each list in any order. */
  ghost predicate Permutes(u: HubUpdate, v: HubUpdate) {
    && multiset(u.routes) == multiset(v.routes) && multiset(u.contracts) == multiset(v.contracts)
    && multiset(u.proposals) == multiset(v.proposals) && multiset(u.leaves) == multiset(v.leaves)
  }

  /** What the update of `[from, to]` finds; routes and contracts are first read from the deployment on. */
  function Found(chain: HubChain, from: nat, to: nat, configFrom: nat): HubUpdate {
    HubUpdate(Window(chain.routes, configFrom, to), Window(chain.contracts, configFrom, to),
              Window(ProposalsIn(chain.pool), from, to), Window(LeavesIn(chain.pool), from, to))
  }

  /** The client's lists and indexes. */
  datatype HubState = HubState(
    tokens: TokenIndex, crossChainContracts: map<nat, ContractLog>, proposedRootBundles: Proposals,
    executedRootBundles: Leaves)

  const NOTHING := HubState(NO_TOKENS, map[], [], [])

  function IngestHub(st: HubState, u: HubUpdate, ignoredProposals: set<nat>, ignoredLeaves: set<nat>): HubState {
    HubState(
      SetRoutes(st.tokens, u.routes),
      GroupBy(st.crossChainContracts, u.contracts, ChainOf),
      st.proposedRootBundles + Filter(u.proposals, NotIn(ignoredProposals)),
      st.executedRootBundles + Filter(u.leaves, NotIn(ignoredLeaves)))
  }

  /** The events of two updates, one after the other. */
  function Joined(a: HubUpdate, b: HubUpdate): HubUpdate {
    HubUpdate(a.routes + b.routes, a.contracts + b.contracts, a.proposals + b.proposals, a.leaves + b.leaves)
  }

  /** How an update ends: `Interrupted` throws after the lists have been written. */
  datatype Outcome = Updated | NothingToSearch | Rejected(error: string) | Interrupted

  // ---------- typed logs ----------

  lemma {:induction false} CollectWindow<A, B>(log: seq<Event<A>>, f: Event<A> -> Option<Event<B>>, from: int, to: int)
    requires forall e :: f(e).Some? ==> f(e).value.pos == e.pos
    ensures Collect(Window(log, from, to), f) == Window(Collect(log, f), from, to)
  {
    if log != [] {
      CollectWindow(Init(log), f, from, to);
      if InBlocks<A>(from, to)(Last(log)) {
        CollectSnoc(Window(Init(log), from, to), Last(log), f);
      }
    }
  }

  /** The bundles and leaves of searched blocks are those of the protocol's run in these blocks. */
  lemma PoolEventsInWindow(pool: PoolLog, from: int, to: int)
    ensures Window(ProposalsIn(pool), from, to) == ProposalsIn(Window(pool, from, to))
    ensures Window(LeavesIn(pool), from, to) == LeavesIn(Window(pool, from, to))
  {
    CollectWindow(pool, ProposalOf, from, to);
    CollectWindow(pool, LeafOf, from, to);
  }

  // ---------- runs of updates ----------

  /** The state holds every event up to the cursor, once each and in order. */
  ghost predicate HoldsUpTo(st: HubState, chain: HubChain, deploymentBlock: nat, fromBlock: nat, next: nat,
                            ignoredProposals: set<nat>, ignoredLeaves: set<nat>)
  {
    st == IngestHub(NOTHING, FoundBefore(chain, fromBlock, next, deploymentBlock), ignoredProposals, ignoredLeaves)
  }

  function FoundBefore(chain: HubChain, from: nat, next: int, configFrom: nat): HubUpdate {
    HubUpdate(Window(chain.routes, configFrom, next - 1), Window(chain.contracts, configFrom, next - 1),
              Window(ProposalsIn(chain.pool), from, next - 1), Window(LeavesIn(chain.pool), from, next - 1))
  }

  lemma IngestHubTwice(st: HubState, a: HubUpdate, b: HubUpdate, ignoredProposals: set<nat>, ignoredLeaves: set<nat>)
    ensures IngestHub(IngestHub(st, a, ignoredProposals, ignoredLeaves), b, ignoredProposals, ignoredLeaves)
            == IngestHub(st, Joined(a, b), ignoredProposals, ignoredLeaves)
  {
    SetRoutesConcat(st.tokens, a.routes, b.routes);
    GroupByConcat(st.crossChainContracts, a.contracts, b.contracts, ChainOf);
    AppendTwice(st.proposedRootBundles, a.proposals, b.proposals, NotIn(ignoredProposals));
    AppendTwice(st.executedRootBundles, a.leaves, b.leaves, NotIn(ignoredLeaves));
    hide SetRoutes, GroupBy, Filter;
  }

  lemma AppendTwice<T>(s: seq<T>, a: seq<T>, b: seq<T>, p: T -> bool)
    ensures s + Filter(a, p) + Filter(b, p) == s + Filter(a + b, p)
  {
    FilterConcat(a, b, p);
    assert s + Filter(a, p) + Filter(b, p) == s + (Filter(a, p) + Filter(b, p));
  }

  /** A completed update, up to a block that its node had reached, leaves nothing out and nothing in twice. */
  lemma HubSyncStep(st: HubState, chain: HubChain, deploymentBlock: nat, fromBlock: nat, next: nat, to: nat,
                    ignoredProposals: set<nat>, ignoredLeaves: set<nat>)
    requires chain.Valid()
    requires deploymentBlock <= next && fromBlock <= next <= to
    requires HoldsUpTo(st, chain, deploymentBlock, fromBlock, next, ignoredProposals, ignoredLeaves)
    ensures HoldsUpTo(IngestHub(st, Found(chain, next, to, next), ignoredProposals, ignoredLeaves),
                      chain, deploymentBlock, fromBlock, to + 1, ignoredProposals, ignoredLeaves)
  {
    FoundJoins(chain, deploymentBlock, fromBlock, next, to);
    hide IngestHub, FoundBefore, Found;
    IngestHubTwice(NOTHING, FoundBefore(chain, fromBlock, next, deploymentBlock), Found(chain, next, to, next),
                   ignoredProposals, ignoredLeaves);
  }

  lemma FoundJoins(chain: HubChain, deploymentBlock: nat, fromBlock: nat, next: nat, to: nat)
    requires chain.Valid()
    requires deploymentBlock <= next && fromBlock <= next <= to
    ensures Joined(FoundBefore(chain, fromBlock, next, deploymentBlock), Found(chain, next, to, next))
            == FoundBefore(chain, fromBlock, to + 1, deploymentBlock)
  {
    WindowsAbut(chain.routes, deploymentBlock, next - 1, to);
    WindowsAbut(chain.contracts, deploymentBlock, next - 1, to);
    CollectKeepsOrder(chain.pool, ProposalOf);
    CollectKeepsOrder(chain.pool, LeafOf);
    WindowsAbut(ProposalsIn(chain.pool), fromBlock, next - 1, to);
    WindowsAbut(LeavesIn(chain.pool), fromBlock, next - 1, to);
  }

  class HubPoolClient {
    const deploymentBlock: nat
    const fromBlock: nat
    const ignoredHubExecutedBundles: set<nat>
    const ignoredHubProposedBundles: set<nat>
    const base: BaseClient

    var state: HubState
    var pendingRootBundle: Option<PendingRootBundle>

    constructor (deploymentBlock: nat, fromBlock: nat, toBlock: Option<nat>, lookBack: Option<int>,
                 ignoredExecuted: set<nat>, ignoredProposed: set<nat>)
      ensures state == NOTHING && pendingRootBundle == None && fresh(base)
      ensures base.firstBlockToSearch == fromBlock && !base.isUpdated && base.toBlock == toBlock
      ensures this.deploymentBlock == deploymentBlock && this.fromBlock == fromBlock
      ensures ignoredHubExecutedBundles == ignoredExecuted && ignoredHubProposedBundles == ignoredProposed
    {
      this.deploymentBlock, this.fromBlock := deploymentBlock, fromBlock;
      ignoredHubExecutedBundles, ignoredHubProposedBundles := ignoredExecuted, ignoredProposed;
      base := new BaseClient(fromBlock, if deploymentBlock == 0 then -1 else 0, toBlock, lookBack);
      state, pendingRootBundle := NOTHING, None;
    }

    static method Query<T(!new)>(log: seq<Event<T>>, head: nat, config: EventSearchConfig, outage: nat -> bool,
                                 order: Listing<T>)
      returns (r: Result<seq<Event<T>>>)
      requires IsLog(log) && IsListing(order)
      ensures r.Success? ==>
                && multiset(r.value) == multiset(Window(Visible(log, head), config.fromBlock, config.toBlock))
                && (ListsInOrder(order) ==> r.value == Window(Visible(log, head), config.fromBlock, config.toBlock))
    {
      FilterKeepsOrder(Ascending, log, InBlocks<T>(0, head));
      r := PaginatedEventQuery(Visible(log, head), config, outage, order);
    }

    /** The query part of `_update`. What it finds is left in the order in which the node lists it. */
    method QueryHub(chain: HubChain, head: nat, config: EventSearchConfig, outage: (HubPoolEvent, nat) -> bool,
                    order: HubListing)
      returns (r: Result<HubUpdate>)
      requires chain.Valid() && order.Valid()
      ensures r.Success? ==>
                var found := Found(SeenAt(chain, head), config.fromBlock, config.toBlock, ConfigFrom(config.fromBlock));
                Permutes(r.value, found) && (order.InOrder() ==> r.value == found)
    {
      var overridden := config.(fromBlock := ConfigFrom(config.fromBlock));
      CollectKeepsOrder(chain.pool, ProposalOf);
      CollectKeepsOrder(chain.pool, LeafOf);
      var contracts := Query(chain.contracts, head, overridden, (k: nat) => outage(CrossChainContractsSet, k), order.contracts);
      var routes := Query(chain.routes, head, overridden, (k: nat) => outage(SetPoolRebalanceRoute, k), order.routes);
      var proposals := Query(ProposalsIn(chain.pool), head, config,
                             (k: nat) => outage(HubPoolEvent.ProposeRootBundle, k), order.proposals);
      var leaves := Query(LeavesIn(chain.pool), head, config,
                          (k: nat) => outage(HubPoolEvent.RootBundleExecuted, k), order.leaves);
      if contracts.Failure? || routes.Failure? || proposals.Failure? || leaves.Failure? {
        return Failure("Unable to update HubPoolClient");
      }
      CollectWindow(chain.pool, ProposalOf, 0, head);
      CollectWindow(chain.pool, LeafOf, 0, head);
      return Success(HubUpdate(routes.value, contracts.value, proposals.value, leaves.value));
    }

    /** Routes and contracts go back to the deployment until the client has been updated once. */
    function ConfigFrom(from: nat): nat
      reads base
    {
      if base.isUpdated then from else deploymentBlock
    }

    method SetContracts(events: ContractLog)
      modifies this`state
      ensures state == old(state).(crossChainContracts := GroupBy(old(state).crossChainContracts, events, ChainOf))
    {
      ghost var start := state;
      for i := 0 to |events|
        invariant state == start.(crossChainContracts := GroupBy(start.crossChainContracts, events[..i], ChainOf))
      {
        assert Init(events[..i + 1]) == events[..i];
        var e := events[i];
        state := state.(crossChainContracts := AssignArray(state.crossChainContracts, e.args.l2ChainId, e));
      }
      assert events[..|events|] == events;
    }

    method SetTokens(events: RouteLog)
      modifies this`state
      ensures state == old(state).(tokens := SetRoutes(old(state).tokens, events))
    {
      ghost var start := state;
      for i := 0 to |events|
        invariant state == start.(tokens := SetRoutes(start.tokens, events[..i]))
      {
        assert Init(events[..i + 1]) == events[..i];
        state := state.(tokens := SetRoute(state.tokens, events[i]));
      }
      assert events[..|events|] == events;
    }

    method PushLeaves(events: Leaves)
      modifies this`state
      ensures state == old(state).(executedRootBundles :=
                old(state).executedRootBundles + Filter(events, NotIn(ignoredHubExecutedBundles)))
    {
      ghost var start := state;
      for i := 0 to |events|
        invariant state == start.(executedRootBundles :=
                    start.executedRootBundles + Filter(events[..i], NotIn(ignoredHubExecutedBundles)))
      {
        assert Init(events[..i + 1]) == events[..i];
        if events[i].pos.block in ignoredHubExecutedBundles {
          continue;
        }
        state := state.(executedRootBundles := state.executedRootBundles + [events[i]]);
      }
      assert events[..|events|] == events;
    }

    method Ingest(u: HubUpdate)
      modifies this`state
      ensures state == IngestHub(old(state), u, ignoredHubProposedBundles, ignoredHubExecutedBundles)
    {
      SetContracts(u.contracts);
      SetTokens(u.routes);
      state := state.(proposedRootBundles :=
        state.proposedRootBundles + Filter(u.proposals, NotIn(ignoredHubProposedBundles)));
      PushLeaves(u.leaves);
    }

    /** The chain's events are in the state up to the cursor. */
    ghost predicate InSync(chain: HubChain)
      reads this, base
    {
      var next := base.firstBlockToSearch;
      if base.isUpdated then
        && deploymentBlock <= next && fromBlock <= next
        && HoldsUpTo(state, chain, deploymentBlock, fromBlock, next, ignoredHubProposedBundles, ignoredHubExecutedBundles)
      else state == NOTHING && next == fromBlock
    }

    /**
     `update`. It throws after writing its lists exactly when the HubPool has a pending proposal that was made before
     the first block ever searched (or is ignored).
     */
    method Update(chain: HubChain, head: nat, outage: (HubPoolEvent, nat) -> bool, order: HubListing,
                  configStoreIsUpdated: bool)
      returns (r: Outcome, ghost u: HubUpdate)
      requires chain.Valid() && order.Valid()
      modifies this, base
      ensures r.NothingToSearch? || r.Rejected? ==> unchanged(this) && unchanged(base)
      ensures !configStoreIsUpdated ==> r.Rejected?
      ensures r.Updated? || r.Interrupted? ==>
                var search := NextSearch(old(base.firstBlockToSearch), old(base.toBlock), head, base.maxBlockLookBack);
                && search.Search?
                && var to := search.config.toBlock;
                && state == IngestHub(old(state), u, ignoredHubProposedBundles, ignoredHubExecutedBundles)
                && var found := Found(SeenAt(chain, head), old(base.firstBlockToSearch), to,
                                      old(ConfigFrom(base.firstBlockToSearch)));
                && Permutes(u, found) && (order.InOrder() ==> u == found)
                && (r.Interrupted? <==> chain.unclaimedAt(to) > 0 && state.proposedRootBundles == [])
                && (r.Interrupted? ==> unchanged(base) && pendingRootBundle == old(pendingRootBundle))
                && (r.Updated? ==>
                      && base.SearchedTo(to)
                      && pendingRootBundle == if chain.unclaimedAt(to) > 0
                                              then Some(Pending(chain.unclaimedAt(to), Last(state.proposedRootBundles)))
                                              else None)
      ensures r.Updated? && old(InSync(chain)) && order.InOrder()
              && (old(base.toBlock).Some? ==> old(base.toBlock).value <= head)
              && (!old(base.isUpdated) ==> deploymentBlock <= base.firstBlockToSearch)
              ==> InSync(chain)
    {
      hide IngestHub, Found, HoldsUpTo, SeenAt, Pending, Permutes;
      u := HubUpdate([], [], [], []);
      if !configStoreIsUpdated {
        return Outcome.Rejected("ConfigStoreClient not updated"), u;
      }
      var search := base.UpdateSearchConfig(head);
      if search.Thrown? {
        return Outcome.Rejected("Invalid event search config"), u;
      }
      if search.Rejected? {
        return NothingToSearch, u;
      }
      var update := QueryHub(chain, head, search.config, outage, order);
      if update.Failure? {
        return Outcome.Rejected(update.error), u;
      }
      var to := search.config.toBlock;
      u := update.value;
      Ingest(update.value);
      var unclaimed := chain.unclaimedAt(to);
      if unclaimed > 0 {
        if state.proposedRootBundles == [] {
          return Interrupted, u;
        }
        pendingRootBundle := Some(Pending(unclaimed, Last(state.proposedRootBundles)));
      } else {
        pendingRootBundle := None;
      }
      base.Advance(to);
      if old(InSync(chain)) && to <= head && order.InOrder() {
        StaysInSync(chain, head, old(state), old(base.firstBlockToSearch), to, old(base.isUpdated));
      }
      r := Updated;
    }

    lemma StaysInSync(chain: HubChain, head: nat, before: HubState, next: nat, to: nat, wasUpdated: bool)
      requires chain.Valid() && next <= to <= head
      requires if wasUpdated
               then deploymentBlock <= next && fromBlock <= next
                    && HoldsUpTo(before, chain, deploymentBlock, fromBlock, next,
                                 ignoredHubProposedBundles, ignoredHubExecutedBundles)
               else before == NOTHING && next == fromBlock
      ensures HoldsUpTo(
                IngestHub(before, Found(SeenAt(chain, head), next, to, if wasUpdated then next else deploymentBlock),
                          ignoredHubProposedBundles, ignoredHubExecutedBundles),
                chain, deploymentBlock, fromBlock, to + 1, ignoredHubProposedBundles, ignoredHubExecutedBundles)
    {
      FoundBelowHead(chain, head, next, to, if wasUpdated then next else deploymentBlock);
      if wasUpdated {
        HubSyncStep(before, chain, deploymentBlock, fromBlock, next, to, ignoredHubProposedBundles, ignoredHubExecutedBundles);
      }
    }
  }

  /** The chain as a node at `head` serves it. */
  function SeenAt(chain: HubChain, head: nat): HubChain {
    chain.(routes := Visible(chain.routes, head), contracts := Visible(chain.contracts, head),
           pool := Visible(chain.pool, head))
  }

  lemma FoundBelowHead(chain: HubChain, head: nat, from: nat, to: nat, configFrom: nat)
    requires to <= head
    ensures Found(SeenAt(chain, head), from, to, configFrom) == Found(chain, from, to, configFrom)
  {
    VisibleWindow(chain.routes, head, configFrom, to);
    VisibleWindow(chain.contracts, head, configFrom, to);
    CollectWindow(chain.pool, ProposalOf, 0, head);
    CollectWindow(chain.pool, LeafOf, 0, head);
    VisibleWindow(ProposalsIn(chain.pool), head, from, to);
    VisibleWindow(LeavesIn(chain.pool), head, from, to);
  }

  // ---------- what a client in sync answers ----------

  /** What the client is told not to keep is left out, and nothing else: of proposals, leaves, contracts and mappings. */
  lemma StateFromTheLog(st: HubState, chain: HubChain, deploymentBlock: nat, fromBlock: nat, next: nat,
                        ignoredProposals: set<nat>, ignoredLeaves: set<nat>, chainId: nat)
    requires HoldsUpTo(st, chain, deploymentBlock, fromBlock, next, ignoredProposals, ignoredLeaves)
    ensures forall b :: b in st.proposedRootBundles <==>
              b in ProposalsIn(chain.pool) && fromBlock <= b.pos.block < next && b.pos.block !in ignoredProposals
    ensures forall leaf :: leaf in st.executedRootBundles <==>
              leaf in LeavesIn(chain.pool) && fromBlock <= leaf.pos.block < next && leaf.pos.block !in ignoredLeaves
    ensures forall e :: e in Get(st.crossChainContracts, chainId) <==>
              e in chain.contracts && deploymentBlock <= e.pos.block < next && e.args.l2ChainId == chainId
    ensures Indexes(st.tokens, Window(chain.routes, deploymentBlock, next - 1))
  {
    var found := FoundBefore(chain, fromBlock, next, deploymentBlock);
    forall b ensures b in st.proposedRootBundles <==>
                       b in ProposalsIn(chain.pool) && fromBlock <= b.pos.block < next && b.pos.block !in ignoredProposals
    {
      FilterMembers(found.proposals, NotIn(ignoredProposals), b);
      FilterMembers(ProposalsIn(chain.pool), InBlocks<RootBundle>(fromBlock, next - 1), b);
    }
    forall leaf ensures leaf in st.executedRootBundles <==>
                          leaf in LeavesIn(chain.pool) && fromBlock <= leaf.pos.block < next
                          && leaf.pos.block !in ignoredLeaves
    {
      FilterMembers(found.leaves, NotIn(ignoredLeaves), leaf);
      FilterMembers(LeavesIn(chain.pool), InBlocks<Leaf>(fromBlock, next - 1), leaf);
    }
    GroupByContents(map[], found.contracts, ChainOf, chainId);
    assert Get(st.crossChainContracts, chainId) == Filter(found.contracts, HasKey(ChainOf, chainId));
    forall e ensures e in Get(st.crossChainContracts, chainId) <==>
                       e in chain.contracts && deploymentBlock <= e.pos.block < next && e.args.l2ChainId == chainId
    {
      FilterMembers(found.contracts, HasKey(ChainOf, chainId), e);
      FilterMembers(chain.contracts, InBlocks<SpokePoolSet>(deploymentBlock, next - 1), e);
      assert HasKey(ChainOf, chainId)(e) <==> ChainOf(e) == chainId;
    }
  }

  /** Every token answer as of a searched block is that of the whole chain, so later updates never change it. */
  lemma TokensAreFinal(st: HubState, chain: HubChain, deploymentBlock: nat, fromBlock: nat, next: nat, later: nat,
                       ignoredProposals: set<nat>, ignoredLeaves: set<nat>, token: string, chainId: nat, block: nat)
    requires chain.Valid()
    requires HoldsUpTo(st, chain, deploymentBlock, fromBlock, next, ignoredProposals, ignoredLeaves)
    requires deploymentBlock <= next <= later && block < next
    ensures var (known, all) := (Window(chain.routes, deploymentBlock, next - 1), Window(chain.routes, deploymentBlock, later));
            && IsLog(known) && Indexes(st.tokens, known)
            && L1TokenAsOf(known, token, chainId, block) == L1TokenAsOf(all, token, chainId, block)
            && L2TokenAsOf(known, token, chainId, block) == L2TokenAsOf(all, token, chainId, block)
            && CanonicalL1(known, token, chainId, block) == CanonicalL1(all, token, chainId, block)
  {
    var known, more := Window(chain.routes, deploymentBlock, next - 1), Window(chain.routes, next, later);
    WindowsAbut(chain.routes, deploymentBlock, next - 1, later);
    FilterKeepsOrder(Ascending, chain.routes, InBlocks<Route>(deploymentBlock, next - 1));
    FilterKeepsOrder(Ascending, chain.routes, InBlocks<Route>(deploymentBlock, later));
    forall e | e in more ensures e.pos.block > block {
      FilterMembers(chain.routes, InBlocks<Route>(next, later), e);
    }
    TokenAnswersAreFinal(known, more, token, chainId, block);
    CanonicalIsFinal(known, more, token, chainId, block);
  }

  /**
   A client in sync that ignores no bundle calls a bundle valid as of a searched block exactly when all its leaves have
   been executed by then, and never changes its mind.
   */
  lemma BundlesAreFinal(s: Pool, st: HubState, chain: HubChain, deploymentBlock: nat, fromBlock: nat, next: nat,
                        later: nat, k: nat, m: nat)
    requires chain.Valid()
    requires HoldsUpTo(st, chain, deploymentBlock, fromBlock, next, {}, {})
    requires fromBlock <= next <= later && m < next
    requires IsProtocolRun(s, Window(chain.pool, fromBlock, later))
    requires k < |st.proposedRootBundles|
    ensures var (known, all) := (Window(chain.pool, fromBlock, next - 1), Window(chain.pool, fromBlock, later));
            && st.proposedRootBundles == ProposalsIn(known)
            && (IsRootBundleValid(st.proposedRootBundles, st.executedRootBundles, st.proposedRootBundles[k], m)
                <==> FullyExecutedBy(known, k, m))
            && (FullyExecutedBy(known, k, m) <==> FullyExecutedBy(all, k, m))
  {
    StateOfRun(st, chain, deploymentBlock, fromBlock, next);
    hide *;
    var known, more := Window(chain.pool, fromBlock, next - 1), Window(chain.pool, next, later);
    WindowsAbut(chain.pool, fromBlock, next - 1, later);
    LaterWindow(chain.pool, next, later, m);
    FullExecutionIsFinal(s, known, more, k, m);
    ProtocolRunIsJudgedRight(s, known, k, m);
  }

  lemma LaterWindow(pool: PoolLog, next: nat, later: nat, m: nat)
    requires m < next
    ensures forall e :: e in Window(pool, next, later) ==> e.pos.block > m
  {
    forall e | e in Window(pool, next, later) ensures e.pos.block > m {
      FilterMembers(pool, InBlocks<PoolEvent>(next, later), e);
    }
  }

  /** The two lists are the proposals and leaves of the protocol's run up to the cursor. */
  lemma StateOfRun(st: HubState, chain: HubChain, deploymentBlock: nat, fromBlock: nat, next: nat)
    requires HoldsUpTo(st, chain, deploymentBlock, fromBlock, next, {}, {})
    ensures var run := Window(chain.pool, fromBlock, next - 1);
            st.proposedRootBundles == ProposalsIn(run) && st.executedRootBundles == LeavesIn(run)
  {
    PoolEventsInWindow(chain.pool, fromBlock, next - 1);
    FilterAll(Window(ProposalsIn(chain.pool), fromBlock, next - 1), NotIn<RootBundle>({}));
    FilterAll(Window(LeavesIn(chain.pool), fromBlock, next - 1), NotIn<Leaf>({}));
  }

  /** The leaves of the bundle reported as pending are accounted for: executed or still unclaimed. */
  lemma PendingIsOutstanding(s: Pool, st: HubState, chain: HubChain, deploymentBlock: nat, fromBlock: nat, to: nat)
    requires HoldsUpTo(st, chain, deploymentBlock, fromBlock, to + 1, {}, {})
    requires IsRun(s, Window(chain.pool, fromBlock, to))
    requires chain.unclaimedAt(to) == After(s, Window(chain.pool, fromBlock, to)).unclaimed > 0
    requires st.proposedRootBundles != []
    ensures var (run, latest) := (Window(chain.pool, fromBlock, to), Last(st.proposedRootBundles));
            && st.proposedRootBundles == ProposalsIn(run)
            && |LeavesOf(run, |ProposalsIn(run)| - 1)| + Pending(chain.unclaimedAt(to), latest).unclaimedPoolRebalanceLeafCount
               == latest.args.poolRebalanceLeafCount
            && Pending(chain.unclaimedAt(to), latest).proposalBlockNumber == After(s, run).proposalBlock
            && latest in ProposalsIn(run)
            && var (ends, reported) := (latest.args.bundleEvaluationBlockNumbers,
                                        Pending(chain.unclaimedAt(to), latest).bundleEvaluationBlockNumbers);
               |reported| == |ends| && forall i :: 0 <= i < |ends| ==>
                 reported[i] == if ends[i] < 9_007_199_254_740_992 then ends[i] else 0
  {
    var run := Window(chain.pool, fromBlock, to);
    StateOfRun(st, chain, deploymentBlock, fromBlock, to + 1);
    UnclaimedAreOutstanding(s, run);
    PendingIsLast(s, run);
  }
}
