/** The SpokePoolClient: windowed updates of its indexes (src/clients/SpokePoolClient.ts). */
module SpokePoolClient {
  import opened Wrappers
  import opened Numbers
  import opened Sequences
  import opened EventUtils
  import opened ObjectUtils
  import opened BaseAbstractClient
  import opened SpokePool
  import opened SpokeIndexes
  import opened SpokeReplay
  import opened SpokeHistory
  import opened SpokeRecords

  /**
   A node as one update sees it: the chain's log, the head it has reached, the order in which it lists the events of a
   query, and SpokePool state by block.
   */
  datatype Node = Node(
    log: Log, head: nat, order: Listing<SpokeEvent>, numberOfDeposits: nat -> nat, currentTime: nat -> nat)
  {
    ghost predicate Valid() {
      IsLog(log) && IsListing(order)
    }
  }

  function KindIn(kinds: set<EventKind>): Event<SpokeEvent> -> bool {
    (e: Event<SpokeEvent>) => KindOf(e.args) in kinds
  }

  const ALL_KINDS := {Deposits, SpeedUps, SlowFills, Fills, Routes, Bridged, Roots, Refunds}

  /** What an update of `kinds` over `[from, to]` fetches. */
  function Fetched(log: Log, kinds: set<EventKind>, from: nat, to: nat, routesFrom: nat): Batch {
    Batch(Filter(Window(log, from, to), KindIn(kinds)), Filter(Window(log, routesFrom, to), KindIn(kinds)))
  }

  ghost predicate AllOfKind(log: Log, kind: EventKind) {
    forall e :: e in log ==> KindOf(e.args) == kind
  }

  /** What `Query` returns for one kind is that kind's part of the batch. */
  lemma QueriedKind(w: Log, kinds: set<EventKind>, kind: EventKind)
    ensures var queried := if kind in kinds then OfKind(w, kind) else [];
            && OfKind(Filter(w, KindIn(kinds)), kind) == queried
            && AllOfKind(queried, kind)
  {
    forall e: Event<SpokeEvent> ensures e in OfKind(w, kind) ==> KindOf(e.args) == kind {
      FilterMembers(w, IsKind(kind), e);
    }
    if kind in kinds {
      FilterTwice(w, KindIn(kinds), IsKind(kind), IsKind(kind));
    } else {
      forall e | e in Filter(w, KindIn(kinds)) ensures !IsKind(kind)(e) {
        FilterMembers(w, KindIn(kinds), e);
      }
      FilterNone(Filter(w, KindIn(kinds)), IsKind(kind));
    }
  }

  /** `_update`'s result: the sorted events, one list per kind. */
  datatype QueryResults = QueryResults(
    bridged: Log, deposits: Log, speedUps: Log, slowFills: Log, fills: Log, routes: Log, roots: Log, refunds: Log)

  /** SpokePool state read at the ends of a window; 0 and MAX_SAFE_INTEGER stand for "not read yet". */
  datatype PoolView = PoolView(
    currentTime: nat, oldestTime: nat, firstDepositIdForSpokePool: nat, lastDepositIdForSpokePool: nat)

  function NextPoolView(v: PoolView, node: Node, deploymentBlock: nat, from: nat, to: nat): PoolView {
    PoolView(
      node.currentTime(to),
      if v.oldestTime == 0 then node.currentTime(Max(from, deploymentBlock)) else v.oldestTime,
      if v.firstDepositIdForSpokePool == MAX_SAFE_INTEGER then node.numberOfDeposits(deploymentBlock)
      else v.firstDepositIdForSpokePool,
      Max(node.numberOfDeposits(to) - 1, 0))
  }

  /** Times and deposit counts are those of the chain at the ends of the blocks searched and at the deployment. */
  lemma PoolViewOfNode(v: PoolView, node: Node, deploymentBlock: nat, from: nat, to: nat)
    ensures var view := NextPoolView(v, node, deploymentBlock, from, to);
            && view.currentTime == node.currentTime(to)
            && (v.oldestTime != 0 ==> view.oldestTime == v.oldestTime)
            && (v.oldestTime == 0 && deploymentBlock <= from ==> view.oldestTime == node.currentTime(from))
            && (v.oldestTime == 0 && from <= deploymentBlock ==> view.oldestTime == node.currentTime(deploymentBlock))
            && (v.firstDepositIdForSpokePool == MAX_SAFE_INTEGER ==>
                  view.firstDepositIdForSpokePool == node.numberOfDeposits(deploymentBlock))
            && (v.firstDepositIdForSpokePool != MAX_SAFE_INTEGER ==>
                  view.firstDepositIdForSpokePool == v.firstDepositIdForSpokePool)
            && (node.numberOfDeposits(to) > 0 ==> view.lastDepositIdForSpokePool + 1 == node.numberOfDeposits(to))
            && (node.numberOfDeposits(to) == 0 ==> view.lastDepositIdForSpokePool == 0)
  {
  }

  datatype SpokePoolUpdate =
    | Failed
    | NothingToSearch
    | Ready(queried: QueryResults, searchEndBlock: nat, pool: PoolView)

  /** `q` is the batch `b`, taken apart by kind. */
  ghost predicate Answers(q: QueryResults, b: Batch) {
    && q.bridged == OfKind(b.events, Bridged)
    && q.deposits == OfKind(b.events, Deposits)
    && q.speedUps == OfKind(b.events, SpeedUps)
    && q.slowFills == OfKind(b.events, SlowFills)
    && q.fills == OfKind(b.events, Fills)
    && q.routes == OfKind(b.routes, Routes)
    && q.roots == OfKind(b.events, Roots)
    && q.refunds == OfKind(b.events, Refunds)
    && AllOfKind(q.deposits, Deposits)
    && AllOfKind(q.speedUps, SpeedUps)
    && AllOfKind(q.slowFills, SlowFills)
    && AllOfKind(q.fills, Fills)
    && AllOfKind(q.routes, Routes)
  }

  predicate IsQueried(events: Log, w: Log, kinds: set<EventKind>, kind: EventKind) {
    events == if kind in kinds then OfKind(w, kind) else []
  }

  lemma QueriesAnswer(q: QueryResults, w: Log, routes: Log, kinds: set<EventKind>)
    requires IsQueried(q.bridged, w, kinds, Bridged) && IsQueried(q.deposits, w, kinds, Deposits)
    requires IsQueried(q.speedUps, w, kinds, SpeedUps) && IsQueried(q.slowFills, w, kinds, SlowFills)
    requires IsQueried(q.fills, w, kinds, Fills) && IsQueried(q.routes, routes, kinds, Routes)
    requires IsQueried(q.roots, w, kinds, Roots) && IsQueried(q.refunds, w, kinds, Refunds)
    ensures Answers(q, Batch(Filter(w, KindIn(kinds)), Filter(routes, KindIn(kinds))))
  {
    QueriedKind(w, kinds, Bridged);
    QueriedKind(w, kinds, Deposits);
    QueriedKind(w, kinds, SpeedUps);
    QueriedKind(w, kinds, SlowFills);
    QueriedKind(w, kinds, Fills);
    QueriedKind(routes, kinds, Routes);
    QueriedKind(w, kinds, Roots);
    QueriedKind(w, kinds, Refunds);
  }

  /** The writes of one update, list by list, amount to `Ingest`. */
  lemma IngestByKind(cfg: SpokeConfig, st: Indexes, q: QueryResults, b: Batch, st': Indexes)
    requires Answers(q, b)
    requires st'.tokensBridged == st.tokensBridged + q.bridged
    requires var stored := StoreDeposits(DepositIndexOf(st), DepositsIn(cfg, q.deposits));
             && st'.earliestDepositIdQueried == stored.earliest && st'.latestDepositIdQueried == stored.latest
             && Quotes(st'.speedUps, st'.deposits) ==
                ApplySpeedUps(cfg.chainId, Quotes(st.speedUps, stored.deposits), SpeedUpsIn(q.speedUps))
    requires st'.slowFillRequests == FirstBy(st.slowFillRequests, SlowFillsIn(cfg, q.slowFills), SlowFillHash(cfg))
    requires st'.fills == GroupBy(st.fills, FillsIn(cfg, q.fills), FillOrigin)
    requires st'.depositHashesToFills == GroupBy(st.depositHashesToFills, FillsIn(cfg, q.fills), FillDepositHash)
    requires st'.depositRoutes == FlagBy(st.depositRoutes, RoutesIn(q.routes))
    requires st'.rootBundleRelays == st.rootBundleRelays + q.roots
    requires st'.relayerRefundExecutions == st.relayerRefundExecutions + q.refunds
    ensures st' == Ingest(cfg, st, b)
  {
    ViewsOfKinds(cfg, b.events);
    ViewsOfKinds(cfg, b.routes);
  }

  // ---------- clients in sync ----------

  /**
   Everything the chain has logged from `fromBlock` up to the cursor has been ingested by the updates that completed, once
   each and in order, and the deposit routes all the way back to the deployment. The others read on from the cursor.
   */
  ghost predicate InSync(log: Log, deploymentBlock: nat, fromBlock: nat, h: seq<Step>, cursor: nat) {
    && fromBlock <= cursor
    && Merge(Completed(h)).events == Window(log, fromBlock, cursor - 1)
    && HoldsRoutes(log, deploymentBlock, h, cursor)
    && Follows(From(log, fromBlock), h)
  }

  ghost predicate HoldsRoutes(log: Log, deploymentBlock: nat, h: seq<Step>, cursor: nat) {
    Completed(h) != [] ==>
      && deploymentBlock <= cursor
      && OfKind(Merge(Completed(h)).routes, Routes) == OfKind(Window(log, deploymentBlock, cursor - 1), Routes)
  }

  /** Where the routes of the next update start. */
  function RoutesFrom(deploymentBlock: nat, h: seq<Step>, cursor: nat): nat {
    if Completed(h) == [] then deploymentBlock else cursor
  }

  /** The caller asks for every kind of event that there is in the window. */
  ghost predicate AsksForAll(log: Log, kinds: set<EventKind>, from: nat, to: nat, routesFrom: nat) {
    && (forall e :: e in log && from <= e.pos.block <= to ==> KindOf(e.args) in kinds)
    && (Routes in kinds || forall e :: e in log && routesFrom <= e.pos.block <= to ==> KindOf(e.args) != Routes)
  }

  lemma InSyncAtFirst(deploymentBlock: nat, fromBlock: nat)
    ensures forall log: Log :: InSync(log, deploymentBlock, fromBlock, [], fromBlock)
  {
    forall log: Log ensures InSync(log, deploymentBlock, fromBlock, [], fromBlock) {
      EmptyWindow(log, fromBlock, fromBlock - 1);
    }
  }

  /** The part of a window asked for is all of it exactly if there is nothing else. */
  lemma AskedIsAllIff(w: Log, kinds: set<EventKind>)
    ensures Filter(w, KindIn(kinds)) == w <==> forall e :: e in w ==> KindOf(e.args) in kinds
    ensures OfKind(Filter(w, KindIn(kinds)), Routes) == OfKind(w, Routes)
            <==> Routes in kinds || forall e :: e in w ==> KindOf(e.args) != Routes
  {
    forall e ensures e in Filter(w, KindIn(kinds)) <==> e in w && KindOf(e.args) in kinds
      ensures e in OfKind(w, Routes) <==> e in w && KindOf(e.args) == Routes
    {
      FilterMembers(w, KindIn(kinds), e);
      FilterMembers(w, IsKind(Routes), e);
    }
    if forall e :: e in w ==> KindOf(e.args) in kinds {
      FilterAll(w, KindIn(kinds));
    }
    QueriedKind(w, kinds, Routes);
    if forall e :: e in w ==> KindOf(e.args) != Routes {
      FilterNone(w, IsKind(Routes));
    }
  }

  lemma MergeExtends(all: Log, h: seq<Step>, s: Step)
    ensures var extended := h + [s];
            && Completed(extended) == (if s.completed then Completed(h) + [s.batch] else Completed(h))
            && (s.completed ==> Merge(Completed(extended)) == SpokeReplay.Joined(Merge(Completed(h)), s.batch))
            && (Follows(all, extended) <==> Follows(all, h) && Merge(Completed(h)).events + s.batch.events <= all)
  {
    assert Init(h + [s]) == h;
    if s.completed {
      assert Init(Completed(h) + [s.batch]) == Completed(h);
    } else {
      assert Completed(h) + [] == Completed(h);
    }
  }

  /** Windows join if and only if nothing is left out of the second. */
  lemma EventsJoin(log: Log, fromBlock: nat, cursor: nat, to: nat, events: Log)
    requires IsLog(log) && fromBlock <= cursor <= to
    ensures Window(log, fromBlock, cursor - 1) + events == Window(log, fromBlock, to) <==> events == Window(log, cursor, to)
    ensures Window(log, fromBlock, to) <= From(log, fromBlock)
  {
    var before := Window(log, fromBlock, cursor - 1);
    WindowsAbut(log, fromBlock, cursor - 1, to);
    WindowIsPrefix(log, fromBlock, to);
    SameRestIff(before, events, Window(log, cursor, to));
  }

  lemma SameRestIff<T>(a: seq<T>, b: seq<T>, c: seq<T>)
    ensures a + b == a + c <==> b == c
  {
    assert b == (a + b)[|a|..] && c == (a + c)[|a|..];
  }

  lemma RoutesJoin(log: Log, deploymentBlock: nat, h: seq<Step>, cursor: nat, to: nat, routes: Log)
    requires IsLog(log) && cursor <= to && deploymentBlock <= to + 1 && HoldsRoutes(log, deploymentBlock, h, cursor)
    ensures OfKind(Merge(Completed(h)).routes + routes, Routes) == OfKind(Window(log, deploymentBlock, to), Routes)
            <==> OfKind(routes, Routes) == OfKind(Window(log, RoutesFrom(deploymentBlock, h, cursor), to), Routes)
  {
    FilterConcat(Merge(Completed(h)).routes, routes, IsKind(Routes));
    if Completed(h) == [] {
      assert [] + routes == routes;
    } else {
      var (before, rest) := (Window(log, deploymentBlock, cursor - 1), Window(log, cursor, to));
      WindowsAbut(log, deploymentBlock, cursor - 1, to);
      FilterConcat(before, rest, IsKind(Routes));
      SameRestIff(OfKind(before, Routes), OfKind(routes, Routes), OfKind(rest, Routes));
    }
  }

  /** What the step reads of a window of the chain. */
  lemma ReadsAllIff(log: Log, head: nat, kinds: set<EventKind>, from: nat, to: nat, routesFrom: nat)
    requires to <= head
    ensures var b := Fetched(Visible(log, head), kinds, from, to, routesFrom);
            AsksForAll(log, kinds, from, to, routesFrom)
            <==> b.events == Window(log, from, to) && OfKind(b.routes, Routes) == OfKind(Window(log, routesFrom, to), Routes)
  {
    VisibleWindow(log, head, from, to);
    VisibleWindow(log, head, routesFrom, to);
    AskedIsAllIff(Window(log, from, to), kinds);
    AskedIsAllIff(Window(log, routesFrom, to), kinds);
    WindowMembers(log, from, to);
    WindowMembers(log, routesFrom, to);
  }

  /** Asking for every kind is asking for all there is. */
  lemma AllKindsAskForAll(log: Log, from: nat, to: nat, routesFrom: nat)
    ensures AsksForAll(log, ALL_KINDS, from, to, routesFrom)
  {
    forall e: Event<SpokeEvent> ensures KindOf(e.args) in ALL_KINDS {
    }
  }

  /**
   A completed update, up to a block that its node had reached, keeps a client in sync if and only if it asks for every
   kind of event that there is to ingest, and reaches the deployment.
   */
  lemma SyncStepIff(log: Log, deploymentBlock: nat, fromBlock: nat, h: seq<Step>, cursor: nat, to: nat, head: nat,
                    kinds: set<EventKind>, s: Step)
    requires IsLog(log) && cursor <= to <= head && s.completed
    requires InSync(log, deploymentBlock, fromBlock, h, cursor)
    requires s.batch == Fetched(Visible(log, head), kinds, cursor, to, RoutesFrom(deploymentBlock, h, cursor))
    ensures InSync(log, deploymentBlock, fromBlock, h + [s], to + 1)
            <==> AsksForAll(log, kinds, cursor, to, RoutesFrom(deploymentBlock, h, cursor)) && deploymentBlock <= to + 1
    ensures kinds == ALL_KINDS ==> AsksForAll(log, kinds, cursor, to, RoutesFrom(deploymentBlock, h, cursor))
  {
    AllKindsAskForAll(log, cursor, to, RoutesFrom(deploymentBlock, h, cursor));
    ReadsAllIff(log, head, kinds, cursor, to, RoutesFrom(deploymentBlock, h, cursor));
    EventsJoin(log, fromBlock, cursor, to, s.batch.events);
    if deploymentBlock <= to + 1 {
      RoutesJoin(log, deploymentBlock, h, cursor, to, s.batch.routes);
    }
    MergeExtends(From(log, fromBlock), h, s);
    hide Window, Filter, OfKind, Merge, Completed, Follows, From, Fetched, AsksForAll, RoutesFrom;
  }

  /** An update that throws leaves the client in sync up to the cursor, where it was. */
  lemma SyncAfterThrow(log: Log, deploymentBlock: nat, fromBlock: nat, h: seq<Step>, cursor: nat, to: nat, head: nat,
                       kinds: set<EventKind>, s: Step)
    requires IsLog(log) && cursor <= to <= head && !s.completed
    requires InSync(log, deploymentBlock, fromBlock, h, cursor)
    requires s.batch == Fetched(Visible(log, head), kinds, cursor, to, RoutesFrom(deploymentBlock, h, cursor))
    requires AsksForAll(log, kinds, cursor, to, RoutesFrom(deploymentBlock, h, cursor))
    ensures InSync(log, deploymentBlock, fromBlock, h + [s], cursor)
  {
    ReadsAllIff(log, head, kinds, cursor, to, RoutesFrom(deploymentBlock, h, cursor));
    EventsJoin(log, fromBlock, cursor, to, s.batch.events);
    MergeExtends(From(log, fromBlock), h, s);
    hide Window, Filter, OfKind, Merge, Completed, Follows, From, Fetched, AsksForAll, RoutesFrom;
  }

  /** The chain as one update would fetch it. */
  function ChainUpTo(log: Log, deploymentBlock: nat, fromBlock: nat, cursor: nat): Batch {
    Batch(Window(log, fromBlock, cursor - 1), Window(log, deploymentBlock, cursor - 1))
  }

  /**
   Whatever its updates met with, a client in sync holds what one update over the chain would give, but for the deposits
   and bridged tokens that ThrowsMatterIff is about.
   */
  lemma InSyncIsOneFold(cfg: SpokeConfig, log: Log, deploymentBlock: nat, fromBlock: nat, h: seq<Step>, cursor: nat)
    requires InSync(log, deploymentBlock, fromBlock, h, cursor) && Completed(h) != [] && DerivedAlike(cfg, h)
    ensures AgreeOnOthers(Replay(h), Run(cfg, [ChainUpTo(log, deploymentBlock, fromBlock, cursor)]))
  {
    var chain := ChainUpTo(log, deploymentBlock, fromBlock, cursor);
    ReplayIsRun(cfg, h);
    WrittenIndexes(cfg, h);
    OtherIndexes(cfg, Completed(h));
    OtherIndexes(cfg, [chain]);
    MergeOfOne(chain);
    ViewsOfKinds(cfg, Merge(Completed(h)).routes);
    ViewsOfKinds(cfg, chain.routes);
    hide Replay, Run, Written, Merge, Window, Collect, FlagBy, GroupBy, FirstBy, Filter;
  }

  /**
   So its deposit routes are those of the chain: truthy exactly when the last event about the route since the deployment,
   up to the cursor, enabled it.
   */
  lemma RoutesOnChain(cfg: SpokeConfig, log: Log, deploymentBlock: nat, fromBlock: nat, h: seq<Step>, cursor: nat,
                      token: string, chain: nat)
    requires InSync(log, deploymentBlock, fromBlock, h, cursor) && Completed(h) != [] && DerivedAlike(cfg, h)
    ensures var routes := Replay(h).depositRoutes;
            var last := FindLast(Window(log, deploymentBlock, cursor - 1), SetsRoute(token, chain));
            && ((token, chain) in routes <==> last.Some?)
            && (last.Some? ==>
                  last.value.args.EnabledDepositRoute? && routes[(token, chain)].Truthy() == last.value.args.enabled)
  {
    var all := ChainUpTo(log, deploymentBlock, fromBlock, cursor);
    InSyncIsOneFold(cfg, log, deploymentBlock, fromBlock, h, cursor);
    RoutesFromTheLog(cfg, [all], token, chain);
    MergeOfOne(all);
    hide Replay, Run, Merge, Window, FindLast;
  }

  /** And so are its fills, slow fill requests, speed-ups, root bundle relays and refund executions, each as logged. */
  lemma IndexesOnChain(cfg: SpokeConfig, log: Log, deploymentBlock: nat, fromBlock: nat, h: seq<Step>, cursor: nat,
                       origin: nat, depositId: nat, hash: string, depositor: string)
    requires InSync(log, deploymentBlock, fromBlock, h, cursor) && Completed(h) != [] && DerivedAlike(cfg, h)
    ensures var (st, events) := (Replay(h), Window(log, fromBlock, cursor - 1));
            && AreFills(cfg, Filter(events, FillsFrom(origin)), Get(st.fills, origin))
            && AreFills(cfg, Filter(events, FillsDepositOf(origin, depositId)),
                        Get(st.depositHashesToFills, DepositKey(depositId, origin)))
            && AreSpeedUps(Filter(events, SpeedsUp(depositor, depositId)), Get(st.speedUps, (depositor, depositId)))
            && st.rootBundleRelays == Filter(events, IsRootBundleRelay)
            && st.relayerRefundExecutions == Filter(events, IsRefundExecution)
            && var first := Find(events, RequestsSlowFill(cfg, hash));
               && (hash in st.slowFillRequests <==> first.Some?)
               && (first.Some? ==>
                     && first.value.args.RequestedV3SlowFill?
                     && st.slowFillRequests[hash]
                        == SlowFillRequest(first.value.args.slowFill, cfg.chainId, first.value.pos))
  {
    var all := ChainUpTo(log, deploymentBlock, fromBlock, cursor);
    InSyncIsOneFold(cfg, log, deploymentBlock, fromBlock, h, cursor);
    FillsFromTheLog(cfg, [all], origin, depositId);
    SpeedUpsFromTheLog(cfg, [all], depositor, depositId);
    SlowFillsFromTheLog(cfg, [all], hash);
    ListsFromTheLog(cfg, [all]);
    MergeOfOne(all);
    hide Replay, Run, Merge, Window, Filter, Find, AreFills, AreSpeedUps;
  }

  class SpokePoolClient {
    const chainId: nat
    const hash: RelayHash
    const deploymentBlock: nat
    const fromBlock: nat
    const base: BaseClient

    /** The times and deposit counts read along with the events. */
    var pool: PoolView
    /** The event dictionaries and lists of the client, and the bounds on the ids of its deposits. */
    var indexes: Indexes

    /** Every update since construction that reached its writes. */
    ghost var history: seq<Step>

    /** The client with the answers that its HubPool and ConfigStore clients give at the time. */
    function Config(hub: HubView): SpokeConfig {
      SpokeConfig(chainId, hash, hub)
    }

    /** The indexes are the replay of what was written. */
    ghost predicate Valid()
      reads this
    {
      indexes == Replay(history)
    }

    /** The client has read `log` up to its cursor. */
    ghost predicate InSyncWith(log: Log)
      reads this, base
    {
      && (base.isUpdated <==> Completed(history) != [])
      && InSync(log, deploymentBlock, fromBlock, history, base.firstBlockToSearch)
    }

    constructor (chainId: nat, hash: RelayHash, deploymentBlock: nat, fromBlock: nat, toBlock: Option<nat>,
                 lookBack: Option<int>)
      ensures Valid() && history == [] && fresh(base)
      ensures this.chainId == chainId && this.hash == hash && this.deploymentBlock == deploymentBlock
      ensures base.firstBlockToSearch == fromBlock && !base.isUpdated
      ensures base.toBlock == toBlock && base.maxBlockLookBack == lookBack
      ensures this.fromBlock == fromBlock && forall log: Log :: InSyncWith(log)
    {
      this.chainId, this.hash := chainId, hash;
      this.deploymentBlock, this.fromBlock := deploymentBlock, fromBlock;
      base := new BaseClient(fromBlock, 0, toBlock, lookBack);
      pool := PoolView(0, 0, MAX_SAFE_INTEGER, MAX_SAFE_INTEGER);
      indexes := EMPTY;
      history := [];
      InSyncAtFirst(deploymentBlock, fromBlock);
    }

    /** One sorted query for one kind of event, or nothing if the caller did not ask for that kind. */
    static method Query(log: Log, kinds: set<EventKind>, kind: EventKind, config: EventSearchConfig, outage: nat -> bool,
                        order: Listing<SpokeEvent>)
      returns (r: Result<Log>)
      requires IsLog(log) && IsListing(order)
      ensures r.Success? ==> IsQueried(r.value, Window(log, config.fromBlock, config.toBlock), kinds, kind)
    {
      if kind !in kinds {
        return Success([]);
      }
      FilterKeepsOrder(Ascending, log, IsKind(kind));
      var query := PaginatedEventQuery(OfKind(log, kind), config, outage, order);
      if query.Failure? {
        return Failure(query.error);
      }
      FilterKeepsOrder(Ascending, OfKind(log, kind), InBlocks<SpokeEvent>(config.fromBlock, config.toBlock));
      SortRestoresLog(Ascending, query.value, Window(OfKind(log, kind), config.fromBlock, config.toBlock));
      FilterCommutes(log, IsKind(kind), InBlocks<SpokeEvent>(config.fromBlock, config.toBlock));
      return Success(SortEvents(Ascending, query.value));
    }

    /** `batchComputeRealizedLpFeePct` prices the whole batch before any deposit is stored. */
    static method PriceDeposits(cfg: SpokeConfig, events: Log) returns (quotable: bool)
      requires AllOfKind(events, Deposits)
      ensures quotable <==> AllQuotable(cfg, events)
      ensures !quotable ==> !AllResolve(cfg, events)
    {
      for i := 0 to |events|
        invariant AllQuotable(cfg, events[..i])
      {
        assert events[..i + 1] == events[..i] + [events[i]];
        if !Quotable(cfg, events[i]) {
          assert events[i] in events && !Resolves(cfg, events[i]);
          return false;
        }
      }
      assert events[..|events|] == events;
      return true;
    }

    method IngestDeposits(cfg: SpokeConfig, events: Log) returns (stored: bool)
      requires AllOfKind(events, Deposits)
      modifies this`indexes
      ensures indexes == AfterDeposits(cfg, old(indexes), events)
      ensures stored <==> ResolvedPrefix(cfg, events) == events
    {
      var quotable := PriceDeposits(cfg, events);
      ResolvedAll(cfg, events);
      if !quotable {
        return false;
      }
      stored := StoreInOrder(cfg, events);
    }

    method StoreInOrder(cfg: SpokeConfig, events: Log) returns (stored: bool)
      requires AllOfKind(events, Deposits)
      modifies this`indexes
      ensures indexes == WithDeposits(old(indexes),
                StoreDeposits(DepositIndexOf(old(indexes)), DepositsIn(cfg, ResolvedPrefix(cfg, events))))
      ensures stored <==> ResolvedPrefix(cfg, events) == events
    {
      ghost var start := indexes;
      for i := 0 to |events|
        invariant ResolvedPrefix(cfg, events[..i]) == events[..i]
        invariant indexes == WithDeposits(start, StoreDeposits(DepositIndexOf(start), DepositsIn(cfg, events[..i])))
      {
        assert Init(events[..i + 1]) == events[..i];
        var deposit := DeriveDeposit(cfg, events[i]);
        if deposit.None? {
          PrefixStops(cfg, events, i);
          return false;
        }
        assert Init(DepositsIn(cfg, events[..i + 1])) == DepositsIn(cfg, events[..i]);
        var d := deposit.value;
        if DepositHash(d) in indexes.deposits {
          continue;
        }
        indexes := indexes.(deposits := indexes.deposits[DepositHash(d) := d]);
        if d.relay.depositId < indexes.earliestDepositIdQueried {
          indexes := indexes.(earliestDepositIdQueried := d.relay.depositId);
        }
        if d.relay.depositId > indexes.latestDepositIdQueried {
          indexes := indexes.(latestDepositIdQueried := d.relay.depositId);
        }
      }
      assert events[..|events|] == events;
      return true;
    }

    static lemma {:induction false} PrefixStops(cfg: SpokeConfig, events: Log, i: nat)
      requires i < |events| && !Resolves(cfg, events[i])
      requires ResolvedPrefix(cfg, events[..i]) == events[..i]
      ensures ResolvedPrefix(cfg, events) == events[..i]
    {
      if i == |events| - 1 {
        assert Init(events) == events[..i];
      } else {
        assert Init(events)[..i] == events[..i];
        PrefixStops(cfg, Init(events), i);
      }
    }

    method IngestSpeedUps(cfg: SpokeConfig, events: Log)
      requires AllOfKind(events, SpeedUps)
      modifies this`indexes
      ensures indexes == WithQuotes(old(indexes),
                ApplySpeedUps(cfg.chainId, Quotes(old(indexes).speedUps, old(indexes).deposits), SpeedUpsIn(events)))
    {
      ghost var start := indexes;
      for i := 0 to |events|
        invariant indexes == WithQuotes(start,
                    ApplySpeedUps(cfg.chainId, Quotes(start.speedUps, start.deposits), SpeedUpsIn(events[..i])))
      {
        assert Init(events[..i + 1]) == events[..i];
        assert Init(SpeedUpsIn(events[..i + 1])) == SpeedUpsIn(events[..i]);
        var speedUp := events[i].args.speedUp;
        indexes := indexes.(speedUps := AssignArray(indexes.speedUps, SpeedUpKeyOf(speedUp), speedUp));
        var depositHash := DepositKey(speedUp.depositId, cfg.chainId);
        if depositHash in indexes.deposits {
          var updated := AppendMaxSpeedUpSignatureToDeposit(indexes.speedUps, indexes.deposits[depositHash]);
          indexes := indexes.(deposits := indexes.deposits[depositHash := updated]);
        }
      }
      assert events[..|events|] == events;
    }

    method IngestSlowFills(cfg: SpokeConfig, events: Log)
      requires AllOfKind(events, SlowFills)
      modifies this`indexes
      ensures indexes == old(indexes).(slowFillRequests :=
                FirstBy(old(indexes).slowFillRequests, SlowFillsIn(cfg, events), SlowFillHash(cfg)))
    {
      ghost var start := indexes;
      for i := 0 to |events|
        invariant indexes == start.(slowFillRequests :=
                    FirstBy(start.slowFillRequests, SlowFillsIn(cfg, events[..i]), SlowFillHash(cfg)))
      {
        assert Init(events[..i + 1]) == events[..i];
        assert Init(SlowFillsIn(cfg, events[..i + 1])) == SlowFillsIn(cfg, events[..i]);
        var request := SlowFillRequest(events[i].args.slowFill, cfg.chainId, events[i].pos);
        var relayDataHash := cfg.hash(request.relay, cfg.chainId);
        if relayDataHash in indexes.slowFillRequests {
          continue;
        }
        indexes := indexes.(slowFillRequests := indexes.slowFillRequests[relayDataHash := request]);
      }
      assert events[..|events|] == events;
    }

    method IngestFills(cfg: SpokeConfig, events: Log)
      requires AllOfKind(events, Fills)
      modifies this`indexes
      ensures indexes == old(indexes).(
                fills := GroupBy(old(indexes).fills, FillsIn(cfg, events), FillOrigin),
                depositHashesToFills := GroupBy(old(indexes).depositHashesToFills, FillsIn(cfg, events), FillDepositHash))
    {
      ghost var start := indexes;
      for i := 0 to |events|
        invariant indexes == start.(
                    fills := GroupBy(start.fills, FillsIn(cfg, events[..i]), FillOrigin),
                    depositHashesToFills :=
                      GroupBy(start.depositHashesToFills, FillsIn(cfg, events[..i]), FillDepositHash))
      {
        assert Init(events[..i + 1]) == events[..i];
        assert Init(FillsIn(cfg, events[..i + 1])) == FillsIn(cfg, events[..i]);
        var args := events[i].args;
        var fill := Fill(args.filled, cfg.chainId, args.relayer, args.repaymentChainId, events[i].pos);
        indexes := indexes.(fills := AssignArray(indexes.fills, fill.relay.originChainId, fill));
        indexes := indexes.(
          depositHashesToFills := AssignArray(indexes.depositHashesToFills, FillDepositHash(fill), fill));
      }
      assert events[..|events|] == events;
    }

    method IngestRoutes(events: Log)
      requires AllOfKind(events, Routes)
      modifies this`indexes
      ensures indexes == old(indexes).(depositRoutes := FlagBy(old(indexes).depositRoutes, RoutesIn(events)))
    {
      ghost var start := indexes;
      for i := 0 to |events|
        invariant indexes == start.(depositRoutes := FlagBy(start.depositRoutes, RoutesIn(events[..i])))
      {
        assert Init(events[..i + 1]) == events[..i];
        assert Init(RoutesIn(events[..i + 1])) == RoutesIn(events[..i]);
        var args := events[i].args;
        var route := (args.originToken, args.routeChainId);
        indexes := indexes.(depositRoutes := AssignFlag(indexes.depositRoutes, route, args.enabled));
      }
      assert events[..|events|] == events;
    }

    /** The reads of `_update`: one query per kind of event. */
    static method QueryAll(log: Log, kinds: set<EventKind>, config: EventSearchConfig, routesFrom: nat,
                           outage: (EventKind, nat) -> bool, order: Listing<SpokeEvent>)
      returns (r: Result<QueryResults>)
      requires IsLog(log) && IsListing(order)
      ensures r.Success? ==> Answers(r.value, Fetched(log, kinds, config.fromBlock, config.toBlock, routesFrom))
    {
      var bridged := Query(log, kinds, Bridged, config, (k: nat) => outage(Bridged, k), order);
      if bridged.Failure? { return Failure(bridged.error); }
      var deposits := Query(log, kinds, Deposits, config, (k: nat) => outage(Deposits, k), order);
      if deposits.Failure? { return Failure(deposits.error); }
      var speedUps := Query(log, kinds, SpeedUps, config, (k: nat) => outage(SpeedUps, k), order);
      if speedUps.Failure? { return Failure(speedUps.error); }
      var slowFills := Query(log, kinds, SlowFills, config, (k: nat) => outage(SlowFills, k), order);
      if slowFills.Failure? { return Failure(slowFills.error); }
      var fills := Query(log, kinds, Fills, config, (k: nat) => outage(Fills, k), order);
      if fills.Failure? { return Failure(fills.error); }
      var routes := Query(log, kinds, Routes, config.(fromBlock := routesFrom), (k: nat) => outage(Routes, k), order);
      if routes.Failure? { return Failure(routes.error); }
      var roots := Query(log, kinds, Roots, config, (k: nat) => outage(Roots, k), order);
      if roots.Failure? { return Failure(roots.error); }
      var refunds := Query(log, kinds, Refunds, config, (k: nat) => outage(Refunds, k), order);
      if refunds.Failure? { return Failure(refunds.error); }
      var q := QueryResults(bridged.value, deposits.value, speedUps.value, slowFills.value, fills.value,
                            routes.value, roots.value, refunds.value);
      QueriesAnswer(q, Window(log, config.fromBlock, config.toBlock), Window(log, routesFrom, config.toBlock), kinds);
      return Success(q);
    }

    /** The writes of `update`, in its order. A throw while deriving deposits leaves the later indexes untouched. */
    method IngestResults(cfg: SpokeConfig, q: QueryResults, ghost batch: Batch) returns (stored: bool)
      requires Answers(q, batch)
      modifies this`indexes
      ensures stored <==> AllResolve(cfg, batch.events)
      ensures indexes == if stored then Ingest(cfg, old(indexes), batch) else Interrupted(cfg, old(indexes), batch)
    {
      ghost var before := indexes;
      OnlyDepositsResolve(cfg, batch.events);
      ResolvedAll(cfg, q.deposits);
      indexes := indexes.(tokensBridged := indexes.tokensBridged + q.bridged);
      stored := IngestDeposits(cfg, q.deposits);
      if !stored {
        return;
      }
      IngestSpeedUps(cfg, q.speedUps);
      IngestSlowFills(cfg, q.slowFills);
      IngestFills(cfg, q.fills);
      IngestRoutes(q.routes);
      indexes := indexes.(rootBundleRelays := indexes.rootBundleRelays + q.roots);
      indexes := indexes.(relayerRefundExecutions := indexes.relayerRefundExecutions + q.refunds);
      IngestByKind(cfg, before, q, batch, indexes);
    }

    /** The window of the next update, and what it fetches from `node`. */
    ghost function NextWindow(node: Node): SearchOutcome
      reads this, base
    {
      NextSearch(base.firstBlockToSearch, base.toBlock, node.head, base.maxBlockLookBack)
    }

    ghost function NextBatch(node: Node, kinds: set<EventKind>): Batch
      reads this, base
      requires NextWindow(node).Search?
    {
      var config := NextWindow(node).config;
      Fetched(Visible(node.log, node.head), kinds, config.fromBlock, config.toBlock,
              if base.isUpdated then config.fromBlock else deploymentBlock)
    }

    /** The next update asks `node`, up to a block that it has reached, for every kind of event that there is. */
    ghost predicate FetchesAll(node: Node, kinds: set<EventKind>)
      reads this, base
    {
      NextWindow(node).Search? ==>
        var (from, to) := (NextWindow(node).config.fromBlock, NextWindow(node).config.toBlock);
        && to <= node.head && deploymentBlock <= to + 1
        && AsksForAll(node.log, kinds, from, to, if base.isUpdated then from else deploymentBlock)
    }

    /** `_update`: everything an update reads, before it writes anything. */
    method FetchUpdate(node: Node, kinds: set<EventKind>, outage: (EventKind, nat) -> bool)
      returns (r: SpokePoolUpdate)
      requires node.Valid()
      ensures r.NothingToSearch? ==> NextWindow(node).Rejected?
      ensures r.Ready? ==>
                && NextWindow(node).Search? && r.searchEndBlock == NextWindow(node).config.toBlock
                && Answers(r.queried, NextBatch(node, kinds))
                && r.pool == NextPoolView(pool, node, deploymentBlock, base.firstBlockToSearch, r.searchEndBlock)
                && r.pool.currentTime >= pool.currentTime
    {
      var firstDepositId := pool.firstDepositIdForSpokePool;
      if firstDepositId == MAX_SAFE_INTEGER {
        firstDepositId := node.numberOfDeposits(deploymentBlock);
      }
      var search := base.UpdateSearchConfig(node.head);
      if search.Thrown? {
        return Failed;
      }
      if search.Rejected? {
        return NothingToSearch;
      }
      var config := search.config;
      var routesFrom := if base.isUpdated then config.fromBlock else deploymentBlock;
      FilterKeepsOrder(Ascending, node.log, InBlocks<SpokeEvent>(0, node.head));
      var queried := QueryAll(Visible(node.log, node.head), kinds, config, routesFrom, outage, node.order);
      var currentTime := node.currentTime(config.toBlock);
      if queried.Failure? || currentTime < pool.currentTime {
        return Failed;
      }
      var oldestTime := node.currentTime(Max(config.fromBlock, deploymentBlock));
      var view := PoolView(currentTime, if pool.oldestTime == 0 then oldestTime else pool.oldestTime,
                           firstDepositId, Max(node.numberOfDeposits(config.toBlock) - 1, 0));
      return Ready(queried.value, config.toBlock, view);
    }

    /** Everything an update writes. */
    method Store(cfg: SpokeConfig, update: SpokePoolUpdate, ghost batch: Batch) returns (stored: bool)
      requires Valid() && update.Ready? && Answers(update.queried, batch)
      modifies this, base
      ensures Valid() && history == old(history) + [Step(cfg, batch, stored)]
      ensures stored <==> AllResolve(cfg, batch.events)
      ensures stored ==>
                && indexes == Ingest(cfg, old(indexes), batch)
                && pool == update.pool && base.SearchedTo(update.searchEndBlock)
      ensures !stored ==>
                && indexes == Interrupted(cfg, old(indexes), batch)
                && pool == old(pool) && unchanged(base)
    {
      hide Replay, Ingest, Interrupted, Answers, AllResolve;
      stored := IngestResults(cfg, update.queried, batch);
      ReplayExtends(history, Step(cfg, batch, stored));
      history := history + [Step(cfg, batch, stored)];
      if !stored {
        return;
      }
      pool := update.pool;
      base.Advance(update.searchEndBlock);
    }

    /**
     `update`, with the answers that the HubPool client gives at the time. `Success(true)` is a completed update,
     `Success(false)` one that found nothing to search. A throw while deriving deposits leaves part of the window behind
     and the cursor where it was. Whatever comes of it, a client in sync stays in sync if it asks for all there is.
     */
    method Update(node: Node, hub: HubView, kinds: set<EventKind>, hubUpdated: bool, outage: (EventKind, nat) -> bool)
      returns (r: Result<bool>)
      requires Valid() && node.Valid()
      modifies this, base
      ensures Valid()
      ensures r == Success(true) ==>
                && hubUpdated && old(NextWindow(node)).Search?
                && var (batch, to) := (old(NextBatch(node, kinds)), old(NextWindow(node)).config.toBlock);
                && AllResolve(Config(hub), batch.events)
                && indexes == Ingest(Config(hub), old(indexes), batch)
                && history == old(history) + [Step(Config(hub), batch, true)]
                && pool == NextPoolView(old(pool), node, deploymentBlock, old(base.firstBlockToSearch), to)
                && pool.currentTime >= old(pool).currentTime
                && base.SearchedTo(to)
      ensures r == Success(false) ==> old(NextWindow(node)).Rejected? && indexes == old(indexes) && history == old(history)
      ensures r != Success(true) ==> pool == old(pool) && unchanged(base)
      ensures r.Failure? ==>
                || (indexes == old(indexes) && history == old(history))
                || (&& old(NextWindow(node)).Search?
                    && var batch := old(NextBatch(node, kinds));
                       && !AllResolve(Config(hub), batch.events)
                       && indexes == Interrupted(Config(hub), old(indexes), batch)
                       && history == old(history) + [Step(Config(hub), batch, false)])
      ensures old(InSyncWith(node.log) && FetchesAll(node, kinds)) ==> InSyncWith(node.log)
    {
      hide InSync, Fetched, Ingest, Interrupted, AllResolve, Answers, NextPoolView, Replay, AsksForAll;
      if !hubUpdated {
        return Failure("HubPoolClient not updated");
      }
      var update := FetchUpdate(node, kinds, outage);
      if update.Failed? {
        return Failure("update failed");
      }
      if update.NothingToSearch? {
        return Success(false);
      }
      ghost var before, batch := history, NextBatch(node, kinds);
      var stored := Store(Config(hub), update, batch);
      if old(InSyncWith(node.log) && FetchesAll(node, kinds)) {
        StaysInSync(node, kinds, before, old(base.firstBlockToSearch), update.searchEndBlock, Last(history));
      }
      return if stored then Success(true) else Failure("deposits could not be derived");
    }

    lemma StaysInSync(node: Node, kinds: set<EventKind>, h: seq<Step>, cursor: nat, to: nat, s: Step)
      requires node.Valid() && cursor <= to <= node.head && deploymentBlock <= to + 1
      requires InSync(node.log, deploymentBlock, fromBlock, h, cursor)
      requires var routesFrom := if Completed(h) != [] then cursor else deploymentBlock;
               && s.batch == Fetched(Visible(node.log, node.head), kinds, cursor, to, routesFrom)
               && AsksForAll(node.log, kinds, cursor, to, routesFrom)
      ensures InSync(node.log, deploymentBlock, fromBlock, h + [s], if s.completed then to + 1 else cursor)
      ensures Completed(h + [s]) == (if s.completed then Completed(h) + [s.batch] else Completed(h))
    {
      MergeExtends([], h, s);
      hide InSync, Fetched, AsksForAll, Completed;
      if s.completed {
        SyncStepIff(node.log, deploymentBlock, fromBlock, h, cursor, to, node.head, kinds, s);
      } else {
        SyncAfterThrow(node.log, deploymentBlock, fromBlock, h, cursor, to, node.head, kinds, s);
      }
    }
  }
}
