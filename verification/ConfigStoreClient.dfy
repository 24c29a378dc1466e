/** The AcrossConfigStoreClient: its update loop and the lookup of enabled chains over a block range. */
module ConfigStoreClient {
  import opened Wrappers
  import opened Sequences
  import opened EventUtils
  import opened BaseAbstractClient
  import opened ConfigStore

  // ---------- enabled chains over a range ----------

  /** Not disabled at `from`, or left out by some update of the disabled list in the range. */
  ghost predicate EnabledByUpdates(c: Config, from: int, to: int, chain: int) {
    || chain !in GetDisabledChainsForBlock(c, from)
    || exists e :: e in c.cumulativeDisabledChainUpdates && from <= e.pos.block <= to && chain !in e.args
  }

  /** Absent from the disabled list as of some block in the range. */
  ghost predicate EnabledSometime(c: Config, from: int, to: int, chain: int) {
    exists b: int :: from <= b <= to && chain !in GetDisabledChainsForBlock(c, b)
  }

  ghost predicate OneDisabledUpdatePerBlock(c: Config) {
    var s := c.cumulativeDisabledChainUpdates;
    forall i, j :: 0 <= i < j < |s| ==> s[i].pos.block != s[j].pos.block
  }

  /** If the newest event at or before `b` precedes block `from`, nothing has changed since. */
  lemma NothingSince<T(!new)>(s: seq<Event<T>>, from: int, b: int)
    requires IsLog(s) && from <= b
    requires AsOf(s, b).Some? && AsOf(s, b).value.pos.block < from
    ensures AsOf(s, from) == AsOf(s, b)
  {
    LogIsDistinct(s);
    FindNewestIsNewest(s, AtOrBefore(b));
    FindNewestIsNewest(s, AtOrBefore(from));
    var e := AsOf(s, b).value;
    assert AtOrBefore<T>(from)(e);
    forall x | x in s && AtOrBefore<T>(from)(x) && x != e ensures Older(x.pos, e.pos) {
      assert AtOrBefore<T>(b)(x);
    }
    assert IsNewest(s, AtOrBefore(from), e);
    NewestIsUnique(s, AtOrBefore(from), e, AsOf(s, from).value);
  }

  /** No later update of the same block supersedes `e`. */
  ghost predicate ClosesBlock<T(!new)>(s: seq<Event<T>>, e: Event<T>) {
    e in s && forall x :: x in s && x.pos.block == e.pos.block ==> !Older(e.pos, x.pos)
  }

  lemma ClosingUpdateIsAnswer<T(!new)>(s: seq<Event<T>>, e: Event<T>)
    requires IsLog(s) && ClosesBlock(s, e)
    ensures AsOf(s, e.pos.block) == Some(e)
  {
    LogIsDistinct(s);
    var b := e.pos.block;
    FindNewestIsNewest(s, AtOrBefore(b));
    forall x | x in s && AtOrBefore<T>(b)(x) && x != e ensures Older(x.pos, e.pos) {
      DistinctEventsAreApart(s, x, e);
    }
    assert IsNewest(s, AtOrBefore(b), e);
    NewestIsUnique(s, AtOrBefore(b), e, AsOf(s, b).value);
  }

  lemma AnswerClosesBlock<T(!new)>(s: seq<Event<T>>, b: int)
    requires IsLog(s) && AsOf(s, b).Some?
    ensures ClosesBlock(s, AsOf(s, b).value) && AsOf(s, b).value.pos.block <= b
  {
    LogIsDistinct(s);
    FindNewestIsNewest(s, AtOrBefore(b));
    var e := AsOf(s, b).value;
    forall x | x in s && x.pos.block == e.pos.block ensures !Older(e.pos, x.pos) {
      OlderIsStrictTotalOrder(e.pos, x.pos, e.pos);
    }
  }

  /** Not disabled at `from`, or left out by some update of the range that closes its block. */
  ghost predicate EnabledByClosing(c: Config, from: int, to: int, chain: int) {
    var s := c.cumulativeDisabledChainUpdates;
    || chain !in GetDisabledChainsForBlock(c, from)
    || exists e :: ClosesBlock(s, e) && from <= e.pos.block <= to && chain !in e.args
  }

  /** The chains off the disabled list at some block are told exactly by the updates that close their blocks. */
  lemma EnabledSometimeIff(c: Config, from: int, to: int, chain: int)
    requires IsLog(c.cumulativeDisabledChainUpdates) && from <= to
    ensures EnabledSometime(c, from, to, chain) <==> EnabledByClosing(c, from, to, chain)
  {
    var s := c.cumulativeDisabledChainUpdates;
    if EnabledSometime(c, from, to, chain) {
      var b: int :| from <= b <= to && chain !in GetDisabledChainsForBlock(c, b);
      var i, j := AsOfMovesForward(s, from, b);
      if AsOf(s, b).Some? {
        AnswerClosesBlock(s, b);
        if AsOf(s, b).value.pos.block < from {
          NothingSince(s, from, b);
        }
      }
    }
    if EnabledByClosing(c, from, to, chain) && chain in GetDisabledChainsForBlock(c, from) {
      var e :| ClosesBlock(s, e) && from <= e.pos.block <= to && chain !in e.args;
      ClosingUpdateIsAnswer(s, e);
      assert chain !in GetDisabledChainsForBlock(c, e.pos.block);
    }
  }

  /**
   The lookup is right about a chain exactly when the updates of the range that leave the chain out, if any, are not all
   superseded in their own block, or the chain is not disabled at `from` in the first place.
   */
  lemma LookupIsRightIff(c: Config, from: int, to: int, chain: int)
    requires IsLog(c.cumulativeDisabledChainUpdates) && from <= to
    ensures (EnabledByUpdates(c, from, to, chain) <==> EnabledSometime(c, from, to, chain))
            <==> !HiddenInBlock(c, from, to, chain)
  {
    EnabledSometimeIff(c, from, to, chain);
    var s := c.cumulativeDisabledChainUpdates;
    if EnabledByClosing(c, from, to, chain) {
      if chain in GetDisabledChainsForBlock(c, from) {
        var e :| ClosesBlock(s, e) && from <= e.pos.block <= to && chain !in e.args;
        assert e in s;
      }
      assert EnabledByUpdates(c, from, to, chain);
    } else {
      assert EnabledByUpdates(c, from, to, chain) <==> HiddenInBlock(c, from, to, chain);
    }
  }

  /** Disabled at `from`, left out by some update of the range, but by none that closes its block. */
  ghost predicate HiddenInBlock(c: Config, from: int, to: int, chain: int) {
    var s := c.cumulativeDisabledChainUpdates;
    && chain in GetDisabledChainsForBlock(c, from)
    && (exists e :: e in s && from <= e.pos.block <= to && chain !in e.args)
    && forall e :: ClosesBlock(s, e) && from <= e.pos.block <= to ==> chain in e.args
  }

  /** With at most one update of the disabled list per block, no update is superseded in its block. */
  lemma LoneUpdatesAreNotHidden(c: Config, from: int, to: int, chain: int)
    requires IsLog(c.cumulativeDisabledChainUpdates) && OneDisabledUpdatePerBlock(c)
    ensures !HiddenInBlock(c, from, to, chain)
  {
    var s := c.cumulativeDisabledChainUpdates;
    if e :| e in s && from <= e.pos.block <= to && chain !in e.args {
      forall x | x in s && x.pos.block == e.pos.block ensures !Older(e.pos, x.pos) {
        var i :| 0 <= i < |s| && s[i] == e;
        var j :| 0 <= j < |s| && s[j] == x;
        assert i == j;
      }
      assert ClosesBlock(s, e);
    }
  }

  ghost function EnabledFilter(c: Config, from: int, to: int): int -> bool {
    (chain: int) => EnabledByUpdates(c, from, to, chain)
  }

  ghost function SometimeFilter(c: Config, from: int, to: int): int -> bool {
    (chain: int) => EnabledSometime(c, from, to, chain)
  }

  /**
   In any reachable configuration, the lookup returns exactly the chains listed at `to`, in list order, that were off
   the disabled list at some block of the range, if and only if no listed chain is hidden in a block.
   */
  lemma EnabledOverRange(chainId: int, timeOf: nat -> nat, log: ConfigLog, from: int, to: int)
    requires IsLog(log) && from <= to
    ensures var c := Replay(chainId, timeOf, EMPTY, log);
            var listed := GetChainIdIndicesForBlock(chainId, c, to);
            Filter(listed, EnabledFilter(c, from, to)) == Filter(listed, SometimeFilter(c, from, to))
            <==> forall chain :: chain in listed ==> !HiddenInBlock(c, from, to, chain)
    ensures var c := Replay(chainId, timeOf, EMPTY, log);
            OneDisabledUpdatePerBlock(c) ==> forall chain :: !HiddenInBlock(c, from, to, chain)
  {
    var c := Replay(chainId, timeOf, EMPTY, log);
    ReplayInvariant(chainId, timeOf, log);
    var listed := GetChainIdIndicesForBlock(chainId, c, to);
    forall chain
      ensures EnabledFilter(c, from, to)(chain) == SometimeFilter(c, from, to)(chain) <==> !HiddenInBlock(c, from, to, chain)
      ensures OneDisabledUpdatePerBlock(c) ==> !HiddenInBlock(c, from, to, chain)
    {
      LookupIsRightIff(c, from, to, chain);
      if OneDisabledUpdatePerBlock(c) {
        LoneUpdatesAreNotHidden(c, from, to, chain);
      }
    }
    FiltersEqualIff(listed, EnabledFilter(c, from, to), SometimeFilter(c, from, to));
  }

  lemma FiltersEqualIff<T>(s: seq<T>, p: T -> bool, q: T -> bool)
    ensures Filter(s, p) == Filter(s, q) <==> forall x :: x in s ==> p(x) == q(x)
  {
    if forall x :: x in s ==> p(x) == q(x) {
      FilterAgree(s, p, q);
    }
    forall x | x in s ensures (x in Filter(s, p) <==> p(x)) && (x in Filter(s, q) <==> q(x)) {
      FilterMembers(s, p, x);
      FilterMembers(s, q, x);
    }
  }

  // Two updates in block 5, the first re-enabling chain 10 and the second disabling it again.

  const DISABLE := DisabledChains(Some([10.0]))
  const FLICKER: ConfigLog := [Event(LogPos(1, 0, 0), DISABLE), Event(LogPos(5, 0, 0), DisabledChains(Some([]))),
                               Event(LogPos(5, 1, 0), DISABLE)]

  lemma FlickerReplayed(chainId: int, timeOf: nat -> nat)
    ensures Replay(chainId, timeOf, EMPTY, FLICKER).cumulativeDisabledChainUpdates
            == [Event(LogPos(1, 0, 0), [10]), Event(LogPos(5, 0, 0), []), Event(LogPos(5, 1, 0), [10])]
  {
    var log := FLICKER;
    assert Init(log) == log[..2] && Init(log[..2]) == log[..1] && Init(log[..1]) == log[..0];
    var xs := [10.0];
    assert Init(xs) == [] && Last(xs) == 10.0 && IsInteger(10.0);
    assert FilterDisabledChains(xs) == [10];
    assert Replay(chainId, timeOf, EMPTY, log[..0]) == EMPTY;
    assert Replay(chainId, timeOf, EMPTY, log[..1]).cumulativeDisabledChainUpdates == [Event(LogPos(1, 0, 0), [10])];
    assert Replay(chainId, timeOf, EMPTY, log[..2]).cumulativeDisabledChainUpdates
           == [Event(LogPos(1, 0, 0), [10]), Event(LogPos(5, 0, 0), [])];
  }

  lemma LastOfFlicker(s: seq<Event<ChainList>>)
    requires s == [Event(LogPos(1, 0, 0), [10]), Event(LogPos(5, 0, 0), []), Event(LogPos(5, 1, 0), [10])]
    ensures AsOf(s, 5) == Some(s[2])
  {
    FindNewestOnLog(s, AtOrBefore(5));
  }

  /** At no block is the chain enabled, yet the lookup over a log's replay counts the first update. */
  lemma TwoUpdatesInOneBlock(chainId: int, timeOf: nat -> nat)
    ensures IsLog(FLICKER)
    ensures var c := Replay(chainId, timeOf, EMPTY, FLICKER);
            EnabledByUpdates(c, 5, 5, 10) && !EnabledSometime(c, 5, 5, 10)
  {
    var c := Replay(chainId, timeOf, EMPTY, FLICKER);
    FlickerReplayed(chainId, timeOf);
    var s := c.cumulativeDisabledChainUpdates;
    hide Replay;
    LastOfFlicker(s);
    assert s[1] in s && s[2] in s;
    hide AsOf;
  }

  /** `getEnabledChainsInBlockRange`. */
  method GetEnabledChainsInBlockRange(chainId: int, c: Config, fromBlock: int, toBlock: int) returns (r: Result<ChainList>)
    ensures r.Failure? <==> fromBlock > toBlock
    ensures r.Success? ==>
              r.value == Filter(GetChainIdIndicesForBlock(chainId, c, toBlock), EnabledFilter(c, fromBlock, toBlock))
  {
    if fromBlock > toBlock {
      return Failure("Invalid block range");
    }
    var disabledChainsAtFromBlock := GetDisabledChainsForBlock(c, fromBlock);
    var allPossibleChains := GetChainIdIndicesForBlock(chainId, c, toBlock);
    var enabledChains := Filter(allPossibleChains, NotIn(disabledChainsAtFromBlock));
    ghost var start := enabledChains;
    var updates := Filter(c.cumulativeDisabledChainUpdates, InBlocks<ChainList>(fromBlock, toBlock));
    for i := 0 to |updates|
      invariant forall chain ::
                  chain in enabledChains <==>
                  || chain in start
                  || (chain in disabledChainsAtFromBlock && exists k :: 0 <= k < i && chain !in updates[k].args)
    {
      var newDisabledSet := updates[i].args;
      ghost var before := enabledChains;
      for k := 0 to |disabledChainsAtFromBlock|
        invariant forall chain ::
                    chain in enabledChains <==>
                    || chain in before
                    || (chain in disabledChainsAtFromBlock[..k] && chain !in newDisabledSet)
      {
        if disabledChainsAtFromBlock[k] !in newDisabledSet {
          enabledChains := enabledChains + [disabledChainsAtFromBlock[k]];
        }
      }
      assert disabledChainsAtFromBlock[..|disabledChainsAtFromBlock|] == disabledChainsAtFromBlock;
    }
    forall chain | chain in allPossibleChains
      ensures In(enabledChains)(chain) == EnabledFilter(c, fromBlock, toBlock)(chain)
    {
      FilterMembers(allPossibleChains, NotIn(disabledChainsAtFromBlock), chain);
      InRangeUpdates(c, fromBlock, toBlock, chain, updates);
    }
    FilterAgree(allPossibleChains, In(enabledChains), EnabledFilter(c, fromBlock, toBlock));
    return Success(Filter(allPossibleChains, In(enabledChains)));
  }

  function In(chains: ChainList): int -> bool {
    (chain: int) => chain in chains
  }

  lemma InRangeUpdates(c: Config, from: int, to: int, chain: int, updates: seq<Event<ChainList>>)
    requires updates == Filter(c.cumulativeDisabledChainUpdates, InBlocks<ChainList>(from, to))
    ensures (exists k :: 0 <= k < |updates| && chain !in updates[k].args)
       <==> exists e :: e in c.cumulativeDisabledChainUpdates && from <= e.pos.block <= to && chain !in e.args
  {
    if k :| 0 <= k < |updates| && chain !in updates[k].args {
      FilterMembers(c.cumulativeDisabledChainUpdates, InBlocks<ChainList>(from, to), updates[k]);
    }
    if e :| e in c.cumulativeDisabledChainUpdates && from <= e.pos.block <= to && chain !in e.args {
      FilterMembers(c.cumulativeDisabledChainUpdates, InBlocks<ChainList>(from, to), e);
      var k :| 0 <= k < |updates| && updates[k] == e;
    }
  }

  // ---------- the client ----------

  /** One more window of the log, up to a block that the node has reached. */
  lemma WindowReplayed(chainId: int, timeOf: nat -> nat, log: ConfigLog, fromBlock: nat, next: nat, to: nat, head: nat)
    requires IsLog(log) && fromBlock <= next <= to <= head
    ensures Replay(chainId, timeOf, Replay(chainId, timeOf, EMPTY, Window(log, fromBlock, next - 1)),
                   Window(Visible(log, head), next, to))
            == Replay(chainId, timeOf, EMPTY, Window(log, fromBlock, to))
  {
    VisibleWindow(log, head, next, to);
    WindowsAbut(log, fromBlock, next - 1, to);
    ReplayConcat(chainId, timeOf, EMPTY, Window(log, fromBlock, next - 1), Window(log, next, to));
  }

  class AcrossConfigStoreClient {
    const base: BaseClient
    const fromBlock: nat
    /** Set by the first update. */
    var chainId: Option<int>
    var chainIdIndicesUpdates: seq<Event<ChainList>>
    var liteChainIndicesUpdates: seq<Event<Timed<ChainList>>>
    var cumulativeDisabledChainUpdates: seq<Event<ChainList>>
    var cumulativeConfigStoreVersionUpdates: seq<Event<Timed<int>>>

    ghost function Contents(): Config
      reads this
    {
      Config(chainIdIndicesUpdates, liteChainIndicesUpdates, cumulativeDisabledChainUpdates,
             cumulativeConfigStoreVersionUpdates)
    }

    /** The client has replayed the log up to its cursor. */
    ghost predicate InSyncWith(log: ConfigLog, timeOf: nat -> nat)
      reads this, base
    {
      var next := base.firstBlockToSearch;
      match chainId
      case None => Contents() == EMPTY && next == fromBlock
      case Some(id) => fromBlock <= next && Contents() == Replay(id, timeOf, EMPTY, Window(log, fromBlock, next - 1))
    }

    constructor (fromBlock: nat, toBlock: Option<nat>, lookBack: Option<int>)
      ensures Contents() == EMPTY && chainId == None && this.fromBlock == fromBlock
      ensures fresh(base) && base.firstBlockToSearch == fromBlock && !base.isUpdated && base.toBlock == toBlock
    {
      base := new BaseClient(fromBlock, 0, toBlock, lookBack);
      this.fromBlock := fromBlock;
      chainId := None;
      chainIdIndicesUpdates, liteChainIndicesUpdates := [], [];
      cumulativeDisabledChainUpdates, cumulativeConfigStoreVersionUpdates := [], [];
    }

    /** The loop over global config events. */
    method ApplyEvents(network: int, timeOf: nat -> nat, events: ConfigLog)
      modifies this`chainIdIndicesUpdates, this`liteChainIndicesUpdates, this`cumulativeDisabledChainUpdates,
               this`cumulativeConfigStoreVersionUpdates
      ensures Contents() == Replay(network, timeOf, old(Contents()), events)
    {
      ghost var start := Contents();
      for i := 0 to |events|
        invariant Contents() == Replay(network, timeOf, start, events[..i])
      {
        assert Init(events[..i + 1]) == events[..i];
        var e := events[i];
        match e.args {
          case ChainIdIndices(list) =>
            if !IsChainList(list) {
              continue;
            }
            var chainIndices := Integers(list.value);
            var previousUpdate := CurrentList(network, chainIdIndicesUpdates);
            if !(previousUpdate <= chainIndices) {
              continue;
            }
            chainIdIndicesUpdates := chainIdIndicesUpdates + [Event(e.pos, chainIndices)];
          case LiteChainIdIndices(list) =>
            if !IsChainList(list) {
              continue;
            }
            liteChainIndicesUpdates :=
              liteChainIndicesUpdates + [Event(e.pos, Timed(Integers(list.value), timeOf(e.pos.block)))];
          case DisabledChains(list) =>
            if list.Some? {
              cumulativeDisabledChainUpdates :=
                cumulativeDisabledChainUpdates + [Event(e.pos, FilterDisabledChains(list.value))];
            }
          case Version(value) =>
            if value.None? || !IsInteger(value.value) {
              continue;
            }
            var version := value.value.Floor;
            if version <= LastVersion(cumulativeConfigStoreVersionUpdates) {
              continue;
            }
            cumulativeConfigStoreVersionUpdates :=
              [Event(e.pos, Timed(version, timeOf(e.pos.block)))] + cumulativeConfigStoreVersionUpdates;
          case OtherKey =>
        }
      }
      assert events[..|events|] == events;
    }

    lemma EmptyReplay(network: int, timeOf: nat -> nat, log: ConfigLog)
      ensures Replay(network, timeOf, EMPTY, Window(log, fromBlock, fromBlock - 1)) == EMPTY
    {
      EmptyWindow(log, fromBlock, fromBlock - 1);
    }

    /** The sorted events of a window. */
    static method Fetch(log: ConfigLog, head: nat, config: EventSearchConfig, outage: nat -> bool, order: Listing<GlobalConfig>)
      returns (r: Result<ConfigLog>)
      requires IsLog(log) && IsListing(order)
      ensures r.Success? ==> r.value == Window(Visible(log, head), config.fromBlock, config.toBlock)
    {
      FilterKeepsOrder(Ascending, log, InBlocks<GlobalConfig>(0, head));
      var events := PaginatedEventQuery(Visible(log, head), config, outage, order);
      if events.Failure? {
        return Failure(events.error);
      }
      FilterKeepsOrder(Ascending, Visible(log, head), InBlocks<GlobalConfig>(config.fromBlock, config.toBlock));
      SortRestoresLog(Ascending, events.value, Window(Visible(log, head), config.fromBlock, config.toBlock));
      return Success(SortEvents(Ascending, events.value));
    }

    /** `update`: `Success(false)` means that there was nothing to search. */
    method Update(log: ConfigLog, head: nat, network: int, timeOf: nat -> nat, outage: nat -> bool,
                  order: Listing<GlobalConfig>)
      returns (r: Result<bool>)
      requires IsLog(log) && IsListing(order)
      modifies this, base
      ensures var search := NextSearch(old(base.firstBlockToSearch), old(base.toBlock), head, base.maxBlockLookBack);
              r == Success(true) ==>
                && search.Search? && base.SearchedTo(search.config.toBlock)
                && chainId == (if old(chainId).Some? then old(chainId) else Some(network))
                && Contents() == Replay(chainId.value, timeOf, old(Contents()),
                                        Window(Visible(log, head), search.config.fromBlock, search.config.toBlock))
      ensures r != Success(true) ==> unchanged(this) && unchanged(base)
      ensures old(InSyncWith(log, timeOf)) && (old(base.toBlock).Some? ==> old(base.toBlock).value <= head)
              ==> InSyncWith(log, timeOf)
    {
      hide Replay, Window, IsLog, IsListing;
      var search := base.UpdateSearchConfig(head);
      if search.Thrown? {
        return Failure("Invalid event search config");
      }
      if search.Rejected? {
        return Success(false);
      }
      var events := Fetch(log, head, search.config, outage, order);
      if events.Failure? {
        return Failure(events.error);
      }
      var resolved := if chainId.Some? then chainId.value else network;
      ApplyEvents(resolved, timeOf, events.value);
      ghost var next := base.firstBlockToSearch;
      base.Advance(search.config.toBlock);
      if search.config.toBlock <= head && fromBlock <= next {
        WindowReplayed(resolved, timeOf, log, fromBlock, next, search.config.toBlock, head);
      }
      EmptyReplay(resolved, timeOf, log);
      chainId := Some(resolved);
      return Success(true);
    }
  }
}
