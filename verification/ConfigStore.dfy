/** The global configuration of the protocol, replayed (src/clients/AcrossConfigStoreClient/AcrossConfigStoreClient.ts). */
module ConfigStore {
  import opened Wrappers
  import opened Sequences
  import opened EventUtils

  /** A parsed JSON array of numbers, or nothing where parsing or shape checking fails. */
  type ParsedList = Option<seq<real>>

  /** The global config keys that decide chain lists and versions, with their parsed values. */
  datatype GlobalConfig =
    | ChainIdIndices(list: ParsedList)
    | LiteChainIdIndices(lite: ParsedList)
    | DisabledChains(disabled: ParsedList)
    | Version(version: Option<real>)
    | OtherKey

  type ConfigLog = seq<Event<GlobalConfig>>
  type ChainList = seq<int>

  datatype Timed<T> = Timed(value: T, timestamp: nat)

  datatype Config = Config(
    chainIdIndicesUpdates: seq<Event<ChainList>>,
    liteChainIndicesUpdates: seq<Event<Timed<ChainList>>>,
    cumulativeDisabledChainUpdates: seq<Event<ChainList>>,
    cumulativeConfigStoreVersionUpdates: seq<Event<Timed<int>>>)

  const EMPTY := Config([], [], [], [])

  const PROTOCOL_DEFAULT_CHAIN_ID_INDICES: ChainList := [1, 10, 137, 288, 42161]
  const DEFAULT_CONFIG_STORE_VERSION := 0

  // ---------- what update accepts ----------

  predicate IsInteger(x: real) {
    x.Floor as real == x
  }

  predicate IsPositiveInteger(x: real) {
    IsInteger(x) && x > 0.0
  }

  function Integers(xs: seq<real>): ChainList {
    if xs == [] then [] else Integers(Init(xs)) + [Last(xs).Floor]
  }

  predicate NoDuplicates(s: ChainList) {
    forall i, j :: 0 <= i < j < |s| ==> s[i] != s[j]
  }

  function ImplicitChainIdIndices(chainId: int): ChainList {
    if PROTOCOL_DEFAULT_CHAIN_ID_INDICES[0] == chainId then PROTOCOL_DEFAULT_CHAIN_ID_INDICES else [chainId]
  }

  /** A list of distinct positive integers. */
  predicate IsChainList(list: ParsedList) {
    list.Some? && (forall x :: x in list.value ==> IsPositiveInteger(x)) && NoDuplicates(Integers(list.value))
  }

  /** `chainIdIndicesUpdates.at(-1)`, or the implicit list. */
  function CurrentList(chainId: int, updates: seq<Event<ChainList>>): ChainList {
    if updates == [] then ImplicitChainIdIndices(chainId) else Last(updates).args
  }

  /** UMIP-157: non-integers and chain 1 cannot be disabled. */
  function FilterDisabledChains(xs: seq<real>): ChainList {
    if xs == [] then []
    else if IsInteger(Last(xs)) && Last(xs) != 1.0 then FilterDisabledChains(Init(xs)) + [Last(xs).Floor]
    else FilterDisabledChains(Init(xs))
  }

  function LastVersion(updates: seq<Event<Timed<int>>>): int {
    if updates == [] then DEFAULT_CONFIG_STORE_VERSION else updates[0].args.value
  }

  /** One iteration of the loop over global config events. */
  function Apply(chainId: int, timeOf: nat -> nat, c: Config, e: Event<GlobalConfig>): Config {
    match e.args
    case ChainIdIndices(list) =>
      if IsChainList(list) && CurrentList(chainId, c.chainIdIndicesUpdates) <= Integers(list.value)
      then c.(chainIdIndicesUpdates := c.chainIdIndicesUpdates + [Event(e.pos, Integers(list.value))])
      else c
    case LiteChainIdIndices(list) =>
      if IsChainList(list)
      then c.(liteChainIndicesUpdates :=
                c.liteChainIndicesUpdates + [Event(e.pos, Timed(Integers(list.value), timeOf(e.pos.block)))])
      else c
    case DisabledChains(list) =>
      if list.Some?
      then c.(cumulativeDisabledChainUpdates :=
                c.cumulativeDisabledChainUpdates + [Event(e.pos, FilterDisabledChains(list.value))])
      else c
    case Version(value) =>
      if value.Some? && IsInteger(value.value) && value.value.Floor > LastVersion(c.cumulativeConfigStoreVersionUpdates)
      then c.(cumulativeConfigStoreVersionUpdates :=
                [Event(e.pos, Timed(value.value.Floor, timeOf(e.pos.block)))] + c.cumulativeConfigStoreVersionUpdates)
      else c
    case OtherKey => c
  }

  /** The configuration after a log of global config events. */
  function Replay(chainId: int, timeOf: nat -> nat, c: Config, log: ConfigLog): Config {
    if log == [] then c else Apply(chainId, timeOf, Replay(chainId, timeOf, c, Init(log)), Last(log))
  }

  /** Replaying window after window is replaying the whole log. */
  lemma {:induction false} ReplayConcat(chainId: int, timeOf: nat -> nat, c: Config, a: ConfigLog, b: ConfigLog)
    ensures Replay(chainId, timeOf, Replay(chainId, timeOf, c, a), b) == Replay(chainId, timeOf, c, a + b)
  {
    if b == [] {
      assert a + b == a;
    } else {
      assert Init(a + b) == a + Init(b);
      ReplayConcat(chainId, timeOf, c, a, Init(b));
    }
  }

  // ---------- lookups ----------

  function GetChainIdIndicesForBlock(chainId: int, c: Config, block: int): ChainList {
    match AsOf(c.chainIdIndicesUpdates, block)
    case Some(update) => update.args
    case None => ImplicitChainIdIndices(chainId)
  }

  function GetDisabledChainsForBlock(c: Config, block: int): ChainList {
    match AsOf(c.cumulativeDisabledChainUpdates, block)
    case Some(update) => update.args
    case None => []
  }

  function WrittenBy(timestamp: nat): Event<Timed<ChainList>> -> bool {
    (update: Event<Timed<ChainList>>) => update.args.timestamp <= timestamp
  }

  function GetLiteChainIdIndicesForTimestamp(c: Config, timestamp: nat): ChainList {
    match FindNewest(c.liteChainIndicesUpdates, WrittenBy(timestamp))
    case Some(update) => update.args.value
    case None => []
  }

  predicate IsChainLiteChainAtTimestamp(c: Config, chain: int, timestamp: nat) {
    chain in GetLiteChainIdIndicesForTimestamp(c, timestamp)
  }

  function NotIn(chains: ChainList): int -> bool {
    (chain: int) => chain !in chains
  }

  function GetEnabledChains(chainId: int, c: Config, block: int): ChainList {
    Filter(GetChainIdIndicesForBlock(chainId, c, block), NotIn(GetDisabledChainsForBlock(c, block)))
  }

  function GetConfigStoreVersionForBlock(c: Config, block: int): int {
    match Find(c.cumulativeConfigStoreVersionUpdates, AtOrBefore(block))
    case Some(update) => update.args.value
    case None => DEFAULT_CONFIG_STORE_VERSION
  }

  // ---------- chain lists only grow ----------

  /** The accepted lists: distinct positive chain ids each, and each list a prefix of the next. */
  ghost predicate ListsGrow(chainId: int, updates: seq<Event<ChainList>>) {
    && (forall i :: 0 <= i < |updates| ==> NoDuplicates(updates[i].args))
    && (forall i, j :: 0 <= i <= j < |updates| ==> updates[i].args <= updates[j].args)
    && (forall i :: 0 <= i < |updates| ==> ImplicitChainIdIndices(chainId) <= updates[i].args)
  }

  /** `xs` lists positions taken from the log, in its order. */
  ghost predicate FollowsLog<S, T>(xs: seq<Event<S>>, log: seq<Event<T>>) {
    && IsLog(xs)
    && forall x :: x in xs ==> log != [] && !Older(Last(log).pos, x.pos)
  }

  lemma FollowsOneMore<S, T>(xs: seq<Event<S>>, log: seq<Event<T>>, args: S)
    requires log != [] && IsLog(log) && FollowsLog(xs, Init(log))
    ensures FollowsLog(xs, log)
    ensures FollowsLog(xs + [Event(Last(log).pos, args)], log)
  {
    var e := Last(log);
    forall x | x in xs ensures Older(x.pos, e.pos) {
      var p := Last(Init(log)).pos;
      assert Older(log[|log| - 2].pos, log[|log| - 1].pos);
      OlderIsStrictTotalOrder(x.pos, p, e.pos);
      OlderIsStrictTotalOrder(p, x.pos, e.pos);
    }
    forall x | x in xs ensures !Older(e.pos, x.pos) {
      OlderIsStrictTotalOrder(x.pos, e.pos, x.pos);
    }
  }

  lemma ExtendLists(chainId: int, updates: seq<Event<ChainList>>, u: Event<ChainList>)
    requires ListsGrow(chainId, updates)
    requires NoDuplicates(u.args) && CurrentList(chainId, updates) <= u.args
    ensures ListsGrow(chainId, updates + [u])
  {
    var all := updates + [u];
    forall i | 0 <= i < |updates| ensures updates[i].args <= u.args {
      assert updates[i].args <= updates[|updates| - 1].args;
    }
    assert ImplicitChainIdIndices(chainId) <= u.args by {
      if updates != [] {
        assert ImplicitChainIdIndices(chainId) <= updates[|updates| - 1].args;
      }
    }
  }

  /** Every reachable configuration keeps the lists growing, and all its lists in log order. */
  lemma {:induction false} ReplayInvariant(chainId: int, timeOf: nat -> nat, log: ConfigLog)
    requires IsLog(log)
    ensures var c := Replay(chainId, timeOf, EMPTY, log);
            && ListsGrow(chainId, c.chainIdIndicesUpdates)
            && FollowsLog(c.chainIdIndicesUpdates, log)
            && FollowsLog(c.liteChainIndicesUpdates, log)
            && FollowsLog(c.cumulativeDisabledChainUpdates, log)
  {
    if log != [] {
      assert forall k :: 0 <= k < |Init(log)| ==> Init(log)[k] == log[k];
      ReplayInvariant(chainId, timeOf, Init(log));
      var c, e := Replay(chainId, timeOf, EMPTY, Init(log)), Last(log);
      var list := if e.args.ChainIdIndices? && e.args.list.Some? then Integers(e.args.list.value) else [];
      var lite := if e.args.LiteChainIdIndices? && e.args.lite.Some? then Integers(e.args.lite.value) else [];
      var off := if e.args.DisabledChains? && e.args.disabled.Some? then FilterDisabledChains(e.args.disabled.value) else [];
      FollowsOneMore(c.chainIdIndicesUpdates, log, list);
      FollowsOneMore(c.liteChainIndicesUpdates, log, Timed(lite, timeOf(e.pos.block)));
      FollowsOneMore(c.cumulativeDisabledChainUpdates, log, off);
      if NoDuplicates(list) && CurrentList(chainId, c.chainIdIndicesUpdates) <= list {
        ExtendLists(chainId, c.chainIdIndicesUpdates, Event(e.pos, list));
      }
    }
  }

  /** The chain list at a block is free of duplicates, and a prefix of the list at any later block. */
  lemma ChainListsArePrefixes(chainId: int, timeOf: nat -> nat, log: ConfigLog, b1: int, b2: int)
    requires IsLog(log) && b1 <= b2
    ensures var c := Replay(chainId, timeOf, EMPTY, log);
            && NoDuplicates(GetChainIdIndicesForBlock(chainId, c, b1))
            && GetChainIdIndicesForBlock(chainId, c, b1) <= GetChainIdIndicesForBlock(chainId, c, b2)
  {
    ReplayInvariant(chainId, timeOf, log);
    var i, j := AsOfMovesForward(Replay(chainId, timeOf, EMPTY, log).chainIdIndicesUpdates, b1, b2);
  }

  /** `getBundleEndBlockForChain` (src/clients/HubPoolClient.ts:992-1009). */
  function GetBundleEndBlockForChain(bundleEvaluationBlockNumbers: seq<nat>, chain: int, chainIdList: ChainList): nat {
    match IndexOf(chainIdList, chain)
    case None => 0
    case Some(i) => if i >= |bundleEvaluationBlockNumbers| then 0 else bundleEvaluationBlockNumbers[i]
  }

  lemma IndexInPrefix(short: ChainList, long: ChainList, chain: int)
    requires short <= long && chain in short
    ensures IndexOf(short, chain) == IndexOf(long, chain)
  {
    var i := IndexOf(short, chain).value;
    var j := IndexOf(long, chain).value;
    assert long[i] == chain && short == long[..|short|];
    assert forall k :: 0 <= k < j ==> long[k] in long[..j];
    assert forall k :: 0 <= k < i ==> short[k] in short[..i];
  }

  /** A chain once listed keeps its place, so a bundle's end block for it is the same under any later list. */
  lemma EndBlockIsStable(chainId: int, timeOf: nat -> nat, log: ConfigLog, b1: int, b2: int, ends: seq<nat>, chain: int)
    requires IsLog(log) && b1 <= b2
    requires chain in GetChainIdIndicesForBlock(chainId, Replay(chainId, timeOf, EMPTY, log), b1)
    ensures var c := Replay(chainId, timeOf, EMPTY, log);
            GetBundleEndBlockForChain(ends, chain, GetChainIdIndicesForBlock(chainId, c, b1))
            == GetBundleEndBlockForChain(ends, chain, GetChainIdIndicesForBlock(chainId, c, b2))
  {
    var c := Replay(chainId, timeOf, EMPTY, log);
    ChainListsArePrefixes(chainId, timeOf, log, b1, b2);
    IndexInPrefix(GetChainIdIndicesForBlock(chainId, c, b1), GetChainIdIndicesForBlock(chainId, c, b2), chain);
  }

  // ---------- answers do not move ----------

  /** `d` continues `c` with updates of blocks after `block` only. */
  ghost predicate GrewAfter<T(!new)>(before: seq<Event<T>>, after: seq<Event<T>>, block: int) {
    exists more :: after == before + more && forall e :: e in more ==> e.pos.block > block
  }

  lemma {:induction false} ReplayGrows(chainId: int, timeOf: nat -> nat, c: Config, more: ConfigLog, block: int)
    requires forall e :: e in more ==> e.pos.block > block
    ensures var d := Replay(chainId, timeOf, c, more);
            && GrewAfter(c.chainIdIndicesUpdates, d.chainIdIndicesUpdates, block)
            && GrewAfter(c.cumulativeDisabledChainUpdates, d.cumulativeDisabledChainUpdates, block)
  {
    if more == [] {
      assert c.chainIdIndicesUpdates == c.chainIdIndicesUpdates + [];
      assert c.cumulativeDisabledChainUpdates == c.cumulativeDisabledChainUpdates + [];
    } else {
      assert more == Init(more) + [Last(more)];
      ReplayGrows(chainId, timeOf, c, Init(more), block);
      var d := Replay(chainId, timeOf, c, Init(more));
      var lists :| d.chainIdIndicesUpdates == c.chainIdIndicesUpdates + lists && forall e :: e in lists ==> e.pos.block > block;
      var off :| d.cumulativeDisabledChainUpdates == c.cumulativeDisabledChainUpdates + off
                 && forall e :: e in off ==> e.pos.block > block;
      var d' := Replay(chainId, timeOf, c, more);
      if d'.chainIdIndicesUpdates != d.chainIdIndicesUpdates {
        assert d'.chainIdIndicesUpdates == c.chainIdIndicesUpdates + (lists + [Last(d'.chainIdIndicesUpdates)]);
      }
      if d'.cumulativeDisabledChainUpdates != d.cumulativeDisabledChainUpdates {
        assert d'.cumulativeDisabledChainUpdates
            == c.cumulativeDisabledChainUpdates + (off + [Last(d'.cumulativeDisabledChainUpdates)]);
      }
    }
  }

  /** Answers as of a block that has been searched survive every later update. */
  lemma AnswersAreFinal(chainId: int, timeOf: nat -> nat, log: ConfigLog, more: ConfigLog, block: int)
    requires IsLog(log + more)
    requires forall e :: e in more ==> e.pos.block > block
    ensures var (c, d) := (Replay(chainId, timeOf, EMPTY, log), Replay(chainId, timeOf, EMPTY, log + more));
            && GetChainIdIndicesForBlock(chainId, c, block) == GetChainIdIndicesForBlock(chainId, d, block)
            && GetDisabledChainsForBlock(c, block) == GetDisabledChainsForBlock(d, block)
  {
    var c := Replay(chainId, timeOf, EMPTY, log);
    ReplayConcat(chainId, timeOf, EMPTY, log, more);
    ReplayGrows(chainId, timeOf, c, more, block);
    ReplayInvariant(chainId, timeOf, log + more);
    var d := Replay(chainId, timeOf, c, more);
    var lists :| d.chainIdIndicesUpdates == c.chainIdIndicesUpdates + lists && forall e :: e in lists ==> e.pos.block > block;
    var off :| d.cumulativeDisabledChainUpdates == c.cumulativeDisabledChainUpdates + off
               && forall e :: e in off ==> e.pos.block > block;
    AsOfIsStable(c.chainIdIndicesUpdates, lists, block);
    AsOfIsStable(c.cumulativeDisabledChainUpdates, off, block);
  }

  // ---------- versions ----------

  /** The version an event proposes, if it proposes one at all. */
  function Proposed(e: Event<GlobalConfig>): Option<int> {
    if e.args.Version? && e.args.version.Some? && IsInteger(e.args.version.value)
    then Some(e.args.version.value.Floor) else None
  }

  /** The highest integer version published at or before the block; 0 if there is none above it. */
  function HighestVersion(log: ConfigLog, block: int): int {
    if log == [] then DEFAULT_CONFIG_STORE_VERSION
    else
      var before := HighestVersion(Init(log), block);
      match Proposed(Last(log))
      case Some(v) => if Last(log).pos.block <= block && v > before then v else before
      case None => before
  }

  lemma {:induction false} HighestIsHighest(log: ConfigLog, block: int)
    ensures HighestVersion(log, block) >= 0
    ensures forall e :: e in log && e.pos.block <= block && Proposed(e).Some? ==>
              Proposed(e).value <= HighestVersion(log, block)
    ensures HighestVersion(log, block) == 0
            || exists e :: e in log && e.pos.block <= block && Proposed(e) == Some(HighestVersion(log, block))
  {
    if log != [] {
      assert log == Init(log) + [Last(log)];
      HighestIsHighest(Init(log), block);
      var before := HighestVersion(Init(log), block);
      if before != 0 {
        var e :| e in Init(log) && e.pos.block <= block && Proposed(e) == Some(before);
        assert e in log;
      }
      assert Last(log) in log;
    }
  }

  /** Each version update is the highest so far, so the newest at or before a block is the highest up to it. */
  lemma {:induction false} VersionIsHighest(chainId: int, timeOf: nat -> nat, log: ConfigLog, block: int)
    requires IsLog(log)
    ensures GetConfigStoreVersionForBlock(Replay(chainId, timeOf, EMPTY, log), block) == HighestVersion(log, block)
    ensures (forall e :: e in log ==> e.pos.block <= block) ==>
              LastVersion(Replay(chainId, timeOf, EMPTY, log).cumulativeConfigStoreVersionUpdates) == HighestVersion(log, block)
  {
    if log != [] {
      assert forall k :: 0 <= k < |Init(log)| ==> Init(log)[k] == log[k];
      assert forall x :: x in Init(log) ==> x in log;
      VersionIsHighest(chainId, timeOf, Init(log), block);
      var c, e := Replay(chainId, timeOf, EMPTY, Init(log)), Last(log);
      var old_ := c.cumulativeConfigStoreVersionUpdates;
      if Proposed(e).Some? && Proposed(e).value > LastVersion(old_) {
        var u := Event(e.pos, Timed(Proposed(e).value, timeOf(e.pos.block)));
        FindPrepended(u, old_, block);
      }
      if e.pos.block <= block {
        EarlierBlocks(log);
      }
    }
  }

  lemma FindPrepended<T>(u: Event<T>, rest: seq<Event<T>>, block: int)
    ensures Find([u] + rest, AtOrBefore(block)) == if u.pos.block <= block then Some(u) else Find(rest, AtOrBefore(block))
  {
    FilterConcat([u], rest, AtOrBefore(block));
    FilterOne(u, AtOrBefore(block));
    FindFirst([u] + rest, AtOrBefore(block));
    FindFirst(rest, AtOrBefore(block));
  }

  lemma EarlierBlocks<T>(log: seq<Event<T>>)
    requires log != [] && IsLog(log)
    ensures forall x :: x in log ==> x.pos.block <= Last(log).pos.block
  {
    forall x | x in log ensures x.pos.block <= Last(log).pos.block {
      var k :| 0 <= k < |log| && log[k] == x;
      assert k < |log| - 1 ==> Older(log[k].pos, log[|log| - 1].pos);
    }
  }
}
