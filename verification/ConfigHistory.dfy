/**
 The chain lists, disabled chains and lite chains in force as of a block, told from the ConfigStore's log itself
 (src/clients/AcrossConfigStoreClient/AcrossConfigStoreClient.ts:148-180, 272-279 and 438-545).
 */
module ConfigHistory {
  import opened Wrappers
  import opened Sequences
  import opened EventUtils
  import opened ConfigStore

  // ---------- chain lists ----------

  /** Distinct positive integers. */
  predicate AreChainIds(xs: seq<real>) {
    && (forall x :: x in xs ==> x > 0.0 && x == x.Floor as real)
    && forall i, j :: 0 <= i < j < |xs| ==> xs[i] != xs[j]
  }

  function Values(xs: seq<real>): ChainList {
    seq(|xs|, i requires 0 <= i < |xs| => xs[i].Floor)
  }

  /** The list that an event publishes, or nothing where it does not parse. */
  function ListOf(e: Event<GlobalConfig>): seq<real> {
    match e.args
    case ChainIdIndices(Some(xs)) => xs
    case LiteChainIdIndices(Some(xs)) => xs
    case DisabledChains(Some(xs)) => xs
    case _ => []
  }

  /** A list of chain ids that starts with those of the list before. */
  predicate Extends(before: ChainList, list: ParsedList) {
    && list.Some? && AreChainIds(list.value)
    && |before| <= |list.value| && forall i :: 0 <= i < |before| ==> list.value[i] == before[i] as real
  }

  /** The last list that extends the one in force before it; at first the protocol's defaults, or a lone test chain. */
  function InForce(chainId: int, log: ConfigLog): ChainList
    decreases |log|, 0
  {
    if log == [] then if chainId == 1 then [1, 10, 137, 288, 42161] else [chainId]
    else if IsExtension(chainId, Init(log), Last(log)) then Values(Last(log).args.list.value)
    else InForce(chainId, Init(log))
  }

  predicate IsExtension(chainId: int, before: ConfigLog, e: Event<GlobalConfig>)
    decreases |before|, 1
  {
    e.args.ChainIdIndices? && Extends(InForce(chainId, before), e.args.list)
  }

  /** No valid extension is dropped, and nothing else is taken. */
  lemma {:induction false} LastExtension(chainId: int, log: ConfigLog) returns (i: nat)
    ensures i <= |log| && forall j :: i <= j < |log| ==> !IsExtension(chainId, log[..j], log[j])
    ensures i == 0 ==> InForce(chainId, log) == InForce(chainId, [])
    ensures i > 0 ==>
              && IsExtension(chainId, log[..i - 1], log[i - 1])
              && InForce(chainId, log) == Values(log[i - 1].args.list.value)
  {
    i := 0;
    if log != [] {
      assert forall j :: 0 <= j <= |log| - 1 ==> Init(log)[..j] == log[..j];
      if IsExtension(chainId, Init(log), Last(log)) {
        i := |log|;
      } else {
        i := LastExtension(chainId, Init(log));
      }
    }
  }

  lemma {:induction false} IntegersAreValues(xs: seq<real>)
    ensures Integers(xs) == Values(xs)
  {
    if xs != [] {
      IntegersAreValues(Init(xs));
    }
  }

  lemma ExtendsIff(before: ChainList, list: ParsedList)
    ensures Extends(before, list) <==> IsChainList(list) && before <= Integers(list.value)
    ensures list.Some? ==> Integers(list.value) == Values(list.value)
  {
    if list.Some? {
      IntegersAreValues(list.value);
      var (xs, ids) := (list.value, Values(list.value));
      if forall x :: x in xs ==> x == x.Floor as real {
        assert forall i :: 0 <= i < |xs| ==> xs[i] == ids[i] as real;
        assert before <= ids <==> |before| <= |ids| && forall i :: 0 <= i < |before| ==> ids[i] == before[i];
      }
    }
  }

  lemma {:induction false} CurrentIsInForce(chainId: int, timeOf: nat -> nat, log: ConfigLog)
    ensures CurrentList(chainId, Replay(chainId, timeOf, EMPTY, log).chainIdIndicesUpdates) == InForce(chainId, log)
  {
    if log != [] {
      CurrentIsInForce(chainId, timeOf, Init(log));
      if Last(log).args.ChainIdIndices? {
        ExtendsIff(InForce(chainId, Init(log)), Last(log).args.list);
      }
    }
  }

  /** The events up to a block, and those after it. */
  lemma {:induction false} SplitAt<T>(log: seq<Event<T>>, block: int)
    requires IsLog(log)
    ensures Filter(log, AtOrBefore(block)) + From(log, block + 1) == log
  {
    if log != [] {
      InitKeepsOrder(Ascending, log);
      SplitAt(Init(log), block);
      if Last(log).pos.block <= block {
        forall x | x in Init(log) ensures !IsFrom<T>(block + 1)(x) {
          var i :| 0 <= i < |Init(log)| && Init(log)[i] == x;
          assert Older(log[i].pos, log[|log| - 1].pos);
        }
        FilterNone(Init(log), IsFrom<T>(block + 1));
      }
    }
  }

  /** Every answer as of a block is that of the log up to it. */
  lemma AnswersAsOf(chainId: int, timeOf: nat -> nat, log: ConfigLog, block: int)
    requires IsLog(log)
    ensures var early := Filter(log, AtOrBefore(block));
            var (c, d) := (Replay(chainId, timeOf, EMPTY, early), Replay(chainId, timeOf, EMPTY, log));
            && IsLog(early)
            && GetChainIdIndicesForBlock(chainId, d, block) == CurrentList(chainId, c.chainIdIndicesUpdates)
            && GetDisabledChainsForBlock(d, block) == CurrentDisabled(c.cumulativeDisabledChainUpdates)
  {
    var (early, late) := (Filter(log, AtOrBefore(block)), From(log, block + 1));
    SplitAt(log, block);
    FilterKeepsOrder(Ascending, log, AtOrBefore<GlobalConfig>(block));
    forall e | e in late ensures e.pos.block > block {
      FilterMembers(log, IsFrom<GlobalConfig>(block + 1), e);
    }
    AnswersAreFinal(chainId, timeOf, early, late, block);
    ReplayInvariant(chainId, timeOf, early);
    var c := Replay(chainId, timeOf, EMPTY, early);
    if early != [] {
      FilterMembers(log, AtOrBefore<GlobalConfig>(block), Last(early));
    }
    hide Replay, Filter, IsLog;
    NewestIsLast(c.chainIdIndicesUpdates, early, block);
    NewestIsLast(c.cumulativeDisabledChainUpdates, early, block);
  }

  lemma NewestIsLast(updates: seq<Event<ChainList>>, log: ConfigLog, block: int)
    requires FollowsLog(updates, log) && (log != [] ==> Last(log).pos.block <= block)
    ensures AsOf(updates, block) == if updates == [] then None else Some(Last(updates))
  {
    FindNewestOnLog(updates, AtOrBefore(block));
    assert updates != [] ==> Last(updates) in updates;
  }

  /** The chain list as of a block is the one in force after the events up to that block. */
  lemma ChainListFromTheLog(chainId: int, timeOf: nat -> nat, log: ConfigLog, block: int)
    requires IsLog(log)
    ensures GetChainIdIndicesForBlock(chainId, Replay(chainId, timeOf, EMPTY, log), block)
            == InForce(chainId, Filter(log, AtOrBefore(block)))
  {
    AnswersAsOf(chainId, timeOf, log, block);
    CurrentIsInForce(chainId, timeOf, Filter(log, AtOrBefore(block)));
  }

  // ---------- disabled chains ----------

  function CurrentDisabled(updates: seq<Event<ChainList>>): ChainList {
    if updates == [] then [] else Last(updates).args
  }

  function IsParsedDisabled(block: int): Event<GlobalConfig> -> bool {
    (e: Event<GlobalConfig>) => e.args.DisabledChains? && e.args.disabled.Some? && e.pos.block <= block
  }

  predicate CanBeDisabled(x: real) {
    x == x.Floor as real && x != 1.0
  }

  lemma {:induction false} DisabledAreValues(xs: seq<real>)
    ensures FilterDisabledChains(xs) == Values(Filter(xs, CanBeDisabled))
  {
    if xs != [] {
      DisabledAreValues(Init(xs));
    }
  }

  lemma {:induction false} CurrentDisabledIsLast(chainId: int, timeOf: nat -> nat, log: ConfigLog, block: int)
    requires forall e :: e in log ==> e.pos.block <= block
    ensures CurrentDisabled(Replay(chainId, timeOf, EMPTY, log).cumulativeDisabledChainUpdates)
            == match FindLast(log, IsParsedDisabled(block))
               case None => []
               case Some(e) => Values(Filter(ListOf(e), CanBeDisabled))
  {
    if log != [] {
      assert forall x :: x in Init(log) ==> x in log;
      CurrentDisabledIsLast(chainId, timeOf, Init(log), block);
      var e := Last(log);
      if e.args.DisabledChains? && e.args.disabled.Some? {
        DisabledAreValues(e.args.disabled.value);
      }
    }
  }

  /** The disabled chains as of a block are those of the last parsed list up to it, less chain 1 and what is no integer. */
  lemma DisabledFromTheLog(chainId: int, timeOf: nat -> nat, log: ConfigLog, block: int)
    requires IsLog(log)
    ensures GetDisabledChainsForBlock(Replay(chainId, timeOf, EMPTY, log), block)
            == match FindLast(log, IsParsedDisabled(block))
               case None => []
               case Some(e) => Values(Filter(ListOf(e), CanBeDisabled))
  {
    var early := Filter(log, AtOrBefore(block));
    AnswersAsOf(chainId, timeOf, log, block);
    forall e | e in early ensures e.pos.block <= block {
      FilterMembers(log, AtOrBefore<GlobalConfig>(block), e);
    }
    CurrentDisabledIsLast(chainId, timeOf, early, block);
    FilterTwice(log, AtOrBefore<GlobalConfig>(block), IsParsedDisabled(block), IsParsedDisabled(block));
    FindLastIsLast(early, IsParsedDisabled(block));
    FindLastIsLast(log, IsParsedDisabled(block));
  }

  // ---------- lite chains ----------

  function IsLiteList(timeOf: nat -> nat, timestamp: nat): Event<GlobalConfig> -> bool {
    (e: Event<GlobalConfig>) =>
      && e.args.LiteChainIdIndices? && e.args.lite.Some? && AreChainIds(e.args.lite.value)
      && timeOf(e.pos.block) <= timestamp
  }

  lemma {:induction false} LiteIsLast(chainId: int, timeOf: nat -> nat, log: ConfigLog, timestamp: nat)
    ensures var found := FindLast(Replay(chainId, timeOf, EMPTY, log).liteChainIndicesUpdates, WrittenBy(timestamp));
            match FindLast(log, IsLiteList(timeOf, timestamp))
            case None => found == None
            case Some(e) => found.Some? && found.value.args.value == Values(ListOf(e))
  {
    if log != [] {
      LiteIsLast(chainId, timeOf, Init(log), timestamp);
      if Last(log).args.LiteChainIdIndices? {
        ExtendsIff([], Last(log).args.lite);
      }
    }
  }

  /** The lite chains as of a time are those of the last list of distinct positive integers written by then. */
  lemma LiteChainsFromTheLog(chainId: int, timeOf: nat -> nat, log: ConfigLog, chain: int, timestamp: nat)
    requires IsLog(log)
    ensures IsChainLiteChainAtTimestamp(Replay(chainId, timeOf, EMPTY, log), chain, timestamp) <==>
            match FindLast(log, IsLiteList(timeOf, timestamp))
            case None => false
            case Some(e) => chain as real in ListOf(e)
  {
    ReplayInvariant(chainId, timeOf, log);
    var c := Replay(chainId, timeOf, EMPTY, log);
    FindNewestOnLog(c.liteChainIndicesUpdates, WrittenBy(timestamp));
    LiteIsLast(chainId, timeOf, log, timestamp);
    var i := FindLastWitness(log, IsLiteList(timeOf, timestamp));
    if FindLast(log, IsLiteList(timeOf, timestamp)).Some? {
      ValuesHold(ListOf(log[i]), chain);
    }
  }

  lemma ValuesHold(xs: seq<real>, chain: int)
    requires AreChainIds(xs)
    ensures chain in Values(xs) <==> chain as real in xs
  {
    if chain in Values(xs) {
      var i :| 0 <= i < |xs| && Values(xs)[i] == chain;
      assert xs[i] in xs;
    }
    if chain as real in xs {
      var i :| 0 <= i < |xs| && xs[i] == chain as real;
      assert Values(xs)[i] == chain;
    }
  }
}
