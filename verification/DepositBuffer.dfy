/**
 The deposits that a client holds in memory, also after an interrupted update: which part of the chain they are, and
 what a lookup by id says about the chain (src/clients/SpokePoolClient.ts:269-303 and 532-568).
 */
module DepositBuffer {
  import opened Wrappers
  import opened Numbers
  import opened Sequences
  import opened EventUtils
  import opened ObjectUtils
  import opened SpokePool
  import opened SpokeIndexes
  import opened SpokeReplay
  import opened SpokeHistory
  import opened DepositSearch
  import opened HubPoolTokens
  import SpokeUtils
  import Client = SpokePoolClient

  // ---------- the buffered part of the chain ----------

  /** The chain's deposits from the client's first block on. */
  function DepositLog(log: Log, fromBlock: nat): Log {
    OfKind(From(log, fromBlock), Deposits)
  }

  const NO_DEPOSITS := DepositIndex(map[], MAX_SAFE_INTEGER, 0)

  /** The index has the ids, bounds and deposits that storing those of `part` leaves, speed-ups aside. */
  ghost predicate HoldsDeposits(cfg: SpokeConfig, ix: DepositIndex, part: Log) {
    var stored := StoreDeposits(NO_DEPOSITS, DepositsIn(cfg, part));
    && ix.deposits.Keys == stored.deposits.Keys && ix.earliest == stored.earliest && ix.latest == stored.latest
    && forall k :: k in ix.deposits ==> SameButTerms(ix.deposits[k], stored.deposits[k])
  }

  predicate SameButTerms(a: Deposit, b: Deposit) {
    a == b.(updated := a.updated)
  }

  /** The deposits of a first part of `all` that includes `below`. */
  ghost predicate HoldsPart(cfg: SpokeConfig, all: Log, below: Log, ix: DepositIndex) {
    exists part: Log :: below <= part <= all && HoldsDeposits(cfg, ix, part)
  }

  /**
   The client holds the deposits of a first part of the chain, which goes at least up to its cursor: further, if an
   update was interrupted.
   */
  ghost predicate Buffers(cfg: SpokeConfig, log: Log, fromBlock: nat, cursor: nat, st: Indexes) {
    HoldsPart(cfg, DepositLog(log, fromBlock), OfKind(Window(log, fromBlock, cursor - 1), Deposits), DepositIndexOf(st))
  }

  // ---------- what updates do to it ----------

  lemma {:induction false} StoreKeepsDeposits(a: DepositIndex, b: DepositIndex, ds: seq<Deposit>)
    requires a.deposits.Keys == b.deposits.Keys && a.earliest == b.earliest && a.latest == b.latest
    requires forall k :: k in a.deposits ==> SameButTerms(a.deposits[k], b.deposits[k])
    ensures var (x, y) := (StoreDeposits(a, ds), StoreDeposits(b, ds));
            && x.deposits.Keys == y.deposits.Keys && x.earliest == y.earliest && x.latest == y.latest
            && forall k :: k in x.deposits ==> SameButTerms(x.deposits[k], y.deposits[k])
  {
    if ds != [] {
      StoreKeepsDeposits(a, b, Init(ds));
    }
  }

  /** Storing deposits again that start with, or are a start of, those stored last. */
  lemma StoredTogether(ix: DepositIndex, r: seq<Deposit>, x: seq<Deposit>)
    requires r <= x || x <= r
    ensures StoreDeposits(StoreDeposits(ix, r), x) == StoreDeposits(ix, if r <= x then x else r)
  {
    if r <= x {
      StoreAgain(ix, r, x);
    } else {
      forall d | d in x ensures DepositHash(d) in StoreDeposits(ix, r).deposits {
        assert d in r;
        StoredIsKnown(ix, r, d);
      }
      KnownAreSkipped(StoreDeposits(ix, r), x);
    }
  }

  lemma Extended(cfg: SpokeConfig, ix: DepositIndex, all: Log, below: Log, part: Log, stored: Log)
    requires below <= part <= all && below + stored <= all
    requires HoldsDeposits(cfg, ix, part)
    ensures HoldsDeposits(cfg, StoreDeposits(ix, DepositsIn(cfg, stored)),
                          if below + stored <= part then part else below + stored)
    ensures below + stored <= part || part <= below + stored
  {
    var rest := part[|below|..];
    assert part == below + rest;
    PrefixesCompare(below, rest, stored, all);
    CollectConcat(below, rest, DepositOf(cfg));
    CollectConcat(below, stored, DepositOf(cfg));
    var first, r, x := DepositsIn(cfg, below), DepositsIn(cfg, rest), DepositsIn(cfg, stored);
    var base := StoreDeposits(NO_DEPOSITS, first);
    StoreConcat(NO_DEPOSITS, first, r);
    StoreConcat(NO_DEPOSITS, first, x);
    StoreKeepsDeposits(ix, StoreDeposits(base, r), x);
    if rest <= stored {
      CollectPrefix(rest, stored, DepositOf(cfg));
      StoredTogether(base, r, x);
      if stored <= rest {
        assert rest == stored;
      }
    } else {
      CollectPrefix(stored, rest, DepositOf(cfg));
      StoredTogether(base, r, x);
      if r <= x {
        assert r == x;
      }
    }
  }

  lemma PrefixesCompare(below: Log, rest: Log, stored: Log, all: Log)
    requires below + rest <= all && below + stored <= all
    ensures rest <= stored || stored <= rest
    ensures stored <= rest ==> below + stored <= below + rest
    ensures rest <= stored ==> below + rest <= below + stored
    ensures below + stored <= below + rest ==> stored <= rest
  {
    forall i | 0 <= i < |rest| && i < |stored| ensures rest[i] == stored[i] {
      assert (below + rest)[|below| + i] == all[|below| + i] == (below + stored)[|below| + i];
    }
  }

  /** Speed-ups change nothing about a deposit but its terms. */
  lemma {:induction false} SpeedUpsKeepDeposits(chainId: nat, q: Quotes, xs: seq<SpeedUp>)
    ensures var deposits := ApplySpeedUps(chainId, q, xs).deposits;
            deposits.Keys == q.deposits.Keys && forall k :: k in deposits ==> SameButTerms(deposits[k], q.deposits[k])
  {
    if xs != [] {
      SpeedUpsKeepDeposits(chainId, q, Init(xs));
    }
  }

  lemma QuotesHoldDeposits(cfg: SpokeConfig, ix: DepositIndex, part: Log, q: Quotes, xs: seq<SpeedUp>)
    requires HoldsDeposits(cfg, ix, part) && q.deposits == ix.deposits
    ensures HoldsDeposits(cfg, ix.(deposits := ApplySpeedUps(cfg.chainId, q, xs).deposits), part)
  {
    SpeedUpsKeepDeposits(cfg.chainId, q, xs);
    hide StoreDeposits, ApplySpeedUps, Collect;
  }

  /** An update that goes on where the completed ones have got to extends the part, or repeats some of it. */
  lemma IngestHoldsPart(cfg: SpokeConfig, all: Log, below: Log, st: Indexes, b: Batch)
    requires HoldsPart(cfg, all, below, DepositIndexOf(st))
    requires below + OfKind(b.events, Deposits) <= all
    ensures HoldsPart(cfg, all, below + OfKind(b.events, Deposits), DepositIndexOf(Ingest(cfg, st, b)))
    ensures HoldsPart(cfg, all, below, DepositIndexOf(Ingest(cfg, st, b)))
  {
    var ix, stored := DepositIndexOf(st), OfKind(b.events, Deposits);
    hide StoreDeposits, ApplySpeedUps, Collect, Filter, HoldsDeposits;
    var part: Log :| below <= part <= all && HoldsDeposits(cfg, ix, part);
    var longer := if below + stored <= part then part else below + stored;
    var next := StoreDeposits(ix, DepositsIn(cfg, b.events));
    ViewsOfKinds(cfg, b.events);
    Extended(cfg, ix, all, below, part, stored);
    QuotesHoldDeposits(cfg, next, longer, Quotes(st.speedUps, next.deposits), SpeedUpsIn(b.events));
    assert DepositIndexOf(Ingest(cfg, st, b))
           == next.(deposits := ApplySpeedUps(cfg.chainId, Quotes(st.speedUps, next.deposits), SpeedUpsIn(b.events)).deposits);
    hide Ingest, DepositIndexOf;
    assert HoldsDeposits(cfg, DepositIndexOf(Ingest(cfg, st, b)), longer);
  }

  lemma NextDeposits(log: Log, fromBlock: nat, cursor: nat, to: nat)
    requires IsLog(log) && fromBlock <= cursor <= to
    ensures OfKind(Window(log, fromBlock, cursor - 1), Deposits) + OfKind(Window(log, cursor, to), Deposits)
            == OfKind(Window(log, fromBlock, to), Deposits) <= DepositLog(log, fromBlock)
  {
    WindowsAbut(log, fromBlock, cursor - 1, to);
    FilterConcat(Window(log, fromBlock, cursor - 1), Window(log, cursor, to), IsKind(Deposits));
    WindowIsPrefix(log, fromBlock, to);
    FilterPrefix(Window(log, fromBlock, to), From(log, fromBlock), IsKind(Deposits));
  }

  lemma FilterPrefix<T>(part: seq<T>, all: seq<T>, p: T -> bool)
    requires part <= all
    ensures Filter(part, p) <= Filter(all, p)
  {
    assert all == part + all[|part|..];
    FilterConcat(part, all[|part|..], p);
  }

  /** A completed update carries the buffer up to its new cursor. */
  lemma CompletedBuffers(cfg: SpokeConfig, log: Log, fromBlock: nat, cursor: nat, to: nat, st: Indexes, b: Batch)
    requires IsLog(log) && fromBlock <= cursor <= to
    requires Buffers(cfg, log, fromBlock, cursor, st)
    requires OfKind(b.events, Deposits) == OfKind(Window(log, cursor, to), Deposits)
    ensures Buffers(cfg, log, fromBlock, to + 1, Ingest(cfg, st, b))
  {
    NextDeposits(log, fromBlock, cursor, to);
    IngestHoldsPart(cfg, DepositLog(log, fromBlock), OfKind(Window(log, fromBlock, cursor - 1), Deposits), st, b);
  }

  /** An interrupted update stores the next deposits up to one that throws, and the client goes on holding a first part. */
  lemma InterruptedBuffers(cfg: SpokeConfig, log: Log, fromBlock: nat, cursor: nat, to: nat, st: Indexes, b: Batch)
    requires IsLog(log) && fromBlock <= cursor <= to
    requires Buffers(cfg, log, fromBlock, cursor, st)
    requires OfKind(b.events, Deposits) == OfKind(Window(log, cursor, to), Deposits)
    ensures Buffers(cfg, log, fromBlock, cursor, Interrupted(cfg, st, b))
  {
    NextDeposits(log, fromBlock, cursor, to);
    PartialViews(cfg, b, Deposits);
    ResolvedAll(cfg, OfKind(b.events, Deposits));
    InterruptedIsIngest(cfg, st, b);
    hide Interrupted, Ingest, Partial, DepositLog;
    IngestHoldsPart(cfg, DepositLog(log, fromBlock), OfKind(Window(log, fromBlock, cursor - 1), Deposits), st,
                    Partial(cfg, b));
  }

  /** After any history of updates, completed or not, whatever the hub's answers were at each as long as they derive alike. */
  lemma {:induction false} HistoryHoldsPart(cfg: SpokeConfig, all: Log, h: seq<Step>)
    requires Follows(all, h)
    ensures HoldsPart(cfg, OfKind(all, Deposits), OfKind(Merge(Completed(h)).events, Deposits),
                      DepositIndexOf(Run(cfg, Written(h))))
  {
    if h == [] {
      assert HoldsDeposits(cfg, DepositIndexOf(EMPTY), []);
    } else {
      var s, below := Last(h), Merge(Completed(Init(h))).events;
      HistoryHoldsPart(cfg, all, Init(h));
      MergeStep(h);
      FilterConcat(below, s.batch.events, IsKind(Deposits));
      FilterPrefix(below + s.batch.events, all, IsKind(Deposits));
      PartialViews(s.cfg, s.batch, Deposits);
      ResolvedAll(s.cfg, OfKind(s.batch.events, Deposits));
      assert Init(Written(h)) == Written(Init(h)) && Last(Written(h)) == WrittenBy(s);
      hide Ingest, Partial, Filter, Merge, Completed, Written, HoldsPart, Follows, ResolvedPrefix;
      IngestHoldsPart(cfg, OfKind(all, Deposits), OfKind(below, Deposits), Run(cfg, Written(Init(h))), WrittenBy(s));
    }
  }

  /** So every client in sync, interrupted or not, holds a first part of the chain's deposits. */
  lemma InSyncBuffers(cfg: SpokeConfig, log: Log, deploymentBlock: nat, fromBlock: nat, h: seq<Step>, cursor: nat)
    requires Client.InSync(log, deploymentBlock, fromBlock, h, cursor) && DerivedAlike(cfg, h)
    ensures Buffers(cfg, log, fromBlock, cursor, Replay(h))
  {
    ReplayIsRun(cfg, h);
    HistoryHoldsPart(cfg, From(log, fromBlock), h);
    hide Replay, Run, Written, Merge, Window, From, HoldsPart;
  }

  // ---------- hubs that go on ----------

  /**
   What was derived stays derived alike while the hub goes on, if its client had searched past the quote block: routes of
   later blocks reach no answer as of it.
   */
  lemma GrowingHubDerivesAlike(cfg: SpokeConfig, s: Step, routes: RouteLog, more: RouteLog)
    requires s.cfg.chainId == cfg.chainId && s.cfg.hash == cfg.hash && s.cfg.hub.isLiteChain == cfg.hub.isLiteChain
    requires ReadsRoutes(s.cfg.hub, routes) && ReadsRoutes(cfg.hub, routes + more)
    requires forall e :: e in WrittenBy(s).events && e.args.V3FundsDeposited? ==>
               QuotedBefore(s.cfg, cfg, e.args.relay.inputToken, e.args.quoteTimestamp, more)
    ensures DerivesStepAlike(cfg, s)
  {
    forall e | e in WrittenBy(s).events ensures DepositOf(s.cfg)(e) == DepositOf(cfg)(e) {
      if e.args.V3FundsDeposited? {
        EventDerivedAlike(s.cfg, cfg, routes, more, e);
      }
    }
    hide ReadsRoutes, QuotedBefore, DepositOf, WrittenBy;
    CollectAlike(WrittenBy(s).events, DepositOf(s.cfg), DepositOf(cfg));
  }

  lemma EventDerivedAlike(cfg: SpokeConfig, cfg': SpokeConfig, routes: RouteLog, more: RouteLog, e: Event<SpokeEvent>)
    requires cfg.chainId == cfg'.chainId && cfg.hub.isLiteChain == cfg'.hub.isLiteChain && e.args.V3FundsDeposited?
    requires ReadsRoutes(cfg.hub, routes) && ReadsRoutes(cfg'.hub, routes + more)
    requires QuotedBefore(cfg, cfg', e.args.relay.inputToken, e.args.quoteTimestamp, more)
    ensures DeriveDeposit(cfg, e) == DeriveDeposit(cfg', e)
  {
    var relay := e.args.relay.(originChainId := cfg.chainId);
    var quoteBlock := cfg.hub.quoteBlock(relay.inputToken, e.args.quoteTimestamp);
    if quoteBlock.Some? {
      CounterpartIsFinal(routes, more, relay.inputToken, cfg.chainId, e.args.destinationChainId, quoteBlock.value);
      assert cfg.hub.destinationToken(relay, e.args.destinationChainId, quoteBlock.value)
             == cfg'.hub.destinationToken(relay, e.args.destinationChainId, quoteBlock.value);
    }
  }

  /** Both hubs price the deposit at one block, before those of the later routes. */
  predicate QuotedBefore(cfg: SpokeConfig, cfg': SpokeConfig, token: string, timestamp: nat, more: RouteLog) {
    var quoteBlock := cfg.hub.quoteBlock(token, timestamp);
    && quoteBlock == cfg'.hub.quoteBlock(token, timestamp)
    && (quoteBlock.Some? ==> forall x :: x in more ==> x.pos.block > quoteBlock.value)
  }

  // ---------- lookups ----------

  /** A stored deposit, traced back to its event. */
  lemma EventOf(cfg: SpokeConfig, log: Log, count: SpokeUtils.Counts, fromBlock: nat, part: Log, d: Deposit)
    returns (e: Event<SpokeEvent>)
    requires IsSpokeChain(log, count) && part <= DepositLog(log, fromBlock) && d in DepositsIn(cfg, part)
    ensures e in part && e in log && fromBlock <= e.pos.block
    ensures IsDeposit(e, d.relay.depositId) && d.relay.depositId <= MAX_SAFE_INTEGER && DeriveDeposit(cfg, e) == Some(d)
  {
    CollectMembers(part, DepositOf(cfg), d);
    e :| e in part && DepositOf(cfg)(e) == Some(d);
    DepositLogMembers(log, fromBlock, e);
  }

  lemma DepositLogMembers(log: Log, fromBlock: nat, e: Event<SpokeEvent>)
    ensures e in DepositLog(log, fromBlock) <==> e in log && e.args.V3FundsDeposited? && fromBlock <= e.pos.block
  {
    FilterMembers(log, IsFrom<SpokeEvent>(fromBlock), e);
    FilterMembers(From(log, fromBlock), IsKind(Deposits), e);
  }

  /** Between the bounds there is a deposit with a smaller id and one with a greater. */
  lemma BoundsAreDeposits(ds: seq<Deposit>, id: nat) returns (lo: Deposit, hi: Deposit)
    requires StoreDeposits(NO_DEPOSITS, ds).earliest <= id <= StoreDeposits(NO_DEPOSITS, ds).latest
    requires forall d :: d in ds ==> d.relay.depositId <= MAX_SAFE_INTEGER
    ensures lo in ds && lo.relay.depositId <= id
    ensures hi in ds && id <= hi.relay.depositId
  {
    StoredBounds(ds);
    var ix := StoreDeposits(NO_DEPOSITS, ds);
    hide StoreDeposits;
    if ix.earliest != MAX_SAFE_INTEGER {
      lo :| lo in ds && lo.relay.depositId == ix.earliest;
      if ix.latest == 0 {
        hi := lo;
      } else {
        hi :| hi in ds && hi.relay.depositId == ix.latest;
      }
    } else {
      hi :| hi in ds && hi.relay.depositId == ix.latest;
      lo := hi;
    }
  }

  /** A deposit with an id between the bounds of the buffer is in the buffered part of the chain. */
  lemma BufferedIdsAreInPart(cfg: SpokeConfig, log: Log, count: SpokeUtils.Counts, fromBlock: nat, part: Log,
                             ix: DepositIndex, e: Event<SpokeEvent>)
    requires IsSpokeChain(log, count) && part <= DepositLog(log, fromBlock) && HoldsDeposits(cfg, ix, part)
    requires e in log && e.args.V3FundsDeposited? && ix.earliest <= e.args.relay.depositId <= ix.latest
    ensures e in part
  {
    var all, ds := DepositLog(log, fromBlock), DepositsIn(cfg, part);
    forall d | d in ds ensures d.relay.depositId <= MAX_SAFE_INTEGER {
      var f := EventOf(cfg, log, count, fromBlock, part, d);
    }
    var lo, hi := BoundsAreDeposits(ds, e.args.relay.depositId);
    var first := EventOf(cfg, log, count, fromBlock, part, lo);
    var last := EventOf(cfg, log, count, fromBlock, part, hi);
    DepositLogMembers(log, fromBlock, e);
    FilterKeepsOrder(Ascending, log, IsFrom<SpokeEvent>(fromBlock));
    FilterKeepsOrder(Ascending, From(log, fromBlock), IsKind(Deposits));
    IdOrder(log, count, first, e);
    IdOrder(log, count, e, last);
    InPrefix(all, part, e, last);
  }

  lemma IdOrder(log: Log, count: SpokeUtils.Counts, a: Event<SpokeEvent>, b: Event<SpokeEvent>)
    requires IsSpokeChain(log, count) && a in log && b in log && a.args.V3FundsDeposited? && b.args.V3FundsDeposited?
    requires a.args.relay.depositId <= b.args.relay.depositId
    ensures a == b || Older(a.pos, b.pos)
  {
    if a.args.relay.depositId == b.args.relay.depositId {
      IdsAreUnique(log, count, a, b);
    }
  }

  lemma InPrefix<T>(all: seq<Event<T>>, part: seq<Event<T>>, e: Event<T>, last: Event<T>)
    requires IsLog(all) && part <= all && e in all && last in part
    requires e == last || Older(e.pos, last.pos)
    ensures e in part
  {
    var i :| 0 <= i < |all| && all[i] == e;
    var j :| 0 <= j < |part| && part[j] == last;
    assert all[j] == last;
    OlderIsStrictTotalOrder(e.pos, last.pos, e.pos);
    assert i <= j;
    assert part[i] == e;
  }

  /** If some deposit is stored under an id, it is that of the id's event. */
  lemma StoredHasEvent(cfg: SpokeConfig, log: Log, count: SpokeUtils.Counts, fromBlock: nat, part: Log,
                       ix: DepositIndex, id: nat)
    returns (e: Event<SpokeEvent>)
    requires IsSpokeChain(log, count) && part <= DepositLog(log, fromBlock) && HoldsDeposits(cfg, ix, part)
    requires DepositKey(id, cfg.chainId) in ix.deposits
    ensures e in log && IsDeposit(e, id)
    ensures DeriveDeposit(cfg, e).Some? && SameButTerms(ix.deposits[DepositKey(id, cfg.chainId)], DeriveDeposit(cfg, e).value)
  {
    var k, ds := DepositKey(id, cfg.chainId), DepositsIn(cfg, part);
    StoreIsFirstBy(NO_DEPOSITS, ds);
    FirstByContents(map[], ds, DepositHash, k);
    var i := FindWitness(ds, HasKey(DepositHash, k));
    assert DepositHash(ds[i]) == k;
    e := EventOf(cfg, log, count, fromBlock, part, ds[i]);
  }

  /** The deposit of an event in the buffered part is stored under its id. */
  lemma EventIsStored(cfg: SpokeConfig, part: Log, ix: DepositIndex, e: Event<SpokeEvent>)
    requires e in part && e.args.V3FundsDeposited? && DeriveDeposit(cfg, e).Some? && HoldsDeposits(cfg, ix, part)
    ensures DepositKey(e.args.relay.depositId, cfg.chainId) in ix.deposits
  {
    var ds, d := DepositsIn(cfg, part), DeriveDeposit(cfg, e).value;
    assert DepositOf(cfg)(e) == Some(d);
    CollectMembers(part, DepositOf(cfg), d);
    StoredBounds(ds);
    assert DepositHash(d) == DepositKey(e.args.relay.depositId, cfg.chainId);
  }

  /**
   In the buffer, an id between the bounds is found exactly when the chain has a deposit of that id that can be derived,
   and the deposit is as logged.
   */
  lemma BufferedDeposit(cfg: SpokeConfig, log: Log, count: SpokeUtils.Counts, fromBlock: nat, cursor: nat, st: Indexes,
                        fill: Fill)
    requires IsSpokeChain(log, count) && Buffers(cfg, log, fromBlock, cursor, st)
    requires st.earliestDepositIdQueried <= fill.relay.depositId <= st.latestDepositIdQueried
    ensures var k := DepositKey(fill.relay.depositId, cfg.chainId);
            && (k in st.deposits <==>
                  exists e :: e in log && IsDeposit(e, fill.relay.depositId) && CanBeDerived(cfg, e))
            && (k in st.deposits && ValidateFillForDeposit(cfg.hash, fill, Some(st.deposits[k]))
                <==> ChainHolds(cfg, log, fill, AtQuote))
            && (k in st.deposits ==>
                  exists e :: e in log && IsDeposit(e, fill.relay.depositId)
                              && IsDepositOf(cfg, e, st.deposits[k].quoteBlockNumber, st.deposits[k]))
  {
    var id := fill.relay.depositId;
    var k := DepositKey(id, cfg.chainId);
    var part: Log :| part <= DepositLog(log, fromBlock) && HoldsDeposits(cfg, DepositIndexOf(st), part);
    var ix := DepositIndexOf(st);
    hide IsSpokeChain, HoldsDeposits, DepositLog;
    forall e | e in log && IsDeposit(e, id) && CanBeDerived(cfg, e) ensures k in ix.deposits {
      DerivedFromEvent(cfg, e);
      BufferedIdsAreInPart(cfg, log, count, fromBlock, part, ix, e);
      EventIsStored(cfg, part, ix, e);
    }
    if k in ix.deposits {
      var f := StoredHasEvent(cfg, log, count, fromBlock, part, ix, id);
      HoldsIffMatches(cfg, log, count, f, fill, AtQuote);
      SeenMatches(cfg, f, fill, AtQuote);
      DerivedFromEvent(cfg, f);
      hide DeriveDeposit, CanBeDerived;
      assert IsDepositOf(cfg, f, st.deposits[k].quoteBlockNumber, st.deposits[k]);
    }
  }

  /** `getDepositForFill`. */
  function GetDepositForFill(hash: RelayHash, st: Indexes, fill: Fill): Option<Deposit> {
    var deposit := if FillDepositHash(fill) in st.deposits then Some(st.deposits[FillDepositHash(fill)]) else None;
    if ValidateFillForDeposit(hash, fill, deposit) then deposit else None
  }

  /** For an id between the bounds of the buffer, it answers exactly if the chain holds the deposit of the fill. */
  lemma DepositForFillIff(cfg: SpokeConfig, log: Log, count: SpokeUtils.Counts, fromBlock: nat, cursor: nat, st: Indexes,
                          fill: Fill)
    requires IsSpokeChain(log, count) && Buffers(cfg, log, fromBlock, cursor, st)
    requires fill.relay.originChainId == cfg.chainId
    requires st.earliestDepositIdQueried <= fill.relay.depositId <= st.latestDepositIdQueried
    ensures GetDepositForFill(cfg.hash, st, fill).Some? <==> ChainHolds(cfg, log, fill, AtQuote)
    ensures GetDepositForFill(cfg.hash, st, fill).Some? ==>
              var d := GetDepositForFill(cfg.hash, st, fill).value;
              && cfg.hash(fill.relay, fill.destinationChainId) == cfg.hash(d.relay, d.destinationChainId)
              && exists e :: e in log && IsDeposit(e, fill.relay.depositId) && IsDepositOf(cfg, e, d.quoteBlockNumber, d)
  {
    BufferedDeposit(cfg, log, count, fromBlock, cursor, st, fill);
    assert FillDepositHash(fill) == DepositKey(fill.relay.depositId, cfg.chainId);
  }
}
