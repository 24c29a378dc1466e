/**
 Updates that throw, and what a client holds after any history of them (src/clients/SpokePoolClient.ts:515-674): each
 throw leaves some deposits and bridged tokens behind, and the cursor where it was.
 */
module SpokeHistory {
  import opened Wrappers
  import opened Numbers
  import opened Sequences
  import opened EventUtils
  import opened ObjectUtils
  import opened SpokePool
  import opened SpokeIndexes
  import opened SpokeReplay

  // ---------- one update that throws ----------

  /** Whether the HubPool client can price the event: its input token is mapped and its quote timestamp has a block. */
  predicate Quotable(cfg: SpokeConfig, e: Event<SpokeEvent>) {
    e.args.V3FundsDeposited? ==> cfg.hub.quoteBlock(e.args.relay.inputToken, e.args.quoteTimestamp).Some?
  }

  predicate Resolves(cfg: SpokeConfig, e: Event<SpokeEvent>) {
    e.args.V3FundsDeposited? ==> DeriveDeposit(cfg, e).Some?
  }

  /** The deposits in front of the first one that cannot be derived. */
  function ResolvedPrefix(cfg: SpokeConfig, log: Log): Log {
    if log == [] then []
    else if |ResolvedPrefix(cfg, Init(log))| == |log| - 1 && Resolves(cfg, Last(log)) then log
    else ResolvedPrefix(cfg, Init(log))
  }

  function WithDeposits(st: Indexes, ix: DepositIndex): Indexes {
    st.(deposits := ix.deposits, earliestDepositIdQueried := ix.earliest, latestDepositIdQueried := ix.latest)
  }

  function WithQuotes(st: Indexes, q: Quotes): Indexes {
    st.(speedUps := q.speedUps, deposits := q.deposits)
  }

  /** The deposits of one window stored up to the first one that throws; none if the window cannot be priced. */
  function AfterDeposits(cfg: SpokeConfig, st: Indexes, deposits: Log): Indexes {
    if !AllQuotable(cfg, deposits) then st
    else WithDeposits(st, StoreDeposits(DepositIndexOf(st), DepositsIn(cfg, ResolvedPrefix(cfg, deposits))))
  }

  /** What an update leaves behind when deriving its deposits throws. */
  function Interrupted(cfg: SpokeConfig, st: Indexes, b: Batch): Indexes {
    AfterDeposits(cfg, st.(tokensBridged := st.tokensBridged + OfKind(b.events, Bridged)), OfKind(b.events, Deposits))
  }

  /** Where nothing throws, all deposits are stored. */
  lemma {:induction false} ResolvedAll(cfg: SpokeConfig, log: Log)
    ensures AllResolve(cfg, log) <==> ResolvedPrefix(cfg, log) == log
    ensures AllResolve(cfg, log) ==> AllQuotable(cfg, log)
    ensures ResolvedPrefix(cfg, log) <= log
  {
    if log != [] {
      assert log == Init(log) + [Last(log)];
      ResolvedAll(cfg, Init(log));
      assert AllResolve(cfg, log) <==> AllResolve(cfg, Init(log)) && Resolves(cfg, Last(log));
    }
  }

  predicate AllQuotable(cfg: SpokeConfig, log: Log) {
    forall e :: e in log ==> Quotable(cfg, e)
  }

  predicate AllResolve(cfg: SpokeConfig, log: Log) {
    forall e :: e in log ==> Resolves(cfg, e)
  }

  /** Each typed view of a log reads the events of its kind only. */
  lemma ViewsOfKinds(cfg: SpokeConfig, log: Log)
    ensures DepositsIn(cfg, log) == DepositsIn(cfg, OfKind(log, Deposits))
    ensures SpeedUpsIn(log) == SpeedUpsIn(OfKind(log, SpeedUps))
    ensures SlowFillsIn(cfg, log) == SlowFillsIn(cfg, OfKind(log, SlowFills))
    ensures FillsIn(cfg, log) == FillsIn(cfg, OfKind(log, Fills))
    ensures RoutesIn(log) == RoutesIn(OfKind(log, Routes))
  {
    hide Collect, Filter, DeriveDeposit;
    CollectFiltered(log, IsKind(Deposits), DepositOf(cfg));
    CollectFiltered(log, IsKind(SpeedUps), SpeedUpOf);
    CollectFiltered(log, IsKind(SlowFills), SlowFillOf(cfg));
    CollectFiltered(log, IsKind(Fills), FillOf(cfg));
    CollectFiltered(log, IsKind(Routes), RouteOf);
  }

  lemma OnlyDepositsResolve(cfg: SpokeConfig, log: Log)
    ensures AllResolve(cfg, OfKind(log, Deposits)) <==> AllResolve(cfg, log)
  {
    forall e: Event<SpokeEvent> ensures e in OfKind(log, Deposits) <==> e in log && KindOf(e.args) == Deposits {
      FilterMembers(log, IsKind(Deposits), e);
    }
  }

  /** Storing a window again after storing part of it stores the window. */
  lemma {:induction false} StoreAgain(ix: DepositIndex, part: seq<Deposit>, all: seq<Deposit>)
    requires part <= all
    ensures StoreDeposits(StoreDeposits(ix, part), all) == StoreDeposits(ix, all)
  {
    var rest := all[|part|..];
    assert all == part + rest;
    StoredTwice(ix, part);
    StoreConcat(StoreDeposits(ix, part), part, rest);
    StoreConcat(ix, part, rest);
  }

  lemma {:induction false} StoredTwice(ix: DepositIndex, ds: seq<Deposit>)
    ensures StoreDeposits(StoreDeposits(ix, ds), ds) == StoreDeposits(ix, ds)
  {
    forall d | d in ds ensures DepositHash(d) in StoreDeposits(ix, ds).deposits {
      StoredIsKnown(ix, ds, d);
    }
    KnownAreSkipped(StoreDeposits(ix, ds), ds);
  }

  lemma {:induction false} StoredIsKnown(ix: DepositIndex, ds: seq<Deposit>, d: Deposit)
    ensures d in ds || DepositHash(d) in ix.deposits ==> DepositHash(d) in StoreDeposits(ix, ds).deposits
  {
    if ds != [] {
      assert ds == Init(ds) + [Last(ds)];
      StoredIsKnown(ix, Init(ds), d);
    }
  }

  lemma {:induction false} KnownAreSkipped(ix: DepositIndex, ds: seq<Deposit>)
    requires forall d :: d in ds ==> DepositHash(d) in ix.deposits
    ensures StoreDeposits(ix, ds) == ix
  {
    if ds != [] {
      assert forall d :: d in Init(ds) ==> d in ds;
      KnownAreSkipped(ix, Init(ds));
    }
  }

  lemma CollectPrefix<E, T>(part: seq<E>, all: seq<E>, f: E -> Option<T>)
    requires part <= all
    ensures Collect(part, f) <= Collect(all, f)
  {
    assert all == part + all[|part|..];
    CollectConcat(part, all[|part|..], f);
  }

  // ---------- histories ----------

  /** An update that reached its writes: the answers of the HubPool client at the time, its window, and how it ended. */
  datatype Step = Step(cfg: SpokeConfig, batch: Batch, completed: bool)

  function AfterStep(st: Indexes, s: Step): Indexes {
    if s.completed then Ingest(s.cfg, st, s.batch) else Interrupted(s.cfg, st, s.batch)
  }

  function Replay(h: seq<Step>): Indexes {
    if h == [] then EMPTY else AfterStep(Replay(Init(h)), Last(h))
  }

  lemma ReplayExtends(h: seq<Step>, s: Step)
    ensures Replay(h + [s]) == AfterStep(Replay(h), s)
    ensures Completed(h + [s]) == Completed(h) + if s.completed then [s.batch] else []
  {
    assert Init(h + [s]) == h;
  }

  /** The windows of the updates that completed. */
  function Completed(h: seq<Step>): seq<Batch> {
    if h == [] then [] else Completed(Init(h)) + if Last(h).completed then [Last(h).batch] else []
  }

  /** The deposits of a window that are stored before the throw. */
  function StoredDeposits(cfg: SpokeConfig, b: Batch): Log {
    var deposits := OfKind(b.events, Deposits);
    if AllQuotable(cfg, deposits) then ResolvedPrefix(cfg, deposits) else []
  }

  /** All that an update writes before it throws. */
  function Partial(cfg: SpokeConfig, b: Batch): Batch {
    Batch(OfKind(b.events, Bridged) + StoredDeposits(cfg, b), [])
  }

  function WrittenBy(s: Step): Batch {
    if s.completed then s.batch else Partial(s.cfg, s.batch)
  }

  /** What every update wrote, update by update. */
  function Written(h: seq<Step>): seq<Batch> {
    if h == [] then [] else Written(Init(h)) + [WrittenBy(Last(h))]
  }

  /** What is written was derived as `cfg` would. */
  ghost predicate DerivedAlike(cfg: SpokeConfig, h: seq<Step>) {
    forall s :: s in h ==> DerivesStepAlike(cfg, s)
  }

  ghost predicate DerivesStepAlike(cfg: SpokeConfig, s: Step) {
    && s.cfg.chainId == cfg.chainId && s.cfg.hash == cfg.hash
    && DepositsIn(s.cfg, WrittenBy(s).events) == DepositsIn(cfg, WrittenBy(s).events)
  }

  /** Each update goes on in the chain where the completed ones have got to. */
  ghost predicate Follows(all: Log, h: seq<Step>) {
    h != [] ==> Follows(all, Init(h)) && Merge(Completed(Init(h))).events + Last(h).batch.events <= all
  }

  // ---------- a throw amounts to an update over what it wrote ----------

  lemma PartialViews(cfg: SpokeConfig, b: Batch, kind: EventKind)
    ensures OfKind(Partial(cfg, b).events, kind) ==
            if kind == Bridged then OfKind(b.events, Bridged) else if kind == Deposits then StoredDeposits(cfg, b) else []
  {
    var bridged, stored := OfKind(b.events, Bridged), StoredDeposits(cfg, b);
    ResolvedAll(cfg, OfKind(b.events, Deposits));
    forall e | e in bridged ensures e.args.TokensBridged? {
      FilterMembers(b.events, IsKind(Bridged), e);
    }
    forall e | e in stored ensures e.args.V3FundsDeposited? {
      FilterMembers(b.events, IsKind(Deposits), e);
    }
    FilterConcat(bridged, stored, IsKind(kind));
    if kind == Bridged {
      FilterAll(bridged, IsKind(kind));
      FilterNone(stored, IsKind(kind));
    } else if kind == Deposits {
      FilterNone(bridged, IsKind(kind));
      FilterAll(stored, IsKind(kind));
    } else {
      FilterNone(bridged, IsKind(kind));
      FilterNone(stored, IsKind(kind));
    }
  }

  lemma PartialReads(cfg: SpokeConfig, b: Batch)
    ensures var p := Partial(cfg, b);
            && DepositsIn(cfg, p.events) == DepositsIn(cfg, StoredDeposits(cfg, b))
            && SpeedUpsIn(p.events) == [] && SlowFillsIn(cfg, p.events) == [] && FillsIn(cfg, p.events) == []
            && OfKind(p.events, Bridged) == OfKind(b.events, Bridged)
            && OfKind(p.events, Roots) == [] && OfKind(p.events, Refunds) == [] && p.routes == []
  {
    var p := Partial(cfg, b);
    ViewsOfKinds(cfg, p.events);
    assert p.routes == [];
    hide Partial, OfKind, StoredDeposits;
    PartialViews(cfg, b, Bridged);
    PartialViews(cfg, b, Deposits);
    PartialViews(cfg, b, SpeedUps);
    PartialViews(cfg, b, SlowFills);
    PartialViews(cfg, b, Fills);
    PartialViews(cfg, b, Roots);
    PartialViews(cfg, b, Refunds);
  }

  /** So whatever holds of runs of updates holds of histories with throws in them. */
  lemma InterruptedIsIngest(cfg: SpokeConfig, st: Indexes, b: Batch)
    ensures Interrupted(cfg, st, b) == Ingest(cfg, st, Partial(cfg, b))
  {
    PartialReads(cfg, b);
    hide Partial, OfKind, ResolvedPrefix, AllQuotable;
    assert DepositsIn(cfg, []) == [];
  }

  lemma IngestAlike(cfg: SpokeConfig, cfg': SpokeConfig, st: Indexes, b: Batch)
    requires cfg.chainId == cfg'.chainId && cfg.hash == cfg'.hash
    requires DepositsIn(cfg, b.events) == DepositsIn(cfg', b.events)
    ensures Ingest(cfg, st, b) == Ingest(cfg', st, b)
  {
    assert SlowFillsIn(cfg, b.events) == SlowFillsIn(cfg', b.events) by {
      CollectAlike(b.events, SlowFillOf(cfg), SlowFillOf(cfg'));
    }
    assert FillsIn(cfg, b.events) == FillsIn(cfg', b.events) by {
      CollectAlike(b.events, FillOf(cfg), FillOf(cfg'));
    }
    FirstByAlike(st.slowFillRequests, SlowFillsIn(cfg, b.events), SlowFillHash(cfg), SlowFillHash(cfg'));
  }

  lemma {:induction false} CollectAlike<E, T>(s: seq<E>, f: E -> Option<T>, g: E -> Option<T>)
    requires forall e :: e in s ==> f(e) == g(e)
    ensures Collect(s, f) == Collect(s, g)
  {
    if s != [] {
      assert forall e :: e in Init(s) ==> e in s;
      CollectAlike(Init(s), f, g);
    }
  }

  lemma {:induction false} FirstByAlike<K(!new), V(!new)>(m: map<K, V>, xs: seq<V>, f: V -> K, g: V -> K)
    requires forall x :: f(x) == g(x)
    ensures FirstBy(m, xs, f) == FirstBy(m, xs, g)
  {
    if xs != [] {
      FirstByAlike(m, Init(xs), f, g);
    }
  }

  /** A history leaves what a run of updates over what was written would, if one view of the hub derives it all. */
  lemma {:induction false} ReplayIsRun(cfg: SpokeConfig, h: seq<Step>)
    requires DerivedAlike(cfg, h)
    ensures Replay(h) == Run(cfg, Written(h))
  {
    if h != [] {
      var s := Last(h);
      assert forall x :: x in Init(h) ==> x in h;
      ReplayIsRun(cfg, Init(h));
      assert s in h && DerivesStepAlike(cfg, s);
      InterruptedIsIngest(s.cfg, Replay(Init(h)), s.batch);
      hide Ingest, Interrupted, DepositsIn, DerivedAlike;
      IngestAlike(s.cfg, cfg, Replay(Init(h)), WrittenBy(s));
      assert Init(Written(h)) == Written(Init(h));
    }
  }

  // ---------- what throws change ----------

  /** The deposit is stored, though only by updates that threw. */
  predicate IsAhead(cfg: SpokeConfig, h: seq<Step>, k: DepositKey) {
    FirstDeposit(cfg, Written(h), k).Some? && FirstDeposit(cfg, Completed(h), k).None?
  }

  /** Some update completed with a speed-up naming the deposit while only updates that threw had stored it. */
  predicate NamedAhead(cfg: SpokeConfig, h: seq<Step>, k: DepositKey) {
    h != [] &&
    (|| NamedAhead(cfg, Init(h), k)
     || (Last(h).completed && IsAhead(cfg, h, k) && Names(cfg.chainId, SpeedUpsIn(Last(h).batch.events), k)))
  }

  /** No update threw over a window with bridged tokens. */
  predicate NothingBridgedTwice(h: seq<Step>) {
    h != [] ==>
      && NothingBridgedTwice(Init(h))
      && (!Last(h).completed ==> OfKind(Last(h).batch.events, Bridged) == [])
  }

  lemma MergeStep(h: seq<Step>)
    requires h != []
    ensures Merge(Written(h)) == Joined(Merge(Written(Init(h))), WrittenBy(Last(h)))
    ensures Merge(Completed(h)) == if Last(h).completed then Joined(Merge(Completed(Init(h))), Last(h).batch)
                                   else Merge(Completed(Init(h)))
  {
    assert Init(Written(h)) == Written(Init(h));
    if Last(h).completed {
      assert Init(Completed(h)) == Completed(Init(h));
    } else {
      assert Completed(h) == Completed(Init(h));
    }
  }

  /** Besides deposits and bridged tokens, what was written is what the completed updates fetched. */
  lemma {:induction false} WrittenOfKind(h: seq<Step>, kind: EventKind)
    requires kind != Deposits && kind != Bridged
    ensures OfKind(Merge(Written(h)).events, kind) == OfKind(Merge(Completed(h)).events, kind)
    ensures Merge(Written(h)).routes == Merge(Completed(h)).routes
  {
    if h != [] {
      WrittenOfKind(Init(h), kind);
      MergeStep(h);
      FilterConcat(Merge(Written(Init(h))).events, WrittenBy(Last(h)).events, IsKind(kind));
      FilterConcat(Merge(Completed(Init(h))).events, Last(h).batch.events, IsKind(kind));
      PartialViews(Last(h).cfg, Last(h).batch, kind);
      hide Written, Completed, Merge, Filter;
    }
  }

  /** The bridged tokens are those of the completed updates exactly if no update threw over any. */
  lemma {:induction false} WrittenBridged(h: seq<Step>)
    ensures var written := OfKind(Merge(Written(h)).events, Bridged);
            var completed := OfKind(Merge(Completed(h)).events, Bridged);
            if NothingBridgedTwice(h) then written == completed else |written| > |completed|
  {
    if h != [] {
      var s := Last(h);
      WrittenBridged(Init(h));
      MergeStep(h);
      FilterConcat(Merge(Written(Init(h))).events, WrittenBy(s).events, IsKind(Bridged));
      FilterConcat(Merge(Completed(Init(h))).events, s.batch.events, IsKind(Bridged));
      PartialViews(s.cfg, s.batch, Bridged);
      hide Written, Completed, Merge, Filter, Partial;
    }
  }

  /** Each id is stored from the first deposit of it on the chain, whether by an update that completed or one that threw. */
  lemma {:induction false} FirstWritten(cfg: SpokeConfig, all: Log, h: seq<Step>, k: DepositKey)
    requires Follows(all, h)
    ensures Merge(Completed(h)).events <= all
    ensures FirstDeposit(cfg, Written(h), k) in {None, Find(DepositsIn(cfg, all), HasKey(DepositHash, k))}
    ensures FirstDeposit(cfg, Completed(h), k).Some? ==> FirstDeposit(cfg, Completed(h), k) == FirstDeposit(cfg, Written(h), k)
  {
    if h != [] {
      var (s, below, p) := (Last(h), Merge(Completed(Init(h))).events, HasKey(DepositHash, k));
      FirstWritten(cfg, all, Init(h), k);
      MergeStep(h);
      WrittenIsPrefix(cfg, s);
      FindInPrefix(cfg, below + s.batch.events, all, k);
      CollectConcat(below, s.batch.events, DepositOf(cfg));
      CollectConcat(Merge(Written(Init(h))).events, WrittenBy(s).events, DepositOf(cfg));
      hide Written, Completed, Merge, WrittenBy, Collect, Follows;
      FindInConcat(DepositsIn(cfg, below), DepositsIn(cfg, s.batch.events), p);
      FindInConcat(AllDeposits(cfg, Written(Init(h))), DepositsIn(cfg, WrittenBy(s).events), p);
      FindInStart(DepositsIn(cfg, WrittenBy(s).events), DepositsIn(cfg, s.batch.events), p);
    }
  }

  /** The deposits that an update writes are the first ones of its window. */
  lemma WrittenIsPrefix(cfg: SpokeConfig, s: Step)
    ensures DepositsIn(cfg, WrittenBy(s).events) <= DepositsIn(cfg, s.batch.events)
    ensures s.completed ==> WrittenBy(s) == s.batch
  {
    var deposits := OfKind(s.batch.events, Deposits);
    ResolvedAll(s.cfg, deposits);
    ViewsOfKinds(cfg, s.batch.events);
    if !s.completed {
      ViewsOfKinds(cfg, WrittenBy(s).events);
      PartialViews(s.cfg, s.batch, Deposits);
      hide Partial, OfKind, ResolvedPrefix;
      CollectPrefix(StoredDeposits(s.cfg, s.batch), deposits, DepositOf(cfg));
    }
  }

  lemma FindInStart<T>(part: seq<T>, all: seq<T>, p: T -> bool)
    requires part <= all
    ensures Find(part, p).Some? ==> Find(all, p) == Find(part, p)
  {
    assert all == part + all[|part|..];
    FindInConcat(part, all[|part|..], p);
  }

  lemma FindInPrefix(cfg: SpokeConfig, part: Log, all: Log, k: DepositKey)
    requires part <= all
    ensures Find(DepositsIn(cfg, part), HasKey(DepositHash, k)).Some? ==>
              Find(DepositsIn(cfg, all), HasKey(DepositHash, k)) == Find(DepositsIn(cfg, part), HasKey(DepositHash, k))
  {
    CollectPrefix(part, all, DepositOf(cfg));
    FindInStart(DepositsIn(cfg, part), DepositsIn(cfg, all), HasKey(DepositHash, k));
  }

  /** An update applies its speed-ups to the deposits that completed updates know, and to those that are ahead. */
  lemma {:induction false} TouchedWritten(cfg: SpokeConfig, all: Log, h: seq<Step>, k: DepositKey)
    requires Follows(all, h)
    ensures Touched(cfg, Written(h), k) <==> Touched(cfg, Completed(h), k) || NamedAhead(cfg, h, k)
  {
    if h != [] {
      var s := Last(h);
      TouchedWritten(cfg, all, Init(h), k);
      FirstWritten(cfg, all, h, k);
      assert Init(Written(h)) == Written(Init(h)) && Last(Written(h)) == WrittenBy(s);
      if s.completed {
        assert Init(Completed(h)) == Completed(Init(h)) && Last(Completed(h)) == s.batch;
      } else {
        assert Completed(h) == Completed(Init(h));
        PartialReads(s.cfg, s.batch);
        assert !Names(cfg.chainId, [], k);
      }
      hide Written, Completed, WrittenBy, FirstDeposit, Follows;
    }
  }

  /** Every index but the deposits is made from the events of its kind alone. */
  lemma OtherIndexes(cfg: SpokeConfig, run: seq<Batch>)
    ensures var (st, all) := (Run(cfg, run), Merge(run));
            && st.tokensBridged == OfKind(all.events, Bridged)
            && st.speedUps == GroupBy(map[], SpeedUpsIn(all.events), SpeedUpKeyOf)
            && st.slowFillRequests == FirstBy(map[], SlowFillsIn(cfg, all.events), SlowFillHash(cfg))
            && st.fills == GroupBy(map[], FillsIn(cfg, all.events), FillOrigin)
            && st.depositHashesToFills == GroupBy(map[], FillsIn(cfg, all.events), FillDepositHash)
            && st.depositRoutes == FlagBy(map[], RoutesIn(all.routes))
            && st.rootBundleRelays == OfKind(all.events, Roots)
            && st.relayerRefundExecutions == OfKind(all.events, Refunds)
  {
    SplitIsImmaterial(cfg, run);
    SameBesidesDeposits(Run(cfg, run), Ingest(cfg, EMPTY, Merge(run)));
    SpeedUpsGrouped(cfg.chainId, Quotes(map[], StoreDeposits(DepositIndexOf(EMPTY), AllDeposits(cfg, run)).deposits),
                    AllSpeedUps(run));
    hide Collect, StoreDeposits, ApplySpeedUps, GroupBy, FirstBy, FlagBy, Filter, Merge, Run;
  }

  /** The two states agree except in the terms of their deposits and in what was bridged. */
  ghost predicate AgreeOnOthers(a: Indexes, b: Indexes) {
    && a.speedUps == b.speedUps && a.slowFillRequests == b.slowFillRequests && a.fills == b.fills
    && a.depositHashesToFills == b.depositHashesToFills && a.depositRoutes == b.depositRoutes
    && a.rootBundleRelays == b.rootBundleRelays && a.relayerRefundExecutions == b.relayerRefundExecutions
  }

  lemma WrittenIndexes(cfg: SpokeConfig, h: seq<Step>)
    ensures AgreeOnOthers(Run(cfg, Written(h)), Run(cfg, Completed(h)))
    ensures AllSpeedUps(Written(h)) == AllSpeedUps(Completed(h))
    ensures Run(cfg, Written(h)).tokensBridged == Run(cfg, Completed(h)).tokensBridged <==> NothingBridgedTwice(h)
  {
    var (w, c) := (Merge(Written(h)), Merge(Completed(h)));
    OtherIndexes(cfg, Written(h));
    OtherIndexes(cfg, Completed(h));
    ViewsOfKinds(cfg, w.events);
    ViewsOfKinds(cfg, c.events);
    WrittenOfKind(h, SpeedUps);
    WrittenOfKind(h, SlowFills);
    WrittenOfKind(h, Fills);
    WrittenOfKind(h, Roots);
    WrittenOfKind(h, Refunds);
    WrittenBridged(h);
    hide Run, Written, Completed, Merge, OfKind, Collect, GroupBy, FirstBy, FlagBy;
  }

  /** The bounds on the ids follow from which deposits are stored. */
  lemma BoundsAtLeast(cfg: SpokeConfig, a: seq<Batch>, b: seq<Batch>)
    requires forall k :: FirstDeposit(cfg, a, k).Some? <==> FirstDeposit(cfg, b, k).Some?
    ensures Run(cfg, a).earliestDepositIdQueried <= Run(cfg, b).earliestDepositIdQueried
    ensures Run(cfg, a).latestDepositIdQueried >= Run(cfg, b).latestDepositIdQueried
  {
    IdBounds(cfg, a);
    IdBounds(cfg, b);
    var (low, high) := (Run(cfg, b).earliestDepositIdQueried, Run(cfg, b).latestDepositIdQueried);
    hide Run, AllDeposits, FirstDeposit;
    if low != MAX_SAFE_INTEGER {
      var d :| d in AllDeposits(cfg, b) && d.relay.depositId == low;
      var x := SameId(cfg, b, a, d);
    }
    if high != 0 {
      var d :| d in AllDeposits(cfg, b) && d.relay.depositId == high;
      var x := SameId(cfg, b, a, d);
    }
  }

  lemma SameId(cfg: SpokeConfig, a: seq<Batch>, b: seq<Batch>, d: Deposit) returns (x: Deposit)
    requires forall k :: FirstDeposit(cfg, a, k).Some? <==> FirstDeposit(cfg, b, k).Some?
    requires d in AllDeposits(cfg, a)
    ensures x in AllDeposits(cfg, b) && x.relay.depositId == d.relay.depositId
  {
    var k := DepositHash(d);
    var i := FindWitness(AllDeposits(cfg, a), HasKey(DepositHash, k));
    assert FirstDeposit(cfg, a, k).Some?;
    var j := FindWitness(AllDeposits(cfg, b), HasKey(DepositHash, k));
    x := AllDeposits(cfg, b)[j];
    assert DepositHash(x) == k;
  }

  /**
   The record of every deposit after any history of updates, some of which threw: that of the completed updates, except
   that a deposit stored ahead of them hears of speed-ups earlier than it would have, and that some are ahead still.
   */
  lemma ThrowsRecord(cfg: SpokeConfig, all: Log, h: seq<Step>, k: DepositKey)
    requires DerivedAlike(cfg, h) && Follows(all, h)
    ensures var deposits := Replay(h).deposits;
            && (k in deposits <==> FirstDeposit(cfg, Completed(h), k).Some? || IsAhead(cfg, h, k))
            && match FirstDeposit(cfg, Completed(h), k)
               case None => true
               case Some(d) =>
                 k in deposits && deposits[k] == if Touched(cfg, Completed(h), k) || NamedAhead(cfg, h, k)
                                                 then Quoted(OwnSpeedUps(Completed(h), d), d) else d
  {
    ReplayIsRun(cfg, h);
    DepositRecord(cfg, Written(h), k);
    FirstWritten(cfg, all, h, k);
    TouchedWritten(cfg, all, h, k);
    WrittenIndexes(cfg, h);
    hide Run, Replay, Written, Completed, FirstDeposit, Touched, NamedAhead, Follows;
  }

  /** A throw shows in the deposit: it is stored before its time, or carries terms that it would have missed. */
  predicate ChangedByThrow(cfg: SpokeConfig, h: seq<Step>, k: DepositKey) {
    IsAhead(cfg, h, k) || (NamedAhead(cfg, h, k) && !Settled(cfg, Completed(h), k))
  }

  /**
   Whatever windows the updates that threw were retried over, longer or shorter, and however often: the client is in the
   state of the completed updates alone if and only if no update threw over a window with bridged tokens, no deposit is
   stored ahead of them, and none was when a speed-up naming it was ingested that it would have missed.
   */
  lemma ThrowsMatterIff(cfg: SpokeConfig, all: Log, h: seq<Step>)
    requires DerivedAlike(cfg, h) && Follows(all, h)
    ensures Replay(h) == Run(cfg, Completed(h))
            <==> NothingBridgedTwice(h) && forall k :: !ChangedByThrow(cfg, h, k)
  {
    var st, un := Replay(h), Run(cfg, Completed(h));
    ReplayIsRun(cfg, h);
    WrittenIndexes(cfg, h);
    hide Run, Replay, Written, Completed, FirstDeposit, ChangedByThrow, Follows;
    forall k ensures DepositAlike(st, un, k) <==> !ChangedByThrow(cfg, h, k)
      ensures !ChangedByThrow(cfg, h, k) ==>
                (FirstDeposit(cfg, Written(h), k).Some? <==> FirstDeposit(cfg, Completed(h), k).Some?)
    {
      DepositAlikeIff(cfg, all, h, k);
    }
    if forall k :: !ChangedByThrow(cfg, h, k) {
      BoundsAtLeast(cfg, Written(h), Completed(h));
      BoundsAtLeast(cfg, Completed(h), Written(h));
    }
    SameStateIff(st, un);
  }

  lemma SameStateIff(a: Indexes, b: Indexes)
    requires AgreeOnOthers(a, b)
    requires (forall k :: DepositAlike(a, b, k)) ==>
               a.earliestDepositIdQueried == b.earliestDepositIdQueried
               && a.latestDepositIdQueried == b.latestDepositIdQueried
    ensures a == b <==> a.tokensBridged == b.tokensBridged && forall k :: DepositAlike(a, b, k)
  {
    if forall k :: DepositAlike(a, b, k) {
      forall k ensures k in a.deposits <==> k in b.deposits
        ensures k in b.deposits ==> a.deposits[k] == b.deposits[k]
      {
        assert DepositAlike(a, b, k);
      }
      assert a.deposits == b.deposits;
    }
  }

  predicate DepositAlike(a: Indexes, b: Indexes, k: DepositKey) {
    (k in a.deposits <==> k in b.deposits) && (k in b.deposits ==> a.deposits[k] == b.deposits[k])
  }

  lemma DepositAlikeIff(cfg: SpokeConfig, all: Log, h: seq<Step>, k: DepositKey)
    requires DerivedAlike(cfg, h) && Follows(all, h)
    ensures DepositAlike(Replay(h), Run(cfg, Completed(h)), k) <==> !ChangedByThrow(cfg, h, k)
    ensures !ChangedByThrow(cfg, h, k) ==>
              (FirstDeposit(cfg, Written(h), k).Some? <==> FirstDeposit(cfg, Completed(h), k).Some?)
  {
    ThrowsRecord(cfg, all, h, k);
    DepositRecord(cfg, Completed(h), k);
    FirstWritten(cfg, all, h, k);
    hide Run, Replay, Written, Completed, FirstDeposit, Touched, NamedAhead, Follows;
  }

  /** The updates of the history read no more than the first `n` events. */
  predicate ReadsUpTo(h: seq<Step>, n: nat) {
    h != [] ==> ReadsUpTo(Init(h), n) && |Merge(Completed(Init(h))).events| + |Last(h).batch.events| <= n
  }

  lemma WrittenUpTo(cfg: SpokeConfig, all: Log, h: seq<Step>, k: DepositKey)
    requires Follows(all, h) && ReadsUpTo(h, |all|)
    ensures FirstDeposit(cfg, Written(h), k).Some? ==> Find(DepositsIn(cfg, all), HasKey(DepositHash, k)).Some?
  {
    FirstWritten(cfg, all, h, k);
  }

  lemma {:induction false} FollowsUpTo(all: Log, h: seq<Step>, n: nat)
    requires Follows(all, h) && ReadsUpTo(h, n) && n <= |all|
    ensures Follows(all[..n], h) && ReadsUpTo(h, |all[..n]|)
  {
    if h != [] {
      FollowsUpTo(all, Init(h), n);
    }
  }

  /** Once the completed updates have caught up with those that threw, no deposit is ahead of them. */
  lemma CaughtUp(cfg: SpokeConfig, all: Log, h: seq<Step>, k: DepositKey)
    requires Follows(all, h) && ReadsUpTo(h, |Merge(Completed(h)).events|)
    ensures !IsAhead(cfg, h, k)
  {
    var n := |Merge(Completed(h)).events|;
    FirstWritten(cfg, all, h, k);
    FollowsUpTo(all, h, n);
    assert all[..n] == Merge(Completed(h)).events;
    WrittenUpTo(cfg, all[..n], h, k);
  }

  /**
   Then the client is in the state of the completed updates if and only if no bridged tokens are there twice and no
   deposit heard early of a speed-up that it would have missed.
   */
  lemma CaughtUpIff(cfg: SpokeConfig, all: Log, h: seq<Step>)
    requires DerivedAlike(cfg, h) && Follows(all, h) && ReadsUpTo(h, |Merge(Completed(h)).events|)
    ensures Replay(h) == Run(cfg, Completed(h))
            <==> NothingBridgedTwice(h) && forall k :: NamedAhead(cfg, h, k) ==> Settled(cfg, Completed(h), k)
  {
    ThrowsMatterIff(cfg, all, h);
    forall k ensures ChangedByThrow(cfg, h, k) <==> NamedAhead(cfg, h, k) && !Settled(cfg, Completed(h), k) {
      CaughtUp(cfg, all, h, k);
    }
    hide *;
  }

  /**
   While the HubPool client's answers stay the same, an update from this cursor completes exactly if its window ends
   before the block of the first deposit that throws.
   */
  lemma CompletesIff(cfg: SpokeConfig, log: Log, cursor: nat, e: Event<SpokeEvent>, to: nat)
    requires e in log && cursor <= e.pos.block && !Resolves(cfg, e)
    requires forall x :: x in log && cursor <= x.pos.block < e.pos.block ==> Resolves(cfg, x)
    ensures AllResolve(cfg, Window(log, cursor, to)) <==> to < e.pos.block
  {
    forall x ensures x in Window(log, cursor, to) <==> x in log && cursor <= x.pos.block <= to {
      FilterMembers(log, InBlocks<SpokeEvent>(cursor, to), x);
    }
  }

  // A speed-up, its deposit, and a deposit whose open output token is mapped to none: an update over all three throws.
  // Then the caller sets `toBlock` to the block of the speed-up, and to that of the deposit.

  const UNMAPPED_DEPOSIT: Event<SpokeEvent> :=
    Event(LogPos(7, 0, 0), V3FundsDeposited(RELAY.(depositId := 1, outputToken := ZERO_ADDRESS), 1, 7))
  const ALL_THREE: Log := [SPEED_UP_EVENT, DEPOSIT_EVENT, UNMAPPED_DEPOSIT]

  function ShorterRetries(cfg: SpokeConfig): seq<Step> {
    [Step(cfg, Batch(ALL_THREE, []), false), Step(cfg, LATE_RUN[0], true), Step(cfg, LATE_RUN[1], true)]
  }

  /** The HubPool client prices all deposits and knows no mapping, before and after. */
  ghost predicate PricesOnly(cfg: SpokeConfig) {
    && cfg.chainId == 10 && (forall token, t :: cfg.hub.quoteBlock(token, t).Some?)
    && forall relay, chain, block :: cfg.hub.destinationToken(relay, chain, block) == None
  }

  lemma FirstIsStored(cfg: SpokeConfig)
    requires PricesOnly(cfg)
    ensures StoredDeposits(cfg, Batch(ALL_THREE, [])) == [DEPOSIT_EVENT]
    ensures OfKind(ALL_THREE, Bridged) == []
  {
    assert ALL_THREE == [SPEED_UP_EVENT] + ([DEPOSIT_EVENT] + [UNMAPPED_DEPOSIT]);
    FilterConcat([SPEED_UP_EVENT], [DEPOSIT_EVENT] + [UNMAPPED_DEPOSIT], IsKind(Deposits));
    FilterOne(SPEED_UP_EVENT, IsKind(Deposits));
    FilterAll([DEPOSIT_EVENT] + [UNMAPPED_DEPOSIT], IsKind(Deposits));
    FilterNone(ALL_THREE, IsKind(Bridged));
    var deposits := [DEPOSIT_EVENT] + [UNMAPPED_DEPOSIT];
    assert OfKind(ALL_THREE, Deposits) == deposits;
    assert AllQuotable(cfg, deposits);
    assert Init(deposits) == [DEPOSIT_EVENT] && Init([DEPOSIT_EVENT]) == [];
    assert |"out"| != |ZERO_ADDRESS|;
    assert Resolves(cfg, DEPOSIT_EVENT) && !Resolves(cfg, UNMAPPED_DEPOSIT);
    assert ResolvedPrefix(cfg, []) == [];
    assert ResolvedPrefix(cfg, [DEPOSIT_EVENT]) == [DEPOSIT_EVENT];
  }

  lemma ShorterRuns(cfg: SpokeConfig)
    requires PricesOnly(cfg)
    ensures var h := ShorterRetries(cfg);
            && Completed(h) == LATE_RUN && Completed(Init(h)) == Init(LATE_RUN) && Completed(Init(Init(h))) == []
            && Written(Init(h)) == [Batch([DEPOSIT_EVENT], []), LATE_RUN[0]]
            && Init(Init(Init(h))) == []
  {
    var h := ShorterRetries(cfg);
    FirstIsStored(cfg);
    var (one, two) := ([h[0]], [h[0], h[1]]);
    assert Init(h) == two && Init(two) == one && Init(one) == [];
    hide StoredDeposits;
    assert Completed([]) == [] && Completed(one) == [];
    assert Completed(two) == Completed(one) + [LATE_RUN[0]];
    assert WrittenBy(h[0]) == Batch([DEPOSIT_EVENT], []);
    assert Written(one) == [WrittenBy(h[0])];
  }

  lemma ShorterHistory(cfg: SpokeConfig)
    requires PricesOnly(cfg)
    ensures var h := ShorterRetries(cfg); Follows(ALL_THREE, h) && DerivedAlike(cfg, h) && NothingBridgedTwice(h)
  {
    var h := ShorterRetries(cfg);
    ShorterRuns(cfg);
    FirstIsStored(cfg);
    MergeOfOne(LATE_RUN[0]);
    var (one, two) := (Init(Init(h)), Init(h));
    assert Last(one) == h[0] && Last(two) == h[1] && Init(one) == [];
    assert Completed([]) == [];
    hide Completed, OfKind;
    assert Merge(Completed(two)).events + h[2].batch.events == [SPEED_UP_EVENT, DEPOSIT_EVENT] == ALL_THREE[..2];
    assert Merge(Completed(one)).events + h[1].batch.events == [SPEED_UP_EVENT] == ALL_THREE[..1];
    assert Merge(Completed(Init(one))).events + h[0].batch.events == ALL_THREE;
    assert Follows(ALL_THREE, one) && Follows(ALL_THREE, two);
    assert NothingBridgedTwice(one) && NothingBridgedTwice(two);
  }

  /** After the throw the deposit has the speed-up that it misses when the two updates complete undisturbed. */
  lemma SpedUpAhead(cfg: SpokeConfig)
    requires PricesOnly(cfg)
    ensures var (h, k) := (ShorterRetries(cfg), DepositKey(0, 10));
            && !AllResolve(cfg, h[0].batch.events) && AllResolve(cfg, h[1].batch.events) && AllResolve(cfg, h[2].batch.events)
            && Completed(h) == LATE_RUN && Follows(ALL_THREE, h) && NothingBridgedTwice(h)
            && k in Replay(h).deposits && Replay(h).deposits[k].updated == Some(EARLY_SPEED_UP.terms)
            && k in Run(cfg, LATE_RUN).deposits && Run(cfg, LATE_RUN).deposits[k].updated == None
  {
    var (h, k) := (ShorterRetries(cfg), DepositKey(0, 10));
    assert |"out"| != |ZERO_ADDRESS|;
    assert UNMAPPED_DEPOSIT in ALL_THREE && !Resolves(cfg, UNMAPPED_DEPOSIT);
    assert Resolves(cfg, DEPOSIT_EVENT) && Resolves(cfg, SPEED_UP_EVENT);
    ShorterRuns(cfg);
    ShorterHistory(cfg);
    var d := LateRun(cfg);
    DepositRecord(cfg, LATE_RUN, k);
    ThrowsRecord(cfg, ALL_THREE, h, k);
    assert NamedAhead(cfg, Init(h), k) by {
      var early := [Batch([DEPOSIT_EVENT], []), LATE_RUN[0]];
      assert Init(early) == [early[0]];
      MergeOfOne(early[0]);
      assert Merge(early).events == [DEPOSIT_EVENT] + [SPEED_UP_EVENT];
      CollectConcat([DEPOSIT_EVENT], [SPEED_UP_EVENT], DepositOf(cfg));
      CollectOne(DEPOSIT_EVENT, DepositOf(cfg));
      FilterOne(d, HasKey(DepositHash, k));
      assert FirstDeposit(cfg, early, k).Some?;
    }
  }

  // ---------- a retry over the same window or a longer one ----------

  /** What `cfg` stored of the window before it was interrupted is what `cfg'` makes of it. */
  predicate DerivesAlike(cfg: SpokeConfig, cfg': SpokeConfig, b: Batch) {
    var stored := ResolvedPrefix(cfg, OfKind(b.events, Deposits));
    AllQuotable(cfg, OfKind(b.events, Deposits)) ==> DepositsIn(cfg', stored) == DepositsIn(cfg, stored)
  }

  /**
   An update over `b` is interrupted; later, when the HubPool client knows more, it is retried over the same window or a
   longer one. The retry repairs every index but one: the bridged tokens of `b`, appended before the throw, are there
   twice. So it amounts to one update if and only if no tokens were bridged in `b`.
   */
  lemma RetriedAtOnce(cfg: SpokeConfig, cfg': SpokeConfig, st: Indexes, b: Batch, b': Batch)
    requires b.events <= b'.events && DerivesAlike(cfg, cfg', b)
    ensures var (retried, bridged) := (Ingest(cfg', Interrupted(cfg, st, b), b'), OfKind(b.events, Bridged));
            && retried == Ingest(cfg', st, b').(
                            tokensBridged := st.tokensBridged + bridged + OfKind(b'.events, Bridged))
            && (retried == Ingest(cfg', st, b') <==> bridged == [])
  {
    StoredAgain(cfg, cfg', st, b, b');
    InsertedIff(st.tokensBridged, OfKind(b.events, Bridged), OfKind(b'.events, Bridged));
    hide StoreDeposits, ApplySpeedUps, FirstBy, GroupBy, FlagBy, Collect, Filter, DerivesAlike, ResolvedPrefix, AllQuotable;
  }

  /** Deposits stored before a throw change nothing about storing the whole window. */
  lemma StoredAgain(cfg: SpokeConfig, cfg': SpokeConfig, st: Indexes, b: Batch, b': Batch)
    requires b.events <= b'.events && DerivesAlike(cfg, cfg', b)
    ensures StoreDeposits(DepositIndexOf(Interrupted(cfg, st, b)), DepositsIn(cfg', b'.events))
            == StoreDeposits(DepositIndexOf(st), DepositsIn(cfg', b'.events))
  {
    var deposits := OfKind(b.events, Deposits);
    var stored := ResolvedPrefix(cfg, deposits);
    ResolvedAll(cfg, deposits);
    StoredIsPrefix(cfg', b, b', stored);
    if AllQuotable(cfg, deposits) {
      StoreAgain(DepositIndexOf(st), DepositsIn(cfg', stored), DepositsIn(cfg', b'.events));
    }
    hide StoreDeposits, Collect, Filter, ResolvedPrefix;
  }

  lemma InsertedIff<T>(before: seq<T>, added: seq<T>, after: seq<T>)
    ensures before + added + after == before + after <==> added == []
  {
    assert |before + added + after| == |before + after| + |added|;
  }

  lemma StoredIsPrefix(cfg': SpokeConfig, b: Batch, b': Batch, stored: Log)
    requires b.events <= b'.events && stored <= OfKind(b.events, Deposits)
    ensures DepositsIn(cfg', stored) <= DepositsIn(cfg', b'.events)
  {
    CollectFiltered(b'.events, IsKind(Deposits), DepositOf(cfg'));
    assert b'.events == b.events + b'.events[|b.events|..];
    FilterConcat(b.events, b'.events[|b.events|..], IsKind(Deposits));
    CollectPrefix(stored, OfKind(b'.events, Deposits), DepositOf(cfg'));
  }

  // A window with bridged tokens and a deposit whose quote timestamp the HubPool client cannot resolve yet.

  const UNKNOWN := HubView((token: string, t: nat) => None, (c: nat, t: nat) => false,
                           (r: RelayData, d: nat, block: nat) => None)
  const KNOWN := UNKNOWN.(quoteBlock := (token: string, t: nat) => Some(7))
  const RELAY_HASH: RelayHash := (r: RelayData, d: nat) => r.depositor
  const EARLY_HUB := SpokeConfig(10, RELAY_HASH, UNKNOWN)
  const LATER_HUB := SpokeConfig(10, RELAY_HASH, KNOWN)
  const BRIDGED_EVENT: Event<SpokeEvent> := Event(LogPos(5, 0, 0), TokensBridged(1, 0, "out"))
  const EARLY_DEPOSIT: Event<SpokeEvent> := Event(LogPos(6, 0, 0), V3FundsDeposited(RELAY, 1, 7))
  const THROWING := Batch([BRIDGED_EVENT, EARLY_DEPOSIT], [])

  lemma ThrowingWindow()
    ensures OfKind(THROWING.events, Bridged) == [BRIDGED_EVENT]
    ensures OfKind(THROWING.events, Deposits) == [EARLY_DEPOSIT]
  {
    assert THROWING.events == [BRIDGED_EVENT] + [EARLY_DEPOSIT];
    FilterConcat([BRIDGED_EVENT], [EARLY_DEPOSIT], IsKind(Bridged));
    FilterConcat([BRIDGED_EVENT], [EARLY_DEPOSIT], IsKind(Deposits));
    FilterOne(BRIDGED_EVENT, IsKind(Bridged));
    FilterOne(EARLY_DEPOSIT, IsKind(Bridged));
    FilterOne(BRIDGED_EVENT, IsKind(Deposits));
    FilterOne(EARLY_DEPOSIT, IsKind(Deposits));
  }

  lemma ThrowsOnce()
    ensures !AllResolve(EARLY_HUB, THROWING.events) && AllResolve(LATER_HUB, THROWING.events)
    ensures !AllQuotable(EARLY_HUB, [EARLY_DEPOSIT])
  {
    assert EARLY_DEPOSIT in THROWING.events && !Resolves(EARLY_HUB, EARLY_DEPOSIT);
    assert |"out"| != |ZERO_ADDRESS|;
    assert Resolves(LATER_HUB, EARLY_DEPOSIT) && Resolves(LATER_HUB, BRIDGED_EVENT);
    assert EARLY_DEPOSIT in [EARLY_DEPOSIT] && !Quotable(EARLY_HUB, EARLY_DEPOSIT);
  }

  /** The first attempt throws and the second completes, leaving the bridged tokens in the list twice. */
  lemma BridgedTwice()
    ensures !AllResolve(EARLY_HUB, THROWING.events) && AllResolve(LATER_HUB, THROWING.events)
    ensures DerivesAlike(EARLY_HUB, LATER_HUB, THROWING)
    ensures Ingest(LATER_HUB, Interrupted(EARLY_HUB, EMPTY, THROWING), THROWING).tokensBridged == [BRIDGED_EVENT, BRIDGED_EVENT]
    ensures Ingest(LATER_HUB, EMPTY, THROWING).tokensBridged == [BRIDGED_EVENT]
  {
    ThrowsOnce();
    ThrowingWindow();
    hide AllResolve, AllQuotable, OfKind, Interrupted, DeriveDeposit, StoreDeposits, ApplySpeedUps;
    RetriedAtOnce(EARLY_HUB, LATER_HUB, EMPTY, THROWING, THROWING);
  }
}
