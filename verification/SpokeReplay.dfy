/**
 What any schedule of SpokePoolClient updates leaves behind, and when it is what one fold over the whole log leaves
 (src/clients/SpokePoolClient.ts:234-261 and 515-674).
 */
module SpokeReplay {
  import opened Wrappers
  import opened Numbers
  import opened Sequences
  import opened EventUtils
  import opened ObjectUtils
  import opened SpokePool
  import opened SpokeIndexes

  // ---------- the terms of a deposit ----------

  /** `LeastSpeedUp` is the last of the least: nothing is below it and nothing after it ties with it. */
  lemma {:induction false} LeastIsLastOfTheLeast(s: seq<SpeedUp>) returns (i: nat)
    requires s != []
    ensures i < |s| && s[i] == LeastSpeedUp(s)
    ensures forall j :: 0 <= j < |s| ==> s[i].terms.outputAmount <= s[j].terms.outputAmount
    ensures forall j :: i < j < |s| ==> s[i].terms.outputAmount < s[j].terms.outputAmount
  {
    if |s| == 1 {
      i := 0;
    } else {
      i := LeastIsLastOfTheLeast(Init(s));
      assert forall j :: 0 <= j < |s| - 1 ==> Init(s)[j] == s[j];
      if s[i].terms.outputAmount >= Last(s).terms.outputAmount {
        i := |s| - 1;
      }
    }
  }

  lemma LeastShrinks(early: seq<SpeedUp>, all: seq<SpeedUp>)
    requires early != [] && early <= all
    ensures LeastSpeedUp(all).terms.outputAmount <= LeastSpeedUp(early).terms.outputAmount
  {
    var i := LeastIsLastOfTheLeast(early);
    var j := LeastIsLastOfTheLeast(all);
    assert early[i] == all[i];
  }

  /** Requoting with a longer list forgets the earlier quote, so applying speed-ups as they come loses nothing. */
  lemma QuotedAgain(early: seq<SpeedUp>, all: seq<SpeedUp>, d: Deposit)
    requires early <= all
    ensures Quoted(all, Quoted(early, d)) == Quoted(all, d)
  {
    if early != [] {
      LeastShrinks(early, all);
    }
  }

  // ---------- one update ----------

  function Target(chainId: nat): SpeedUp -> DepositKey {
    (s: SpeedUp) => DepositKey(s.depositId, chainId)
  }

  /** Some speed-up in `xs` names the deposit `k`, whoever signed it. */
  predicate Names(chainId: nat, xs: seq<SpeedUp>, k: DepositKey) {
    Filter(xs, HasKey(Target(chainId), k)) != []
  }

  lemma {:induction false} ApplySpeedUpsRecord(chainId: nat, q: Quotes, xs: seq<SpeedUp>, k: DepositKey)
    requires k in q.deposits ==> DepositHash(q.deposits[k]) == k && k.originChainId == chainId
    ensures var r := ApplySpeedUps(chainId, q, xs);
            && r.speedUps == GroupBy(q.speedUps, xs, SpeedUpKeyOf)
            && r.deposits.Keys == q.deposits.Keys
            && (k in q.deposits ==>
                  var d := q.deposits[k];
                  r.deposits[k] == if Names(chainId, xs, k) then Quoted(Get(r.speedUps, OwnKey(d)), d) else d)
  {
    if xs != [] {
      ApplySpeedUpsRecord(chainId, q, Init(xs), k);
      var r0, x := ApplySpeedUps(chainId, q, Init(xs)), Last(xs);
      if k in q.deposits {
        var d := q.deposits[k];
        var s0 := Get(r0.speedUps, OwnKey(d));
        var s1 := Get(AssignArray(r0.speedUps, SpeedUpKeyOf(x), x), OwnKey(d));
        assert s0 <= s1;
        QuotedAgain(s0, s1, d);
        QuotedAgain([], s1, d);
        if Target(chainId)(x) != k {
          assert s0 == s1;
        }
      }
    }
  }

  lemma {:induction false} StoreIsFirstBy(ix: DepositIndex, ds: seq<Deposit>)
    ensures StoreDeposits(ix, ds).deposits == FirstBy(ix.deposits, ds, DepositHash)
  {
    if ds != [] {
      StoreIsFirstBy(ix, Init(ds));
    }
  }

  // ---------- schedules ----------

  function AllDeposits(cfg: SpokeConfig, run: seq<Batch>): seq<Deposit> {
    DepositsIn(cfg, Merge(run).events)
  }

  function AllSpeedUps(run: seq<Batch>): seq<SpeedUp> {
    SpeedUpsIn(Merge(run).events)
  }

  function FirstDeposit(cfg: SpokeConfig, run: seq<Batch>, k: DepositKey): Option<Deposit> {
    Find(AllDeposits(cfg, run), HasKey(DepositHash, k))
  }

  /** The speed-ups signed for `d` by its own depositor, in order. */
  function OwnSpeedUps(run: seq<Batch>, d: Deposit): seq<SpeedUp> {
    Filter(AllSpeedUps(run), HasKey(SpeedUpKeyOf, OwnKey(d)))
  }

  /** Some update that knew the deposit `k` also ingested a speed-up naming it. */
  predicate Touched(cfg: SpokeConfig, run: seq<Batch>, k: DepositKey) {
    run != [] &&
    (|| Touched(cfg, Init(run), k)
     || (FirstDeposit(cfg, run, k).Some? && Names(cfg.chainId, SpeedUpsIn(Last(run).events), k)))
  }

  lemma {:induction false} DepositsAreLocal(cfg: SpokeConfig, log: Log, d: Deposit)
    requires d in DepositsIn(cfg, log)
    ensures d.relay.originChainId == cfg.chainId && d.updated == None
  {
    CollectMembers(log, DepositOf(cfg), d);
  }

  lemma FirstDepositKey(cfg: SpokeConfig, run: seq<Batch>, k: DepositKey)
    requires FirstDeposit(cfg, run, k).Some?
    ensures DepositHash(FirstDeposit(cfg, run, k).value) == k && k.originChainId == cfg.chainId
  {
    var ds := AllDeposits(cfg, run);
    var i := FindWitness(ds, HasKey(DepositHash, k));
    DepositsAreLocal(cfg, Merge(run).events, ds[i]);
  }

  lemma FindInConcat<T>(a: seq<T>, b: seq<T>, p: T -> bool)
    ensures Find(a + b, p) == if Find(a, p).Some? then Find(a, p) else Find(b, p)
  {
    FilterConcat(a, b, p);
    FindFirst(a + b, p);
    FindFirst(a, p);
    FindFirst(b, p);
  }

  /** The speed-up dictionary holds every speed-up ingested so far under its signer and deposit id, in order. */
  lemma {:induction false} SpeedUpsRecord(cfg: SpokeConfig, run: seq<Batch>, key: SpeedUpKey)
    ensures Get(Run(cfg, run).speedUps, key) == Filter(AllSpeedUps(run), HasKey(SpeedUpKeyOf, key))
  {
    if run != [] {
      SpeedUpsRecord(cfg, Init(run), key);
      var st, b := Run(cfg, Init(run)), Last(run);
      var stored := StoreDeposits(DepositIndexOf(st), DepositsIn(cfg, b.events));
      SpeedUpsGrouped(cfg.chainId, Quotes(st.speedUps, stored.deposits), SpeedUpsIn(b.events));
      GroupByContents(st.speedUps, SpeedUpsIn(b.events), SpeedUpKeyOf, key);
      CollectConcat(Merge(Init(run)).events, b.events, SpeedUpOf);
      FilterConcat(AllSpeedUps(Init(run)), SpeedUpsIn(b.events), HasKey(SpeedUpKeyOf, key));
    }
  }

  lemma {:induction false} SpeedUpsGrouped(chainId: nat, q: Quotes, xs: seq<SpeedUp>)
    ensures ApplySpeedUps(chainId, q, xs).speedUps == GroupBy(q.speedUps, xs, SpeedUpKeyOf)
    ensures ApplySpeedUps(chainId, q, xs).deposits.Keys == q.deposits.Keys
  {
    if xs != [] {
      SpeedUpsGrouped(chainId, q, Init(xs));
    }
  }

  /** No own speed-up is ingested while none names the deposit. */
  lemma {:induction false} UnnamedMeansNoOwn(chainId: nat, xs: seq<SpeedUp>, d: Deposit)
    requires d.relay.originChainId == chainId
    requires !Names(chainId, xs, DepositHash(d))
    ensures Filter(xs, HasKey(SpeedUpKeyOf, OwnKey(d))) == []
  {
    forall s | s in xs ensures !HasKey(SpeedUpKeyOf, OwnKey(d))(s) {
      FilterMembers(xs, HasKey(Target(chainId), DepositHash(d)), s);
      assert Target(chainId)(s) != DepositHash(d);
      assert s.depositId != d.relay.depositId;
      assert SpeedUpKeyOf(s) != OwnKey(d);
    }
    FilterNone(xs, HasKey(SpeedUpKeyOf, OwnKey(d)));
  }

  /**
   The record of every deposit after any schedule of updates whatsoever: the first deposit with that id, its relay
   data unchanged, carrying the last of the least speed-ups by its own depositor, if below its output amount, among
   all those ingested; except that these count only once some update that knew the deposit ingested a speed-up
   naming it.
   */
  lemma {:induction false} DepositRecord(cfg: SpokeConfig, run: seq<Batch>, k: DepositKey)
    ensures var deposits := Run(cfg, run).deposits;
            && (k in deposits <==> FirstDeposit(cfg, run, k).Some?)
            && (k in deposits ==>
                  var d := FirstDeposit(cfg, run, k).value;
                  deposits[k] == if Touched(cfg, run, k) then Quoted(OwnSpeedUps(run, d), d) else d)
  {
    if run != [] {
      DepositRecord(cfg, Init(run), k);
      StoreStep(cfg, run, k);
      var st, b := Run(cfg, Init(run)), Last(run);
      var q := Quotes(st.speedUps, StoreDeposits(DepositIndexOf(st), DepositsIn(cfg, b.events)).deposits);
      SpeedUpsGrouped(cfg.chainId, q, SpeedUpsIn(b.events));
      if FirstDeposit(cfg, run, k).Some? {
        FirstDepositKey(cfg, run, k);
        DepositStep(cfg, run, k, q);
      }
    }
  }

  lemma StoreStep(cfg: SpokeConfig, run: seq<Batch>, k: DepositKey)
    requires run != []
    requires k in Run(cfg, Init(run)).deposits <==> FirstDeposit(cfg, Init(run), k).Some?
    ensures var before := Run(cfg, Init(run));
            var after := StoreDeposits(DepositIndexOf(before), DepositsIn(cfg, Last(run).events)).deposits;
            && (k in after <==> FirstDeposit(cfg, run, k).Some?)
            && (k in before.deposits ==> FirstDeposit(cfg, run, k) == FirstDeposit(cfg, Init(run), k))
            && (k in after ==>
                  after[k] == if k in before.deposits then before.deposits[k] else FirstDeposit(cfg, run, k).value)
            && (k !in before.deposits ==> !Touched(cfg, Init(run), k))
  {
    var st, added := Run(cfg, Init(run)), DepositsIn(cfg, Last(run).events);
    CollectConcat(Merge(Init(run)).events, Last(run).events, DepositOf(cfg));
    FindInConcat(AllDeposits(cfg, Init(run)), added, HasKey(DepositHash, k));
    StoreIsFirstBy(DepositIndexOf(st), added);
    FirstByContents(st.deposits, added, DepositHash, k);
    if Touched(cfg, Init(run), k) {
      TouchedIsKnown(cfg, Init(run), k);
    }
  }

  lemma {:induction false} TouchedIsKnown(cfg: SpokeConfig, run: seq<Batch>, k: DepositKey)
    requires Touched(cfg, run, k)
    ensures FirstDeposit(cfg, run, k).Some?
  {
    if Touched(cfg, Init(run), k) {
      TouchedIsKnown(cfg, Init(run), k);
      CollectConcat(Merge(Init(run)).events, Last(run).events, DepositOf(cfg));
      FindInConcat(AllDeposits(cfg, Init(run)), DepositsIn(cfg, Last(run).events), HasKey(DepositHash, k));
    }
  }

  lemma DepositStep(cfg: SpokeConfig, run: seq<Batch>, k: DepositKey, q: Quotes)
    requires run != []
    requires q.speedUps == Run(cfg, Init(run)).speedUps
    requires FirstDeposit(cfg, run, k).Some? && k.originChainId == cfg.chainId
    requires DepositHash(FirstDeposit(cfg, run, k).value) == k
    requires k in q.deposits
    requires var d := FirstDeposit(cfg, run, k).value;
             q.deposits[k] == if Touched(cfg, Init(run), k) then Quoted(OwnSpeedUps(Init(run), d), d) else d
    ensures var d := FirstDeposit(cfg, run, k).value;
            var r := ApplySpeedUps(cfg.chainId, q, SpeedUpsIn(Last(run).events)).deposits;
            k in r && r[k] == if Touched(cfg, run, k) then Quoted(OwnSpeedUps(run, d), d) else d
  {
    var d, xs := FirstDeposit(cfg, run, k).value, SpeedUpsIn(Last(run).events);
    ApplySpeedUpsRecord(cfg.chainId, q, xs, k);
    SpeedUpsRecord(cfg, Init(run), OwnKey(d));
    GroupByContents(q.speedUps, xs, SpeedUpKeyOf, OwnKey(d));
    CollectConcat(Merge(Init(run)).events, Last(run).events, SpeedUpOf);
    FilterConcat(AllSpeedUps(Init(run)), xs, HasKey(SpeedUpKeyOf, OwnKey(d)));
    assert OwnSpeedUps(run, d) == OwnSpeedUps(Init(run), d) + Filter(xs, HasKey(SpeedUpKeyOf, OwnKey(d)));
    QuotedAgain(OwnSpeedUps(Init(run), d), OwnSpeedUps(run, d), d);
    if !Names(cfg.chainId, xs, k) {
      UnnamedMeansNoOwn(cfg.chainId, xs, d);
      assert OwnSpeedUps(run, d) == OwnSpeedUps(Init(run), d);
    }
  }

  /** The record that one fold over everything ingested gives. */
  function Canonical(cfg: SpokeConfig, run: seq<Batch>, k: DepositKey): Option<Deposit> {
    match FirstDeposit(cfg, run, k)
    case None => None
    case Some(d) => Some(Quoted(OwnSpeedUps(run, d), d))
  }

  lemma MergeOfOne(b: Batch)
    ensures Merge([b]) == b
  {
    assert Init([b]) == [];
    assert Merge([]).events + b.events == b.events && Merge([]).routes + b.routes == b.routes;
  }

  /** One update over everything is such a fold. */
  lemma OneUpdateIsCanonical(cfg: SpokeConfig, run: seq<Batch>, k: DepositKey)
    ensures var deposits := Run(cfg, [Merge(run)]).deposits;
            Canonical(cfg, run, k) == if k in deposits then Some(deposits[k]) else None
  {
    var one := [Merge(run)];
    MergeOfOne(Merge(run));
    DepositRecord(cfg, one, k);
    assert Init(one) == [];
    if k in Run(cfg, one).deposits {
      var d := FirstDeposit(cfg, one, k).value;
      FirstDepositKey(cfg, one, k);
      if !Touched(cfg, one, k) {
        UnnamedMeansNoOwn(cfg.chainId, AllSpeedUps(run), d);
      }
    }
  }

  /** No update ingests a deposit after an earlier update ingested a speed-up naming it. */
  ghost predicate SpeedUpsFollowDeposits(cfg: SpokeConfig, run: seq<Batch>) {
    run != [] ==>
      && SpeedUpsFollowDeposits(cfg, Init(run))
      && forall k :: FirstDeposit(cfg, run, k).Some? && FirstDeposit(cfg, Init(run), k).None? ==>
                       !Names(cfg.chainId, AllSpeedUps(Init(run)), k)
  }

  lemma NamesInConcat(chainId: nat, a: seq<SpeedUp>, b: seq<SpeedUp>, k: DepositKey)
    ensures Names(chainId, a + b, k) <==> Names(chainId, a, k) || Names(chainId, b, k)
  {
    FilterConcat(a, b, HasKey(Target(chainId), k));
  }

  lemma {:induction false} TouchedWhenInOrder(cfg: SpokeConfig, run: seq<Batch>, k: DepositKey)
    requires SpeedUpsFollowDeposits(cfg, run)
    ensures Touched(cfg, run, k) <==> FirstDeposit(cfg, run, k).Some? && Names(cfg.chainId, AllSpeedUps(run), k)
  {
    if run != [] {
      TouchedWhenInOrder(cfg, Init(run), k);
      CollectConcat(Merge(Init(run)).events, Last(run).events, SpeedUpOf);
      CollectConcat(Merge(Init(run)).events, Last(run).events, DepositOf(cfg));
      NamesInConcat(cfg.chainId, AllSpeedUps(Init(run)), SpeedUpsIn(Last(run).events), k);
      FindInConcat(AllDeposits(cfg, Init(run)), DepositsIn(cfg, Last(run).events), HasKey(DepositHash, k));
    }
  }

  // ---------- everything but the deposits' terms ----------

  /** The two states agree except in the terms of their deposits. */
  ghost predicate AgreeExceptTerms(a: Indexes, b: Indexes) {
    && a.deposits.Keys == b.deposits.Keys
    && a.(deposits := map[]) == b.(deposits := map[])
  }

  lemma {:induction false} StoreBounds(a: DepositIndex, b: DepositIndex, ds: seq<Deposit>)
    requires a.deposits.Keys == b.deposits.Keys && a.earliest == b.earliest && a.latest == b.latest
    ensures var (ra, rb) := (StoreDeposits(a, ds), StoreDeposits(b, ds));
            ra.deposits.Keys == rb.deposits.Keys && ra.earliest == rb.earliest && ra.latest == rb.latest
  {
    if ds != [] {
      StoreBounds(a, b, Init(ds));
    }
  }

  lemma {:induction false} StoreConcat(ix: DepositIndex, a: seq<Deposit>, b: seq<Deposit>)
    ensures StoreDeposits(StoreDeposits(ix, a), b) == StoreDeposits(ix, a + b)
  {
    if b == [] {
      assert a + b == a;
    } else {
      assert Init(a + b) == a + Init(b);
      StoreConcat(ix, a, Init(b));
    }
  }

  function Joined(a: Batch, b: Batch): Batch {
    Batch(a.events + b.events, a.routes + b.routes)
  }

  /** Ingesting two batches one after the other or at once differs in the terms of deposits only. */
  lemma IngestTwice(cfg: SpokeConfig, st: Indexes, a: Batch, b: Batch)
    ensures AgreeExceptTerms(Ingest(cfg, Ingest(cfg, st, a), b), Ingest(cfg, st, Joined(a, b)))
  {
    IngestTwiceDeposits(cfg, st, a, b);
    IngestTwiceLists(cfg, st, a, b);
    IngestTwiceFills(cfg, st, a, b);
  }

  lemma IngestTwiceLists(cfg: SpokeConfig, st: Indexes, a: Batch, b: Batch)
    ensures var (twice, once) := (Ingest(cfg, Ingest(cfg, st, a), b), Ingest(cfg, st, Joined(a, b)));
            && twice.tokensBridged == once.tokensBridged
            && twice.rootBundleRelays == once.rootBundleRelays
            && twice.relayerRefundExecutions == once.relayerRefundExecutions
            && twice.depositRoutes == once.depositRoutes
  {
    FilterConcat(a.events, b.events, IsKind(Bridged));
    FilterConcat(a.events, b.events, IsKind(Roots));
    FilterConcat(a.events, b.events, IsKind(Refunds));
    CollectConcat(a.routes, b.routes, RouteOf);
    FlagByConcat(st.depositRoutes, RoutesIn(a.routes), RoutesIn(b.routes));
  }

  lemma IngestTwiceFills(cfg: SpokeConfig, st: Indexes, a: Batch, b: Batch)
    ensures var (twice, once) := (Ingest(cfg, Ingest(cfg, st, a), b), Ingest(cfg, st, Joined(a, b)));
            && twice.slowFillRequests == once.slowFillRequests
            && twice.fills == once.fills
            && twice.depositHashesToFills == once.depositHashesToFills
  {
    CollectConcat(a.events, b.events, SlowFillOf(cfg));
    FirstByConcat(st.slowFillRequests, SlowFillsIn(cfg, a.events), SlowFillsIn(cfg, b.events), SlowFillHash(cfg));
    CollectConcat(a.events, b.events, FillOf(cfg));
    GroupByConcat(st.fills, FillsIn(cfg, a.events), FillsIn(cfg, b.events), FillOrigin);
    GroupByConcat(st.depositHashesToFills, FillsIn(cfg, a.events), FillsIn(cfg, b.events), FillDepositHash);
  }

  lemma IngestTwiceDeposits(cfg: SpokeConfig, st: Indexes, a: Batch, b: Batch)
    ensures var twice := Ingest(cfg, Ingest(cfg, st, a), b);
            var once := Ingest(cfg, st, Joined(a, b));
            && twice.deposits.Keys == once.deposits.Keys
            && twice.earliestDepositIdQueried == once.earliestDepositIdQueried
            && twice.latestDepositIdQueried == once.latestDepositIdQueried
            && twice.speedUps == once.speedUps
  {
    var ix, mid := DepositIndexOf(st), Ingest(cfg, st, a);
    var da, db := DepositsIn(cfg, a.events), DepositsIn(cfg, b.events);
    var sa, sb := SpeedUpsIn(a.events), SpeedUpsIn(b.events);
    CollectConcat(a.events, b.events, DepositOf(cfg));
    CollectConcat(a.events, b.events, SpeedUpOf);
    StoreConcat(ix, da, db);
    SpeedUpsGrouped(cfg.chainId, Quotes(st.speedUps, StoreDeposits(ix, da).deposits), sa);
    SpeedUpsGrouped(cfg.chainId, Quotes(st.speedUps, StoreDeposits(ix, da + db).deposits), sa + sb);
    StoreBounds(DepositIndexOf(mid), StoreDeposits(ix, da), db);
    SpeedUpsGrouped(cfg.chainId, Quotes(mid.speedUps, StoreDeposits(DepositIndexOf(mid), db).deposits), sb);
    GroupByConcat(st.speedUps, sa, sb, SpeedUpKeyOf);
  }

  /** What `Ingest` does, terms of deposits aside, does not depend on the terms of deposits. */
  lemma IngestIgnoresTerms(cfg: SpokeConfig, st: Indexes, st': Indexes, b: Batch)
    requires AgreeExceptTerms(st, st')
    ensures AgreeExceptTerms(Ingest(cfg, st, b), Ingest(cfg, st', b))
  {
    assert st.(deposits := map[]) == st'.(deposits := map[]);
    SameBesidesDeposits(st, st');
    var ds, xs := DepositsIn(cfg, b.events), SpeedUpsIn(b.events);
    StoreBounds(DepositIndexOf(st), DepositIndexOf(st'), ds);
    SpeedUpsGrouped(cfg.chainId, Quotes(st.speedUps, StoreDeposits(DepositIndexOf(st), ds).deposits), xs);
    SpeedUpsGrouped(cfg.chainId, Quotes(st'.speedUps, StoreDeposits(DepositIndexOf(st'), ds).deposits), xs);
  }

  lemma SameBesidesDeposits(a: Indexes, b: Indexes)
    requires a.(deposits := map[]) == b.(deposits := map[])
    ensures a == b.(deposits := a.deposits)
  {
    var a', b' := a.(deposits := map[]), b.(deposits := map[]);
    assert a == a'.(deposits := a.deposits) && b == b'.(deposits := b.deposits);
  }

  /** Every index but the deposits' terms is that of one fold over the whole log, however the log was split. */
  lemma {:induction false} SplitIsImmaterial(cfg: SpokeConfig, run: seq<Batch>)
    ensures AgreeExceptTerms(Run(cfg, run), Ingest(cfg, EMPTY, Merge(run)))
  {
    if run != [] {
      SplitIsImmaterial(cfg, Init(run));
      IngestIgnoresTerms(cfg, Run(cfg, Init(run)), Ingest(cfg, EMPTY, Merge(Init(run))), Last(run));
      IngestTwice(cfg, EMPTY, Merge(Init(run)), Last(run));
      AgreeTransitive(Run(cfg, run), Ingest(cfg, Ingest(cfg, EMPTY, Merge(Init(run))), Last(run)),
                      Ingest(cfg, EMPTY, Merge(run)));
    }
  }

  lemma AgreeTransitive(a: Indexes, b: Indexes, c: Indexes)
    requires AgreeExceptTerms(a, b) && AgreeExceptTerms(b, c)
    ensures AgreeExceptTerms(a, c)
  {
  }

  // ---------- the main theorem ----------

  /** `k`'s speed-ups have all been applied, or there was nothing to apply. */
  predicate Settled(cfg: SpokeConfig, run: seq<Batch>, k: DepositKey) {
    match FirstDeposit(cfg, run, k)
    case None => true
    case Some(d) => Touched(cfg, run, k) || Quoted(OwnSpeedUps(run, d), d) == d
  }

  /**
   A schedule of updates leaves the client in the state of one fold over everything ingested if and only if every
   deposit is settled; and then any other schedule of the same log does too.
   */
  lemma {:induction false} ScheduleIsOneFold(cfg: SpokeConfig, run: seq<Batch>)
    ensures Run(cfg, run) == Run(cfg, [Merge(run)]) <==> forall k :: Settled(cfg, run, k)
  {
    var st, one := Run(cfg, run), Run(cfg, [Merge(run)]);
    SplitIsImmaterial(cfg, run);
    assert Init([Merge(run)]) == [] && Run(cfg, []) == EMPTY;
    assert one == Ingest(cfg, EMPTY, Merge(run));
    forall k ensures Settled(cfg, run, k) <==> (k in st.deposits ==> st.deposits[k] == one.deposits[k]) {
      DepositRecord(cfg, run, k);
      OneUpdateIsCanonical(cfg, run, k);
    }
    SameBesidesDeposits(st, one);
    if forall k :: Settled(cfg, run, k) {
      assert st.deposits == one.deposits;
    }
  }

  /** Updates that meet each speed-up no earlier than its deposit replay the log faithfully. */
  lemma {:induction false} InOrderScheduleIsOneFold(cfg: SpokeConfig, run: seq<Batch>)
    requires SpeedUpsFollowDeposits(cfg, run)
    ensures Run(cfg, run) == Run(cfg, [Merge(run)])
  {
    forall k ensures Settled(cfg, run, k) {
      TouchedWhenInOrder(cfg, run, k);
      if FirstDeposit(cfg, run, k).Some? && !Touched(cfg, run, k) {
        FirstDepositKey(cfg, run, k);
        UnnamedMeansNoOwn(cfg.chainId, AllSpeedUps(run), FirstDeposit(cfg, run, k).value);
      }
    }
    ScheduleIsOneFold(cfg, run);
  }

  // A speed-up for 90 of 100, and the deposit it names, ingested one update later.

  const RELAY := RelayData(10, "alice", "bob", 0, "in", 100, "out", 100, "", 0, "", 0)
  const EARLY_SPEED_UP := SpeedUp("alice", 0, UpdatedTerms("sig", 90, "bob", ""))
  const SPEED_UP_EVENT := Event(LogPos(5, 0, 0), RequestedSpeedUpV3Deposit(EARLY_SPEED_UP))
  const DEPOSIT_EVENT := Event(LogPos(6, 0, 0), V3FundsDeposited(RELAY, 1, 7))
  const LATE_RUN := [Batch([SPEED_UP_EVENT], []), Batch([DEPOSIT_EVENT], [])]

  lemma LateViews(cfg: SpokeConfig)
    requires cfg.chainId == 10 && cfg.hub.quoteBlock(RELAY.inputToken, 7).Some?
    ensures AllSpeedUps(LATE_RUN) == [EARLY_SPEED_UP] == SpeedUpsIn(LATE_RUN[0].events)
    ensures AllDeposits(cfg, LATE_RUN) == DepositsIn(cfg, [DEPOSIT_EVENT])
    ensures SpeedUpsIn(Last(LATE_RUN).events) == []
    ensures AllDeposits(cfg, Init(LATE_RUN)) == []
    ensures |AllDeposits(cfg, LATE_RUN)| == 1
    ensures AllDeposits(cfg, LATE_RUN)[0].relay == RELAY && AllDeposits(cfg, LATE_RUN)[0].updated == None
  {
    var first := [Batch([SPEED_UP_EVENT], [])];
    assert Init(LATE_RUN) == first;
    MergeOfOne(first[0]);
    assert Merge(LATE_RUN).events == [SPEED_UP_EVENT] + [DEPOSIT_EVENT];
    CollectConcat([SPEED_UP_EVENT], [DEPOSIT_EVENT], SpeedUpOf);
    CollectConcat([SPEED_UP_EVENT], [DEPOSIT_EVENT], DepositOf(cfg));
    CollectOne(SPEED_UP_EVENT, SpeedUpOf);
    CollectOne(DEPOSIT_EVENT, SpeedUpOf);
    CollectOne(SPEED_UP_EVENT, DepositOf(cfg));
    CollectOne(DEPOSIT_EVENT, DepositOf(cfg));
    assert RELAY.(originChainId := 10) == RELAY;
    assert |"out"| != |ZERO_ADDRESS|;
  }

  lemma CollectOne<E, T>(e: E, f: E -> Option<T>)
    ensures Collect([e], f) == match f(e) case Some(t) => [t] case None => []
  {
    assert Init([e]) == [] && Collect([], f) == [];
  }

  lemma LateRun(cfg: SpokeConfig) returns (d: Deposit)
    requires cfg.chainId == 10 && cfg.hub.quoteBlock(RELAY.inputToken, 7).Some?
    ensures DepositsIn(cfg, [DEPOSIT_EVENT]) == [d] && d.updated == None && DepositHash(d) == DepositKey(0, 10)
    ensures FirstDeposit(cfg, LATE_RUN, DepositKey(0, 10)) == Some(d)
    ensures FirstDeposit(cfg, Init(LATE_RUN), DepositKey(0, 10)) == None
    ensures !Touched(cfg, LATE_RUN, DepositKey(0, 10))
    ensures OwnSpeedUps(LATE_RUN, d) == [EARLY_SPEED_UP] && SpeedUpsIn(LATE_RUN[0].events) == [EARLY_SPEED_UP]
    ensures Quoted([EARLY_SPEED_UP], d) == d.(updated := Some(EARLY_SPEED_UP.terms))
    ensures Names(cfg.chainId, [EARLY_SPEED_UP], DepositKey(0, 10))
  {
    LateViews(cfg);
    var k := DepositKey(0, 10);
    d := AllDeposits(cfg, LATE_RUN)[0];
    assert AllDeposits(cfg, LATE_RUN) == [d] && Init([d]) == [];
    assert DepositHash(d) == k;
    FilterOne(d, HasKey(DepositHash, k));
    assert !Touched(cfg, Init(LATE_RUN), k) by {
      if Touched(cfg, Init(LATE_RUN), k) {
        TouchedIsKnown(cfg, Init(LATE_RUN), k);
      }
    }
    assert Init([EARLY_SPEED_UP]) == [];
    assert SpeedUpKeyOf(EARLY_SPEED_UP) == OwnKey(d);
    assert HasKey(SpeedUpKeyOf, OwnKey(d))(EARLY_SPEED_UP) && HasKey(Target(cfg.chainId), k)(EARLY_SPEED_UP);
    FilterOne(EARLY_SPEED_UP, HasKey(SpeedUpKeyOf, OwnKey(d)));
    FilterOne(EARLY_SPEED_UP, HasKey(Target(cfg.chainId), k));
  }

  /** The deposit is left without its speed-up, so how a log is split into updates can matter. */
  lemma LateDepositMissesItsSpeedUp(cfg: SpokeConfig)
    requires cfg.chainId == 10 && cfg.hub.quoteBlock(RELAY.inputToken, 7).Some?
    ensures Run(cfg, LATE_RUN) != Run(cfg, [Merge(LATE_RUN)])
    ensures Canonical(cfg, LATE_RUN, DepositKey(0, 10)).value.updated == Some(EARLY_SPEED_UP.terms)
  {
    var d := LateRun(cfg);
    assert !Settled(cfg, LATE_RUN, DepositKey(0, 10));
    ScheduleIsOneFold(cfg, LATE_RUN);
  }

  // ---------- the other indexes ----------

  lemma FillIndexes(cfg: SpokeConfig, run: seq<Batch>)
    ensures Run(cfg, run).fills == GroupBy(map[], FillsIn(cfg, Merge(run).events), FillOrigin)
    ensures Run(cfg, run).depositHashesToFills == GroupBy(map[], FillsIn(cfg, Merge(run).events), FillDepositHash)
  {
    SplitIsImmaterial(cfg, run);
    SameBesidesDeposits(Run(cfg, run), Ingest(cfg, EMPTY, Merge(run)));
  }

  /**
   Both fill indexes hold every fill exactly once and in log order: by origin chain, and by deposit; so a deposit's
   fills are those of its origin chain that name its id.
   */
  lemma FillsRecord(cfg: SpokeConfig, run: seq<Batch>, origin: nat, k: DepositKey)
    ensures var (st, all) := (Run(cfg, run), FillsIn(cfg, Merge(run).events));
            && Get(st.fills, origin) == Filter(all, HasKey(FillOrigin, origin))
            && Get(st.depositHashesToFills, k) == Filter(all, HasKey(FillDepositHash, k))
            && Get(st.depositHashesToFills, k) == Filter(Get(st.fills, k.originChainId), HasKey(FillDepositHash, k))
  {
    FillIndexes(cfg, run);
    GroupedFills(FillsIn(cfg, Merge(run).events), origin, k);
  }

  lemma GroupedFills(all: seq<Fill>, origin: nat, k: DepositKey)
    ensures var (fills, byDeposit) := (GroupBy(map[], all, FillOrigin), GroupBy(map[], all, FillDepositHash));
            && Get(fills, origin) == Filter(all, HasKey(FillOrigin, origin))
            && Get(byDeposit, k) == Filter(all, HasKey(FillDepositHash, k))
            && Get(byDeposit, k) == Filter(Get(fills, k.originChainId), HasKey(FillDepositHash, k))
  {
    GroupByContents(map[], all, FillOrigin, origin);
    GroupByContents(map[], all, FillOrigin, k.originChainId);
    GroupByContents(map[], all, FillDepositHash, k);
    DepositsWithinOrigin(all, k);
  }

  lemma DepositsWithinOrigin(all: seq<Fill>, k: DepositKey)
    ensures Filter(all, HasKey(FillDepositHash, k))
            == Filter(Filter(all, HasKey(FillOrigin, k.originChainId)), HasKey(FillDepositHash, k))
  {
    forall f: Fill ensures HasKey(FillDepositHash, k)(f) ==> HasKey(FillOrigin, k.originChainId)(f) {
      assert FillDepositHash(f) == DepositKey(f.relay.depositId, FillOrigin(f));
    }
    FilterTwice(all, HasKey(FillOrigin, k.originChainId), HasKey(FillDepositHash, k), HasKey(FillDepositHash, k));
  }

  /** The slow fill request kept under a relay hash is the first one ingested with that hash. */
  lemma SlowFillsRecord(cfg: SpokeConfig, run: seq<Batch>, hash: string)
    ensures var requests := Run(cfg, run).slowFillRequests;
            (if hash in requests then Some(requests[hash]) else None)
            == Find(SlowFillsIn(cfg, Merge(run).events), HasKey(SlowFillHash(cfg), hash))
  {
    SplitIsImmaterial(cfg, run);
    SameBesidesDeposits(Run(cfg, run), Ingest(cfg, EMPTY, Merge(run)));
    var all := SlowFillsIn(cfg, Merge(run).events);
    FirstByContents(map[], all, SlowFillHash(cfg), hash);
  }

  /** A deposit route is truthy exactly when the last event about it enabled it. */
  lemma RoutesRecord(cfg: SpokeConfig, run: seq<Batch>, route: (string, nat))
    ensures var routes := Run(cfg, run).depositRoutes;
            var latest := FindLast(RoutesIn(Merge(run).routes), FirstIs(route));
            && (route in routes <==> latest.Some?)
            && (route in routes ==> routes[route].Truthy() == latest.value.1)
  {
    SplitIsImmaterial(cfg, run);
    SameBesidesDeposits(Run(cfg, run), Ingest(cfg, EMPTY, Merge(run)));
    FlagByContents(RoutesIn(Merge(run).routes), route);
  }

  /** The bounds on deposit ids are the least and the greatest id ingested, capped by their starting values. */
  lemma {:induction false} IdBounds(cfg: SpokeConfig, run: seq<Batch>)
    ensures var (st, all) := (Run(cfg, run), AllDeposits(cfg, run));
            && (forall d :: d in all ==> st.earliestDepositIdQueried <= d.relay.depositId <= st.latestDepositIdQueried)
            && st.earliestDepositIdQueried <= MAX_SAFE_INTEGER
            && (st.earliestDepositIdQueried == MAX_SAFE_INTEGER
                || exists d :: d in all && d.relay.depositId == st.earliestDepositIdQueried)
            && (st.latestDepositIdQueried == 0
                || exists d :: d in all && d.relay.depositId == st.latestDepositIdQueried)
  {
    SplitIsImmaterial(cfg, run);
    SameBesidesDeposits(Run(cfg, run), Ingest(cfg, EMPTY, Merge(run)));
    StoredBounds(AllDeposits(cfg, run));
  }

  lemma {:induction false} StoredBounds(ds: seq<Deposit>)
    ensures var ix := StoreDeposits(DepositIndex(map[], MAX_SAFE_INTEGER, 0), ds);
            && (forall d :: d in ds ==> DepositHash(d) in ix.deposits)
            && (forall k :: k in ix.deposits ==> ix.earliest <= k.depositId <= ix.latest)
            && (forall d :: d in ds ==> ix.earliest <= d.relay.depositId <= ix.latest)
            && ix.earliest <= MAX_SAFE_INTEGER
            && (ix.earliest == MAX_SAFE_INTEGER || exists d :: d in ds && d.relay.depositId == ix.earliest)
            && (ix.latest == 0 || exists d :: d in ds && d.relay.depositId == ix.latest)
  {
    if ds != [] {
      assert ds == Init(ds) + [Last(ds)];
      StoredBounds(Init(ds));
      var before := StoreDeposits(DepositIndex(map[], MAX_SAFE_INTEGER, 0), Init(ds));
      assert Last(ds) in ds;
      if before.earliest != MAX_SAFE_INTEGER {
        var d :| d in Init(ds) && d.relay.depositId == before.earliest;
        assert d in ds;
      }
      if before.latest != 0 {
        var d :| d in Init(ds) && d.relay.depositId == before.latest;
        assert d in ds;
      }
    }
  }

  /** The three plain lists hold exactly the events of their kind, in order. */
  lemma ListsRecord(cfg: SpokeConfig, run: seq<Batch>)
    ensures Run(cfg, run).tokensBridged == OfKind(Merge(run).events, Bridged)
    ensures Run(cfg, run).rootBundleRelays == OfKind(Merge(run).events, Roots)
    ensures Run(cfg, run).relayerRefundExecutions == OfKind(Merge(run).events, Refunds)
  {
    SplitIsImmaterial(cfg, run);
    SameBesidesDeposits(Run(cfg, run), Ingest(cfg, EMPTY, Merge(run)));
  }

  // ---------- unfilled amounts ----------

  datatype Unfilled = Unfilled(unfilledAmount: int, fillCount: nat, invalidFills: seq<Fill>)

  function Fills(hash: RelayHash, d: Deposit): Fill -> bool {
    (f: Fill) => ValidateFillForDeposit(hash, f, Some(d))
  }

  function Misses(hash: RelayHash, d: Deposit): Fill -> bool {
    (f: Fill) => !ValidateFillForDeposit(hash, f, Some(d))
  }

  /** `getValidUnfilledAmountForDeposit`. */
  function GetValidUnfilledAmountForDeposit(hash: RelayHash, st: Indexes, d: Deposit): Unfilled {
    var fillsForDeposit := Get(st.depositHashesToFills, DepositHash(d));
    if fillsForDeposit == [] then Unfilled(d.relay.outputAmount, 0, [])
    else
      var valid := Filter(fillsForDeposit, Fills(hash, d));
      var invalid := Filter(fillsForDeposit, Misses(hash, d));
      if valid == [] then Unfilled(d.relay.outputAmount, 0, invalid) else Unfilled(0, |valid|, invalid)
  }

  function FillsSameDeposit(hash: RelayHash, d: Deposit): Fill -> bool {
    (f: Fill) => FillDepositHash(f) == DepositHash(d) && ValidateFillForDeposit(hash, f, Some(d))
  }

  /** The fills that count for a deposit are those that `filledSameDeposit` puts together with any one of them. */
  lemma FillsOfOneDeposit(hash: RelayHash, d: Deposit, a: Fill, b: Fill)
    requires FillsSameDeposit(hash, d)(a) && b.relay.originChainId == d.relay.originChainId
    ensures FillsSameDeposit(hash, d)(b) <==> FilledSameDeposit(hash, a, b)
  {
    assert FillDepositHash(a) == DepositKey(a.relay.depositId, a.relay.originChainId);
    assert FillDepositHash(b) == DepositKey(b.relay.depositId, b.relay.originChainId);
    assert DepositHash(d) == DepositKey(d.relay.depositId, d.relay.originChainId);
  }

  /**
   A deposit is filled exactly when the log holds a fill of its id with its relay hash, however it was ingested, and
   the fills counted are all of the same deposit.
   */
  lemma UnfilledFromTheLog(cfg: SpokeConfig, run: seq<Batch>, d: Deposit)
    ensures var r := GetValidUnfilledAmountForDeposit(cfg.hash, Run(cfg, run), d);
            var matching := Filter(FillsIn(cfg, Merge(run).events), FillsSameDeposit(cfg.hash, d));
            && r.fillCount == |matching|
            && r.unfilledAmount == (if matching == [] then d.relay.outputAmount else 0)
            && r.fillCount + |r.invalidFills|
               == |Filter(FillsIn(cfg, Merge(run).events), HasKey(FillDepositHash, DepositHash(d)))|
            && forall a, b :: a in matching && b in matching ==> FilledSameDeposit(cfg.hash, a, b)
  {
    var all, k := FillsIn(cfg, Merge(run).events), DepositHash(d);
    var matching := Filter(all, FillsSameDeposit(cfg.hash, d));
    forall a, b | a in matching && b in matching ensures FilledSameDeposit(cfg.hash, a, b) {
      FilterMembers(all, FillsSameDeposit(cfg.hash, d), a);
      FilterMembers(all, FillsSameDeposit(cfg.hash, d), b);
      assert FillDepositHash(b) == DepositKey(b.relay.depositId, b.relay.originChainId);
      FillsOfOneDeposit(cfg.hash, d, a, b);
    }
    FillsRecord(cfg, run, 0, k);
    FilterTwice(all, HasKey(FillDepositHash, k), Fills(cfg.hash, d), FillsSameDeposit(cfg.hash, d));
    FilterSplits(Filter(all, HasKey(FillDepositHash, k)), Fills(cfg.hash, d), Misses(cfg.hash, d));
  }

  lemma {:induction false} FilterSplits<T>(s: seq<T>, p: T -> bool, q: T -> bool)
    requires forall x :: p(x) != q(x)
    ensures |Filter(s, p)| + |Filter(s, q)| == |s|
  {
    if s != [] {
      FilterSplits(Init(s), p, q);
    }
  }
}
