/**
 What the SpokePoolClient's indexes hold, read off the events themselves, field by field
 (src/clients/SpokePoolClient.ts:234-261, 312-359 and 526-660).
 */
module SpokeRecords {
  import opened Wrappers
  import opened Numbers
  import opened Sequences
  import opened EventUtils
  import opened ObjectUtils
  import opened SpokePool
  import opened SpokeIndexes
  import opened SpokeReplay

  // ---------- plain lists ----------

  predicate IsTokensBridged(e: Event<SpokeEvent>) { e.args.TokensBridged? }

  predicate IsRootBundleRelay(e: Event<SpokeEvent>) { e.args.RelayedRootBundle? }

  predicate IsRefundExecution(e: Event<SpokeEvent>) { e.args.ExecutedRelayerRefundRoot? }

  /** Bridged tokens, root bundle relays and refund executions are kept as they were logged, in order. */
  lemma ListsFromTheLog(cfg: SpokeConfig, run: seq<Batch>)
    ensures var (st, events) := (Run(cfg, run), Merge(run).events);
            && st.tokensBridged == Filter(events, IsTokensBridged)
            && st.rootBundleRelays == Filter(events, IsRootBundleRelay)
            && st.relayerRefundExecutions == Filter(events, IsRefundExecution)
  {
    var events := Merge(run).events;
    ListsRecord(cfg, run);
    hide Run, Merge, Filter;
    FilterAgree(events, IsKind(Bridged), IsTokensBridged);
    FilterAgree(events, IsKind(Roots), IsRootBundleRelay);
    FilterAgree(events, IsKind(Refunds), IsRefundExecution);
  }

  // ---------- routes ----------

  function SetsRoute(token: string, chain: nat): Event<SpokeEvent> -> bool {
    (e: Event<SpokeEvent>) =>
      e.args.EnabledDepositRoute? && e.args.originToken == token && e.args.routeChainId == chain
  }

  /** A deposit route is as the last event about it left it. */
  lemma RoutesFromTheLog(cfg: SpokeConfig, run: seq<Batch>, token: string, chain: nat)
    ensures var (routes, last) := (Run(cfg, run).depositRoutes, FindLast(Merge(run).routes, SetsRoute(token, chain)));
            && ((token, chain) in routes <==> last.Some?)
            && (last.Some? ==>
                  last.value.args.EnabledDepositRoute? && routes[(token, chain)].Truthy() == last.value.args.enabled)
  {
    var log := Merge(run).routes;
    RoutesRecord(cfg, run, (token, chain));
    CollectedEnds(log, RouteOf, FirstIs((token, chain)), SetsRoute(token, chain));
    var i := FindLastWitness(log, SetsRoute(token, chain));
  }

  // ---------- fills ----------

  function FillsFrom(origin: nat): Event<SpokeEvent> -> bool {
    (e: Event<SpokeEvent>) => e.args.FilledV3Relay? && e.args.filled.originChainId == origin
  }

  function FillsDepositOf(origin: nat, depositId: nat): Event<SpokeEvent> -> bool {
    (e: Event<SpokeEvent>) => IsFillAt(origin, depositId, e)
  }

  predicate IsFillAt(origin: nat, depositId: nat, e: Event<SpokeEvent>) {
    e.args.FilledV3Relay? && e.args.filled.originChainId == origin && e.args.filled.depositId == depositId
  }

  /** The fill says what its event says, and that it was made on this chain. */
  predicate IsFillOf(cfg: SpokeConfig, e: Event<SpokeEvent>, fill: Fill) {
    && e.args.FilledV3Relay?
    && fill.relay == e.args.filled && fill.destinationChainId == cfg.chainId
    && fill.relayer == e.args.relayer && fill.repaymentChainId == e.args.repaymentChainId && fill.pos == e.pos
  }

  ghost predicate AreFills(cfg: SpokeConfig, events: Log, fills: seq<Fill>) {
    |fills| == |events| && forall i :: 0 <= i < |fills| ==> IsFillOf(cfg, events[i], fills[i])
  }

  lemma FillsOfEvents(cfg: SpokeConfig, log: Log, p: Fill -> bool, q: Event<SpokeEvent> -> bool)
    requires forall e :: e in log ==> (q(e) <==> FillOf(cfg)(e).Some? && p(FillOf(cfg)(e).value))
    ensures AreFills(cfg, Filter(log, q), Filter(FillsIn(cfg, log), p))
  {
    CollectedAre(log, FillOf(cfg), p, q);
    var (picked, images) := (Filter(log, q), Filter(FillsIn(cfg, log), p));
    forall i | 0 <= i < |images| ensures IsFillOf(cfg, picked[i], images[i]) {
      assert FillOf(cfg)(picked[i]) == Some(images[i]);
    }
  }

  lemma KeyOfFill(cfg: SpokeConfig, e: Event<SpokeEvent>, k: DepositKey)
    ensures FillOf(cfg)(e).Some? <==> e.args.FilledV3Relay?
    ensures e.args.FilledV3Relay? ==> IsFillOf(cfg, e, FillOf(cfg)(e).value)
    ensures e.args.FilledV3Relay? ==>
              (FillDepositHash(FillOf(cfg)(e).value) == k <==> IsFillAt(k.originChainId, k.depositId, e))
  {
    if e.args.FilledV3Relay? {
      assert FillDepositHash(FillOf(cfg)(e).value) == DepositKey(e.args.filled.depositId, e.args.filled.originChainId);
    }
  }

  /** Under each origin chain are the fills of its deposits, and under each deposit those with its id, as logged. */
  lemma FillsFromTheLog(cfg: SpokeConfig, run: seq<Batch>, origin: nat, depositId: nat)
    ensures var (st, events) := (Run(cfg, run), Merge(run).events);
            && AreFills(cfg, Filter(events, FillsFrom(origin)), Get(st.fills, origin))
            && AreFills(cfg, Filter(events, FillsDepositOf(origin, depositId)),
                        Get(st.depositHashesToFills, DepositKey(depositId, origin)))
  {
    var (events, k) := (Merge(run).events, DepositKey(depositId, origin));
    FillsRecord(cfg, run, origin, k);
    hide Run, Merge;
    forall e
      ensures FillsDepositOf(origin, depositId)(e) <==>
              FillOf(cfg)(e).Some? && HasKey(FillDepositHash, k)(FillOf(cfg)(e).value)
      ensures FillsFrom(origin)(e) <==> FillOf(cfg)(e).Some? && HasKey(FillOrigin, origin)(FillOf(cfg)(e).value)
    {
      KeyOfFill(cfg, e, k);
      assert e.args.FilledV3Relay? ==> FillOrigin(FillOf(cfg)(e).value) == e.args.filled.originChainId;
    }
    FillsOfEvents(cfg, events, HasKey(FillOrigin, origin), FillsFrom(origin));
    FillsOfEvents(cfg, events, HasKey(FillDepositHash, k), FillsDepositOf(origin, depositId));
  }

  /** The fill has the relay hash of the deposit. */
  predicate HasHashOf(cfg: SpokeConfig, d: Deposit, e: Event<SpokeEvent>) {
    e.args.FilledV3Relay? && cfg.hash(e.args.filled, cfg.chainId) == cfg.hash(d.relay, d.destinationChainId)
  }

  function FillsRightly(cfg: SpokeConfig, d: Deposit): Event<SpokeEvent> -> bool {
    (e: Event<SpokeEvent>) =>
      IsFillAt(d.relay.originChainId, d.relay.depositId, e) && HasHashOf(cfg, d, e)
  }

  function FillsWrongly(cfg: SpokeConfig, d: Deposit): Event<SpokeEvent> -> bool {
    (e: Event<SpokeEvent>) =>
      IsFillAt(d.relay.originChainId, d.relay.depositId, e) && !HasHashOf(cfg, d, e)
  }

  function MissesSameDeposit(hash: RelayHash, d: Deposit): Fill -> bool {
    (f: Fill) => FillDepositHash(f) == DepositHash(d) && !ValidateFillForDeposit(hash, f, Some(d))
  }

  lemma RightOrWrong(cfg: SpokeConfig, d: Deposit, e: Event<SpokeEvent>)
    ensures FillsRightly(cfg, d)(e) <==> FillOf(cfg)(e).Some? && FillsSameDeposit(cfg.hash, d)(FillOf(cfg)(e).value)
    ensures FillsWrongly(cfg, d)(e) <==> FillOf(cfg)(e).Some? && MissesSameDeposit(cfg.hash, d)(FillOf(cfg)(e).value)
  {
    KeyOfFill(cfg, e, DepositHash(d));
    if e.args.FilledV3Relay? {
      var fill := FillOf(cfg)(e).value;
      assert DepositHash(d) == DepositKey(d.relay.depositId, d.relay.originChainId);
      assert ValidateFillForDeposit(cfg.hash, fill, Some(d)) <==> HasHashOf(cfg, d, e);
    }
  }

  /** A deposit is filled once the log has a fill of it with its hash; fills of it with another hash are the invalid ones. */
  lemma UnfilledFromTheEvents(cfg: SpokeConfig, run: seq<Batch>, d: Deposit)
    ensures var (r, events) := (GetValidUnfilledAmountForDeposit(cfg.hash, Run(cfg, run), d), Merge(run).events);
            && r.fillCount == |Filter(events, FillsRightly(cfg, d))|
            && r.unfilledAmount == (if r.fillCount == 0 then d.relay.outputAmount else 0)
            && AreFills(cfg, Filter(events, FillsWrongly(cfg, d)), r.invalidFills)
  {
    var (events, k) := (Merge(run).events, DepositHash(d));
    var all := FillsIn(cfg, events);
    FillsRecord(cfg, run, 0, k);
    hide Run, Merge, Collect, Filter, AreFills;
    var (right, wrong) := (FillsSameDeposit(cfg.hash, d), MissesSameDeposit(cfg.hash, d));
    var group := Filter(all, HasKey(FillDepositHash, k));
    FilterTwice(all, HasKey(FillDepositHash, k), SpokeReplay.Fills(cfg.hash, d), right);
    FilterTwice(all, HasKey(FillDepositHash, k), Misses(cfg.hash, d), wrong);
    RightFills(cfg, events, d);
    assert AreFills(cfg, Filter(events, FillsWrongly(cfg, d)), Filter(group, Misses(cfg.hash, d)));
    assert |Filter(events, FillsRightly(cfg, d))| == |Filter(group, SpokeReplay.Fills(cfg.hash, d))|;
    NoneOfNone(cfg, d);
  }

  lemma NoneOfNone(cfg: SpokeConfig, d: Deposit)
    ensures Filter([], Misses(cfg.hash, d)) == [] && Filter([], SpokeReplay.Fills(cfg.hash, d)) == []
  {
  }

  lemma RightFills(cfg: SpokeConfig, events: Log, d: Deposit)
    ensures |Filter(events, FillsRightly(cfg, d))| == |Filter(FillsIn(cfg, events), FillsSameDeposit(cfg.hash, d))|
    ensures AreFills(cfg, Filter(events, FillsWrongly(cfg, d)), Filter(FillsIn(cfg, events), MissesSameDeposit(cfg.hash, d)))
  {
    hide Filter, Collect;
    forall e
      ensures FillsRightly(cfg, d)(e) <==> FillOf(cfg)(e).Some? && FillsSameDeposit(cfg.hash, d)(FillOf(cfg)(e).value)
      ensures FillsWrongly(cfg, d)(e) <==> FillOf(cfg)(e).Some? && MissesSameDeposit(cfg.hash, d)(FillOf(cfg)(e).value)
    {
      RightOrWrong(cfg, d, e);
    }
    FillsOfEvents(cfg, events, FillsSameDeposit(cfg.hash, d), FillsRightly(cfg, d));
    FillsOfEvents(cfg, events, MissesSameDeposit(cfg.hash, d), FillsWrongly(cfg, d));
  }

  // ---------- slow fills ----------

  function RequestsSlowFill(cfg: SpokeConfig, hash: string): Event<SpokeEvent> -> bool {
    (e: Event<SpokeEvent>) => e.args.RequestedV3SlowFill? && cfg.hash(e.args.slowFill, cfg.chainId) == hash
  }

  /** Under each relay hash is the first request with that hash, as logged. */
  lemma SlowFillsFromTheLog(cfg: SpokeConfig, run: seq<Batch>, hash: string)
    ensures var (requests, first) := (Run(cfg, run).slowFillRequests, Find(Merge(run).events, RequestsSlowFill(cfg, hash)));
            && (hash in requests <==> first.Some?)
            && (first.Some? ==>
                  && first.value.args.RequestedV3SlowFill?
                  && requests[hash].relay == first.value.args.slowFill && requests[hash].pos == first.value.pos
                  && requests[hash].destinationChainId == cfg.chainId)
  {
    var events := Merge(run).events;
    SlowFillsRecord(cfg, run, hash);
    CollectedEnds(events, SlowFillOf(cfg), HasKey(SlowFillHash(cfg), hash), RequestsSlowFill(cfg, hash));
    var i := FindWitness(events, RequestsSlowFill(cfg, hash));
  }

  // ---------- speed-ups ----------

  function SpeedsUp(depositor: string, depositId: nat): Event<SpokeEvent> -> bool {
    (e: Event<SpokeEvent>) =>
      && e.args.RequestedSpeedUpV3Deposit?
      && e.args.speedUp.depositor == depositor && e.args.speedUp.depositId == depositId
  }

  ghost predicate AreSpeedUps(events: Log, speedUps: seq<SpeedUp>) {
    |speedUps| == |events| && forall i :: 0 <= i < |events| ==>
      events[i].args.RequestedSpeedUpV3Deposit? && speedUps[i] == events[i].args.speedUp
  }

  /** Under each depositor and id are all speed-ups they signed, as logged. */
  lemma SpeedUpsFromTheLog(cfg: SpokeConfig, run: seq<Batch>, depositor: string, depositId: nat)
    ensures AreSpeedUps(Filter(Merge(run).events, SpeedsUp(depositor, depositId)),
                        Get(Run(cfg, run).speedUps, (depositor, depositId)))
  {
    var key := (depositor, depositId);
    SpeedUpsRecord(cfg, run, key);
    SpeedUpsOfEvents(Merge(run).events, depositor, depositId);
  }

  lemma SpeedUpsOfEvents(log: Log, depositor: string, depositId: nat)
    ensures AreSpeedUps(Filter(log, SpeedsUp(depositor, depositId)),
                        Filter(SpeedUpsIn(log), HasKey(SpeedUpKeyOf, (depositor, depositId))))
  {
    var (p, q) := (HasKey(SpeedUpKeyOf, (depositor, depositId)), SpeedsUp(depositor, depositId));
    assert forall s: SpeedUp :: p(s) <==> s.depositor == depositor && s.depositId == depositId;
    CollectedAre(log, SpeedUpOf, p, q);
    var (picked, images) := (Filter(log, q), Filter(SpeedUpsIn(log), p));
    forall i | 0 <= i < |picked| ensures picked[i].args.RequestedSpeedUpV3Deposit? && images[i] == picked[i].args.speedUp {
      assert SpeedUpOf(picked[i]) == Some(images[i]);
    }
  }

  // ---------- deposits ----------

  function Deposited(cfg: SpokeConfig, depositId: nat): Event<SpokeEvent> -> bool {
    (e: Event<SpokeEvent>) => CanBeDerived(cfg, e) && e.args.relay.depositId == depositId
  }

  function NamesDeposit(depositId: nat): Event<SpokeEvent> -> bool {
    (e: Event<SpokeEvent>) => e.args.RequestedSpeedUpV3Deposit? && e.args.speedUp.depositId == depositId
  }

  /** Some update that knew the deposit by then, or learnt of it, also read a speed-up naming it. */
  predicate Heard(cfg: SpokeConfig, run: seq<Batch>, depositId: nat) {
    run != [] &&
    (|| Heard(cfg, Init(run), depositId)
     || (Find(Merge(run).events, Deposited(cfg, depositId)).Some? && Find(Last(run).events, NamesDeposit(depositId)).Some?))
  }

  /** The i-th of the speed-ups asks for the least output amount, and none after it for as little. */
  predicate IsBest(events: Log, i: nat) {
    && i < |events| && (forall e :: e in events ==> e.args.RequestedSpeedUpV3Deposit?)
    && (forall j :: 0 <= j < |events| ==>
          events[i].args.speedUp.terms.outputAmount <= events[j].args.speedUp.terms.outputAmount)
    && forall j :: i < j < |events| ==>
         events[i].args.speedUp.terms.outputAmount < events[j].args.speedUp.terms.outputAmount
  }

  /** The terms that the speed-ups give a deposit: the best ones, if they ask for less than it pays out. */
  ghost predicate AreTerms(events: Log, outputAmount: int, terms: Option<UpdatedTerms>) {
    if events == [] then terms == None
    else
      exists i: nat ::
        && IsBest(events, i)
        && terms == if events[i].args.speedUp.terms.outputAmount < outputAmount
                    then Some(events[i].args.speedUp.terms) else None
  }

  lemma FirstFromTheLog(cfg: SpokeConfig, run: seq<Batch>, k: DepositKey)
    ensures FirstDeposit(cfg, run, k).Some? <==>
            k.originChainId == cfg.chainId && Find(Merge(run).events, Deposited(cfg, k.depositId)).Some?
    ensures FirstDeposit(cfg, run, k).Some? ==>
              var (e, d) := (Find(Merge(run).events, Deposited(cfg, k.depositId)).value, FirstDeposit(cfg, run, k).value);
              && IsDepositOf(cfg, e, d.quoteBlockNumber, d) && e.args.relay.depositId == k.depositId && d.updated == None
  {
    var (events, p, q) := (Merge(run).events, HasKey(DepositHash, k), Deposited(cfg, k.depositId));
    forall e: Event<SpokeEvent>
      ensures DepositOf(cfg)(e).Some? ==>
                DepositHash(DepositOf(cfg)(e).value) == DepositKey(e.args.relay.depositId, cfg.chainId)
      ensures DepositOf(cfg)(e).Some? <==> CanBeDerived(cfg, e)
    {
      if e.args.V3FundsDeposited? {
        DerivedFromEvent(cfg, e);
      }
    }
    var i := FindWitness(events, q);
    var j := FindWitness(AllDeposits(cfg, run), p);
    hide DeriveDeposit, CanBeDerived;
    if k.originChainId == cfg.chainId {
      CollectedEnds(events, DepositOf(cfg), p, q);
      if Find(events, q).Some? {
        DerivedFromEvent(cfg, events[i]);
      }
    } else if FirstDeposit(cfg, run, k).Some? {
      FirstDepositKey(cfg, run, k);
    }
  }

  lemma NamedInTheLog(cfg: SpokeConfig, log: Log, k: DepositKey)
    requires k.originChainId == cfg.chainId
    ensures Names(cfg.chainId, SpeedUpsIn(log), k) <==> Find(log, NamesDeposit(k.depositId)).Some?
  {
    CollectedAre(log, SpeedUpOf, HasKey(Target(cfg.chainId), k), NamesDeposit(k.depositId));
    FindFirst(log, NamesDeposit(k.depositId));
  }

  lemma {:induction false} HeardIsTouched(cfg: SpokeConfig, run: seq<Batch>, k: DepositKey)
    requires k.originChainId == cfg.chainId
    ensures Touched(cfg, run, k) <==> Heard(cfg, run, k.depositId)
  {
    if run != [] {
      HeardIsTouched(cfg, Init(run), k);
      FirstFromTheLog(cfg, run, k);
      NamedInTheLog(cfg, Last(run).events, k);
    }
  }

  lemma TermsOfQuote(events: Log, speedUps: seq<SpeedUp>, d: Deposit)
    requires AreSpeedUps(events, speedUps) && d.updated == None
    ensures AreTerms(events, d.relay.outputAmount, Quoted(speedUps, d).updated)
    ensures Quoted(speedUps, d).(updated := None) == d
  {
    if events != [] {
      var i := LeastIsLastOfTheLeast(speedUps);
      assert IsBest(events, i);
    }
  }

  /**
   The record of every deposit after any schedule of updates, read off the log: an id is stored from its first deposit
   that can be derived, as logged, with the terms of the best speed-up that its own depositor signed, once some update
   that knew the deposit read one naming it.
   */
  lemma DepositFromTheLog(cfg: SpokeConfig, run: seq<Batch>, k: DepositKey)
    ensures var (deposits, events) := (Run(cfg, run).deposits, Merge(run).events);
            var first := Find(events, Deposited(cfg, k.depositId));
            && (k in deposits <==> k.originChainId == cfg.chainId && first.Some?)
            && (k in deposits ==>
                  var d := deposits[k];
                  && IsDepositOf(cfg, first.value, d.quoteBlockNumber, d)
                  && if Heard(cfg, run, k.depositId)
                     then AreTerms(Filter(events, SpeedsUp(first.value.args.relay.depositor, k.depositId)),
                                   first.value.args.relay.outputAmount, d.updated)
                     else d.updated == None)
  {
    DepositRecord(cfg, run, k);
    FirstFromTheLog(cfg, run, k);
    if FirstDeposit(cfg, run, k).Some? {
      var d := FirstDeposit(cfg, run, k).value;
      var own := OwnSpeedUps(run, d);
      HeardIsTouched(cfg, run, k);
      hide Run, Merge, FirstDeposit, Touched, Heard, Quoted, CanBeDerived, Find;
      SpeedUpsOfEvents(Merge(run).events, d.relay.depositor, k.depositId);
      TermsOfQuote(Filter(Merge(run).events, SpeedsUp(d.relay.depositor, k.depositId)), own, d);
    }
  }

  /** The bounds on the ids are the least and the greatest id of the deposits ingested, within their starting values. */
  lemma BoundsFromTheLog(cfg: SpokeConfig, run: seq<Batch>)
    ensures var (st, events) := (Run(cfg, run), Merge(run).events);
            && (forall e :: e in events && CanBeDerived(cfg, e) ==>
                  st.earliestDepositIdQueried <= e.args.relay.depositId <= st.latestDepositIdQueried)
            && st.earliestDepositIdQueried <= MAX_SAFE_INTEGER
            && (st.earliestDepositIdQueried == MAX_SAFE_INTEGER
                || exists e :: e in events && CanBeDerived(cfg, e) && e.args.relay.depositId == st.earliestDepositIdQueried)
            && (st.latestDepositIdQueried == 0
                || exists e :: e in events && CanBeDerived(cfg, e) && e.args.relay.depositId == st.latestDepositIdQueried)
  {
    var (st, events, all) := (Run(cfg, run), Merge(run).events, AllDeposits(cfg, run));
    IdBounds(cfg, run);
    forall d | d in all ensures exists e :: e in events && CanBeDerived(cfg, e) && e.args.relay.depositId == d.relay.depositId {
      CollectMembers(events, DepositOf(cfg), d);
      var e :| e in events && DepositOf(cfg)(e) == Some(d);
      DerivedFromEvent(cfg, e);
    }
    forall e | e in events && CanBeDerived(cfg, e) ensures exists d :: d in all && d.relay.depositId == e.args.relay.depositId {
      DerivedFromEvent(cfg, e);
      var d := DeriveDeposit(cfg, e).value;
      assert DepositOf(cfg)(e) == Some(d);
      CollectMembers(events, DepositOf(cfg), d);
    }
    hide Run, Merge, CanBeDerived, DeriveDeposit, AllDeposits;
  }
}
