/**
 LP fees of a batch of deposits (src/clients/HubPoolClient.ts:287-296 and 334-452): three memo tables are filled before
 any fee is computed, and yet every deposit gets the fee it would get alone.
 */
module HubPoolFees {
  import opened Wrappers
  import opened Numbers
  import opened EventUtils
  import opened FixedPoint
  import opened LpFeeCalculator
  import opened HubPoolTokens

  datatype LpFeeRequest = LpFeeRequest(
    originChainId: nat, inputToken: string, inputAmount: int, quoteTimestamp: nat, paymentChainId: Option<nat>)

  datatype RealizedLpFee = RealizedLpFee(quoteBlock: nat, realizedLpFeePct: int)

  /** What the batch asks of others; `None` where they throw or answer undefined. */
  datatype Market = Market(
    blockOf: nat -> Option<nat>,
    canCache: nat -> bool,
    utilizationAt: (string, nat, int) -> Option<int>,
    rateModel: (string, nat, nat, nat) -> Option<RateModel>,
    weeklyFee: int -> int)

  /** `getUtilization`: the external cache holds what the chain would answer, but its age check can throw. */
  function GetUtilization(m: Market, hubPoolToken: string, block: nat, amount: int, timestamp: nat): Option<int> {
    if m.canCache(timestamp) then m.utilizationAt(hubPoolToken, block, amount) else None
  }

  /** `calculateRealizedLpFeePct`, which divides by zero for a kink at 100%. */
  function CalculateRealizedLpFeePct(m: Market, model: RateModel, before: int, after: int): Option<int> {
    if model.UBar == ONE then None else Some(m.weeklyFee(CalculateApyFromUtilization(model, before, after)))
  }

  // ---------- one deposit ----------

  /** The HubPool token of a deposit, resolved when its quote block is not known yet: the latest mapping is used. */
  function HubTokenOf(log: RouteLog, d: LpFeeRequest): Option<string> {
    L1TokenAsOf(log, d.inputToken, d.originChainId, MAX_SAFE_INTEGER)
  }

  /** The fee of a deposit by itself. */
  function FeeOf(log: RouteLog, m: Market, d: LpFeeRequest): Option<RealizedLpFee> {
    match (HubTokenOf(log, d), m.blockOf(d.quoteTimestamp))
    case (Some(token), Some(block)) =>
      (match GetUtilization(m, token, block, 0, d.quoteTimestamp)
       case Some(before) => FeeAt(m, d, token, block, before)
       case None => None)
    case _ => None
  }

  /** The fee once the deposit's token, quote block and the utilization before it are known. */
  function FeeAt(m: Market, d: LpFeeRequest, token: string, block: nat, before: int): Option<RealizedLpFee> {
    if d.paymentChainId.None? then Some(RealizedLpFee(block, 0))
    else
      var model := m.rateModel(token, d.originChainId, d.paymentChainId.value, block);
      var after := GetUtilization(m, token, block, d.inputAmount, d.quoteTimestamp);
      if model.None? || after.None? then None
      else
        match CalculateRealizedLpFeePct(m, model.value, before, after.value)
        case None => None
        case Some(fee) => Some(RealizedLpFee(block, fee))
  }

  // ---------- what the fee is ----------

  /** The pool that the deposit's token is mapped to now. */
  ghost predicate IsPoolOf(log: RouteLog, d: LpFeeRequest, token: string) {
    L1TokenAsOf(log, d.inputToken, d.originChainId, MAX_SAFE_INTEGER) == Some(token)
  }

  /** The pool's utilization at the block once this much more of it is in use. */
  ghost predicate IsUtilization(m: Market, d: LpFeeRequest, token: string, block: nat, amount: int, utilization: int) {
    m.canCache(d.quoteTimestamp) && m.utilizationAt(token, block, amount) == Some(utilization)
  }

  /** The realized APY of moving from one utilization to another: between the exact rates of the curve at the two. */
  ghost predicate IsApy(model: RateModel, before: int, after: int, apy: int) {
    && model.UBar != ONE && apy == CalculateApyFromUtilization(model, before, after)
    && (IsCurve(model) && 0 <= before < after <= ONE ==>
          ExactRate(model, before as real) - Slack(before, after) - 1.0 < apy as real
          < ExactRate(model, after as real) + Slack(before, after))
    && (IsCurve(model) && 0 <= before == after <= ONE ==> apy as real <= ExactRate(model, before as real) < apy as real + 1.0)
  }

  /**
   The fee of a deposit: none without a payment chain, and else the weekly fee for the APY of moving the pool from its
   utilization at the quote block to that with the deposit's amount added, on the rate model of the route at that block.
   */
  ghost predicate IsPriced(log: RouteLog, m: Market, d: LpFeeRequest, fee: RealizedLpFee) {
    exists token, before ::
      && IsPoolOf(log, d, token) && m.blockOf(d.quoteTimestamp) == Some(fee.quoteBlock)
      && IsUtilization(m, d, token, fee.quoteBlock, 0, before)
      && (d.paymentChainId.None? ==> fee.realizedLpFeePct == 0)
      && (d.paymentChainId.Some? ==> IsPricedOn(m, d, token, before, d.paymentChainId.value, fee))
  }

  ghost predicate IsPricedOn(m: Market, d: LpFeeRequest, token: string, before: int, payment: nat, fee: RealizedLpFee) {
    exists model, after, apy ::
      && m.rateModel(token, d.originChainId, payment, fee.quoteBlock) == Some(model)
      && IsUtilization(m, d, token, fee.quoteBlock, d.inputAmount, after)
      && IsApy(model, before, after, apy) && fee.realizedLpFeePct == m.weeklyFee(apy)
  }

  /** All that the fee needs is known. */
  ghost predicate HasPrice(log: RouteLog, m: Market, d: LpFeeRequest) {
    exists token, block, before ::
      && IsPoolOf(log, d, token) && m.blockOf(d.quoteTimestamp) == Some(block)
      && IsUtilization(m, d, token, block, 0, before)
      && (d.paymentChainId.Some? ==>
            exists model, after ::
              && m.rateModel(token, d.originChainId, d.paymentChainId.value, block) == Some(model) && model.UBar != ONE
              && IsUtilization(m, d, token, block, d.inputAmount, after))
  }

  lemma ApyIsBounded(model: RateModel, before: int, after: int)
    requires model.UBar != ONE
    ensures IsApy(model, before, after, CalculateApyFromUtilization(model, before, after))
  {
    if IsCurve(model) && 0 <= before <= after <= ONE {
      ApyBetweenRates(model, before, after);
    }
    hide CalculateApyFromUtilization, ExactRate, IsCurve;
  }

  /** A deposit has a fee exactly if all that it needs is known. */
  lemma FeeIsPriced(log: RouteLog, m: Market, d: LpFeeRequest)
    ensures FeeOf(log, m, d).Some? <==> HasPrice(log, m, d)
    ensures FeeOf(log, m, d).Some? ==> IsPriced(log, m, d, FeeOf(log, m, d).value)
  {
    hide CalculateApyFromUtilization, IsApy, L1TokenAsOf;
    var fee, token, block := FeeOf(log, m, d), HubTokenOf(log, d), m.blockOf(d.quoteTimestamp);
    if fee.Some? {
      var before := m.utilizationAt(token.value, block.value, 0).value;
      assert IsPoolOf(log, d, token.value) && IsUtilization(m, d, token.value, block.value, 0, before);
      if d.paymentChainId.Some? {
        var model := m.rateModel(token.value, d.originChainId, d.paymentChainId.value, block.value).value;
        var after := m.utilizationAt(token.value, block.value, d.inputAmount).value;
        ApyIsBounded(model, before, after);
        assert IsUtilization(m, d, token.value, block.value, d.inputAmount, after);
        assert IsPricedOn(m, d, token.value, before, d.paymentChainId.value, fee.value);
      }
    }
  }

  /** There is one such fee. */
  lemma PricedOnce(log: RouteLog, m: Market, d: LpFeeRequest, a: RealizedLpFee, b: RealizedLpFee)
    requires IsPriced(log, m, d, a) && IsPriced(log, m, d, b)
    ensures a == b
  {
    hide CalculateApyFromUtilization, L1TokenAsOf, IsCurve, ExactRate;
  }

  // ---------- the memo tables ----------

  type TokenKey = (nat, string)

  function KeyOf(d: LpFeeRequest): TokenKey {
    (d.originChainId, d.inputToken)
  }

  /** `hubPoolTokens` and `utilizationTimestamps`. */
  datatype Tables = Tables(hubPoolTokens: map<TokenKey, string>, timestamps: map<string, seq<nat>>)

  /** The tables know the token and quote timestamp of every deposit. */
  ghost predicate Complete(log: RouteLog, t: Tables, deposits: seq<LpFeeRequest>) {
    forall d :: d in deposits ==>
      && KeyOf(d) in t.hubPoolTokens
      && HubTokenOf(log, d) == Some(t.hubPoolTokens[KeyOf(d)])
      && t.hubPoolTokens[KeyOf(d)] in t.timestamps
      && d.quoteTimestamp in t.timestamps[t.hubPoolTokens[KeyOf(d)]]
  }

  /** Each memoised token is that of its key, and has an entry in the other table. */
  ghost predicate Coherent(log: RouteLog, t: Tables) {
    forall k :: k in t.hubPoolTokens ==>
      && t.hubPoolTokens[k] in t.timestamps
      && L1TokenAsOf(log, k.1, k.0, MAX_SAFE_INTEGER) == Some(t.hubPoolTokens[k])
  }

  ghost predicate Wanted(log: RouteLog, deposits: seq<LpFeeRequest>, token: string, timestamp: nat) {
    exists d :: d in deposits && HubTokenOf(log, d) == Some(token) && d.quoteTimestamp == timestamp
  }

  /** The tables ask for nothing that no deposit needs. */
  ghost predicate Needed(log: RouteLog, t: Tables, deposits: seq<LpFeeRequest>) {
    forall token, timestamp :: token in t.timestamps && timestamp in t.timestamps[token] ==>
      Wanted(log, deposits, token, timestamp)
  }

  /** The first pass, over the deposits: `resolveUniqueQuoteTimestamps`. */
  method ResolveTokens(deposits: seq<LpFeeRequest>, ix: TokenIndex, ghost log: RouteLog) returns (r: Result<Tables>)
    requires IsLog(log) && Indexes(ix, log)
    ensures r.Success? <==> forall d :: d in deposits ==> HubTokenOf(log, d).Some?
    ensures r.Success? ==> Complete(log, r.value, deposits) && Coherent(log, r.value) && Needed(log, r.value, deposits)
  {
    var t := Tables(map[], map[]);
    for i := 0 to |deposits|
      invariant forall d :: d in deposits[..i] ==> HubTokenOf(log, d).Some?
      invariant Complete(log, t, deposits[..i]) && Coherent(log, t) && Needed(log, t, deposits)
    {
      var d := deposits[i];
      assert deposits[..i + 1] == deposits[..i] + [d] && d in deposits;
      var hubPoolToken: string;
      if KeyOf(d) in t.hubPoolTokens {
        hubPoolToken := t.hubPoolTokens[KeyOf(d)];
      } else {
        var resolved := GetL1TokenForL2TokenAtBlock(ix, d.inputToken, d.originChainId, MAX_SAFE_INTEGER, log);
        if resolved.Failure? {
          return Failure(resolved.error);
        }
        hubPoolToken := resolved.value;
      }
      var enqueued := if hubPoolToken in t.timestamps then t.timestamps[hubPoolToken] else [];
      ghost var before := t;
      t := Tables(t.hubPoolTokens[KeyOf(d) := hubPoolToken],
                  t.timestamps[hubPoolToken := if d.quoteTimestamp in enqueued then enqueued
                                               else enqueued + [d.quoteTimestamp]]);
      Enqueued(log, before, t, deposits, i, hubPoolToken);
    }
    assert deposits[..|deposits|] == deposits;
    return Success(t);
  }

  /** One deposit's entries complete the tables for it and spoil nothing. */
  lemma Enqueued(log: RouteLog, before: Tables, t: Tables, deposits: seq<LpFeeRequest>, i: nat, token: string)
    requires i < |deposits| && HubTokenOf(log, deposits[i]) == Some(token)
    requires Complete(log, before, deposits[..i]) && Coherent(log, before) && Needed(log, before, deposits)
    requires t.hubPoolTokens == before.hubPoolTokens[KeyOf(deposits[i]) := token]
    requires t.timestamps.Keys == before.timestamps.Keys + {token}
    requires forall other :: other in before.timestamps && other != token ==> t.timestamps[other] == before.timestamps[other]
    requires forall ts :: ts in t.timestamps[token] <==>
               ts == deposits[i].quoteTimestamp || (token in before.timestamps && ts in before.timestamps[token])
    ensures Complete(log, t, deposits[..i + 1]) && Coherent(log, t) && Needed(log, t, deposits)
  {
    assert deposits[i] in deposits;
    forall d | d in deposits[..i + 1]
      ensures KeyOf(d) in t.hubPoolTokens && HubTokenOf(log, d) == Some(t.hubPoolTokens[KeyOf(d)])
      ensures t.hubPoolTokens[KeyOf(d)] in t.timestamps && d.quoteTimestamp in t.timestamps[t.hubPoolTokens[KeyOf(d)]]
    {
      assert d in deposits[..i] || d == deposits[i];
    }
    forall other, ts | other in t.timestamps && ts in t.timestamps[other] ensures Wanted(log, deposits, other, ts) {
      if other == token && ts == deposits[i].quoteTimestamp {
        assert Wanted(log, deposits, token, ts);
      } else {
        assert other in before.timestamps && ts in before.timestamps[other];
      }
    }
  }

  /** Every quote timestamp resolved once: `resolveTimestampsToBlocks` over the distinct ones. */
  method ResolveBlocks(deposits: seq<LpFeeRequest>, m: Market) returns (r: Result<map<nat, nat>>)
    ensures r.Success? <==> forall d :: d in deposits ==> m.blockOf(d.quoteTimestamp).Some?
    ensures r.Success? ==> forall d :: d in deposits ==>
              d.quoteTimestamp in r.value && m.blockOf(d.quoteTimestamp) == Some(r.value[d.quoteTimestamp])
  {
    var quoteBlocks: map<nat, nat> := map[];
    for i := 0 to |deposits|
      invariant forall ts :: ts in quoteBlocks ==> m.blockOf(ts) == Some(quoteBlocks[ts])
      invariant forall d :: d in deposits[..i] ==> d.quoteTimestamp in quoteBlocks
    {
      var d := deposits[i];
      assert deposits[..i + 1] == deposits[..i] + [d] && d in deposits;
      if d.quoteTimestamp !in quoteBlocks {
        var quoteBlock := m.blockOf(d.quoteTimestamp);
        if quoteBlock.None? {
          return Failure("Could not find block for timestamp");
        }
        quoteBlocks := quoteBlocks[d.quoteTimestamp := quoteBlock.value];
      }
    }
    assert deposits[..|deposits|] == deposits;
    return Success(quoteBlocks);
  }

  /** `utilization[hubPoolToken][blockNumber]`. */
  type Utilization = map<(string, nat), int>

  ghost predicate Measured(m: Market, u: Utilization, quoteBlocks: map<nat, nat>, token: string, timestamp: nat) {
    && timestamp in quoteBlocks
    && (token, quoteBlocks[timestamp]) in u
    && GetUtilization(m, token, quoteBlocks[timestamp], 0, timestamp) == Some(u[(token, quoteBlocks[timestamp])])
  }

  /** `resolveUtilization`: the utilization of one token at each of its quote blocks. */
  method ResolveUtilization(m: Market, token: string, timestamps: seq<nat>, quoteBlocks: map<nat, nat>, known: Utilization)
    returns (r: Result<Utilization>)
    requires forall ts :: ts in timestamps ==> ts in quoteBlocks
    requires forall k :: k in known ==> m.utilizationAt(k.0, k.1, 0) == Some(known[k])
    ensures r.Success? <==>
              forall ts :: ts in timestamps ==> GetUtilization(m, token, quoteBlocks[ts], 0, ts).Some?
    ensures r.Success? ==>
              && known.Keys <= r.value.Keys
              && (forall k :: k in r.value ==> m.utilizationAt(k.0, k.1, 0) == Some(r.value[k]))
              && forall ts :: ts in timestamps ==> Measured(m, r.value, quoteBlocks, token, ts)
  {
    var u := known;
    for i := 0 to |timestamps|
      invariant known.Keys <= u.Keys
      invariant forall k :: k in u ==> m.utilizationAt(k.0, k.1, 0) == Some(u[k])
      invariant forall ts :: ts in timestamps[..i] ==> Measured(m, u, quoteBlocks, token, ts)
    {
      assert timestamps[..i + 1] == timestamps[..i] + [timestamps[i]];
      var block := quoteBlocks[timestamps[i]];
      var current := GetUtilization(m, token, block, 0, timestamps[i]);
      if current.None? {
        return Failure("Could not resolve utilization");
      }
      u := u[(token, block) := current.value];
    }
    assert timestamps[..|timestamps|] == timestamps;
    return Success(u);
  }

  /** The utilizations of all tokens, whatever the order in which they are taken. */
  method ResolveUtilizations(m: Market, t: Tables, quoteBlocks: map<nat, nat>) returns (r: Result<Utilization>)
    requires forall k :: k in t.hubPoolTokens ==> t.hubPoolTokens[k] in t.timestamps
    requires forall token, ts :: token in t.timestamps && ts in t.timestamps[token] ==> ts in quoteBlocks
    ensures r.Success? ==>
              forall k, ts :: k in t.hubPoolTokens && ts in t.timestamps[t.hubPoolTokens[k]] ==>
                Measured(m, r.value, quoteBlocks, t.hubPoolTokens[k], ts)
    ensures r.Failure? ==>
              exists token, ts ::
                && token in t.timestamps && ts in t.timestamps[token]
                && GetUtilization(m, token, quoteBlocks[ts], 0, ts).None?
  {
    var tokens := t.hubPoolTokens.Values;
    var u: Utilization := map[];
    ghost var done: set<string> := {};
    while tokens != {}
      invariant tokens + done == t.hubPoolTokens.Values
      invariant forall k :: k in u ==> m.utilizationAt(k.0, k.1, 0) == Some(u[k])
      invariant forall token, ts :: token in done && token in t.timestamps && ts in t.timestamps[token] ==>
                  Measured(m, u, quoteBlocks, token, ts)
      decreases |tokens|
    {
      var token :| token in tokens;
      assert token in t.hubPoolTokens.Values;
      ghost var before := u;
      var next := ResolveUtilization(m, token, t.timestamps[token], quoteBlocks, u);
      if next.Failure? {
        return Failure(next.error);
      }
      u := next.value;
      forall other, ts | other in done && other in t.timestamps && ts in t.timestamps[other]
        ensures Measured(m, u, quoteBlocks, other, ts)
      {
        assert Measured(m, before, quoteBlocks, other, ts);
      }
      tokens, done := tokens - {token}, done + {token};
    }
    return Success(u);
  }

  // ---------- the batch ----------

  /**
   `batchComputeRealizedLpFeePct` is pointwise: it succeeds exactly when each deposit has a fee, and gives each the fee
   it has by itself. Every table lookup it makes is defined.
   */
  method BatchComputeRealizedLpFeePct(deposits: seq<LpFeeRequest>, currentTime: Option<nat>, m: Market, ix: TokenIndex,
                                      ghost log: RouteLog)
    returns (r: Result<seq<RealizedLpFee>>)
    requires IsLog(log) && Indexes(ix, log)
    ensures r.Success? <==> deposits != [] && currentTime.Some? && forall d :: d in deposits ==> HasPrice(log, m, d)
    ensures r.Success? ==> |r.value| == |deposits|
    ensures r.Success? ==> forall i :: 0 <= i < |deposits| ==> IsPriced(log, m, deposits[i], r.value[i])
  {
    forall d ensures FeeOf(log, m, d).Some? <==> HasPrice(log, m, d)
      ensures FeeOf(log, m, d).Some? ==> IsPriced(log, m, d, FeeOf(log, m, d).value)
    {
      FeeIsPriced(log, m, d);
    }
    hide HasPrice, IsPriced;
    if deposits == [] {
      return Failure("No deposits supplied to batchComputeRealizedLpFeePct");
    }
    if currentTime.None? {
      return Failure("HubPoolClient has not set a currentTime");
    }
    var tables := ResolveTokens(deposits, ix, log);
    if tables.Failure? {
      return Failure(tables.error);
    }
    var t := tables.value;
    var blocks := ResolveBlocks(deposits, m);
    if blocks.Failure? {
      return Failure(blocks.error);
    }
    var quoteBlocks := blocks.value;
    TimestampsAreQuoted(log, t, deposits, quoteBlocks);
    var utilization := ResolveUtilizations(m, t, quoteBlocks);
    if utilization.Failure? {
      NoFeeWithoutUtilization(log, m, t, deposits, quoteBlocks);
      return Failure(utilization.error);
    }
    var fees: seq<RealizedLpFee> := [];
    for i := 0 to |deposits|
      invariant |fees| == i
      invariant forall j :: 0 <= j < i ==> FeeOf(log, m, deposits[j]) == Some(fees[j])
    {
      var d := deposits[i];
      var token, quoteBlock := t.hubPoolTokens[KeyOf(d)], quoteBlocks[d.quoteTimestamp];
      assert Measured(m, utilization.value, quoteBlocks, token, d.quoteTimestamp);
      var fee := FeeAt(m, d, token, quoteBlock, utilization.value[(token, quoteBlock)]);
      assert FeeOf(log, m, d) == fee;
      if fee.None? {
        return Failure("Could not compute a fee");
      }
      fees := fees + [fee.value];
    }
    return Success(fees);
  }

  lemma TimestampsAreQuoted(log: RouteLog, t: Tables, deposits: seq<LpFeeRequest>, quoteBlocks: map<nat, nat>)
    requires Needed(log, t, deposits)
    requires forall d :: d in deposits ==> d.quoteTimestamp in quoteBlocks
    ensures forall token, ts :: token in t.timestamps && ts in t.timestamps[token] ==> ts in quoteBlocks
  {
    forall token, ts | token in t.timestamps && ts in t.timestamps[token] ensures ts in quoteBlocks {
      assert Wanted(log, deposits, token, ts);
    }
  }

  lemma NoFeeWithoutUtilization(log: RouteLog, m: Market, t: Tables, deposits: seq<LpFeeRequest>, quoteBlocks: map<nat, nat>)
    requires Needed(log, t, deposits)
    requires forall token, ts :: token in t.timestamps && ts in t.timestamps[token] ==> ts in quoteBlocks
    requires forall d :: d in deposits ==>
               d.quoteTimestamp in quoteBlocks && m.blockOf(d.quoteTimestamp) == Some(quoteBlocks[d.quoteTimestamp])
    requires exists token, ts ::
               && token in t.timestamps && ts in t.timestamps[token]
               && GetUtilization(m, token, quoteBlocks[ts], 0, ts).None?
    ensures exists d :: d in deposits && FeeOf(log, m, d).None?
  {
    var token, ts :| token in t.timestamps && ts in t.timestamps[token]
      && GetUtilization(m, token, quoteBlocks[ts], 0, ts).None?;
    assert Wanted(log, deposits, token, ts);
    var d :| d in deposits && HubTokenOf(log, d) == Some(token) && d.quoteTimestamp == ts;
    assert FeeOf(log, m, d).None?;
  }

  /** `computeRealizedLpFeePct`: the batch of one deposit. */
  method ComputeRealizedLpFeePct(deposit: LpFeeRequest, currentTime: Option<nat>, m: Market, ix: TokenIndex,
                                 ghost log: RouteLog)
    returns (r: Result<RealizedLpFee>)
    requires IsLog(log) && Indexes(ix, log)
    ensures r.Success? <==> currentTime.Some? && HasPrice(log, m, deposit)
    ensures r.Success? ==> IsPriced(log, m, deposit, r.value)
  {
    var fees := BatchComputeRealizedLpFeePct([deposit], currentTime, m, ix, log);
    if fees.Failure? {
      assert deposit in [deposit];
      return Failure(fees.error);
    }
    return Success(fees.value[0]);
  }

  // ---------- the token behind the fee ----------

  const OLD_MAPPING := Event(LogPos(5, 0, 0), Route("A", 10, "x"))
  const NEW_MAPPING := Event(LogPos(9, 0, 0), Route("B", 10, "x"))

  /** A token remapped after the quote block is priced as the pool that it is mapped to now. */
  lemma PricedAtTheLatestMapping(d: LpFeeRequest)
    requires d.inputToken == "x" && d.originChainId == 10
    ensures var log := [OLD_MAPPING, NEW_MAPPING];
            && IsLog(log)
            && HubTokenOf(log, d) == Some("B")
            && L1TokenAsOf(log, d.inputToken, d.originChainId, 7) == Some("A")
  {
    var log := [OLD_MAPPING, NEW_MAPPING];
    LogIsDistinct(log);
    FindNewestIsNewest(log, MappedFrom("x", 10, MAX_SAFE_INTEGER));
    FindNewestIsNewest(log, MappedFrom("x", 10, 7));
    assert OLD_MAPPING in log && NEW_MAPPING in log;
    assert MappedFrom("x", 10, MAX_SAFE_INTEGER)(NEW_MAPPING) && MappedFrom("x", 10, 7)(OLD_MAPPING);
    assert NEW_MAPPING.args.l1Token == "B" && OLD_MAPPING.args.l1Token == "A";
  }

  /**
   A deposit is priced as the pool its token was mapped to at the quote block exactly when the newest mapping of the
   token after that block, if there is one, still names that pool.
   */
  lemma PricedAsQuotedIff(log: RouteLog, d: LpFeeRequest, quoteBlock: nat)
    requires IsLog(log) && quoteBlock <= MAX_SAFE_INTEGER
    ensures var (token, chain) := (d.inputToken, d.originChainId);
            HubTokenOf(log, d) == L1TokenAsOf(log, token, chain, quoteBlock) <==>
            match FindNewest(log, Between(quoteBlock, MAX_SAFE_INTEGER, MapsFrom(token, chain)))
            case None => true
            case Some(e) => L1TokenAsOf(log, token, chain, quoteBlock) == Some(e.args.l1Token)
  {
    L1TokenMoves(log, d.inputToken, d.originChainId, quoteBlock, MAX_SAFE_INTEGER);
  }
}
