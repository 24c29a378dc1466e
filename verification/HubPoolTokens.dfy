/**
 Token mappings of the HubPool: the two indexes that the client keeps of pool rebalance routes, and the questions it
 answers from them as of a block (src/clients/HubPoolClient.ts:180-261, 482-504 and 838-856).
 */
module HubPoolTokens {
  import opened Wrappers
  import opened Sequences
  import opened EventUtils
  import opened ObjectUtils

  datatype Route = Route(l1Token: string, destinationChainId: nat, l2Token: string)

  type RouteLog = seq<Event<Route>>

  datatype RouteKey = RouteKey(l1Token: string, destinationChainId: nat)

  function KeyOfRoute(e: Event<Route>): RouteKey {
    RouteKey(e.args.l1Token, e.args.destinationChainId)
  }

  /** `l1TokensToDestinationTokens` and `l1TokensToDestinationTokensWithBlock`. */
  datatype TokenIndex = TokenIndex(latest: map<RouteKey, string>, withBlock: map<RouteKey, seq<Event<Route>>>)

  const NO_TOKENS := TokenIndex(map[], map[])

  /** The two `assign`s for one SetPoolRebalanceRoute event. */
  function SetRoute(ix: TokenIndex, e: Event<Route>): TokenIndex {
    TokenIndex(ix.latest[KeyOfRoute(e) := e.args.l2Token], AssignArray(ix.withBlock, KeyOfRoute(e), e))
  }

  function SetRoutes(ix: TokenIndex, log: RouteLog): TokenIndex {
    if log == [] then ix else SetRoute(SetRoutes(ix, Init(log)), Last(log))
  }

  lemma {:induction false} SetRoutesConcat(ix: TokenIndex, a: RouteLog, b: RouteLog)
    ensures SetRoutes(SetRoutes(ix, a), b) == SetRoutes(ix, a + b)
  {
    if b == [] {
      assert a + b == a;
    } else {
      assert Init(a + b) == a + Init(b);
      SetRoutesConcat(ix, a, Init(b));
    }
  }

  /** Both indexes know the same routes; one holds every mapping of a route in order, the other the last one. */
  lemma {:induction false} RoutesIndexed(log: RouteLog, k: RouteKey)
    ensures var ix := SetRoutes(NO_TOKENS, log);
            var mappings := Filter(log, HasKey(KeyOfRoute, k));
            && Get(ix.withBlock, k) == mappings
            && (k in ix.withBlock <==> mappings != [])
            && (k in ix.latest <==> mappings != [])
            && (k in ix.latest ==> ix.latest[k] == Last(mappings).args.l2Token)
  {
    if log != [] {
      RoutesIndexed(Init(log), k);
    }
  }

  /** The index holds the mappings of the log, listed in any order; after a retried update some may be there twice. */
  ghost predicate Indexes(ix: TokenIndex, log: RouteLog) {
    exists listed: RouteLog :: SameEvents(listed, log) && ix == SetRoutes(NO_TOKENS, listed)
  }

  // ---------- the questions ----------

  /** `l2TokenEnabledForL1Token`. */
  predicate L2TokenEnabledForL1Token(ix: TokenIndex, l1Token: string, destinationChainId: nat) {
    RouteKey(l1Token, destinationChainId) in ix.latest
  }

  /** `getL2TokenForL1TokenAtBlock`. */
  function GetL2TokenForL1TokenAtBlock(ix: TokenIndex, l1Token: string, destinationChainId: nat, latestHubBlock: int)
    : Result<string>
  {
    var k := RouteKey(l1Token, destinationChainId);
    if k !in ix.withBlock then Failure("Could not find SpokePool mapping")
    else
      match FindNewest(ix.withBlock[k], AtOrBefore(latestHubBlock))
      case None => Failure("Could not find SpokePool mapping at or before HubPool block")
      case Some(mapping) => Success(mapping.args.l2Token)
  }

  function MapsTo(l2Token: string, latestHubBlock: int): Event<Route> -> bool {
    (e: Event<Route>) => e.args.l2Token == l2Token && e.pos.block <= latestHubBlock
  }

  /** `getL1TokenForL2TokenAtBlock`, whatever the order of the dictionary's keys and of the mappings under each. */
  method GetL1TokenForL2TokenAtBlock(ix: TokenIndex, l2Token: string, destinationChainId: nat, latestHubBlock: int,
                                     ghost log: RouteLog)
    returns (r: Result<string>)
    requires IsLog(log) && Indexes(ix, log)
    ensures r.ToOption() == L1TokenAsOf(log, l2Token, destinationChainId, latestHubBlock)
  {
    var keys := ix.withBlock.Keys;
    var l2Tokens: RouteLog := [];
    ghost var done: set<RouteKey> := {};
    while keys != {}
      invariant keys !! done && keys + done == ix.withBlock.Keys
      invariant forall e :: e in l2Tokens <==>
                  e in log && KeyOfRoute(e) in done && MappedFrom(l2Token, destinationChainId, latestHubBlock)(e)
      decreases |keys|
    {
      var k :| k in keys;
      MappingsIndexed(ix, log, k);
      var matching: RouteLog := [];
      if k.destinationChainId == destinationChainId && L2TokenEnabledForL1Token(ix, k.l1Token, destinationChainId) {
        matching := Filter(ix.withBlock[k], MapsTo(l2Token, latestHubBlock));
        assert k == RouteKey(k.l1Token, destinationChainId);
      }
      forall e ensures e in matching <==>
                         e in log && KeyOfRoute(e) == k && MappedFrom(l2Token, destinationChainId, latestHubBlock)(e)
      {
        FilterMembers(Get(ix.withBlock, k), MapsTo(l2Token, latestHubBlock), e);
      }
      l2Tokens := l2Tokens + matching;
      keys, done := keys - {k}, done + {k};
    }
    forall e | e in log ensures KeyOfRoute(e) in done {
      MappingsIndexed(ix, log, KeyOfRoute(e));
    }
    NewestOfCandidates(log, l2Tokens, MappedFrom(l2Token, destinationChainId, latestHubBlock));
    if l2Tokens == [] {
      return Failure("Could not find HubPool mapping");
    }
    return Success(SortEvents(Descending, l2Tokens)[0].args.l1Token);
  }

  lemma NewestOfCandidates(log: RouteLog, found: RouteLog, p: Event<Route> -> bool)
    requires IsLog(log)
    requires forall e :: e in found <==> e in log && p(e)
    ensures |SortEvents(Descending, found)| == |found|
    ensures FindNewest(log, p) == if found == [] then None else Some(SortEvents(Descending, found)[0])
  {
    var sorted := SortEvents(Descending, found);
    SortSorts(Descending, found);
    assert |multiset(sorted)| == |multiset(found)|;
    LogIsDistinct(log);
    FindNewestIsNewest(log, p);
    if found != [] {
      var e := sorted[0];
      SortMembers(Descending, found, e);
      forall x | x in log && p(x) && x != e ensures Older(x.pos, e.pos) {
        SortMembers(Descending, found, x);
        var j :| 0 <= j < |sorted| && sorted[j] == x;
        assert !Precedes(Descending, sorted[j].pos, sorted[0].pos);
        DistinctEventsAreApart(log, x, e);
      }
      assert IsNewest(log, p, e);
      NewestIsUnique(log, p, e, FindNewest(log, p).value);
    }
  }

  // ---------- what the answers are ----------

  function MappedOnto(l1Token: string, chain: nat, block: int): Event<Route> -> bool {
    (e: Event<Route>) => e.args.l1Token == l1Token && e.args.destinationChainId == chain && e.pos.block <= block
  }

  function MappedFrom(l2Token: string, chain: nat, block: int): Event<Route> -> bool {
    (e: Event<Route>) => e.args.l2Token == l2Token && e.args.destinationChainId == chain && e.pos.block <= block
  }

  /** The L2 token of the newest mapping of an L1 token on a chain, as of a block. */
  function L2TokenAsOf(log: RouteLog, l1Token: string, chain: nat, block: int): Option<string> {
    match FindNewest(log, MappedOnto(l1Token, chain, block))
    case None => None
    case Some(e) => Some(e.args.l2Token)
  }

  /** The L1 token of the newest mapping of an L2 token on its chain, as of a block. */
  function L1TokenAsOf(log: RouteLog, l2Token: string, chain: nat, block: int): Option<string> {
    match FindNewest(log, MappedFrom(l2Token, chain, block))
    case None => None
    case Some(e) => Some(e.args.l1Token)
  }

  /** The event maps one token of a chain onto the other, at or before the block. */
  predicate IsMapping(e: Event<Route>, l1Token: string, l2Token: string, chain: nat, block: int) {
    && e.args.l1Token == l1Token && e.args.l2Token == l2Token && e.args.destinationChainId == chain
    && e.pos.block <= block
  }

  /** The answers read off the log: an L2 token's newest mapping decides, and an L1 token's newest one on the chain. */
  lemma AnswersFromTheLog(log: RouteLog, l1Token: string, l2Token: string, chain: nat, block: int)
    requires IsLog(log)
    ensures L1TokenAsOf(log, l2Token, chain, block) == Some(l1Token) <==>
            exists e :: e in log && IsMapping(e, l1Token, l2Token, chain, block)
                        && forall x, other :: x in log && IsMapping(x, other, l2Token, chain, block) && x != e ==>
                             Older(x.pos, e.pos)
    ensures L2TokenAsOf(log, l1Token, chain, block) == Some(l2Token) <==>
            exists e :: e in log && IsMapping(e, l1Token, l2Token, chain, block)
                        && forall x, other :: x in log && IsMapping(x, l1Token, other, chain, block) && x != e ==>
                             Older(x.pos, e.pos)
  {
    LogIsDistinct(log);
    FromTheLog(log, MappedFrom(l2Token, chain, block), l1Token, l2Token, chain, block);
    OntoTheLog(log, MappedOnto(l1Token, chain, block), l1Token, l2Token, chain, block);
  }

  lemma FromTheLog(log: RouteLog, p: Event<Route> -> bool, l1Token: string, l2Token: string, chain: nat, block: int)
    requires IsLog(log) && DistinctPositions(log) && p == MappedFrom(l2Token, chain, block)
    ensures L1TokenAsOf(log, l2Token, chain, block) == Some(l1Token) <==>
            exists e :: e in log && IsMapping(e, l1Token, l2Token, chain, block)
                        && forall x, other :: x in log && IsMapping(x, other, l2Token, chain, block) && x != e ==>
                             Older(x.pos, e.pos)
  {
    FindNewestIsNewest(log, p);
    hide FindNewest;
    assert forall x :: p(x) <==> IsMapping(x, x.args.l1Token, l2Token, chain, block);
    if e :| e in log && IsMapping(e, l1Token, l2Token, chain, block)
            && forall x, other :: x in log && IsMapping(x, other, l2Token, chain, block) && x != e ==> Older(x.pos, e.pos)
    {
      assert p(e) && IsNewest(log, p, e);
      NewestIsUnique(log, p, e, FindNewest(log, p).value);
    }
    if L1TokenAsOf(log, l2Token, chain, block) == Some(l1Token) {
      var e := FindNewest(log, p).value;
      assert IsNewest(log, p, e) && IsMapping(e, l1Token, l2Token, chain, block);
      assert forall x, other :: IsMapping(x, other, l2Token, chain, block) ==> p(x);
    }
  }

  lemma OntoTheLog(log: RouteLog, p: Event<Route> -> bool, l1Token: string, l2Token: string, chain: nat, block: int)
    requires IsLog(log) && DistinctPositions(log) && p == MappedOnto(l1Token, chain, block)
    ensures L2TokenAsOf(log, l1Token, chain, block) == Some(l2Token) <==>
            exists e :: e in log && IsMapping(e, l1Token, l2Token, chain, block)
                        && forall x, other :: x in log && IsMapping(x, l1Token, other, chain, block) && x != e ==>
                             Older(x.pos, e.pos)
  {
    FindNewestIsNewest(log, p);
    hide FindNewest;
    assert forall x :: p(x) <==> IsMapping(x, l1Token, x.args.l2Token, chain, block);
    if e :| e in log && IsMapping(e, l1Token, l2Token, chain, block)
            && forall x, other :: x in log && IsMapping(x, l1Token, other, chain, block) && x != e ==> Older(x.pos, e.pos)
    {
      assert p(e) && IsNewest(log, p, e);
      NewestIsUnique(log, p, e, FindNewest(log, p).value);
    }
    if L2TokenAsOf(log, l1Token, chain, block) == Some(l2Token) {
      var e := FindNewest(log, p).value;
      assert IsNewest(log, p, e) && IsMapping(e, l1Token, l2Token, chain, block);
      assert forall x, other :: IsMapping(x, l1Token, other, chain, block) ==> p(x);
    }
  }

  /** Under each key the index holds the mappings of that route, and it has the key if there are any. */
  lemma MappingsIndexed(ix: TokenIndex, log: RouteLog, k: RouteKey)
    requires Indexes(ix, log)
    ensures var mappings := Get(ix.withBlock, k);
            && (forall e :: e in mappings <==> e in log && KeyOfRoute(e) == k)
            && (k in ix.withBlock <==> mappings != []) && (k in ix.latest <==> mappings != [])
  {
    var listed: RouteLog :| SameEvents(listed, log) && ix == SetRoutes(NO_TOKENS, listed);
    RoutesIndexed(listed, k);
    forall e ensures e in Get(ix.withBlock, k) <==> e in log && KeyOfRoute(e) == k {
      FilterMembers(listed, HasKey(KeyOfRoute, k), e);
    }
  }

  /** `getL2TokenForL1TokenAtBlock` answers from the mapping that is greatest in event order at or before the block. */
  lemma L2AnswerIsNewest(ix: TokenIndex, log: RouteLog, l1Token: string, chain: nat, block: int)
    requires IsLog(log) && Indexes(ix, log)
    ensures GetL2TokenForL1TokenAtBlock(ix, l1Token, chain, block).ToOption() == L2TokenAsOf(log, l1Token, chain, block)
    ensures L2TokenEnabledForL1Token(ix, l1Token, chain) <==> exists e :: e in log && MapsOnto(l1Token, chain)(e)
  {
    var k := RouteKey(l1Token, chain);
    MappingsIndexed(ix, log, k);
    hide Indexes, FindNewest;
    var mappings := Get(ix.withBlock, k);
    assert mappings != [] ==> mappings[0] in mappings;
    LogIsDistinct(log);
    FindNewestIsNewest(mappings, AtOrBefore(block));
    FindNewestIsNewest(log, MappedOnto(l1Token, chain, block));
    var answer := FindNewest(mappings, AtOrBefore(block));
    if answer.Some? {
      assert IsNewest(log, MappedOnto(l1Token, chain, block), answer.value);
      NewestIsUnique(log, MappedOnto(l1Token, chain, block), answer.value,
                     FindNewest(log, MappedOnto(l1Token, chain, block)).value);
    }
  }

  /** Mappings of later blocks never change an answer, in either direction. */
  lemma TokenAnswersAreFinal(log: RouteLog, more: RouteLog, token: string, chain: nat, block: int)
    requires IsLog(log + more)
    requires forall e :: e in more ==> e.pos.block > block
    ensures L1TokenAsOf(log + more, token, chain, block) == L1TokenAsOf(log, token, chain, block)
    ensures L2TokenAsOf(log + more, token, chain, block) == L2TokenAsOf(log, token, chain, block)
  {
    LaterEventsFail(log, more, MappedFrom(token, chain, block));
    LaterEventsFail(log, more, MappedOnto(token, chain, block));
  }

  lemma LaterEventsFail(log: RouteLog, more: RouteLog, p: Event<Route> -> bool)
    requires IsLog(log + more)
    requires forall e :: e in more ==> !p(e)
    ensures FindNewest(log + more, p) == FindNewest(log, p)
  {
    assert log == (log + more)[..|log|];
    assert forall k :: 0 <= k < |log| ==> log[k] == (log + more)[k];
    FindNewestOnLog(log + more, p);
    FindNewestOnLog(log, p);
    FindLastIsLast(log + more, p);
    FindLastIsLast(log, p);
    FilterConcat(log, more, p);
    FilterNone(more, p);
  }

  // ---------- answers that move ----------

  function Between(after: int, upTo: int, p: Event<Route> -> bool): Event<Route> -> bool {
    (e: Event<Route>) => after < e.pos.block <= upTo && p(e)
  }

  function MapsOnto(l1Token: string, chain: nat): Event<Route> -> bool {
    (e: Event<Route>) => e.args.l1Token == l1Token && e.args.destinationChainId == chain
  }

  function MapsFrom(l2Token: string, chain: nat): Event<Route> -> bool {
    (e: Event<Route>) => e.args.l2Token == l2Token && e.args.destinationChainId == chain
  }

  /** What is newest as of a later block is what is newest among the later blocks, or else what was newest before. */
  lemma NewestMoves(log: RouteLog, p: Event<Route> -> bool, early: Event<Route> -> bool, all: Event<Route> -> bool,
                    after: int, upTo: int)
    requires IsLog(log) && after <= upTo
    requires forall e: Event<Route> :: early(e) == (p(e) && e.pos.block <= after)
    requires forall e: Event<Route> :: all(e) == (p(e) && e.pos.block <= upTo)
    ensures FindNewest(log, all) == match FindNewest(log, Between(after, upTo, p))
                                    case Some(e) => Some(e)
                                    case None => FindNewest(log, early)
  {
    var late := Between(after, upTo, p);
    LogIsDistinct(log);
    FindNewestIsNewest(log, late);
    if FindNewest(log, late).Some? {
      FindNewestIsNewest(log, all);
      assert IsNewest(log, all, FindNewest(log, late).value);
      NewestIsUnique(log, all, FindNewest(log, late).value, FindNewest(log, all).value);
    } else {
      FilterAgree(log, all, early);
      FindNewestOnLog(log, all);
      FindNewestOnLog(log, early);
      FindLastIsLast(log, all);
      FindLastIsLast(log, early);
    }
  }

  lemma L1TokenMoves(log: RouteLog, l2Token: string, chain: nat, after: int, upTo: int)
    requires IsLog(log) && after <= upTo
    ensures L1TokenAsOf(log, l2Token, chain, upTo) ==
            match FindNewest(log, Between(after, upTo, MapsFrom(l2Token, chain)))
            case Some(e) => Some(e.args.l1Token)
            case None => L1TokenAsOf(log, l2Token, chain, after)
  {
    NewestMoves(log, MapsFrom(l2Token, chain), MappedFrom(l2Token, chain, after),
                MappedFrom(l2Token, chain, upTo), after, upTo);
  }

  lemma L2TokenMoves(log: RouteLog, l1Token: string, chain: nat, after: int, upTo: int)
    requires IsLog(log) && after <= upTo
    ensures L2TokenAsOf(log, l1Token, chain, upTo) ==
            match FindNewest(log, Between(after, upTo, MapsOnto(l1Token, chain)))
            case Some(e) => Some(e.args.l2Token)
            case None => L2TokenAsOf(log, l1Token, chain, after)
  {
    NewestMoves(log, MapsOnto(l1Token, chain), MappedOnto(l1Token, chain, after),
                MappedOnto(l1Token, chain, upTo), after, upTo);
  }

  /** `getL2TokenForDeposit`: the counterpart of a deposited token on the destination chain, as of a block. */
  function CounterpartAsOf(log: RouteLog, inputToken: string, originChainId: nat, destinationChainId: nat, block: int)
    : Option<string>
  {
    match L1TokenAsOf(log, inputToken, originChainId, block)
    case None => None
    case Some(l1Token) => L2TokenAsOf(log, l1Token, destinationChainId, block)
  }

  /** Mappings of later blocks never change a counterpart. */
  lemma CounterpartIsFinal(log: RouteLog, more: RouteLog, token: string, origin: nat, destination: nat, block: int)
    requires IsLog(log + more)
    requires forall e :: e in more ==> e.pos.block > block
    ensures CounterpartAsOf(log + more, token, origin, destination, block)
            == CounterpartAsOf(log, token, origin, destination, block)
  {
    TokenAnswersAreFinal(log, more, token, origin, block);
    var l1Token := L1TokenAsOf(log, token, origin, block);
    if l1Token.Some? {
      TokenAnswersAreFinal(log, more, l1Token.value, destination, block);
    }
  }

  /** The newest routes since `after`, if any, keep the pool of the token or lead to one with the same counterpart. */
  predicate RoutesKeepCounterpart(log: RouteLog, token: string, origin: nat, destination: nat, after: int, upTo: int) {
    var was := CounterpartAsOf(log, token, origin, destination, after);
    var pool := match FindNewest(log, Between(after, upTo, MapsFrom(token, origin)))
                case Some(e) => Some(e.args.l1Token)
                case None => L1TokenAsOf(log, token, origin, after);
    match pool
    case None => true
    case Some(l1Token) =>
      match FindNewest(log, Between(after, upTo, MapsOnto(l1Token, destination)))
      case Some(e) => was == Some(e.args.l2Token)
      case None => was == L2TokenAsOf(log, l1Token, destination, after)
  }

  /**
   A counterpart stays what it was exactly when the mappings since then leave it so: those of the deposited token name
   the pool to look at, and those of that pool on the destination chain, if any, the counterpart.
   */
  lemma CounterpartKeptIff(log: RouteLog, token: string, origin: nat, destination: nat, after: int, upTo: int)
    requires IsLog(log) && after <= upTo
    ensures CounterpartAsOf(log, token, origin, destination, upTo) == CounterpartAsOf(log, token, origin, destination, after)
            <==> RoutesKeepCounterpart(log, token, origin, destination, after, upTo)
  {
    L1TokenMoves(log, token, origin, after, upTo);
    var pool := L1TokenAsOf(log, token, origin, upTo);
    if pool.Some? {
      L2TokenMoves(log, pool.value, destination, after, upTo);
    }
  }

  // ---------- equivalence of tokens ----------

  /** `areTokensEquivalent`; an error in any of the four lookups makes it false. */
  method AreTokensEquivalent(ix: TokenIndex, tokenA: string, chainIdA: nat, tokenB: string, chainIdB: nat,
                             hubPoolBlock: int, ghost log: RouteLog)
    returns (r: bool)
    requires IsLog(log) && Indexes(ix, log)
    ensures r <==> Equivalent(log, tokenA, chainIdA, tokenB, chainIdB, hubPoolBlock)
  {
    var l1TokenA := GetL1TokenForL2TokenAtBlock(ix, tokenA, chainIdA, hubPoolBlock, log);
    if l1TokenA.Failure? {
      return false;
    }
    var l1TokenB := GetL1TokenForL2TokenAtBlock(ix, tokenB, chainIdB, hubPoolBlock, log);
    if l1TokenB.Failure? || l1TokenA.value != l1TokenB.value {
      return false;
    }
    L2AnswerIsNewest(ix, log, l1TokenA.value, chainIdA, hubPoolBlock);
    L2AnswerIsNewest(ix, log, l1TokenB.value, chainIdB, hubPoolBlock);
    var currentA := GetL2TokenForL1TokenAtBlock(ix, l1TokenA.value, chainIdA, hubPoolBlock);
    var currentB := GetL2TokenForL1TokenAtBlock(ix, l1TokenB.value, chainIdB, hubPoolBlock);
    return currentA == Success(tokenA) && currentB == Success(tokenB);
  }

  /** The L1 token that an L2 token stands for: its newest mapping, unless that mapping has been replaced. */
  function CanonicalL1(log: RouteLog, l2Token: string, chain: nat, block: int): Option<string> {
    match L1TokenAsOf(log, l2Token, chain, block)
    case None => None
    case Some(l1Token) => if L2TokenAsOf(log, l1Token, chain, block) == Some(l2Token) then Some(l1Token) else None
  }

  /** Two tokens are equivalent when they stand for the same L1 token. */
  predicate Equivalent(log: RouteLog, a: string, chainA: nat, b: string, chainB: nat, block: int) {
    CanonicalL1(log, a, chainA, block).Some? && CanonicalL1(log, a, chainA, block) == CanonicalL1(log, b, chainB, block)
  }

  /** A symmetric, transitive relation that is reflexive on the tokens in use, and one to one between two chains. */
  lemma EquivalenceOfTokens(log: RouteLog, a: string, ca: nat, b: string, cb: nat, c: string, cc: nat, block: int)
    ensures Equivalent(log, a, ca, b, cb, block) == Equivalent(log, b, cb, a, ca, block)
    ensures Equivalent(log, a, ca, b, cb, block) && Equivalent(log, b, cb, c, cc, block)
            ==> Equivalent(log, a, ca, c, cc, block)
    ensures Equivalent(log, a, ca, a, ca, block) <==> CanonicalL1(log, a, ca, block).Some?
    ensures cb == cc && Equivalent(log, a, ca, b, cb, block) && Equivalent(log, a, ca, c, cc, block) ==> b == c
  {
  }

  /** Later mappings never change whether two tokens are equivalent at a block already searched. */
  lemma EquivalenceIsFinal(log: RouteLog, more: RouteLog, a: string, ca: nat, b: string, cb: nat, block: int)
    requires IsLog(log + more)
    requires forall e :: e in more ==> e.pos.block > block
    ensures Equivalent(log + more, a, ca, b, cb, block) == Equivalent(log, a, ca, b, cb, block)
  {
    CanonicalIsFinal(log, more, a, ca, block);
    CanonicalIsFinal(log, more, b, cb, block);
  }

  lemma CanonicalIsFinal(log: RouteLog, more: RouteLog, l2Token: string, chain: nat, block: int)
    requires IsLog(log + more)
    requires forall e :: e in more ==> e.pos.block > block
    ensures CanonicalL1(log + more, l2Token, chain, block) == CanonicalL1(log, l2Token, chain, block)
  {
    TokenAnswersAreFinal(log, more, l2Token, chain, block);
    var l1 := L1TokenAsOf(log, l2Token, chain, block);
    if l1.Some? {
      TokenAnswersAreFinal(log, more, l1.value, chain, block);
    }
  }

  /**
   An L2 token stands for the L1 token of its newest mapping exactly when no later mapping has given that L1 token
   another L2 token on the chain.
   */
  lemma CanonicalIff(log: RouteLog, e: Event<Route>, l2Token: string, chain: nat, block: int)
    requires IsLog(log)
    requires FindNewest(log, MappedFrom(l2Token, chain, block)) == Some(e)
    ensures CanonicalL1(log, l2Token, chain, block) == Some(e.args.l1Token) <==>
            forall x :: x in log && MappedOnto(e.args.l1Token, chain, block)(x) && Older(e.pos, x.pos)
                        ==> x.args.l2Token == l2Token
  {
    LogIsDistinct(log);
    FindNewestIsNewest(log, MappedFrom(l2Token, chain, block));
    FindNewestIsNewest(log, MappedOnto(e.args.l1Token, chain, block));
    var f := FindNewest(log, MappedOnto(e.args.l1Token, chain, block)).value;
    if f != e {
      assert Older(e.pos, f.pos);
      OlderIsStrictTotalOrder(e.pos, f.pos, e.pos);
    }
    forall x | x in log && MappedOnto(e.args.l1Token, chain, block)(x) && Older(e.pos, x.pos) && x.args.l2Token == l2Token
      ensures false
    {
      assert Older(x.pos, e.pos);
      OlderIsStrictTotalOrder(e.pos, x.pos, e.pos);
    }
  }
}
