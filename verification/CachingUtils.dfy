/** The external cache of deposits, shared between clients and runs (src/utils/CachingUtils.ts). */
module CachingUtils {
  import opened Wrappers
  import opened Sequences
  import opened SpokePool

  /** `deposit_${originChainId}_${depositId}_${relayHash}`. */
  datatype CacheKey = CacheKey(originChainId: nat, depositId: nat, relayHash: string)

  /** `getDepositKey`, for deposits and fills alike. */
  function GetDepositKey(hash: RelayHash, relay: RelayData, destinationChainId: nat): CacheKey {
    CacheKey(relay.originChainId, relay.depositId, hash(relay, destinationChainId))
  }

  function KeyOfDeposit(hash: RelayHash, d: Deposit): CacheKey {
    GetDepositKey(hash, d.relay, d.destinationChainId)
  }

  function KeyOfFill(hash: RelayHash, f: Fill): CacheKey {
    GetDepositKey(hash, f.relay, f.destinationChainId)
  }

  /** What a cache entry parses to: a deposit of the expected shape, or something else. */
  datatype CachedDeposit = Cached(deposit: Deposit) | Malformed

  type Entries = map<CacheKey, CachedDeposit>

  const DEFAULT_CACHING_SAFE_LAG: int := 3600

  /** `x.toString().length === 10`. */
  predicate HasTenDigits(x: nat) {
    1_000_000_000 <= x < 10_000_000_000
  }

  function Digits(x: nat): nat {
    if x < 10 then 1 else 1 + Digits(x / 10)
  }

  function Power(n: nat): nat {
    if n == 0 then 1 else 10 * Power(n - 1)
  }

  lemma {:induction false} DigitsAtLeast(x: nat, n: nat)
    requires n > 0
    ensures Digits(x) > n <==> x >= Power(n)
  {
    if x >= 10 && n > 1 {
      DigitsAtLeast(x / 10, n - 1);
      assert x / 10 >= Power(n - 1) <==> x >= 10 * Power(n - 1);
    } else {
      PowersGrow(n);
      assert x >= 10 ==> Digits(x / 10) >= 1;
    }
  }

  lemma {:induction false} PowersGrow(n: nat)
    requires n > 0
    ensures Power(n) >= 10
  {
    if n > 1 {
      PowersGrow(n - 1);
    } else {
      assert Power(0) == 1;
    }
  }

  lemma TenDigits(x: nat)
    ensures HasTenDigits(x) <==> Digits(x) == 10
  {
    DigitsAtLeast(x, 9);
    DigitsAtLeast(x, 10);
    assert Power(3) == 1000;
    assert Power(6) == 1000 * Power(3);
    assert Power(9) == 1000 * Power(6);
  }

  /** `shouldCache`. */
  function ShouldCache(eventTimestamp: nat, latestTime: nat, cachingMaxAge: int): Result<bool> {
    if !HasTenDigits(eventTimestamp) || !HasTenDigits(latestTime) then Failure("eventTimestamp must be in seconds")
    else Success(latestTime - eventTimestamp >= cachingMaxAge)
  }

  class DepositCache {
    var entries: Entries

    constructor ()
      ensures entries == map[]
    {
      entries := map[];
    }

    method GetDepositInCache(key: CacheKey) returns (d: Option<CachedDeposit>)
      ensures d == if key in entries then Some(entries[key]) else None
    {
      if key in entries {
        return Some(entries[key]);
      }
      return None;
    }

    /** `setDepositInCache`. Deposits quoted in the future, or too recently, are not cached; odd times throw. */
    method SetDepositInCache(hash: RelayHash, deposit: Deposit, currentChainTime: nat, now: nat, timeToCache: int)
      returns (r: Result<()>)
      modifies this
      ensures var isPast := deposit.quoteTimestamp <= now && currentChainTime <= now;
              && (r.Failure? <==>
                    isPast && !(Digits(deposit.quoteTimestamp) == 10 && Digits(currentChainTime) == 10))
              && entries == if r.Success? && isPast && currentChainTime - deposit.quoteTimestamp >= timeToCache
                            then old(entries)[KeyOfDeposit(hash, deposit) := Cached(deposit)]
                            else old(entries)
    {
      if deposit.quoteTimestamp > now || currentChainTime > now {
        return Success(());
      }
      TenDigits(deposit.quoteTimestamp);
      TenDigits(currentChainTime);
      var oldEnough := ShouldCache(deposit.quoteTimestamp, currentChainTime, timeToCache);
      if oldEnough.Failure? {
        return Failure(oldEnough.error);
      }
      if oldEnough.value {
        entries := entries[KeyOfDeposit(hash, deposit) := Cached(deposit)];
      }
      return Success(());
    }
  }

  // ---------- reachable caches ----------

  /**
   What happens to a cache over time: clients store what they found, each with what its HubPool client knew up to some
   block, and entries expire or are spoilt.
   */
  datatype CacheStep = Store(deposit: Deposit, hubBlock: nat) | Evict(key: CacheKey) | Spoil(key: CacheKey)

  function CacheAfter(hash: RelayHash, run: seq<CacheStep>): Entries {
    if run == [] then map[]
    else
      var before := CacheAfter(hash, Init(run));
      match Last(run)
      case Store(d, _) => before[KeyOfDeposit(hash, d) := Cached(d)]
      case Evict(key) => before - {key}
      case Spoil(key) => before[key := Malformed]
  }

  /** Every deposit in the cache is under its own key and was stored by someone at some time. */
  lemma {:induction false} ReachableEntries(hash: RelayHash, run: seq<CacheStep>, key: CacheKey) returns (hubBlock: nat)
    requires key in CacheAfter(hash, run) && CacheAfter(hash, run)[key].Cached?
    ensures var d := CacheAfter(hash, run)[key].deposit;
            KeyOfDeposit(hash, d) == key && Store(d, hubBlock) in run
  {
    var before := CacheAfter(hash, Init(run));
    assert run == Init(run) + [Last(run)];
    if key in before && before[key] == CacheAfter(hash, run)[key] {
      hubBlock := ReachableEntries(hash, Init(run), key);
    } else {
      hubBlock := Last(run).hubBlock;
    }
  }
}
