/** Binary searches over SpokePool state by block (src/utils/SpokeUtils.ts). */
module SpokeUtils {
  import opened Wrappers
  import opened Numbers

  /** The inputs of the search that come from the client. */
  datatype ClientBounds = ClientBounds(isUpdated: bool, deploymentBlock: int, latestBlockSearched: int)

  /** numberOfDeposits by block. */
  type Counts = int -> nat

  ghost predicate NonDecreasing(count: Counts) {
    forall m, n :: m <= n ==> count(m) <= count(n)
  }

  /** The block whose transactions made the deposit with id `target`: the least one that counts past it. */
  ghost predicate IsDepositBlock(count: Counts, target: int, b: int) {
    count(b) > target && forall m :: m < b ==> count(m) <= target
  }

  lemma DepositBlockIsUnique(count: Counts, target: int, b: int, c: int)
    requires IsDepositBlock(count, target, b) && IsDepositBlock(count, target, c)
    ensures b == c
  {
  }

  lemma {:induction false} DepositBlockExists(count: Counts, target: int, low: int, high: int) returns (b: int)
    requires low <= high && count(high) > target
    requires forall m :: m < low ==> count(m) <= target
    ensures low <= b <= high && IsDepositBlock(count, target, b)
    decreases high - low
  {
    if count(low) > target {
      b := low;
    } else {
      b := DepositBlockExists(count, target, low + 1, high);
    }
  }

  function Pow2(n: nat): nat {
    if n == 0 then 1 else 2 * Pow2(n - 1)
  }

  datatype Range = Range(low: int, high: int)

  /** `r` is a single block, or `[initLow, initHigh]` halved `searches` times. */
  ghost predicate IsNarrowed(r: Range, initLow: int, initHigh: int, searches: nat) {
    r.low == r.high || (r.high - r.low) * Pow2(searches) <= initHigh - initLow
  }

  /**
   `getBlockRangeForDepositId`. It succeeds exactly when its checks pass, so the error after the loop never comes; the
   block of the deposit is then within the range, and the range has shrunk by half with each of up to
   `maxSearches + 1` probes.
   */
  method GetBlockRangeForDepositId(target: int, initLow: int, initHigh: int, maxSearches: int, client: ClientBounds,
                                   count: Counts)
    returns (r: Result<Range>)
    requires NonDecreasing(count)
    ensures r.Success? <==>
              && client.isUpdated && maxSearches > 0
              && 0 <= client.deploymentBlock <= initLow <= initHigh && initLow <= client.latestBlockSearched
              && count(if initLow > client.deploymentBlock then initLow - 1 else initLow) <= target
              && count(initHigh) > target && count(client.latestBlockSearched) > target
    ensures r.Success? ==>
              var (low, high) := (r.value.low, r.value.high);
              && initLow <= low <= high <= Min(initHigh, client.latestBlockSearched)
              && count(high) > target
              && (exists b :: low <= b <= high && IsDepositBlock(count, target, b))
              && IsNarrowed(r.value, initLow, Min(initHigh, client.latestBlockSearched), maxSearches + 1)
  {
    var high := Min(initHigh, client.latestBlockSearched);
    if !client.isUpdated { return Failure("Spoke pool client is not updated"); }
    if initLow > high { return Failure("Binary search failed because low > high"); }
    if initLow < client.deploymentBlock { return Failure("low must be >= deploymentBlock"); }
    if maxSearches <= 0 { return Failure("maxSearches must be > 0"); }
    if client.deploymentBlock < 0 { return Failure("deploymentBlock must be >= 0"); }

    var probe := Max(client.deploymentBlock, initLow - 1);
    var queriedIds: map<int, nat> := map[high := count(high)];
    queriedIds := queriedIds[probe := count(probe)];
    if queriedIds[high] <= target {
      return Failure("Target depositId is greater than the initial high block");
    }
    if queriedIds[probe] > target {
      return Failure("Target depositId is less than the initial low block");
    }

    var range := NarrowRange(target, initLow, high, maxSearches, queriedIds, count);
    BelowLow(count, target, range.low, initLow, probe);
    if range.low > range.high {
      assert false;
      return Failure("Binary search failed. SHOULD NEVER HAPPEN (but here we are)");
    }
    var _ := DepositBlockExists(count, target, range.low, range.high);
    return Success(range);
  }

  /** The loop of `getBlockRangeForDepositId`; `queried` holds the counts looked up so far. */
  method NarrowRange(target: int, initLow: int, initHigh: int, maxSearches: nat, queried: map<int, nat>, count: Counts)
    returns (r: Range)
    requires maxSearches > 0 && initLow <= initHigh && count(initHigh) > target
    requires forall b :: b in queried ==> queried[b] == count(b)
    ensures initLow <= r.low <= r.high <= initHigh && count(r.high) > target
    ensures r.low == initLow || count(r.low - 1) <= target
    ensures IsNarrowed(r, initLow, initHigh, maxSearches + 1)
  {
    var queriedIds := queried;
    var low, high := initLow, initHigh;
    var searches: nat := 0;
    var again := true;
    while again
      invariant searches <= maxSearches + 1
      invariant initLow <= low <= high <= initHigh
      invariant count(high) > target
      invariant low == initLow || count(low - 1) <= target
      invariant forall b :: b in queriedIds ==> queriedIds[b] == count(b)
      invariant (high - low) * Pow2(searches) <= initHigh - initLow
      invariant again ==> searches <= maxSearches
      invariant !again ==> searches == maxSearches + 1 || low == high
      decreases again, maxSearches + 1 - searches
    {
      var mid := (low + high) / 2;
      if mid !in queriedIds {
        queriedIds := queriedIds[mid := count(mid)];
      }
      var accountedIdByMidBlock: int := queriedIds[mid] - 1;
      ghost var width := high - low;
      if target <= accountedIdByMidBlock {
        high := mid;
      } else {
        assert mid < high;
        low := mid + 1;
      }
      Halved(high - low, width, searches);
      searches := searches + 1;
      again := searches <= maxSearches && low < high;
    }
    return Range(low, high);
  }

  /** Halving the width pays for one more doubling. */
  lemma Halved(narrow: int, wide: int, k: nat)
    requires 0 <= 2 * narrow <= wide
    ensures narrow * Pow2(k + 1) <= wide * Pow2(k)
  {
    assert narrow * Pow2(k + 1) == 2 * narrow * Pow2(k);
    assert (wide - 2 * narrow) * Pow2(k) >= 0;
  }

  lemma BelowLow(count: Counts, target: int, low: int, initLow: int, probe: int)
    requires NonDecreasing(count)
    requires count(probe) <= target && initLow <= low && probe <= initLow <= probe + 1
    requires low == initLow || count(low - 1) <= target
    ensures forall m :: m < low ==> count(m) <= target
  {
    forall m | m < low ensures count(m) <= target {
      assert m <= probe ==> count(m) <= count(probe);
      assert m <= low - 1 ==> count(m) <= count(low - 1);
    }
  }

  // ---------- fill status ----------

  datatype FillStatus = Unfilled | RequestedSlowFill | Filled

  /** Fill statuses by block; `None` for a value that is no status. */
  type Statuses = int -> Option<FillStatus>

  /** A filled relay stays filled. */
  ghost predicate FilledForGood(status: Statuses) {
    forall m, n :: m <= n && status(m) == Some(Filled) ==> status(n) == Some(Filled)
  }

  ghost predicate AllKnown(status: Statuses) {
    forall m :: status(m).Some?
  }

  /**
   `findFillBlock`: the first block in `(low, high]` at which the relay is filled, nothing if it is unfilled at the
   end of the range, an error if it was filled at the start of it.
   */
  method FindFillBlock(originChainId: nat, destinationChainId: nat, lowBlockNumber: int, highBlockNumber: int,
                       status: Statuses)
    returns (r: Result<Option<int>>)
    ensures AllKnown(status) ==> (r.Failure? <==>
              || highBlockNumber <= lowBlockNumber || originChainId == destinationChainId
              || (status(highBlockNumber) == Some(Filled) && status(lowBlockNumber) == Some(Filled)))
    ensures AllKnown(status) ==> (r == Success(None) <==>
              && highBlockNumber > lowBlockNumber && originChainId != destinationChainId
              && status(highBlockNumber) != Some(Filled))
    ensures r == Success(None) ==> status(highBlockNumber) != Some(Filled)
    ensures r.Success? && r.value.Some? ==>
              var b := r.value.value;
              && lowBlockNumber < b <= highBlockNumber
              && status(b) == Some(Filled) && status(b - 1) != Some(Filled)
              && (FilledForGood(status) ==> forall m :: status(m) == Some(Filled) <==> m >= b)
  {
    var low, high := lowBlockNumber, highBlockNumber;
    if high <= low {
      return Failure("Block numbers out of range");
    }
    if originChainId == destinationChainId {
      return Failure("Origin & destination chain IDs must not be equal");
    }
    if status(low).None? || status(high).None? {
      return Failure("relayFillStatus: Unexpected fillStatus");
    }
    if status(high).value != Filled {
      return Success(None);
    }
    if status(low).value == Filled {
      return Failure("deposit filled before the block range");
    }
    var again := true;
    while again
      invariant lowBlockNumber <= low <= high <= highBlockNumber
      invariant status(high) == Some(Filled)
      invariant if low == lowBlockNumber then status(low) != Some(Filled) else status(low - 1) != Some(Filled)
      invariant again ==> low < high
      invariant !again ==> low == high
      decreases again, high - low
    {
      var mid := (high + low) / 2;
      if status(mid).None? {
        return Failure("relayFillStatus: Unexpected fillStatus");
      }
      if status(mid).value == Filled {
        high := mid;
      } else {
        low := mid + 1;
      }
      again := low < high;
    }
    return Success(Some(low));
  }
}
