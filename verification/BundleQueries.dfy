/**
 Walking the fully executed bundles: the n-th one from either end, and the bundle whose end block contains a block
 (src/clients/HubPoolClient.ts:523-557 and 610-681).
 */
module BundleQueries {
  import opened Wrappers
  import opened Numbers
  import opened Sequences
  import opened EventUtils
  import opened ObjectUtils
  import opened RootBundles
  import ConfigStore

  // ---------- when a bundle becomes valid ----------

  /** The block of the leaf that completes the k-th proposal. */
  function CompletedAt(run: PoolLog, k: nat): Option<int>
    requires k < |ProposalsIn(run)|
  {
    var leaves := LeavesOf(run, k);
    if leaves != [] && |leaves| == ProposalsIn(run)[k].args.poolRebalanceLeafCount
    then Some(Last(leaves).pos.block) else None
  }

  /**
   A bundle is valid from the block of its completing leaf on, which comes after its own proposal and no later than
   the next.
   */
  lemma ValidFromCompletion(s: Pool, run: PoolLog, k: nat, m: int)
    requires IsProtocolRun(s, run) && k < |ProposalsIn(run)|
    ensures var (p, leaves, done) := (ProposalsIn(run), LeavesIn(run), CompletedAt(run, k));
            && (IsRootBundleValid(p, leaves, p[k], m) <==> done.Some? && done.value <= m)
            && (done.Some? ==> p[k].pos.block < done.value && (k + 1 < |p| ==> done.value <= p[k + 1].pos.block))
  {
    ClosingCloses(run, k);
    ValidMeansFullyExecuted(s, run, k, m);
    LeavesAreOrdered(s, run, k);
    if LeavesOf(run, k) != [] {
      assert Last(LeavesOf(run, k)) in LeavesOf(run, k);
    }
  }

  // ---------- the validated list ----------

  lemma {:induction false} FilterKeepsBlocks(p: Proposals, q: Event<RootBundle> -> bool)
    requires OneProposalPerBlock(p)
    ensures OneProposalPerBlock(Filter(p, q))
  {
    if p != [] {
      assert forall k :: 0 <= k < |p| - 1 ==> Init(p)[k] == p[k];
      FilterKeepsBlocks(Init(p), q);
      forall b | b in Filter(Init(p), q) ensures b.pos.block < Last(p).pos.block {
        FilterMembers(Init(p), q, b);
        var k :| 0 <= k < |Init(p)| && Init(p)[k] == b;
        assert p[k].pos.block < p[|p| - 1].pos.block;
      }
    }
  }

  /** What is known of a validated bundle: its place in the run, and that it completes by the block asked about. */
  lemma ValidatedBundle(s: Pool, run: PoolLog, m: int, b: Event<RootBundle>) returns (k: nat)
    requires IsProtocolRun(s, run)
    requires b in GetValidatedRootBundles(ProposalsIn(run), LeavesIn(run), m)
    ensures k < |ProposalsIn(run)| && ProposalsIn(run)[k] == b
    ensures CompletedAt(run, k).Some? && b.pos.block < CompletedAt(run, k).value <= m
  {
    var p := ProposalsIn(run);
    FilterMembers(p, IsValidatedAt(p, LeavesIn(run), m), b);
    k :| 0 <= k < |p| && p[k] == b;
    ValidFromCompletion(s, run, k, m);
  }

  lemma CompletedIsValidated(s: Pool, run: PoolLog, m: int, k: nat)
    requires IsProtocolRun(s, run) && k < |ProposalsIn(run)|
    ensures var p := ProposalsIn(run);
            IsValidatedAt(p, LeavesIn(run), m)(p[k]) <==> CompletedAt(run, k).Some? && CompletedAt(run, k).value <= m
    ensures ProposalsIn(run)[k] in GetValidatedRootBundles(ProposalsIn(run), LeavesIn(run), m)
            <==> CompletedAt(run, k).Some? && CompletedAt(run, k).value <= m
  {
    var p := ProposalsIn(run);
    ValidFromCompletion(s, run, k, m);
    FilterMembers(p, IsValidatedAt(p, LeavesIn(run), m), p[k]);
  }

  // ---------- the n-th bundle ----------

  /** One turn of the loop for negative `n`: where the next search ends. */
  function NextCut(found: Option<Event<RootBundle>>): int {
    Max(0, (if found.Some? then found.value.pos.block else 0) - 1)
  }

  /** One turn of the loop for positive `n`: where the next search starts. */
  function NextStart(found: Option<Event<RootBundle>>, latestBlockSearched: int): int {
    Min((if found.Some? then found.value.pos.block else 0) + 1, latestBlockSearched)
  }

  function Backward(p: Proposals, leaves: Leaves, start: int, n: nat): Option<Event<RootBundle>>
    requires n >= 1
  {
    GetLatestFullyExecutedRootBundle(p, leaves, if n == 1 then start else NextCut(Backward(p, leaves, start, n - 1)))
  }

  function Forward(p: Proposals, leaves: Leaves, latest: int, start: int, n: nat): Option<Event<RootBundle>>
    requires n >= 1
  {
    GetEarliestFullyExecutedRootBundle(
      p, leaves, latest, if n == 1 then start else NextStart(Forward(p, leaves, latest, start, n - 1), latest))
  }

  /** `getNthFullyExecutedRootBundle`. */
  method GetNthFullyExecutedRootBundle(p: Proposals, leaves: Leaves, latestBlockSearched: int, n: int,
                                       startBlock: Option<int>)
    returns (r: Result<Option<Event<RootBundle>>>)
    ensures r.Failure? <==> n == 0 || latestBlockSearched == 0
    ensures r.Success? && n < 0 ==>
              r.value == Backward(p, leaves, if startBlock.Some? then startBlock.value else latestBlockSearched, -n)
    ensures r.Success? && n > 0 ==>
              r.value == Forward(p, leaves, latestBlockSearched, if startBlock.Some? then startBlock.value else 0, n)
  {
    if n == 0 {
      return Failure("n cannot be 0");
    }
    if latestBlockSearched == 0 {
      return Failure("client not updated");
    }
    var bundleToReturn: Option<Event<RootBundle>> := None;
    if n < 0 {
      var start := if startBlock.Some? then startBlock.value else latestBlockSearched;
      var nextLatestMainnetBlock := start;
      for i := 0 to -n
        invariant i == 0 ==> nextLatestMainnetBlock == start
        invariant i > 0 ==> bundleToReturn == Backward(p, leaves, start, i) && nextLatestMainnetBlock == NextCut(bundleToReturn)
      {
        bundleToReturn := GetLatestFullyExecutedRootBundle(p, leaves, nextLatestMainnetBlock);
        var bundleBlockNumber: int := if bundleToReturn.Some? then bundleToReturn.value.pos.block else 0;
        nextLatestMainnetBlock := Max(0, bundleBlockNumber - 1);
      }
    } else {
      var start := if startBlock.Some? then startBlock.value else 0;
      var nextStartBlock := start;
      for i := 0 to n
        invariant i == 0 ==> nextStartBlock == start
        invariant i > 0 ==> bundleToReturn == Forward(p, leaves, latestBlockSearched, start, i)
                            && nextStartBlock == NextStart(bundleToReturn, latestBlockSearched)
      {
        bundleToReturn := GetEarliestFullyExecutedRootBundle(p, leaves, latestBlockSearched, nextStartBlock);
        var bundleBlockNumber: int := if bundleToReturn.Some? then bundleToReturn.value.pos.block else 0;
        nextStartBlock := Min(bundleBlockNumber + 1, latestBlockSearched);
      }
    }
    return Success(bundleToReturn);
  }

  // ---------- forwards ----------

  /** How many bundles of the list start before a block. */
  function CountBefore(v: Proposals, start: int): (n: nat)
    ensures n <= |v|
  {
    if v == [] then 0
    else if v[0].pos.block < start then 1 + CountBefore(v[1..], start)
    else 0
  }

  lemma {:induction false} CountBeforeSplits(v: Proposals, start: int)
    requires OneProposalPerBlock(v)
    ensures forall i :: 0 <= i < |v| ==> (v[i].pos.block < start <==> i < CountBefore(v, start))
  {
    if v != [] && v[0].pos.block < start {
      assert forall k :: 0 <= k < |v[1..]| ==> v[1..][k] == v[k + 1];
      CountBeforeSplits(v[1..], start);
      assert forall i :: 1 <= i < |v| ==> v[i] == v[1..][i - 1];
    }
  }

  /** Reading past the end of a list gives nothing. */
  function At(v: Proposals, i: nat): Option<Event<RootBundle>> {
    if i < |v| then Some(v[i]) else None
  }

  function StartsFrom(start: int): Event<RootBundle> -> bool {
    (b: Event<RootBundle>) => !(b.pos.block < start)
  }

  /** Searching forwards from a block finds the first validated bundle not before it. */
  lemma EarliestIsIndexed(p: Proposals, leaves: Leaves, latest: int, start: int)
    requires OneProposalPerBlock(p)
    ensures var v := GetValidatedRootBundles(p, leaves, latest);
            GetEarliestFullyExecutedRootBundle(p, leaves, latest, start) == At(v, CountBefore(v, start))
  {
    var v := GetValidatedRootBundles(p, leaves, latest);
    FilterTwice(p, IsValidatedAt(p, leaves, latest), StartsFrom(start), IsValidatedFrom(p, leaves, latest, start));
    FindFirst(p, IsValidatedFrom(p, leaves, latest, start));
    FindFirst(v, StartsFrom(start));
    FilterKeepsBlocks(p, IsValidatedAt(p, leaves, latest));
    CountBeforeSplits(v, start);
    var i := FindWitness(v, StartsFrom(start));
    if CountBefore(v, start) < |v| {
      assert StartsFrom(start)(v[CountBefore(v, start)]);
    }
  }

  /**
   Positive `n` counts from the first validated bundle at or after the start block, one bundle per step without
   repeating or skipping any; past the last one comes undefined, and after that the count starts over from the first
   bundle of all.
   */
  lemma {:induction false} NthForward(s: Pool, run: PoolLog, latest: int, start: int, n: nat)
    requires IsProtocolRun(s, run) && n >= 1
    requires forall b :: b in ProposalsIn(run) ==> b.pos.block >= 1
    ensures var (p, leaves) := (ProposalsIn(run), LeavesIn(run));
            var v := GetValidatedRootBundles(p, leaves, latest);
            Forward(p, leaves, latest, start, n) == At(v, (CountBefore(v, start) + n - 1) % (|v| + 1))
  {
    var p, leaves := ProposalsIn(run), LeavesIn(run);
    var v := GetValidatedRootBundles(p, leaves, latest);
    if n == 1 {
      EarliestIsIndexed(p, leaves, latest, start);
      SmallModulus(CountBefore(v, start), |v| + 1);
    } else {
      NthForward(s, run, latest, start, n - 1);
      NextModulus(CountBefore(v, start) + n - 2, |v| + 1);
      ForwardStep(s, run, latest, (CountBefore(v, start) + n - 2) % (|v| + 1));
      hide *;
    }
  }

  /** From the i-th bundle of the list the search steps to the next one, and from past the end to the first. */
  lemma ForwardStep(s: Pool, run: PoolLog, latest: int, i: nat)
    requires IsProtocolRun(s, run)
    requires forall b :: b in ProposalsIn(run) ==> b.pos.block >= 1
    requires i <= |GetValidatedRootBundles(ProposalsIn(run), LeavesIn(run), latest)|
    ensures var (p, leaves) := (ProposalsIn(run), LeavesIn(run));
            var v := GetValidatedRootBundles(p, leaves, latest);
            GetEarliestFullyExecutedRootBundle(p, leaves, latest, NextStart(At(v, i), latest))
            == At(v, if i < |v| then i + 1 else 0)
  {
    var p, leaves := ProposalsIn(run), LeavesIn(run);
    var v := GetValidatedRootBundles(p, leaves, latest);
    FilterKeepsBlocks(p, IsValidatedAt(p, leaves, latest));
    EarliestIsIndexed(p, leaves, latest, NextStart(At(v, i), latest));
    if i < |v| {
      var k := ValidatedBundle(s, run, latest, v[i]);
      StepPast(v, i);
    } else {
      RestartAtFirst(s, run, latest);
    }
  }

  lemma StepPast(v: Proposals, i: nat)
    requires OneProposalPerBlock(v) && i < |v|
    ensures CountBefore(v, v[i].pos.block + 1) == i + 1
  {
    CountBeforeSplits(v, v[i].pos.block + 1);
    var c := CountBefore(v, v[i].pos.block + 1);
    assert i < c;
    if i + 1 < |v| {
      assert v[i].pos.block < v[i + 1].pos.block;
    }
  }

  lemma RestartAtFirst(s: Pool, run: PoolLog, latest: int)
    requires IsProtocolRun(s, run)
    requires forall b :: b in ProposalsIn(run) ==> b.pos.block >= 1
    ensures CountBefore(GetValidatedRootBundles(ProposalsIn(run), LeavesIn(run), latest), Min(1, latest)) == 0
  {
    var v := GetValidatedRootBundles(ProposalsIn(run), LeavesIn(run), latest);
    if v != [] {
      var k := ValidatedBundle(s, run, latest, v[0]);
    }
  }

  lemma SmallModulus(a: nat, b: nat)
    requires a < b
    ensures a % b == a
  {
  }

  lemma NextModulus(a: nat, b: nat)
    requires b > 0
    ensures (a + 1) % b == if a % b == b - 1 then 0 else a % b + 1
  {
    var q, r := a / b, a % b;
    assert a == q * b + r;
    if r == b - 1 {
      assert a + 1 == (q + 1) * b;
      EventUtils.MultipleOf(q + 1, b);
    } else {
      RemainderIsUnique(a + 1, b, q, r + 1);
    }
  }

  lemma RemainderIsUnique(a: int, b: int, q: int, r: int)
    requires b > 0 && 0 <= r < b && a == q * b + r
    ensures a % b == r
  {
    assert a == a / b * b + a % b;
    assert (a / b - q) * b == r - a % b;
    EventUtils.SmallMultipleIsZero(a / b - q, b);
  }

  /** For 1 <= n <= the number of validated bundles, and no start block, it is the n-th of the list. */
  lemma NthFromFront(s: Pool, run: PoolLog, latest: int, n: nat)
    requires IsProtocolRun(s, run)
    requires forall b :: b in ProposalsIn(run) ==> b.pos.block >= 1
    requires 1 <= n <= |GetValidatedRootBundles(ProposalsIn(run), LeavesIn(run), latest)|
    ensures Forward(ProposalsIn(run), LeavesIn(run), latest, 0, n)
            == Some(GetValidatedRootBundles(ProposalsIn(run), LeavesIn(run), latest)[n - 1])
  {
    var v := GetValidatedRootBundles(ProposalsIn(run), LeavesIn(run), latest);
    NthForward(s, run, latest, 0, n);
    SmallModulus(n - 1, |v| + 1);
  }

  /** Asking for one more than there are gives undefined, and for two more the first bundle again. */
  lemma NthWrapsAround(s: Pool, run: PoolLog, latest: int)
    requires IsProtocolRun(s, run)
    requires forall b :: b in ProposalsIn(run) ==> b.pos.block >= 1
    ensures var (p, leaves) := (ProposalsIn(run), LeavesIn(run));
            var v := GetValidatedRootBundles(p, leaves, latest);
            && Forward(p, leaves, latest, 0, |v| + 1) == None
            && Forward(p, leaves, latest, 0, |v| + 2) == At(v, 0)
  {
    var v := GetValidatedRootBundles(ProposalsIn(run), LeavesIn(run), latest);
    NoneBefore(s, run, latest);
    hide CountBefore, GetValidatedRootBundles, IsProtocolRun, ProposalsIn, LeavesIn, Forward;
    NthForward(s, run, latest, 0, |v| + 1);
    NthForward(s, run, latest, 0, |v| + 2);
    SmallModulus(|v|, |v| + 1);
    NextModulus(|v|, |v| + 1);
  }

  lemma NoneBefore(s: Pool, run: PoolLog, latest: int)
    requires IsProtocolRun(s, run)
    ensures CountBefore(GetValidatedRootBundles(ProposalsIn(run), LeavesIn(run), latest), 0) == 0
  {
    FilterKeepsBlocks(ProposalsIn(run), IsValidatedAt(ProposalsIn(run), LeavesIn(run), latest));
    CountBeforeSplits(GetValidatedRootBundles(ProposalsIn(run), LeavesIn(run), latest), 0);
  }

  // ---------- backwards ----------

  /** No validated bundle is completed in the block of the next validated bundle's proposal. */
  ghost predicate CompletedBeforeNext(run: PoolLog, v: Proposals, from: nat) {
    forall i, k :: from <= i < |v| - 1 && 0 <= k < |ProposalsIn(run)| && ProposalsIn(run)[k] == v[i]
                   && CompletedAt(run, k).Some? ==>
                     CompletedAt(run, k).value < v[i + 1].pos.block
  }

  /** Searching up to the block before the i-th validated bundle finds its predecessor, if completed by then. */
  lemma PredecessorFound(s: Pool, run: PoolLog, m: int, i: nat)
    requires IsProtocolRun(s, run)
    requires i < |GetValidatedRootBundles(ProposalsIn(run), LeavesIn(run), m)|
    ensures var (p, leaves) := (ProposalsIn(run), LeavesIn(run));
            var v := GetValidatedRootBundles(p, leaves, m);
            var found := GetLatestFullyExecutedRootBundle(p, leaves, v[i].pos.block - 1);
            && (i == 0 ==> found == None)
            && (i > 0 ==> forall k :: 0 <= k < |p| && p[k] == v[i - 1] && CompletedAt(run, k).Some? ==>
                  (found == Some(v[i - 1]) <==> CompletedAt(run, k).value < v[i].pos.block))
  {
    var p, leaves := ProposalsIn(run), LeavesIn(run);
    var v := GetValidatedRootBundles(p, leaves, m);
    var cut: int := v[i].pos.block - 1;
    FoundBefore(s, run, m, i, cut);
    if i > 0 {
      forall k | 0 <= k < |p| && p[k] == v[i - 1] && CompletedAt(run, k).Some?
        ensures GetLatestFullyExecutedRootBundle(p, leaves, cut) == Some(v[i - 1])
           <==> CompletedAt(run, k).value < v[i].pos.block
      {
        FoundIsAtLeast(s, run, k, cut);
      }
    }
  }

  /** What a search up to before the i-th bundle finds is in the list, at or before its predecessor. */
  lemma FoundBefore(s: Pool, run: PoolLog, m: int, i: nat, cut: int)
    requires IsProtocolRun(s, run)
    requires i < |GetValidatedRootBundles(ProposalsIn(run), LeavesIn(run), m)|
    requires cut <= GetValidatedRootBundles(ProposalsIn(run), LeavesIn(run), m)[i].pos.block
    ensures var (p, leaves) := (ProposalsIn(run), LeavesIn(run));
            var v := GetValidatedRootBundles(p, leaves, m);
            var found := GetLatestFullyExecutedRootBundle(p, leaves, cut);
            found.Some? ==>
              && i > 0 && found.value.pos.block <= v[i - 1].pos.block
              && (found.value.pos.block == v[i - 1].pos.block ==> found.value == v[i - 1])
  {
    var p, leaves := ProposalsIn(run), LeavesIn(run);
    var v := GetValidatedRootBundles(p, leaves, m);
    FilterKeepsBlocks(p, IsValidatedAt(p, leaves, m));
    var here := ValidatedBundle(s, run, m, v[i]);
    var f := FindLastWitness(p, IsValidatedAt(p, leaves, cut));
    if GetLatestFullyExecutedRootBundle(p, leaves, cut).Some? {
      CompletedIsValidated(s, run, cut, f);
      CompletedIsValidated(s, run, m, f);
      EarlierInList(v, p[f], i);
    }
  }

  /** A search finds the k-th bundle or a later one if that bundle is completed by then, and not it otherwise. */
  lemma FoundIsAtLeast(s: Pool, run: PoolLog, k: nat, cut: int)
    requires IsProtocolRun(s, run) && k < |ProposalsIn(run)| && CompletedAt(run, k).Some?
    ensures var found := GetLatestFullyExecutedRootBundle(ProposalsIn(run), LeavesIn(run), cut);
            if CompletedAt(run, k).value <= cut
            then found.Some? && found.value.pos.block >= ProposalsIn(run)[k].pos.block
            else found != Some(ProposalsIn(run)[k])
  {
    var p, leaves := ProposalsIn(run), LeavesIn(run);
    var f := FindLastWitness(p, IsValidatedAt(p, leaves, cut));
    CompletedIsValidated(s, run, cut, k);
    assert p[k] in p;
    if GetLatestFullyExecutedRootBundle(p, leaves, cut).Some? {
      assert k < f ==> p[k].pos.block < p[f].pos.block;
    }
  }

  /** A bundle of the list proposed before the i-th one is at most the one before it. */
  lemma EarlierInList(v: Proposals, b: Event<RootBundle>, i: nat)
    requires OneProposalPerBlock(v) && i < |v| && b in v && b.pos.block < v[i].pos.block
    ensures i > 0 && b.pos.block <= v[i - 1].pos.block
    ensures b.pos.block == v[i - 1].pos.block ==> b == v[i - 1]
  {
    var j :| 0 <= j < |v| && v[j] == b;
    assert forall t :: i < t < |v| ==> v[t].pos.block > v[i].pos.block;
    assert j < i;
    assert forall t :: 0 <= t < i - 1 ==> v[t].pos.block < v[i - 1].pos.block;
  }

  /**
   Negative `n` counts from the end of the list as long as every bundle passed on the way was completed before the
   block of its successor's proposal.
   */
  lemma {:induction false} NthBackward(s: Pool, run: PoolLog, m: int, n: nat)
    requires IsProtocolRun(s, run) && 1 <= n <= |GetValidatedRootBundles(ProposalsIn(run), LeavesIn(run), m)|
    requires var v := GetValidatedRootBundles(ProposalsIn(run), LeavesIn(run), m); CompletedBeforeNext(run, v, |v| - n)
    ensures var v := GetValidatedRootBundles(ProposalsIn(run), LeavesIn(run), m);
            Backward(ProposalsIn(run), LeavesIn(run), m, n) == Some(v[|v| - n])
  {
    var p, leaves := ProposalsIn(run), LeavesIn(run);
    var v := GetValidatedRootBundles(p, leaves, m);
    if n == 1 {
      FindLastIsLast(p, IsValidatedAt(p, leaves, m));
    } else {
      NthBackward(s, run, m, n - 1);
      var i := |v| - n + 1;
      BlockIsPositive(s, run, m, v, i);
      PredecessorFound(s, run, m, i);
      var k := ValidatedBundle(s, run, m, v[i - 1]);
    }
  }

  lemma BlockIsPositive(s: Pool, run: PoolLog, m: int, v: Proposals, i: nat)
    requires IsProtocolRun(s, run) && v == GetValidatedRootBundles(ProposalsIn(run), LeavesIn(run), m)
    requires 0 < i < |v|
    ensures v[i].pos.block >= 1
  {
    FilterKeepsBlocks(ProposalsIn(run), IsValidatedAt(ProposalsIn(run), LeavesIn(run), m));
    assert v[i - 1].pos.block < v[i].pos.block;
  }

  /** What a search finds is in the list of validated bundles, and was proposed before the block it ends at. */
  lemma FoundInList(s: Pool, run: PoolLog, m: int, cut: int) returns (i: nat)
    requires IsProtocolRun(s, run) && cut <= m
    ensures var v := GetValidatedRootBundles(ProposalsIn(run), LeavesIn(run), m);
            var found := GetLatestFullyExecutedRootBundle(ProposalsIn(run), LeavesIn(run), cut);
            found.Some? ==> i < |v| && v[i] == found.value && v[i].pos.block < cut
  {
    var p, leaves := ProposalsIn(run), LeavesIn(run);
    var v := GetValidatedRootBundles(p, leaves, m);
    var f := FindLastWitness(p, IsValidatedAt(p, leaves, cut));
    i := 0;
    if GetLatestFullyExecutedRootBundle(p, leaves, cut).Some? {
      CompletedIsValidated(s, run, cut, f);
      CompletedIsValidated(s, run, m, f);
      ValidFromCompletion(s, run, f, m);
      i :| 0 <= i < |v| && v[i] == p[f];
    }
  }

  /** The n-th turn is at most `n` bundles from the end, and a bundle once skipped is never caught up with. */
  lemma {:induction false} BackwardIndex(s: Pool, run: PoolLog, m: int, n: nat) returns (i: nat)
    requires IsProtocolRun(s, run) && n >= 1
    ensures var v := GetValidatedRootBundles(ProposalsIn(run), LeavesIn(run), m);
            var (p, leaves) := (ProposalsIn(run), LeavesIn(run));
            var found := Backward(p, leaves, m, n);
            && (found.Some? ==> i + n <= |v| && found.value == v[i])
            && (found.Some? && i + n == |v| && n > 1 ==> Backward(p, leaves, m, n - 1) == Some(v[i + 1]))
  {
    var p, leaves := ProposalsIn(run), LeavesIn(run);
    FilterKeepsBlocks(p, IsValidatedAt(p, leaves, m));
    if n == 1 {
      i := FoundInList(s, run, m, m);
    } else {
      var j := BackwardIndex(s, run, m, n - 1);
      var v, before := GetValidatedRootBundles(p, leaves, m), Backward(p, leaves, m, n - 1);
      hide GetValidatedRootBundles, GetLatestFullyExecutedRootBundle;
      if before.Some? {
        ListedByThen(p, leaves, m, before.value);
        i := FoundInList(s, run, m, NextCut(before));
        assert Backward(p, leaves, m, n).Some? ==> v[i].pos.block < v[j].pos.block;
      } else {
        NothingAtStart(s, run);
        i := 0;
      }
    }
  }

  lemma ListedByThen(p: Proposals, leaves: Leaves, m: int, b: Event<RootBundle>)
    requires b in GetValidatedRootBundles(p, leaves, m)
    ensures b.pos.block <= m
  {
    FilterMembers(p, IsValidatedAt(p, leaves, m), b);
  }

  lemma NothingAtStart(s: Pool, run: PoolLog)
    requires IsProtocolRun(s, run)
    ensures GetLatestFullyExecutedRootBundle(ProposalsIn(run), LeavesIn(run), 0) == None
  {
    var i := FoundInList(s, run, 0, 0);
  }

  /**
   Negative `n` gives the n-th validated bundle from the end if and only if no bundle passed on the way was completed in
   the block of its successor's proposal, and nothing once the list is used up.
   */
  lemma {:induction false} NthFromBackIff(s: Pool, run: PoolLog, m: int, n: nat)
    requires IsProtocolRun(s, run) && n >= 1
    ensures var (p, leaves) := (ProposalsIn(run), LeavesIn(run));
            var v := GetValidatedRootBundles(p, leaves, m);
            if n <= |v| then Backward(p, leaves, m, n) == Some(v[|v| - n]) <==> CompletedBeforeNext(run, v, |v| - n)
            else Backward(p, leaves, m, n) == None
  {
    var p, leaves := ProposalsIn(run), LeavesIn(run);
    var v := GetValidatedRootBundles(p, leaves, m);
    var i := BackwardIndex(s, run, m, n);
    FilterKeepsBlocks(p, IsValidatedAt(p, leaves, m));
    if n <= |v| && CompletedBeforeNext(run, v, |v| - n) {
      NthBackward(s, run, m, n);
    }
    if n <= |v| && Backward(p, leaves, m, n) == Some(v[|v| - n]) {
      if n > 1 {
        NthFromBackIff(s, run, m, n - 1);
        BlockIsPositive(s, run, m, v, i + 1);
        PredecessorFound(s, run, m, i + 1);
        var k := ValidatedBundle(s, run, m, v[i]);
      }
    }
  }

  // ---------- the bundle containing a block ----------

  /** A bundle's end block for a chain, if the bundle was fully executed before the next one or the latest block. */
  function EndOf(p: Proposals, leaves: Leaves, latest: int, chain: int, chainIdList: ConfigStore.ChainList)
    : Event<RootBundle> -> Option<nat>
  {
    (b: Event<RootBundle>) =>
      var next := GetFollowingRootBundle(p, b);
      if IsRootBundleValid(p, leaves, b, if next.Some? then next.value.pos.block else latest)
      then Some(ConfigStore.GetBundleEndBlockForChain(b.args.bundleEvaluationBlockNumbers, chain, chainIdList))
      else None
  }

  /** The backwards scan over end blocks, oldest first. */
  function ScanBack(ends: seq<nat>, block: nat): Option<nat> {
    if ends == [] || Last(ends) < block then None
    else if Last(ends) == block || ScanBack(Init(ends), block).None? then Some(Last(ends))
    else ScanBack(Init(ends), block)
  }

  /** `getRootBundleEvalBlockNumberContainingBlock`. */
  method GetRootBundleEvalBlockNumberContainingBlock(p: Proposals, leaves: Leaves, latestMainnetBlock: int, block: nat,
                                                     chain: int, chainIdList: ConfigStore.ChainList)
    returns (endingBlockNumber: Option<nat>)
    ensures endingBlockNumber == ScanBack(Collect(p, EndOf(p, leaves, latestMainnetBlock, chain, chainIdList)), block)
  {
    endingBlockNumber := None;
    ghost var endOf := EndOf(p, leaves, latestMainnetBlock, chain, chainIdList);
    ghost var goal := ScanBack(Collect(p, endOf), block);
    RestEnds(p, endOf, block);
    hide Rest;
    var i := |p|;
    while i > 0
      invariant 0 <= i <= |p|
      invariant goal == Rest(p, i, endOf, block, endingBlockNumber)
      decreases i
    {
      i := i - 1;
      RestStep(p, i, endOf, block, endingBlockNumber);
      var rootBundle := p[i];
      var nextRootBundle := GetFollowingRootBundle(p, rootBundle);
      if !IsRootBundleValid(p, leaves, rootBundle,
                            if nextRootBundle.Some? then nextRootBundle.value.pos.block else latestMainnetBlock) {
        continue;
      }
      var bundleEvalBlockNumber :=
        ConfigStore.GetBundleEndBlockForChain(rootBundle.args.bundleEvaluationBlockNumbers, chain, chainIdList);
      if bundleEvalBlockNumber <= block {
        if bundleEvalBlockNumber == block {
          endingBlockNumber := Some(bundleEvalBlockNumber);
        }
        return;
      }
      endingBlockNumber := Some(bundleEvalBlockNumber);
    }
  }

  /** The scan's answer for the first `i` bundles when `found` is what the newer ones gave. */
  function Rest(p: Proposals, i: nat, endOf: Event<RootBundle> -> Option<nat>, block: nat, found: Option<nat>): Option<nat>
    requires i <= |p|
  {
    var answer := ScanBack(Collect(p[..i], endOf), block);
    if answer.Some? then answer else found
  }

  lemma RestEnds(p: Proposals, endOf: Event<RootBundle> -> Option<nat>, block: nat)
    ensures Rest(p, |p|, endOf, block, None) == ScanBack(Collect(p, endOf), block)
    ensures forall found :: Rest(p, 0, endOf, block, found) == found
  {
    assert p[..|p|] == p;
  }

  lemma RestStep(p: Proposals, i: nat, endOf: Event<RootBundle> -> Option<nat>, block: nat, found: Option<nat>)
    requires i < |p|
    ensures Rest(p, i + 1, endOf, block, found) ==
            match endOf(p[i])
            case None => Rest(p, i, endOf, block, found)
            case Some(e) =>
              if e < block then found
              else if e == block then Some(e)
              else Rest(p, i, endOf, block, Some(e))
  {
    var ends := Collect(p[..i], endOf);
    assert p[..i + 1] == p[..i] + [p[i]];
    CollectSnoc(p[..i], p[i], endOf);
    if endOf(p[i]).Some? {
      assert Init(ends + [endOf(p[i]).value]) == ends;
    }
  }

  ghost predicate NonDecreasing(ends: seq<nat>) {
    forall i, j :: 0 <= i <= j < |ends| ==> ends[i] <= ends[j]
  }

  /** `answer` is the least of the ends at or past the block; nothing stands for there being none. */
  ghost predicate IsLeast(ends: seq<nat>, block: nat, answer: Option<nat>) {
    match answer
    case Some(e) => e in ends && e >= block && forall x :: x in ends && x >= block ==> e <= x
    case None => forall x :: x in ends ==> x < block
  }

  /** Where end blocks do not decrease, the scan returns the least one at or past the block, or nothing if none is. */
  lemma {:induction false} ScanFindsLeast(ends: seq<nat>, block: nat)
    requires NonDecreasing(ends)
    ensures IsLeast(ends, block, ScanBack(ends, block))
  {
    if ends != [] {
      assert ends == Init(ends) + [Last(ends)];
      assert forall i :: 0 <= i < |ends| - 1 ==> Init(ends)[i] == ends[i];
      ScanFindsLeast(Init(ends), block);
      forall x | x in ends ensures x <= Last(ends) {
        var i :| 0 <= i < |ends| && ends[i] == x;
      }
    }
  }

  // ---------- which bundles the scan reads ----------

  function EndFor(run: PoolLog, k: nat, chain: int, chainIdList: ConfigStore.ChainList): nat
    requires k < |ProposalsIn(run)|
  {
    ConfigStore.GetBundleEndBlockForChain(ProposalsIn(run)[k].args.bundleEvaluationBlockNumbers, chain, chainIdList)
  }

  /** Completed, and if it is the last bundle proposed, completed by the latest block. */
  predicate IsScanned(run: PoolLog, latest: int, k: nat) {
    && k < |ProposalsIn(run)|
    && CompletedAt(run, k).Some?
    && (k + 1 < |ProposalsIn(run)| || CompletedAt(run, k).value <= latest)
  }

  /**
   The bundles scanned are those that are fully executed as of the latest block, and all that are completed later but
   followed by another proposal.
   */
  lemma ScannedBundles(s: Pool, run: PoolLog, latest: int, k: nat, chain: int, chainIdList: ConfigStore.ChainList)
    requires IsProtocolRun(s, run) && k < |ProposalsIn(run)|
    ensures var (p, leaves) := (ProposalsIn(run), LeavesIn(run));
            && EndOf(p, leaves, latest, chain, chainIdList)(p[k])
               == (if IsScanned(run, latest, k) then Some(EndFor(run, k, chain, chainIdList)) else None)
            && (IsScanned(run, latest, k) <==>
                  || FullyExecutedBy(run, k, latest)
                  || (k + 1 < |p| && CompletedAt(run, k).Some? && CompletedAt(run, k).value > latest))
  {
    var p := ProposalsIn(run);
    ClosingCloses(run, k);
    ValidFromCompletion(s, run, k, latest);
    ProtocolRunIsJudgedRight(s, run, k, latest);
    if k + 1 < |p| {
      ValidFromCompletion(s, run, k, p[k + 1].pos.block);
    }
  }

  /** The end blocks of scanned bundles do not decrease. */
  ghost predicate EndsInOrder(run: PoolLog, latest: int, chain: int, chainIdList: ConfigStore.ChainList) {
    forall i: nat, j: nat :: i <= j && IsScanned(run, latest, i) && IsScanned(run, latest, j) ==>
      EndFor(run, i, chain, chainIdList) <= EndFor(run, j, chain, chainIdList)
  }

  /** What `getRootBundleEvalBlockNumberContainingBlock` answers for a run. */
  function EvalBlock(run: PoolLog, latest: int, block: nat, chain: int, chainIdList: ConfigStore.ChainList): Option<nat> {
    ScanBack(Collect(ProposalsIn(run), EndOf(ProposalsIn(run), LeavesIn(run), latest, chain, chainIdList)), block)
  }

  /** `e` is the least end at or past `block` of a scanned bundle; nothing stands for there being none. */
  ghost predicate IsLeastEnd(run: PoolLog, latest: int, block: nat, chain: int, chainIdList: ConfigStore.ChainList,
                             e: Option<nat>)
  {
    match e
    case Some(end) =>
      && end >= block
      && (exists k: nat :: IsScanned(run, latest, k) && EndFor(run, k, chain, chainIdList) == end)
      && forall k: nat :: IsScanned(run, latest, k) && EndFor(run, k, chain, chainIdList) >= block ==>
           end <= EndFor(run, k, chain, chainIdList)
    case None =>
      forall k: nat :: IsScanned(run, latest, k) ==> EndFor(run, k, chain, chainIdList) < block
  }

  /**
   In any run whose scanned bundles have non-decreasing end blocks for the chain, the backwards loop returns the least
   such end block at or past the block asked about, and undefined exactly when there is none.
   */
  lemma EvalBlockIsLeastEnd(s: Pool, run: PoolLog, latest: int, block: nat, chain: int, chainIdList: ConfigStore.ChainList)
    requires IsProtocolRun(s, run) && EndsInOrder(run, latest, chain, chainIdList)
    ensures IsLeastEnd(run, latest, block, chain, chainIdList, EvalBlock(run, latest, block, chain, chainIdList))
  {
    var p := ProposalsIn(run);
    var endOf := EndOf(p, LeavesIn(run), latest, chain, chainIdList);
    ScannedEnds(s, run, latest, chain, chainIdList);
    forall i: nat, j: nat | i <= j < |p| && endOf(p[i]).Some? && endOf(p[j]).Some?
      ensures endOf(p[i]).value <= endOf(p[j]).value
    {
      ScannedBundles(s, run, latest, i, chain, chainIdList);
      ScannedBundles(s, run, latest, j, chain, chainIdList);
    }
    CollectInOrder(p, endOf);
    ScanFindsLeast(Collect(p, endOf), block);
    hide IsScanned, EndFor, EndOf, Collect, ScanBack, AreScannedEnds, IsLeast, IsLeastEnd, EndsInOrder;
    LeastOfEnds(run, latest, block, chain, chainIdList, Collect(p, endOf),
                EvalBlock(run, latest, block, chain, chainIdList));
  }

  ghost predicate AreScannedEnds(run: PoolLog, latest: int, chain: int, chainIdList: ConfigStore.ChainList, ends: seq<nat>) {
    forall e: nat ::
      e in ends <==> exists k: nat :: IsScanned(run, latest, k) && EndFor(run, k, chain, chainIdList) == e
  }

  /** The list scanned holds the end blocks of exactly the scanned bundles. */
  lemma ScannedEnds(s: Pool, run: PoolLog, latest: int, chain: int, chainIdList: ConfigStore.ChainList)
    requires IsProtocolRun(s, run)
    ensures AreScannedEnds(run, latest, chain, chainIdList,
                           Collect(ProposalsIn(run), EndOf(ProposalsIn(run), LeavesIn(run), latest, chain, chainIdList)))
  {
    var p := ProposalsIn(run);
    var endOf := EndOf(p, LeavesIn(run), latest, chain, chainIdList);
    forall k: nat | k < |p|
      ensures endOf(p[k]) == if IsScanned(run, latest, k) then Some(EndFor(run, k, chain, chainIdList)) else None
    {
      ScannedBundles(s, run, latest, k, chain, chainIdList);
    }
    hide EndOf, IsProtocolRun;
    forall e: nat
      ensures e in Collect(p, endOf) <==>
              exists k: nat :: IsScanned(run, latest, k) && EndFor(run, k, chain, chainIdList) == e
    {
      CollectMembers<Event<RootBundle>, nat>(p, endOf, e);
      if e in Collect(p, endOf) {
        var b :| b in p && endOf(b) == Some(e);
        var k :| 0 <= k < |p| && p[k] == b;
        assert IsScanned(run, latest, k);
      }
      if k: nat :| IsScanned(run, latest, k) && EndFor(run, k, chain, chainIdList) == e {
        assert p[k] in p;
      }
    }
  }

  lemma LeastOfEnds(run: PoolLog, latest: int, block: nat, chain: int, chainIdList: ConfigStore.ChainList,
                    ends: seq<nat>, answer: Option<nat>)
    requires AreScannedEnds(run, latest, chain, chainIdList, ends) && IsLeast(ends, block, answer)
    ensures IsLeastEnd(run, latest, block, chain, chainIdList, answer)
  {
    forall k: nat | IsScanned(run, latest, k) ensures EndFor(run, k, chain, chainIdList) in ends {
    }
    hide IsScanned, EndFor;
  }

  lemma LeastIsUnique(run: PoolLog, latest: int, block: nat, chain: int, chainIdList: ConfigStore.ChainList,
                      a: Option<nat>, b: Option<nat>)
    requires IsLeastEnd(run, latest, block, chain, chainIdList, a)
    requires IsLeastEnd(run, latest, block, chain, chainIdList, b)
    ensures a == b
  {
    hide IsScanned, EndFor;
  }

  lemma {:induction false} CollectInOrder(p: Proposals, f: Event<RootBundle> -> Option<nat>)
    requires forall i: nat, j: nat :: i <= j < |p| && f(p[i]).Some? && f(p[j]).Some? ==> f(p[i]).value <= f(p[j]).value
    ensures NonDecreasing(Collect(p, f))
  {
    if p != [] {
      assert forall i: nat :: i < |p| - 1 ==> Init(p)[i] == p[i];
      CollectInOrder(Init(p), f);
      var before: seq<nat> := Collect(Init(p), f);
      if f(Last(p)).Some? {
        forall i: nat | i < |before| ensures before[i] <= f(Last(p)).value {
          CollectMembers<Event<RootBundle>, nat>(Init(p), f, before[i]);
          var x :| x in Init(p) && f(x) == Some(before[i]);
          var k :| 0 <= k < |Init(p)| && Init(p)[k] == x;
          assert p[k] == x;
        }
        assert Collect(p, f) == before + [f(Last(p)).value];
      } else {
        assert Collect(p, f) == before;
      }
    }
  }

  // ---------- answers that move ----------

  /** A bundle that was not fully executed by the latest block, and is scanned all the same. */
  predicate IsScannedLate(run: PoolLog, latest: int, k: nat) {
    IsScanned(run, latest, k) && CompletedAt(run, k).value > latest
  }

  lemma ScannedBefore(s: Pool, run: PoolLog, more: PoolLog, m: int, k: nat, chain: int, chainIdList: ConfigStore.ChainList)
    requires IsProtocolRun(s, run + more)
    requires (forall e :: e in run ==> e.pos.block <= m) && forall e :: e in more ==> e.pos.block > m
    ensures IsScanned(run, m, k) <==> IsScanned(run + more, m, k) && !IsScannedLate(run + more, m, k)
    ensures IsScanned(run, m, k) ==> EndFor(run, k, chain, chainIdList) == EndFor(run + more, k, chain, chainIdList)
  {
    PrefixIsRun(s, run, more);
    LaterLeaves(run, more, k, m);
    CollectedBlocks(run, m);
    CollectConcat(run, more, ProposalOf);
    if k < |ProposalsIn(run)| {
      FullExecutionIsFinal(s, run, more, k, m);
      ScannedBundles(s, run, m, k, chain, chainIdList);
      ScannedBundles(s, run + more, m, k, chain, chainIdList);
      ValidFromCompletion(s, run, k, m);
      ValidFromCompletion(s, run + more, k, m);
      ProtocolRunIsJudgedRight(s, run, k, m);
      ProtocolRunIsJudgedRight(s, run + more, k, m);
    } else if k < |ProposalsIn(run + more)| {
      ProposedLater(more, m);
      ValidFromCompletion(s, run + more, k, m);
    }
  }

  lemma {:induction false} ProposedLater(more: PoolLog, m: int)
    requires forall e :: e in more ==> e.pos.block > m
    ensures forall b :: b in ProposalsIn(more) ==> b.pos.block > m
  {
    if more != [] {
      assert more == Init(more) + [Last(more)];
      ProposedLater(Init(more), m);
    }
  }

  /** Bundles complete in order. */
  lemma EarlyBeforeLate(s: Pool, run: PoolLog, m: int, i: nat, j: nat)
    requires IsProtocolRun(s, run)
    requires IsScanned(run, m, i) && !IsScannedLate(run, m, i) && IsScannedLate(run, m, j)
    ensures i < j
  {
    var p := ProposalsIn(run);
    assert forall a, b :: 0 <= a <= b < |p| ==> p[a].pos.block <= p[b].pos.block;
    ValidFromCompletion(s, run, i, m);
    ValidFromCompletion(s, run, j, m);
  }

  /**
   Asked as of block `m`, the answer of a client that has read the log up to `m` never moves once it is defined. An
   undefined answer moves when later blocks arrive if and only if some bundle completed after `m`, and followed by
   another proposal, ends at or past the block asked about.
   */
  lemma EvalAnswerMovesIff(s: Pool, run: PoolLog, more: PoolLog, m: int, block: nat, chain: int,
                           chainIdList: ConfigStore.ChainList)
    requires IsProtocolRun(s, run + more) && EndsInOrder(run + more, m, chain, chainIdList)
    requires (forall e :: e in run ==> e.pos.block <= m) && forall e :: e in more ==> e.pos.block > m
    ensures var (early, now) := (EvalBlock(run, m, block, chain, chainIdList),
                                EvalBlock(run + more, m, block, chain, chainIdList));
            && (early.Some? ==> now == early)
            && (early.None? ==>
                  (now != early <==>
                     exists k: nat :: IsScannedLate(run + more, m, k) && EndFor(run + more, k, chain, chainIdList) >= block))
  {
    PrefixIsRun(s, run, more);
    RunExtends(s, run, more, m, chain, chainIdList);
    EndsStayInOrder(run, run + more, m, chain, chainIdList);
    EvalBlockIsLeastEnd(s, run, m, block, chain, chainIdList);
    EvalBlockIsLeastEnd(s, run + more, m, block, chain, chainIdList);
    hide *;
    LeastMovesIff(run, run + more, m, block, chain, chainIdList,
                  EvalBlock(run, m, block, chain, chainIdList), EvalBlock(run + more, m, block, chain, chainIdList));
  }

  /** The longer log scans the same bundles and late ones, which end no earlier. */
  ghost predicate Extends(run: PoolLog, all: PoolLog, m: int, chain: int, chainIdList: ConfigStore.ChainList) {
    && (forall k: nat :: IsScanned(run, m, k) <==> IsScanned(all, m, k) && !IsScannedLate(all, m, k))
    && (forall k: nat :: IsScanned(run, m, k) ==>
          k < |ProposalsIn(all)| && EndFor(run, k, chain, chainIdList) == EndFor(all, k, chain, chainIdList))
    && (forall i: nat, j: nat :: IsScanned(run, m, i) && IsScannedLate(all, m, j) ==>
          EndFor(run, i, chain, chainIdList) <= EndFor(all, j, chain, chainIdList))
  }

  lemma RunExtends(s: Pool, run: PoolLog, more: PoolLog, m: int, chain: int, chainIdList: ConfigStore.ChainList)
    requires IsProtocolRun(s, run + more) && EndsInOrder(run + more, m, chain, chainIdList)
    requires (forall e :: e in run ==> e.pos.block <= m) && forall e :: e in more ==> e.pos.block > m
    ensures Extends(run, run + more, m, chain, chainIdList)
  {
    forall k: nat
      ensures IsScanned(run, m, k) <==> IsScanned(run + more, m, k) && !IsScannedLate(run + more, m, k)
      ensures IsScanned(run, m, k) ==> EndFor(run, k, chain, chainIdList) == EndFor(run + more, k, chain, chainIdList)
    {
      ScannedBefore(s, run, more, m, k, chain, chainIdList);
    }
    forall i: nat, j: nat | IsScanned(run, m, i) && IsScannedLate(run + more, m, j)
      ensures EndFor(run, i, chain, chainIdList) <= EndFor(run + more, j, chain, chainIdList)
    {
      EarlyBeforeLate(s, run + more, m, i, j);
    }
  }

  lemma LeastMovesIff(run: PoolLog, all: PoolLog, m: int, block: nat, chain: int, chainIdList: ConfigStore.ChainList,
                      early: Option<nat>, now: Option<nat>)
    requires Extends(run, all, m, chain, chainIdList)
    requires IsLeastEnd(run, m, block, chain, chainIdList, early) && IsLeastEnd(all, m, block, chain, chainIdList, now)
    ensures early.Some? ==> now == early
    ensures early.None? ==>
              (now != early <==>
                 exists k: nat :: IsScannedLate(all, m, k) && EndFor(all, k, chain, chainIdList) >= block)
  {
    if early.Some? {
      StillLeast(run, all, m, block, chain, chainIdList, early.value);
      LeastIsUnique(all, m, block, chain, chainIdList, early, now);
    } else {
      hide EndFor, CompletedAt;
    }
  }

  lemma EndsStayInOrder(run: PoolLog, all: PoolLog, m: int, chain: int, chainIdList: ConfigStore.ChainList)
    requires EndsInOrder(all, m, chain, chainIdList) && Extends(run, all, m, chain, chainIdList)
    ensures EndsInOrder(run, m, chain, chainIdList)
  {
    hide IsScanned, EndFor;
  }

  lemma StillLeast(run: PoolLog, all: PoolLog, m: int, block: nat, chain: int, chainIdList: ConfigStore.ChainList, e: nat)
    requires Extends(run, all, m, chain, chainIdList)
    requires IsLeastEnd(run, m, block, chain, chainIdList, Some(e))
    ensures IsLeastEnd(all, m, block, chain, chainIdList, Some(e))
  {
    hide EndFor, CompletedAt;
  }

  // Proposals in blocks 5, 8 and 12, each of one leaf; the first two are executed in blocks 6 and 9.

  const MOVING: PoolLog := [Event(LogPos(5, 0, 0), ProposeRootBundle(RootBundle(1, [10]))),
                            Event(LogPos(6, 0, 0), RootBundleExecuted(Leaf(1, 0))),
                            Event(LogPos(8, 0, 0), ProposeRootBundle(RootBundle(1, [20]))),
                            Event(LogPos(9, 0, 0), RootBundleExecuted(Leaf(1, 0))),
                            Event(LogPos(12, 0, 0), ProposeRootBundle(RootBundle(1, [30])))]

  lemma MovingIsRun()
    ensures IsLoggedRun(Pool(0, 0), MOVING)
  {
    var run := MOVING;
    assert run[..0] == [] && Init(run[..1]) == run[..0] && Init(run[..2]) == run[..1] && Init(run[..3]) == run[..2];
    assert Init(run[..4]) == run[..3] && Init(run) == run[..4];
    assert After(Pool(0, 0), run[..1]) == Pool(1, 5) && IsRun(Pool(0, 0), run[..1]);
    assert After(Pool(0, 0), run[..2]) == Pool(0, 5) && IsRun(Pool(0, 0), run[..2]);
    assert After(Pool(0, 0), run[..3]) == Pool(1, 8) && IsRun(Pool(0, 0), run[..3]);
    assert After(Pool(0, 0), run[..4]) == Pool(0, 8) && IsRun(Pool(0, 0), run[..4]);
  }

  lemma MovingProposals()
    ensures ProposalsIn(MOVING[..2]) == [Event(LogPos(5, 0, 0), RootBundle(1, [10]))]
    ensures ProposalsIn(MOVING) == [Event(LogPos(5, 0, 0), RootBundle(1, [10])), Event(LogPos(8, 0, 0), RootBundle(1, [20])),
                                    Event(LogPos(12, 0, 0), RootBundle(1, [30]))]
    ensures LeavesOf(MOVING, 1) == [Event(LogPos(9, 0, 0), Leaf(1, 0))]
  {
    var run := MOVING;
    assert run[..1] == [] + [run[0]] && run[..2] == run[..1] + [run[1]] && run[..3] == run[..2] + [run[2]];
    assert run[..4] == run[..3] + [run[3]] && run == run[..4] + [run[4]];
    CollectSnoc([], run[0], ProposalOf);
    CollectSnoc(run[..1], run[1], ProposalOf);
    CollectSnoc(run[..2], run[2], ProposalOf);
    CollectSnoc(run[..3], run[3], ProposalOf);
    CollectSnoc(run[..4], run[4], ProposalOf);
    assert Init(run[..3]) == run[..2] && Init(run[..4]) == run[..3] && Init(run) == run[..4];
    NoLeavesYet(run[..2], 1);
    assert LeavesOf(run[..3], 1) == [];
  }

  lemma MovingEnds()
    ensures IsProtocolRun(Pool(0, 0), MOVING) && MOVING[..2] + MOVING[2..] == MOVING
    ensures IsScannedLate(MOVING, 7, 1) && EndFor(MOVING, 1, 1, [1]) == 20
    ensures EndsInOrder(MOVING, 7, 1, [1])
    ensures forall k: nat :: IsScanned(MOVING[..2], 7, k) ==> EndFor(MOVING[..2], k, 1, [1]) == 10
  {
    MovingIsRun();
    MovingProposals();
    assert Last([Event(LogPos(9, 0, 0), Leaf(1, 0))]).pos.block == 9;
  }

  /** As of block 7, block 15 is in no bundle when the log ends there, and in the second one when it has gone on. */
  lemma AnswerMoves()
    ensures IsProtocolRun(Pool(0, 0), MOVING)
    ensures EvalBlock(MOVING[..2], 7, 15, 1, [1]) == None && EvalBlock(MOVING, 7, 15, 1, [1]).Some?
  {
    var run, more := MOVING[..2], MOVING[2..];
    MovingEnds();
    hide EvalBlock, IsProtocolRun, EndsInOrder, IsScannedLate, IsScanned, EndFor;
    PrefixIsRun(Pool(0, 0), run, more);
    RunExtends(Pool(0, 0), run, more, 7, 1, [1]);
    EndsStayInOrder(run, MOVING, 7, 1, [1]);
    EvalBlockIsLeastEnd(Pool(0, 0), run, 7, 15, 1, [1]);
    EvalAnswerMovesIff(Pool(0, 0), run, more, 7, 15, 1, [1]);
  }
}
