/**
 BlockFinder: a sparse, sorted cache of blocks shared by concurrent searches (src/utils/BlockUtils.ts).

 JavaScript runs one call at a time and switches only where a call awaits. `Await` stands for one such point: it runs
 any number of other calls' resumptions, each of which inserts a block the provider has returned, and lets the chain
 grow. Every method below is verified with that happening at every await.
 */
module BlockUtils {
  import opened Wrappers

  datatype Block = Block(number: nat, timestamp: nat)

  /** The timestamp of every block of the chain, mined or to be mined. */
  type Chain = nat -> nat

  ghost predicate NonDecreasing(chain: Chain) {
    forall m: nat, n: nat :: m <= n ==> chain(m) <= chain(n)
  }

  ghost predicate StrictlyIncreasing(chain: Chain) {
    forall m: nat, n: nat :: m < n ==> chain(m) < chain(n)
  }

  /** Strictly sorted by number, hence without duplicates, and holding blocks of the chain only. */
  ghost predicate IsCache(chain: Chain, blocks: seq<Block>) {
    && (forall i, j :: 0 <= i < j < |blocks| ==> blocks[i].number < blocks[j].number)
    && (forall b :: b in blocks ==> b.timestamp == chain(b.number))
  }

  ghost predicate Grown(before: seq<Block>, after: seq<Block>) {
    forall b :: b in before ==> b in after
  }

  /** lodash `sortedIndexBy`: where to insert a block with the key `x` to keep the order by key. */
  function SortedIndexBy(blocks: seq<Block>, x: nat, key: Block -> nat): (i: nat)
    ensures i <= |blocks|
    ensures forall k :: 0 <= k < i ==> key(blocks[k]) < x
    ensures i < |blocks| ==> key(blocks[i]) >= x
  {
    if blocks == [] || key(blocks[0]) >= x then 0 else 1 + SortedIndexBy(blocks[1..], x, key)
  }

  function SortedIndexByNumber(blocks: seq<Block>, number: nat): nat {
    SortedIndexBy(blocks, number, (b: Block) => b.number)
  }

  function SortedIndexByTimestamp(blocks: seq<Block>, timestamp: nat): nat {
    SortedIndexBy(blocks, timestamp, (b: Block) => b.timestamp)
  }

  /** The cache after the resumption of a call whose provider request returned `b`. */
  function WithBlock(blocks: seq<Block>, b: Block): seq<Block> {
    var i := SortedIndexByNumber(blocks, b.number);
    if i < |blocks| && blocks[i].number == b.number then blocks else blocks[..i] + [b] + blocks[i..]
  }

  lemma WithBlockKeepsCache(chain: Chain, blocks: seq<Block>, b: Block)
    requires IsCache(chain, blocks) && b.timestamp == chain(b.number)
    ensures IsCache(chain, WithBlock(blocks, b))
    ensures forall x :: x in WithBlock(blocks, b) <==> x in blocks || x == b
  {
    var i := SortedIndexByNumber(blocks, b.number);
    hide SortedIndexBy;
    if i < |blocks| && blocks[i].number == b.number {
      assert blocks[i] == b;
    } else {
      assert blocks == blocks[..i] + blocks[i..];
      forall k | i <= k < |blocks| ensures b.number < blocks[k].number {
        assert blocks[i].number <= blocks[k].number;
      }
    }
  }

  /** A block at or before `timestamp` that no later block at or before it outdates, short of sharing its timestamp. */
  ghost predicate IsAnswer(chain: Chain, timestamp: nat, b: Block) {
    && b.timestamp == chain(b.number) <= timestamp
    && forall n: nat :: n > b.number && chain(n) <= timestamp ==> chain(n) == b.timestamp == timestamp
  }

  ghost predicate IsLatestAtOrBefore(chain: Chain, timestamp: nat, b: Block) {
    b.timestamp == chain(b.number) <= timestamp && forall n: nat :: n > b.number ==> chain(n) > timestamp
  }

  /** At most one block carries the timestamp. */
  ghost predicate IsLone(chain: Chain, timestamp: nat) {
    forall m: nat, n: nat :: chain(m) == timestamp && chain(n) == timestamp ==> m == n
  }

  /** A later block shares the timestamp of `b`. */
  ghost predicate IsShadowed(chain: Chain, b: Block) {
    exists n: nat :: n > b.number && chain(n) == b.timestamp
  }

  /** Where at most one block carries the timestamp, so wherever timestamps strictly increase, the answer is the latest. */
  lemma AnswerIsLatest(chain: Chain, timestamp: nat, b: Block)
    requires IsAnswer(chain, timestamp, b)
    ensures IsLone(chain, timestamp) ==> IsLatestAtOrBefore(chain, timestamp, b)
    ensures StrictlyIncreasing(chain) ==> IsLone(chain, timestamp)
  {
    if StrictlyIncreasing(chain) {
      forall m: nat, n: nat | chain(m) == timestamp && chain(n) == timestamp ensures m == n {
        assert m < n ==> chain(m) < chain(n);
        assert n < m ==> chain(n) < chain(m);
      }
    }
  }

  /** The first of the blocks looked at that carries the timestamp. */
  function FirstAt(seen: seq<Block>, timestamp: nat): Option<Block> {
    if seen == [] then None
    else if seen[0].timestamp == timestamp then Some(seen[0])
    else FirstAt(seen[1..], timestamp)
  }

  /** A search returns the first block it looks at that carries the timestamp, or else an earlier block. */
  ghost predicate IsOutcome(seen: seq<Block>, timestamp: nat, r: Block) {
    match FirstAt(seen, timestamp)
    case Some(b) => r == b
    case None => r.timestamp < timestamp
  }

  function Clamp(x: int, low: int, high: int): int {
    if x < low then low else if x > high then high else x
  }

  /** Estimates a block from two blocks and a timestamp between theirs: floating point in the source, anything here. */
  type Interpolation = (Block, Block, nat) -> int

  /** The block between two others that the search looks at next. */
  function Probe(chain: Chain, start: Block, end: Block, timestamp: nat, interpolate: Interpolation): (b: Block)
    requires start.number + 1 < end.number
    ensures start.number < b.number < end.number && b.timestamp == chain(b.number)
  {
    var number := Clamp(interpolate(start, end, timestamp), start.number + 1, end.number - 1);
    Block(number, chain(number))
  }

  /** The blocks that the search looks at after `end`, in order. */
  function Probes(chain: Chain, start: Block, end: Block, timestamp: nat, interpolate: Interpolation): seq<Block>
    decreases end.number - start.number
  {
    if end.timestamp == timestamp || end.number <= start.number + 1 then []
    else
      var b := Probe(chain, start, end, timestamp, interpolate);
      [b] + if b.timestamp < timestamp then Probes(chain, b, end, timestamp, interpolate)
            else Probes(chain, start, b, timestamp, interpolate)
  }

  /** The end block, then the blocks probed. */
  function Seen(chain: Chain, startBlock: Option<Block>, endBlock: Block, timestamp: nat, interpolate: Interpolation)
    : seq<Block>
  {
    [endBlock] + match startBlock
                 case None => []
                 case Some(start) => Probes(chain, start, endBlock, timestamp, interpolate)
  }

  /**
   The blocks that a search looks at once it turns to the cache: the first cached one that is not before the timestamp,
   then those that its interpolation leads to.
   */
  function SeenFrom(chain: Chain, cache: seq<Block>, timestamp: nat, interpolate: Interpolation): seq<Block> {
    var index := SortedIndexByTimestamp(cache, timestamp);
    if index >= |cache| then []
    else Seen(chain, if index == 0 then None else Some(cache[index - 1]), cache[index], timestamp, interpolate)
  }

  /**
   The answer of a search over a cache is the first block it looks at that carries the timestamp, if any, and is the
   latest block at or before the timestamp if and only if that one is the last block of the chain to carry it.
   */
  ghost predicate IsDecided(chain: Chain, cache: seq<Block>, timestamp: nat, interpolate: Interpolation, r: Block) {
    match FirstAt(SeenFrom(chain, cache, timestamp, interpolate), timestamp)
    case Some(first) => r == first && (IsLatestAtOrBefore(chain, timestamp, r) <==> !IsShadowed(chain, first))
    case None => IsLatestAtOrBefore(chain, timestamp, r)
  }

  lemma LatestIffFirstSeenIsLast(chain: Chain, cache: seq<Block>, timestamp: nat, interpolate: Interpolation, r: Block)
    requires IsAnswer(chain, timestamp, r)
    requires IsOutcome(SeenFrom(chain, cache, timestamp, interpolate), timestamp, r)
    ensures IsDecided(chain, cache, timestamp, interpolate, r)
  {
  }

  /** With a floor and a ceiling in the cache, the insertion point of the timestamp has the neighbours it needs. */
  lemma Bracket(chain: Chain, blocks: seq<Block>, timestamp: nat, floor: Block, ceiling: Block)
    requires NonDecreasing(chain) && IsCache(chain, blocks)
    requires floor in blocks && floor.timestamp <= timestamp
    requires ceiling in blocks && ceiling.timestamp >= timestamp
    ensures var i := SortedIndexByTimestamp(blocks, timestamp);
            && i < |blocks| && blocks[i].number <= ceiling.number
            && (i == 0 ==> blocks[i].timestamp == timestamp)
  {
    var i := SortedIndexByTimestamp(blocks, timestamp);
    var f :| 0 <= f < |blocks| && blocks[f] == floor;
    var c :| 0 <= c < |blocks| && blocks[c] == ceiling;
    assert i <= c;
    assert chain(blocks[0].number) <= chain(blocks[f].number);
    assert blocks[0] in blocks;
  }

  lemma EarliestCached(chain: Chain, blocks: seq<Block>, timestamp: nat, floor: Block)
    requires NonDecreasing(chain) && IsCache(chain, blocks)
    requires floor in blocks && floor.timestamp <= timestamp
    ensures var i := SortedIndexByTimestamp(blocks, timestamp);
            forall b :: b in blocks && b.timestamp == timestamp ==> i < |blocks| && blocks[i].number <= b.number
  {
    forall b | b in blocks && b.timestamp == timestamp
      ensures var i := SortedIndexByTimestamp(blocks, timestamp); i < |blocks| && blocks[i].number <= b.number
    {
      Bracket(chain, blocks, timestamp, floor, b);
    }
  }

  class BlockFinder {
    const chain: Chain
    var blocks: seq<Block>
    /** The provider's newest block. */
    var head: nat

    ghost predicate Valid()
      reads this
    {
      && NonDecreasing(chain)
      && IsCache(chain, blocks)
      && forall b :: b in blocks ==> b.number <= head
    }

    constructor (chain: Chain, head: nat, blocks: seq<Block>)
      requires NonDecreasing(chain) && IsCache(chain, blocks)
      requires forall b :: b in blocks ==> b.number <= head
      ensures Valid() && this.chain == chain && this.head == head && this.blocks == blocks
    {
      this.chain, this.head, this.blocks := chain, head, blocks;
    }

    /** The code after an await on the provider: index recomputed, duplicate check rerun, then the splice. */
    method Receive(block: Block) returns (cached: Block)
      requires Valid() && block.timestamp == chain(block.number) && block.number <= head
      modifies this`blocks
      ensures Valid()
      ensures blocks == WithBlock(old(blocks), block)
      ensures cached == block && block in blocks && Grown(old(blocks), blocks)
    {
      WithBlockKeepsCache(chain, blocks, block);
      var index := SortedIndexByNumber(blocks, block.number);
      if index < |blocks| && blocks[index].number == block.number {
        return blocks[index];
      }
      blocks := blocks[..index] + [block] + blocks[index..];
      return block;
    }

    /** An await: the chain grows and other calls resume, any number of them in any order. */
    method Await()
      requires Valid()
      modifies this
      ensures Valid() && Grown(old(blocks), blocks) && head >= old(head)
    {
      var mined: int := *;
      if mined > 0 {
        head := head + mined;
      }
      var responses: seq<nat> := *;
      for i := 0 to |responses|
        invariant Valid() && Grown(old(blocks), blocks) && head >= old(head)
      {
        if responses[i] <= head {
          var _ := Receive(Block(responses[i], chain(responses[i])));
        }
      }
    }

    method GetLatestBlock() returns (block: Block)
      requires Valid()
      modifies this
      ensures Valid() && Grown(old(blocks), blocks)
      ensures block in blocks && old(head) <= block.number <= head
    {
      Await();
      block := Receive(Block(head, chain(head)));
      Await();
    }

    method GetBlock(number: nat) returns (block: Block)
      requires Valid() && number <= head
      modifies this
      ensures Valid() && Grown(old(blocks), blocks) && head >= old(head)
      ensures block in blocks && block.number == number
    {
      var index := SortedIndexByNumber(blocks, number);
      if index < |blocks| && blocks[index].number == number {
        block := blocks[index];
        Await();
        return;
      }
      Await();
      block := Receive(Block(number, chain(number)));
      Await();
    }

    /** `findBlock`. There is no start block where `sortedIndexBy` finds the first cached block at the timestamp. */
    method FindBlock(startBlock: Option<Block>, endBlock: Block, timestamp: nat, interpolate: Interpolation)
      returns (r: Block)
      requires Valid()
      requires endBlock in blocks && timestamp <= endBlock.timestamp
      requires startBlock.None? ==> endBlock.timestamp == timestamp
      requires startBlock.Some? ==> startBlock.value in blocks && startBlock.value.timestamp < timestamp
      modifies this
      ensures Valid() && Grown(old(blocks), blocks) && head >= old(head)
      ensures IsAnswer(chain, timestamp, r) && r.number <= endBlock.number
      ensures IsOutcome(Seen(chain, startBlock, endBlock, timestamp, interpolate), timestamp, r)
      decreases endBlock.number
                - (if startBlock.Some? && startBlock.value.number <= endBlock.number then startBlock.value.number else 0)
    {
      if endBlock.timestamp == timestamp {
        assert forall n: nat :: n > endBlock.number ==> chain(n) >= timestamp;
        return endBlock;
      }
      var start := startBlock.value;
      assert start.number < endBlock.number;
      if endBlock.number == start.number + 1 {
        assert forall n: nat :: n > start.number ==> chain(n) >= endBlock.timestamp;
        return start;
      }
      // The two assertions of the source.
      assert endBlock.number != start.number;
      assert start.timestamp < timestamp < endBlock.timestamp;

      var estimatedBlock := interpolate(start, endBlock, timestamp);
      var newBlock := GetBlock(Clamp(estimatedBlock, start.number + 1, endBlock.number - 1));
      assert newBlock == Probe(chain, start, endBlock, timestamp, interpolate);
      if newBlock.timestamp < timestamp {
        r := FindBlock(Some(newBlock), endBlock, timestamp, interpolate);
        SkipMisses(endBlock, newBlock, Probes(chain, newBlock, endBlock, timestamp, interpolate), timestamp);
      } else {
        r := FindBlock(startBlock, newBlock, timestamp, interpolate);
        SkipMisses(endBlock, newBlock, Probes(chain, start, newBlock, timestamp, interpolate), timestamp);
      }
    }

    static lemma SkipMisses(end: Block, probed: Block, rest: seq<Block>, timestamp: nat)
      requires end.timestamp != timestamp
      ensures FirstAt([end] + ([probed] + rest), timestamp) == FirstAt([probed] + rest, timestamp)
      ensures FirstAt([end] + rest, timestamp) == FirstAt(rest, timestamp)
      ensures probed.timestamp != timestamp ==> FirstAt([probed] + rest, timestamp) == FirstAt(rest, timestamp)
    {
      assert ([end] + ([probed] + rest))[1..] == [probed] + rest;
      assert ([probed] + rest)[1..] == rest && ([end] + rest)[1..] == rest;
    }

    /** The backwards search for a block at or before `timestamp`. */
    method FindFloor(initialBlock: Block, timestamp: nat) returns (found: bool)
      requires Valid() && initialBlock in blocks && initialBlock.timestamp > timestamp
      modifies this
      ensures Valid() && Grown(old(blocks), blocks) && head >= old(head)
      ensures found <==> chain(0) <= timestamp
      ensures found ==> exists b :: b in blocks && b.timestamp <= timestamp
    {
      var estimate: int := *; // estimateBlocksElapsed, which awaits
      Await();
      var incrementDistance := if estimate >= 1 then estimate else 1;
      var multiplier := 1;
      while true
        invariant Valid() && Grown(old(blocks), blocks) && head >= old(head)
        invariant initialBlock in blocks
        invariant 1 <= multiplier <= initialBlock.number + 1
        decreases initialBlock.number + 1 - multiplier
      {
        var distance := multiplier * incrementDistance;
        AtLeastMultiplier(multiplier, incrementDistance);
        var blockNumber := if initialBlock.number - distance >= 0 then initialBlock.number - distance else 0;
        var block := GetBlock(blockNumber);
        if block.timestamp <= timestamp {
          assert chain(0) <= chain(blockNumber);
          return true;
        }
        if blockNumber == 0 {
          return false;
        }
        multiplier := multiplier + 1;
      }
    }

    static lemma AtLeastMultiplier(multiplier: nat, increment: nat)
      requires increment >= 1
      ensures multiplier * increment >= multiplier
    {
      assert multiplier * (increment - 1) >= 0;
    }

    /** The last two lines of `getBlockForTimestamp`, once a floor and a ceiling are cached. */
    method Bisect(timestamp: nat, interpolate: Interpolation, ghost floor: Block, ghost ceiling: Block)
      returns (r: Block)
      requires Valid()
      requires floor in blocks && floor.timestamp <= timestamp
      requires ceiling in blocks && timestamp <= ceiling.timestamp
      modifies this
      ensures Valid() && Grown(old(blocks), blocks) && head >= old(head)
      ensures IsAnswer(chain, timestamp, r) && chain(0) <= timestamp
      ensures IsOutcome(SeenFrom(chain, old(blocks), timestamp, interpolate), timestamp, r)
      ensures forall b :: b in old(blocks) && b.timestamp == timestamp ==> r.number <= b.number
    {
      var index := SortedIndexByTimestamp(blocks, timestamp);
      Bracket(chain, blocks, timestamp, floor, ceiling);
      EarliestCached(chain, blocks, timestamp, floor);
      assert chain(0) <= chain(floor.number);
      assert index > 0 ==> blocks[index - 1] in blocks;
      var start := if index == 0 then None else Some(blocks[index - 1]);
      r := FindBlock(start, blocks[index], timestamp, interpolate);
    }

    /**
     `getBlockForTimestamp`. It throws exactly for timestamps before block 0. Otherwise it returns the head it saw, if
     the timestamp is at or past it, or else an answer: the latest block at or before the timestamp, up to blocks
     that share the very timestamp asked for. Of these it returns the first it looks at: the earliest one in the cache
     when it turns to it, or else the first that its interpolations hit. So the answer is the latest block if and only if
     the first such block in `SeenFrom(.., cache, ..)` is the last of them, where `cache` is the cache at that moment. It
     never is if the cache held another one from the start.
     */
    method GetBlockForTimestamp(timestamp: nat, hints: seq<nat>, interpolate: Interpolation)
      returns (r: Result<Block>, ghost cache: seq<Block>)
      requires Valid()
      requires forall h :: h in hints ==> h <= head
      modifies this
      ensures Valid() && Grown(old(blocks), blocks) && head >= old(head)
      ensures r.Success? <==> chain(0) <= timestamp
      ensures r.Success? ==>
                || (&& Grown(old(blocks), cache) && Grown(cache, blocks)
                    && IsAnswer(chain, timestamp, r.value)
                    && IsDecided(chain, cache, timestamp, interpolate, r.value))
                || (old(head) <= r.value.number <= head && r.value.timestamp == chain(r.value.number) <= timestamp
                    && forall b :: b in old(blocks) ==> b.timestamp < timestamp)
      ensures forall b :: b in old(blocks) && b.timestamp == timestamp && r.Success? ==> r.value.number <= b.number
      ensures r.Success? && (exists b :: b in old(blocks) && b.timestamp == timestamp && IsShadowed(chain, b)) ==>
                !IsLatestAtOrBefore(chain, timestamp, r.value)
    {
      hide IsDecided, IsOutcome, SeenFrom;
      if |blocks| == 0 || blocks[|blocks| - 1].timestamp < timestamp {
        var block := GetLatestBlock();
        if timestamp >= block.timestamp {
          assert chain(0) <= chain(block.number);
          return Success(block), blocks;
        }
      }
      ghost var ceiling: Block :| ceiling in blocks && ceiling.timestamp >= timestamp;

      for i := 0 to |hints|
        invariant Valid() && Grown(old(blocks), blocks) && head >= old(head) && ceiling in blocks
      {
        assert hints[i] in hints;
        var _ := GetBlock(hints[i]);
      }

      if blocks[0].timestamp > timestamp {
        var found := FindFloor(blocks[0], timestamp);
        if !found {
          return Failure("timestamp is before block 0"), blocks;
        }
      }
      ghost var floor: Block :| floor in blocks && floor.timestamp <= timestamp;
      cache := blocks;
      var answer := Bisect(timestamp, interpolate, floor, ceiling);
      LatestIffFirstSeenIsLast(chain, cache, timestamp, interpolate, answer);
      r := Success(answer);
    }
  }

  // Timestamps 0, 1, 1, 2, 3, ...: blocks 1 and 2 share one.
  function SharedTimestamps(n: nat): nat {
    if n <= 1 then n else n - 1
  }

  /** With block 1 cached, the search for timestamp 1 cannot return block 2, which is the latest with it. */
  method SharedTimestampAnswersEarly(interpolate: Interpolation) returns (r: Block)
    ensures r.number <= 1 && SharedTimestamps(2) == 1
    ensures !IsLatestAtOrBefore(SharedTimestamps, 1, r)
  {
    var cached := [Block(1, 1), Block(3, 2)];
    var finder := new BlockFinder(SharedTimestamps, 3, cached);
    assert cached[0] in cached;
    var found;
    ghost var cache;
    found, cache := finder.GetBlockForTimestamp(1, [], interpolate);
    assert SharedTimestamps(0) == 0;
    r := found.value;
    assert SharedTimestamps(2) <= 1;
  }

  lemma SecondIsLatest(b: Block)
    requires 1 <= b.number <= 2 && b.timestamp == 1
    ensures IsLatestAtOrBefore(SharedTimestamps, 1, b) <==> b.number == 2
  {
    assert SharedTimestamps(2) == 1;
  }

  /** With neither block 1 nor block 2 cached, the interpolation decides which of them is returned. */
  method InterpolationDecides(interpolate: Interpolation) returns (r: Block)
    ensures r == Block(Clamp(interpolate(Block(0, 0), Block(3, 2), 1), 1, 2), 1)
    ensures IsLatestAtOrBefore(SharedTimestamps, 1, r) <==> interpolate(Block(0, 0), Block(3, 2), 1) >= 2
  {
    var cached := [Block(0, 0), Block(3, 2)];
    var finder := new BlockFinder(SharedTimestamps, 3, cached);
    assert cached[0] in cached && cached[1] in cached;
    r := finder.FindBlock(Some(cached[0]), cached[1], 1, interpolate);
    ghost var probed := Probe(SharedTimestamps, cached[0], cached[1], 1, interpolate);
    assert probed.timestamp == 1 && Probes(SharedTimestamps, cached[0], cached[1], 1, interpolate)[0] == probed;
    assert FirstAt(Seen(SharedTimestamps, Some(cached[0]), cached[1], 1, interpolate), 1) == Some(probed);
    assert r == probed;
    SecondIsLatest(r);
    hide IsLatestAtOrBefore, FirstAt, Seen, Probes, IsAnswer;
  }
}
