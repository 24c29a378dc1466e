/** Event order, event sorting and paged log queries (src/utils/EventUtils.ts). */
module EventUtils {
  import opened Wrappers
  import opened Numbers
  import opened Sequences

  /** Where a log sits on its chain. No two logs of one chain share a position. */
  datatype LogPos = LogPos(block: nat, txIndex: nat, logIndex: nat)

  datatype Event<+T> = Event(pos: LogPos, args: T)

  datatype Direction = Ascending | Descending

  // ---------- order ----------

  /** `isEventOlder`. */
  predicate Older(x: LogPos, y: LogPos) {
    if x.block != y.block then x.block < y.block
    else if x.txIndex != y.txIndex then x.txIndex < y.txIndex
    else x.logIndex < y.logIndex
  }

  predicate Precedes(d: Direction, x: LogPos, y: LogPos) {
    if d.Ascending? then Older(x, y) else Older(y, x)
  }

  ghost predicate OrderedBy<T>(d: Direction, s: seq<Event<T>>) {
    forall i, j :: 0 <= i < j < |s| ==> Precedes(d, s[i].pos, s[j].pos)
  }

  /** A chain's log, oldest event first. */
  ghost predicate IsLog<T>(s: seq<Event<T>>) {
    OrderedBy(Ascending, s)
  }

  /** No two different events share a position. An event may be listed twice. */
  ghost predicate DistinctPositions<T(!new)>(s: seq<Event<T>>) {
    forall x, y :: x in s && y in s && x != y ==> x.pos != y.pos
  }

  lemma OlderIsStrictTotalOrder(x: LogPos, y: LogPos, z: LogPos)
    ensures !Older(x, x)
    ensures Older(x, y) && Older(y, z) ==> Older(x, z)
    ensures x != y ==> Older(x, y) != Older(y, x)
  {
  }

  // ---------- sorting ----------

  /** Puts `e` behind every event that it does not precede. */
  function Insert<T>(d: Direction, e: Event<T>, s: seq<Event<T>>): seq<Event<T>> {
    if s == [] || !Precedes(d, e.pos, Last(s).pos) then s + [e]
    else Insert(d, e, Init(s)) + [Last(s)]
  }

  /** `sortEventsAscending` and `sortEventsDescending`: stable sorts under the two comparators. */
  function SortEvents<T>(d: Direction, s: seq<Event<T>>): seq<Event<T>> {
    if s == [] then [] else Insert(d, Last(s), SortEvents(d, Init(s)))
  }

  /** No event precedes the one before it. */
  ghost predicate SortedBy<T>(d: Direction, s: seq<Event<T>>) {
    forall i, j :: 0 <= i < j < |s| ==> !Precedes(d, s[j].pos, s[i].pos)
  }

  lemma {:induction false} InsertAdds<T>(d: Direction, e: Event<T>, s: seq<Event<T>>)
    ensures multiset(Insert(d, e, s)) == multiset(s) + multiset{e}
  {
    if s != [] {
      assert s == Init(s) + [Last(s)];
      InsertAdds(d, e, Init(s));
    }
  }

  lemma {:induction false} InsertMembers<T>(d: Direction, e: Event<T>, s: seq<Event<T>>, x: Event<T>)
    ensures x in Insert(d, e, s) <==> x in s || x == e
  {
    if s != [] {
      assert s == Init(s) + [Last(s)];
      InsertMembers(d, e, Init(s), x);
    }
  }

  lemma {:induction false} InsertKeepsSorted<T>(d: Direction, e: Event<T>, s: seq<Event<T>>)
    requires SortedBy(d, s)
    ensures SortedBy(d, Insert(d, e, s))
  {
    if s != [] && Precedes(d, e.pos, Last(s).pos) {
      var r := Insert(d, e, Init(s));
      InsertKeepsSorted(d, e, Init(s));
      forall i | 0 <= i < |r| ensures !Precedes(d, Last(s).pos, r[i].pos) {
        InsertMembers(d, e, Init(s), r[i]);
        OlderIsStrictTotalOrder(e.pos, Last(s).pos, e.pos);
      }
    } else {
      forall i | 0 <= i < |s| ensures !Precedes(d, e.pos, s[i].pos) {
        OlderIsStrictTotalOrder(e.pos, s[i].pos, Last(s).pos);
        OlderIsStrictTotalOrder(Last(s).pos, s[i].pos, e.pos);
      }
    }
  }

  /** Sorting puts events in order and loses, invents and repeats none. */
  lemma {:induction false} SortSorts<T>(d: Direction, s: seq<Event<T>>)
    ensures SortedBy(d, SortEvents(d, s))
    ensures multiset(SortEvents(d, s)) == multiset(s)
  {
    if s != [] {
      assert s == Init(s) + [Last(s)];
      SortSorts(d, Init(s));
      InsertKeepsSorted(d, Last(s), SortEvents(d, Init(s)));
      InsertAdds(d, Last(s), SortEvents(d, Init(s)));
    }
  }

  lemma SortMembers<T>(d: Direction, s: seq<Event<T>>, x: Event<T>)
    ensures x in SortEvents(d, s) <==> x in s
  {
    SortSorts(d, s);
    assert x in multiset(s) <==> x in multiset(SortEvents(d, s));
  }

  lemma InitKeepsOrder<T>(d: Direction, s: seq<Event<T>>)
    requires s != []
    ensures SortedBy(d, s) ==> SortedBy(d, Init(s))
    ensures OrderedBy(d, s) ==> OrderedBy(d, Init(s))
  {
    assert forall k :: 0 <= k < |Init(s)| ==> Init(s)[k] == s[k];
  }

  lemma SameRest<T>(a: seq<T>, b: seq<T>)
    requires a != [] && b != [] && Last(a) == Last(b)
    requires multiset(a) == multiset(b)
    ensures multiset(Init(a)) == multiset(Init(b))
  {
    assert a == Init(a) + [Last(a)] && b == Init(b) + [Last(b)];
    assert multiset(Init(a)) == multiset(a) - multiset{Last(a)};
    assert multiset(Init(b)) == multiset(b) - multiset{Last(b)};
  }

  /** There is one way to sort the events of a log. */
  lemma {:induction false} SortedIsUnique<T>(d: Direction, a: seq<Event<T>>, b: seq<Event<T>>)
    requires SortedBy(d, a) && OrderedBy(d, b)
    requires multiset(a) == multiset(b)
    ensures a == b
  {
    assert |multiset(a)| == |a| && |multiset(b)| == |b|;
    if a == [] {
    } else {
      SameLast(d, a, b);
      InitKeepsOrder(d, a);
      InitKeepsOrder(d, b);
      SameRest(a, b);
      SortedIsUnique(d, Init(a), Init(b));
      assert a == Init(a) + [Last(a)] && b == Init(b) + [Last(b)];
    }
  }

  lemma SameLast<T>(d: Direction, a: seq<Event<T>>, b: seq<Event<T>>)
    requires a != [] && b != []
    requires SortedBy(d, a) && OrderedBy(d, b)
    requires multiset(a) == multiset(b)
    ensures Last(a) == Last(b)
  {
    assert Last(a) in multiset(b) && Last(b) in multiset(a);
    var i :| 0 <= i < |b| && b[i] == Last(a);
    var j :| 0 <= j < |a| && a[j] == Last(b);
    assert i < |b| - 1 ==> Precedes(d, b[i].pos, Last(b).pos);
  }

  /** Whatever order a node returns a log's events in, sorting them gives the log back. */
  lemma SortRestoresLog<T>(d: Direction, fetched: seq<Event<T>>, log: seq<Event<T>>)
    requires OrderedBy(d, log)
    requires multiset(fetched) == multiset(log)
    ensures SortEvents(d, fetched) == log
  {
    SortSorts(d, fetched);
    SortedIsUnique(d, SortEvents(d, fetched), log);
  }

  lemma LogIsDistinct<T(!new)>(s: seq<Event<T>>)
    requires IsLog(s)
    ensures DistinctPositions(s)
  {
    forall x, y | x in s && y in s && x != y ensures x.pos != y.pos {
      var i :| 0 <= i < |s| && s[i] == x;
      var j :| 0 <= j < |s| && s[j] == y;
      OlderIsStrictTotalOrder(s[i].pos, s[j].pos, s[i].pos);
      assert i < j || j < i;
    }
  }

  /** The event newest in chain order among those satisfying `p`. */
  ghost predicate IsNewest<T>(s: seq<Event<T>>, p: Event<T> -> bool, e: Event<T>) {
    && e in s && p(e)
    && forall x :: x in s && p(x) && x != e ==> Older(x.pos, e.pos)
  }

  /** `sortEventsDescending(s).find(p)`: how every "as of" question of the clients is answered. */
  function FindNewest<T>(s: seq<Event<T>>, p: Event<T> -> bool): Option<Event<T>> {
    Find(SortEvents(Descending, s), p)
  }

  /** It is the newest event satisfying `p`, in whatever order `s` is kept, and undefined only if there is none. */
  lemma {:induction false} FindNewestIsNewest<T(!new)>(s: seq<Event<T>>, p: Event<T> -> bool)
    requires DistinctPositions(s)
    ensures match FindNewest(s, p)
            case Some(e) => IsNewest(s, p, e)
            case None => forall x :: x in s ==> !p(x)
  {
    var sorted := SortEvents(Descending, s);
    SortSorts(Descending, s);
    var i := FindWitness(sorted, p);
    if FindNewest(s, p).Some? {
      SortMembers(Descending, s, sorted[i]);
      forall x | x in s && p(x) && x != sorted[i] ensures Older(x.pos, sorted[i].pos) {
        SortMembers(Descending, s, x);
        NothingNewerBefore(sorted, p, i, x);
        DistinctEventsAreApart(s, x, sorted[i]);
      }
    } else {
      forall x | x in s ensures !p(x) {
        SortMembers(Descending, s, x);
      }
    }
  }

  lemma NothingNewerBefore<T>(sorted: seq<Event<T>>, p: Event<T> -> bool, i: nat, x: Event<T>)
    requires SortedBy(Descending, sorted)
    requires i < |sorted| && forall j :: 0 <= j < i ==> !p(sorted[j])
    requires x in sorted && p(x) && x != sorted[i]
    ensures !Older(sorted[i].pos, x.pos)
  {
    var j :| 0 <= j < |sorted| && sorted[j] == x;
    assert i < j;
  }

  lemma DistinctEventsAreApart<T(!new)>(s: seq<Event<T>>, x: Event<T>, y: Event<T>)
    requires DistinctPositions(s)
    requires x in s && y in s && x != y
    ensures x.pos != y.pos
    ensures Older(x.pos, y.pos) || Older(y.pos, x.pos)
  {
    OlderIsStrictTotalOrder(x.pos, y.pos, x.pos);
  }

  lemma NewestIsUnique<T>(s: seq<Event<T>>, p: Event<T> -> bool, e: Event<T>, f: Event<T>)
    requires IsNewest(s, p, e) && IsNewest(s, p, f)
    ensures e == f
  {
    OlderIsStrictTotalOrder(e.pos, f.pos, e.pos);
  }

  /** On a log, the newest event satisfying `p` is the last one. */
  lemma FindNewestOnLog<T(!new)>(log: seq<Event<T>>, p: Event<T> -> bool)
    requires IsLog(log)
    ensures FindNewest(log, p) == FindLast(log, p)
  {
    LogIsDistinct(log);
    FindNewestIsNewest(log, p);
    var i := FindLastWitness(log, p);
    if FindLast(log, p).Some? {
      forall x | x in log && p(x) && x != log[i] ensures Older(x.pos, log[i].pos) {
        var j :| 0 <= j < |log| && log[j] == x;
        assert j < i;
      }
      assert IsNewest(log, p, log[i]);
      NewestIsUnique(log, p, log[i], FindNewest(log, p).value);
    }
  }

  function AtOrBefore<T>(block: int): Event<T> -> bool {
    (e: Event<T>) => e.pos.block <= block
  }

  /** The state as of a block: the newest event at or before it. */
  function AsOf<T>(s: seq<Event<T>>, block: int): Option<Event<T>> {
    FindNewest(s, AtOrBefore(block))
  }

  /** Events of later blocks never change an answer as of a block. */
  lemma AsOfIsStable<T(!new)>(log: seq<Event<T>>, more: seq<Event<T>>, block: int)
    requires IsLog(log + more)
    requires forall e :: e in more ==> e.pos.block > block
    ensures AsOf(log + more, block) == AsOf(log, block)
  {
    assert log == (log + more)[..|log|];
    assert forall k :: 0 <= k < |log| ==> log[k] == (log + more)[k];
    FindNewestOnLog(log + more, AtOrBefore(block));
    FindNewestOnLog(log, AtOrBefore(block));
    FindLastIsLast(log + more, AtOrBefore(block));
    FindLastIsLast(log, AtOrBefore(block));
    FilterConcat(log, more, AtOrBefore(block));
    FilterNone(more, AtOrBefore(block));
  }

  /** Between two blocks the answer only moves forward along the log. */
  lemma AsOfMovesForward<T(!new)>(log: seq<Event<T>>, b: int, c: int) returns (i: nat, j: nat)
    requires IsLog(log) && b <= c
    ensures AsOf(log, b).Some? ==>
              && AsOf(log, c).Some? && i <= j < |log|
              && log[i] == AsOf(log, b).value && log[j] == AsOf(log, c).value
    ensures AsOf(log, b).None? && AsOf(log, c).Some? ==> j < |log| && log[j] == AsOf(log, c).value
  {
    FindNewestOnLog(log, AtOrBefore(b));
    FindNewestOnLog(log, AtOrBefore(c));
    i := FindLastWitness(log, AtOrBefore(b));
    j := FindLastWitness(log, AtOrBefore(c));
    if AsOf(log, b).Some? {
      assert AtOrBefore<T>(c)(log[i]);
      assert log[i] in log;
    }
  }

  // ---------- block windows ----------

  function InBlocks<T>(from: int, to: int): Event<T> -> bool {
    (e: Event<T>) => from <= e.pos.block <= to
  }

  /** What one unpaged query of `[from, to]` returns. */
  function Window<T>(log: seq<Event<T>>, from: int, to: int): seq<Event<T>> {
    Filter(log, InBlocks(from, to))
  }

  /** Two abutting windows hold exactly the events of the joint window, in order. */
  lemma {:induction false} WindowsAbut<T>(log: seq<Event<T>>, a: int, b: int, c: int)
    requires IsLog(log)
    requires a <= b + 1 <= c + 1
    ensures Window(log, a, b) + Window(log, b + 1, c) == Window(log, a, c)
  {
    if log != [] {
      WindowsAbut(Init(log), a, b, c);
      if Last(log).pos.block <= b {
        forall x | x in log ensures !InBlocks<T>(b + 1, c)(x) {
          var i :| 0 <= i < |log| && log[i] == x;
          assert i < |log| - 1 ==> Older(log[i].pos, Last(log).pos);
        }
        FilterNone(log, InBlocks<T>(b + 1, c));
        assert forall x :: x in Init(log) ==> x in log;
        FilterNone(Init(log), InBlocks<T>(b + 1, c));
      }
    }
  }

  lemma WindowMembers<T(!new)>(log: seq<Event<T>>, from: int, to: int)
    ensures forall e :: e in Window(log, from, to) <==> e in log && from <= e.pos.block <= to
  {
    forall e ensures e in Window(log, from, to) <==> e in log && from <= e.pos.block <= to {
      FilterMembers(log, InBlocks<T>(from, to), e);
    }
  }

  function IsFrom<T>(from: int): Event<T> -> bool {
    (e: Event<T>) => from <= e.pos.block
  }

  /** The log from a block on. */
  function From<T>(log: seq<Event<T>>, from: int): seq<Event<T>> {
    Filter(log, IsFrom(from))
  }

  /** A window is a first part of the log from its first block on. */
  lemma {:induction false} WindowIsPrefix<T>(log: seq<Event<T>>, from: int, to: int)
    requires IsLog(log)
    ensures Window(log, from, to) <= From(log, from)
  {
    if log != [] {
      InitKeepsOrder(Ascending, log);
      WindowIsPrefix(Init(log), from, to);
      if from <= Last(log).pos.block <= to {
        forall x | x in Init(log) ensures InBlocks<T>(from, to)(x) == IsFrom<T>(from)(x) {
          var i :| 0 <= i < |Init(log)| && Init(log)[i] == x;
          assert Older(log[i].pos, log[|log| - 1].pos);
        }
        FilterAgree(Init(log), InBlocks<T>(from, to), IsFrom<T>(from));
      }
    }
  }

  lemma {:induction false} FilterKeepsOrder<T>(d: Direction, s: seq<Event<T>>, p: Event<T> -> bool)
    requires OrderedBy(d, s)
    ensures OrderedBy(d, Filter(s, p))
  {
    if s != [] {
      FilterKeepsOrder(d, Init(s), p);
      forall x | x in Filter(Init(s), p) ensures Precedes(d, x.pos, Last(s).pos) {
        FilterMembers(Init(s), p, x);
        var i :| 0 <= i < |Init(s)| && Init(s)[i] == x;
        assert s[i] == x;
      }
    }
  }

  // ---------- paging ----------

  datatype EventSearchConfig = EventSearchConfig(fromBlock: nat, toBlock: nat, maxBlockLookBack: Option<int>)

  type Page = (int, int)

  /** Full pages of `size` blocks aligned to its multiples, each starting right after the one before it. */
  ghost predicate Abutting(pages: seq<Page>, size: int)
    requires size > 0
  {
    pages != [] ==>
      && Last(pages).0 % size == 0
      && Abutting(Init(pages), size)
      && (Init(pages) != [] ==> Last(Init(pages)).1 == Last(Init(pages)).0 + size - 1 == Last(pages).0 - 1)
  }

  /** Aligned, ascending, disjoint pages of at most `size` blocks that cover `[from, to]` and nothing past `to`. */
  ghost predicate ArePages(pages: seq<Page>, size: int, from: int, to: int)
    requires size > 0
  {
    && pages != []
    && Abutting(pages, size)
    && pages[0].0 <= from < pages[0].0 + size
    && Last(pages).0 <= Last(pages).1 < Last(pages).0 + size
    && Last(pages).1 == to
  }

  method GetPaginatedBlockRanges(config: EventSearchConfig) returns (r: Result<seq<Page>>)
    ensures config.maxBlockLookBack.None? ==> r == Success([(config.fromBlock, config.toBlock)])
    ensures config.maxBlockLookBack.Some? && config.fromBlock > config.toBlock ==> r == Success([])
    ensures config.maxBlockLookBack.Some? && config.fromBlock <= config.toBlock ==>
              if config.maxBlockLookBack.value <= 0 then r.Failure?
              else r.Success? && ArePages(r.value, config.maxBlockLookBack.value, config.fromBlock, config.toBlock)
  {
    var from, to := config.fromBlock, config.toBlock;
    if config.maxBlockLookBack.None? {
      return Success([(from, to)]);
    }
    if from > to {
      return Success([]);
    }
    var size := config.maxBlockLookBack.value;
    if size <= 0 {
      return Failure("Cannot set maxBlockLookBack <= 0");
    }
    var flooredStartBlock := from / size * size;
    FloorToMultiple(from, size);
    var span := to + 1 - flooredStartBlock;
    var iterations := CeilDiv(span, size);
    CeilDivBounds(span, size);
    assert size * (iterations - 1) == (iterations - 1) * size;
    assert size * (iterations - 1) + size == iterations * size;
    var ranges: seq<Page> := [];
    for i := 0 to iterations
      invariant |ranges| == i
      invariant Abutting(ranges, size)
      invariant i > 0 ==> ranges[0].0 == flooredStartBlock
      invariant i > 0 ==> Last(ranges).0 == flooredStartBlock + size * (i - 1) <= to
      invariant i > 0 ==> Last(ranges).1 == Min(Last(ranges).0 + size - 1, to)
    {
      StepsStayAligned(flooredStartBlock, size, i);
      MultiplyOrdered(size, i, iterations - 1);
      assert i > 0 ==> size * i == size * (i - 1) + size;
      var innerFromBlock := flooredStartBlock + size * i;
      var innerToBlock := Min(innerFromBlock + size - 1, to);
      ghost var before := ranges;
      ranges := ranges + [(innerFromBlock, innerToBlock)];
      assert Init(ranges) == before;
    }
    return Success(ranges);
  }

  /** `Math.ceil(a / b)` for a positive quotient. */
  function CeilDiv(a: int, b: int): int
    requires b > 0
  {
    (a + b - 1) / b
  }

  lemma CeilDivBounds(a: int, b: int)
    requires a > 0 && b > 0
    ensures CeilDiv(a, b) >= 1
    ensures (CeilDiv(a, b) - 1) * b < a <= CeilDiv(a, b) * b
  {
    var q := CeilDiv(a, b);
    assert (a + b - 1) == q * b + (a + b - 1) % b;
    assert (q - 1) * b == q * b - b;
    assert q <= 0 ==> q * b <= 0;
  }

  lemma FloorToMultiple(a: nat, b: int)
    requires b > 0
    ensures 0 <= a / b * b <= a < a / b * b + b
    ensures a / b * b % b == 0
  {
    assert a == a / b * b + a % b;
    MultipleOf(a / b, b);
  }

  lemma {:induction false} MultipleOf(k: nat, b: int)
    requires b > 0
    ensures k * b % b == 0
  {
    if k > 0 {
      MultipleOf(k - 1, b);
      assert k * b == (k - 1) * b + b;
      AddModulus((k - 1) * b, b);
    }
  }

  lemma AddModulus(x: int, b: int)
    requires b > 0
    ensures (x + b) % b == x % b
  {
    var step := (x + b) / b - x / b - 1;
    assert x == x / b * b + x % b;
    assert x + b == (x + b) / b * b + (x + b) % b;
    assert step * b == (x + b) / b * b - x / b * b - b;
    SmallMultipleIsZero(step, b);
  }

  lemma SmallMultipleIsZero(k: int, b: int)
    requires b > 0 && -b < k * b < b
    ensures k == 0
  {
    if k >= 1 {
      MultiplyOrdered(b, 1, k);
    } else if k <= -1 {
      MultiplyOrdered(b, k, -1);
    }
  }

  lemma MultiplyOrdered(c: int, a: int, b: int)
    requires c > 0 && a <= b
    ensures c * a <= c * b
  {
    assert c * (b - a) >= 0;
  }

  lemma {:induction false} StepsStayAligned(start: nat, size: int, k: nat)
    requires size > 0 && start % size == 0
    ensures (start + size * k) % size == 0
  {
    if k > 0 {
      StepsStayAligned(start, size, k - 1);
      assert start + size * k == start + size * (k - 1) + size;
      AddModulus(start + size * (k - 1), size);
    }
  }

  /** The order in which a node lists the events of one query: any, since nothing is said about it. */
  type Listing<!T> = seq<Event<T>> -> seq<Event<T>>

  ghost predicate IsListing<T(!new)>(order: Listing<T>) {
    forall s: seq<Event<T>> :: multiset(order(s)) == multiset(s)
  }

  ghost predicate ListsInOrder<T(!new)>(order: Listing<T>) {
    forall s: seq<Event<T>> :: order(s) == s
  }

  lemma ListingOf<T(!new)>(order: Listing<T>, s: seq<Event<T>>)
    ensures IsListing(order) ==> multiset(order(s)) == multiset(s)
    ensures ListsInOrder(order) ==> order(s) == s
  {
  }

  /** Every page's events, one page after the other. */
  function QueryPages<T>(log: seq<Event<T>>, pages: seq<Page>, order: Listing<T>): seq<Event<T>> {
    if pages == [] then []
    else QueryPages(log, Init(pages), order) + order(Window(log, Last(pages).0, Last(pages).1))
  }

  lemma {:induction false} PagesJoin<T(!new)>(log: seq<Event<T>>, pages: seq<Page>, size: int, order: Listing<T>)
    requires IsLog(log) && IsListing(order)
    requires size > 0 && pages != []
    requires Abutting(pages, size) && Last(pages).0 <= Last(pages).1
    ensures multiset(QueryPages(log, pages, order)) == multiset(Window(log, pages[0].0, Last(pages).1))
    ensures ListsInOrder(order) ==> QueryPages(log, pages, order) == Window(log, pages[0].0, Last(pages).1)
    ensures pages[0].0 <= Last(pages).0
  {
    hide IsListing, ListsInOrder;
    var front, page := Init(pages), Window(log, Last(pages).0, Last(pages).1);
    ListingOf(order, page);
    assert QueryPages(log, pages, order) == QueryPages(log, front, order) + order(page);
    if front == [] {
      assert QueryPages(log, front, order) == [];
    } else {
      PagesJoin(log, front, size, order);
      WindowsAbut(log, pages[0].0, Last(front).1, Last(pages).1);
      assert front[0] == pages[0];
      hide Window, Abutting, IsLog, QueryPages;
    }
  }

  /** Filtering a permutation permutes what is left. */
  lemma FilterPermuted<T(!new)>(a: seq<T>, b: seq<T>, p: T -> bool)
    requires multiset(a) == multiset(b)
    ensures multiset(Filter(a, p)) == multiset(Filter(b, p))
  {
    var left, right := multiset(Filter(a, p)), multiset(Filter(b, p));
    forall x: T ensures left[x] == right[x] {
      FilterCounts(a, p, x);
      FilterCounts(b, p, x);
    }
    assert left == right;
  }

  lemma {:induction false} FilterCounts<T>(s: seq<T>, p: T -> bool, x: T)
    ensures multiset(Filter(s, p))[x] == if p(x) then multiset(s)[x] else 0
  {
    if s != [] {
      assert s == Init(s) + [Last(s)];
      FilterCounts(Init(s), p, x);
    }
  }

  const MAX_RETRIES := 3

  /**
   `paginatedEventQuery`. `outage(k)` says that the node fails some page of the k-th attempt, and `order` how it lists
   the events of a page. A look-back of 0 means one unpaged query, which is not retried.
   */
  method PaginatedEventQuery<T(!new)>(log: seq<Event<T>>, config: EventSearchConfig, outage: nat -> bool, order: Listing<T>,
                                      retryCount: nat := 0)
    returns (r: Result<seq<Event<T>>>)
    requires IsLog(log) && IsListing(order)
    requires retryCount <= MAX_RETRIES
    ensures r.Success? ==> multiset(r.value) == multiset(Window(log, config.fromBlock, config.toBlock))
    ensures r.Success? && ListsInOrder(order) ==> r.value == Window(log, config.fromBlock, config.toBlock)
    ensures config.maxBlockLookBack == Some(0) ==> r.Success? == !outage(retryCount)
    ensures config.maxBlockLookBack != Some(0) && r.Failure? ==>
              || (config.maxBlockLookBack.Some? && config.maxBlockLookBack.value < 0 && config.fromBlock <= config.toBlock)
              || forall k: nat :: retryCount <= k <= MAX_RETRIES ==> outage(k)
    decreases MAX_RETRIES - retryCount
  {
    if config.maxBlockLookBack == Some(0) {
      if outage(retryCount) {
        return Failure("queryFilter failed");
      }
      return Success(order(Window(log, config.fromBlock, config.toBlock)));
    }
    var ranges := GetPaginatedBlockRanges(config);
    if ranges.Failure? {
      return Failure(ranges.error);
    }
    if outage(retryCount) {
      if retryCount < MAX_RETRIES {
        r := PaginatedEventQuery(log, config, outage, order, retryCount + 1);
        return;
      }
      return Failure("queryFilter failed");
    }
    PagedQueryIsExact(log, config, ranges.value, order);
    var pages := QueryPages(log, ranges.value, order);
    return Success(Filter(pages, InBlocks<T>(config.fromBlock, config.toBlock)));
  }

  /**
   Paging to aligned boundaries and filtering back returns the events that one unpaged query would, each as often, and
   in the same order if the node lists them in log order.
   */
  lemma PagedQueryIsExact<T(!new)>(log: seq<Event<T>>, config: EventSearchConfig, pages: seq<Page>, order: Listing<T>)
    requires IsLog(log) && IsListing(order)
    requires || (config.maxBlockLookBack.None? && pages == [(config.fromBlock, config.toBlock)])
             || (config.fromBlock > config.toBlock && pages == [])
             || (&& config.maxBlockLookBack.Some? && config.maxBlockLookBack.value > 0
                 && ArePages(pages, config.maxBlockLookBack.value, config.fromBlock, config.toBlock))
    ensures var found := Filter(QueryPages(log, pages, order), InBlocks<T>(config.fromBlock, config.toBlock));
            && multiset(found) == multiset(Window(log, config.fromBlock, config.toBlock))
            && (ListsInOrder(order) ==> found == Window(log, config.fromBlock, config.toBlock))
  {
    hide IsListing, ListsInOrder;
    var from, to := config.fromBlock, config.toBlock;
    if pages == [] {
      FilterNone(log, InBlocks<T>(from, to));
    } else {
      if config.maxBlockLookBack.None? {
        ListingOf(order, Window(log, from, to));
        assert QueryPages(log, Init(pages), order) == [];
        assert QueryPages(log, pages, order) == order(Window(log, from, to));
      } else {
        PagesJoin(log, pages, config.maxBlockLookBack.value, order);
      }
      var lo := pages[0].0;
      FilterPermuted(QueryPages(log, pages, order), Filter(log, InBlocks<T>(lo, to)), InBlocks<T>(from, to));
      FilterTwice(log, InBlocks<T>(lo, to), InBlocks<T>(from, to), InBlocks<T>(from, to));
    }
  }

  // ---------- lists in any order ----------

  /** The lists hold the same events, in whatever order and however often. */
  ghost predicate SameEvents<T(!new)>(a: seq<Event<T>>, b: seq<Event<T>>) {
    forall e :: e in a <==> e in b
  }

  lemma PermutedHasSameEvents<T(!new)>(a: seq<Event<T>>, b: seq<Event<T>>)
    requires multiset(a) == multiset(b)
    ensures SameEvents(a, b)
  {
    forall e ensures e in a <==> e in b {
      assert e in multiset(a) <==> e in multiset(b);
    }
  }

  lemma FilterSameEvents<T(!new)>(a: seq<Event<T>>, b: seq<Event<T>>, p: Event<T> -> bool)
    requires SameEvents(a, b)
    ensures SameEvents(Filter(a, p), Filter(b, p))
  {
    forall e ensures e in Filter(a, p) <==> e in Filter(b, p) {
      FilterMembers(a, p, e);
      FilterMembers(b, p, e);
    }
  }

  /** The newest match depends on which events match, not on the order in which they are listed, nor on how often. */
  lemma FindNewestOfListed<T(!new)>(a: seq<Event<T>>, b: seq<Event<T>>, p: Event<T> -> bool)
    requires DistinctPositions(a) && DistinctPositions(b)
    requires forall e :: p(e) ==> (e in a <==> e in b)
    ensures FindNewest(a, p) == FindNewest(b, p)
  {
    FindNewestIsNewest(a, p);
    FindNewestIsNewest(b, p);
    if FindNewest(a, p).Some? {
      assert IsNewest(b, p, FindNewest(a, p).value);
      NewestIsUnique(b, p, FindNewest(a, p).value, FindNewest(b, p).value);
    }
  }
}
