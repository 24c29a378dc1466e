/** The search cursor and the update latch shared by all clients (src/clients/BaseAbstractClient.ts). */
module BaseAbstractClient {
  import opened Wrappers
  import opened Numbers
  import opened Sequences
  import opened EventUtils

  datatype UpdateFailureReason = AlreadyUpdated | BadRequest | RPCError

  datatype SearchOutcome =
    | Search(config: EventSearchConfig)
    | Rejected(reason: UpdateFailureReason)
    | Thrown

  /** The window that one update asks for, given the cursor, the caller's `toBlock` and the node's head. */
  function NextSearch(first: nat, toBlock: Option<nat>, head: nat, lookBack: Option<int>): SearchOutcome {
    match toBlock
    case Some(to) => if first > to then Thrown else Search(EventSearchConfig(first, to, lookBack))
    case None => if head < first then Rejected(AlreadyUpdated) else Search(EventSearchConfig(first, head, lookBack))
  }

  class BaseClient {
    var isUpdated: bool
    var firstBlockToSearch: nat
    var latestBlockSearched: int
    var toBlock: Option<nat>
    const maxBlockLookBack: Option<int>

    constructor (fromBlock: nat, latest: int, to: Option<nat>, lookBack: Option<int>)
      ensures !isUpdated && firstBlockToSearch == fromBlock && latestBlockSearched == latest
      ensures toBlock == to && maxBlockLookBack == lookBack
    {
      isUpdated := false;
      firstBlockToSearch, latestBlockSearched := fromBlock, latest;
      toBlock, maxBlockLookBack := to, lookBack;
    }

    /** The `isUpdated` setter: a latch. */
    method SetIsUpdated(value: bool) returns (r: Result<()>)
      modifies this`isUpdated
      ensures r.Failure? <==> old(isUpdated) && !value
      ensures isUpdated == (old(isUpdated) || value)
    {
      if isUpdated && !value {
        return Failure("Cannot set isUpdated to false once it is true");
      }
      isUpdated := value;
      return Success(());
    }

    method UpdateSearchConfig(head: nat) returns (r: SearchOutcome)
      ensures r == NextSearch(firstBlockToSearch, toBlock, head, maxBlockLookBack)
      ensures r.Search? ==> r.config.fromBlock == firstBlockToSearch <= r.config.toBlock
      ensures r.Search? ==> r.config.toBlock == (if toBlock.Some? then toBlock.value else head)
                            && r.config.maxBlockLookBack == maxBlockLookBack
      ensures r.Thrown? <==> toBlock.Some? && firstBlockToSearch > toBlock.value
      ensures r.Rejected? <==> toBlock.None? && firstBlockToSearch > head
      ensures r.Rejected? ==> r.reason == AlreadyUpdated
    {
      var fromBlock := firstBlockToSearch;
      var to := toBlock;
      if to.Some? {
        if fromBlock > to.value {
          return Thrown;
        }
      } else {
        to := Some(head);
        if to.value < fromBlock {
          return Rejected(AlreadyUpdated);
        }
      }
      return Search(EventSearchConfig(fromBlock, to.value, maxBlockLookBack));
    }

    /** An update has searched up to `to`, inclusive. */
    ghost predicate SearchedTo(to: nat)
      reads this
    {
      isUpdated && latestBlockSearched == to && firstBlockToSearch == to + 1 && toBlock == None
    }

    /** The last lines of every `update`: the next one starts off from where this one ended. */
    method Advance(searchEndBlock: nat)
      modifies this
      ensures SearchedTo(searchEndBlock)
    {
      latestBlockSearched := searchEndBlock;
      firstBlockToSearch := searchEndBlock + 1;
      toBlock := None;
      var _ := SetIsUpdated(true);
    }
  }

  // ---------- whole runs of updates ----------

  /** One call of `update`: the `toBlock` the caller set, if any, and the node's head at the time. */
  datatype Attempt = Attempt(toBlock: Option<nat>, head: nat)

  /** The cursor after a run of updates. */
  function Cursor(first: nat, run: seq<Attempt>): nat {
    if run == [] then first
    else
      var at := Cursor(first, Init(run));
      match NextSearch(at, Last(run).toBlock, Last(run).head, None)
      case Search(config) => config.toBlock + 1
      case _ => at
  }

  /** The part of the chain's log that a node at `head` can serve. */
  function Visible<T>(log: seq<Event<T>>, head: nat): seq<Event<T>> {
    Window(log, 0, head)
  }

  /** All events ingested by a run of updates, in the order they arrived. */
  function Ingested<T>(log: seq<Event<T>>, first: nat, run: seq<Attempt>): seq<Event<T>> {
    if run == [] then []
    else
      var at := Cursor(first, Init(run));
      Ingested(log, first, Init(run)) +
      match NextSearch(at, Last(run).toBlock, Last(run).head, None)
      case Search(config) => Window(Visible(log, Last(run).head), at, config.toBlock)
      case _ => []
  }

  /** The events of searched blocks that the node had not reached when they were searched. */
  function Overrun<T>(log: seq<Event<T>>, first: nat, run: seq<Attempt>): seq<Event<T>> {
    if run == [] then []
    else
      var at := Cursor(first, Init(run));
      Overrun(log, first, Init(run)) +
      match NextSearch(at, Last(run).toBlock, Last(run).head, None)
      case Search(config) => Window(log, if at <= Last(run).head then Last(run).head + 1 else at, config.toBlock)
      case _ => []
  }

  lemma {:induction false} VisibleWindow<T>(log: seq<Event<T>>, head: nat, from: nat, to: nat)
    ensures Window(Visible(log, head), from, to) == Window(log, from, Min(to, head))
  {
    FilterTwice(log, InBlocks<T>(0, head), InBlocks<T>(from, to), InBlocks<T>(from, Min(to, head)));
  }

  lemma EmptyWindow<T>(log: seq<Event<T>>, from: int, to: int)
    requires from > to
    ensures Window(log, from, to) == []
  {
    FilterNone(log, InBlocks<T>(from, to));
  }

  lemma {:induction false} CursorNeverGoesBack(first: nat, run: seq<Attempt>)
    ensures first <= Cursor(first, run)
  {
    if run != [] {
      CursorNeverGoesBack(first, Init(run));
    }
  }

  /** What one update fetches and what it overruns make up its window. */
  lemma {:induction false} SearchCovers<T>(log: seq<Event<T>>, head: nat, from: nat, to: nat)
    requires IsLog(log) && from <= to
    ensures var fetched := Window(Visible(log, head), from, to);
            var overrun := Window(log, if from <= head then head + 1 else from, to);
            && |fetched| + |overrun| == |Window(log, from, to)|
            && (overrun == [] ==> fetched == Window(log, from, to))
  {
    VisibleWindow(log, head, from, to);
    if from > head {
      EmptyWindow(log, from, Min(to, head));
    } else if to <= head {
      EmptyWindow(log, head + 1, to);
    } else {
      WindowsAbut(log, from, head, to);
    }
  }

  /**
   Searched windows abut: between them a run ingests every event below the cursor, except those of blocks searched
   before they existed, and never one twice.
   */
  lemma {:induction false} RunCovers<T>(log: seq<Event<T>>, first: nat, run: seq<Attempt>)
    requires IsLog(log)
    ensures |Ingested(log, first, run)| + |Overrun(log, first, run)| == |Window(log, first, Cursor(first, run) - 1)|
    ensures Overrun(log, first, run) == [] ==> Ingested(log, first, run) == Window(log, first, Cursor(first, run) - 1)
  {
    if run == [] {
      EmptyWindow(log, first, first - 1);
    } else {
      RunCovers(log, first, Init(run));
      CursorNeverGoesBack(first, Init(run));
      var at: int := Cursor(first, Init(run));
      var search := NextSearch(at, Last(run).toBlock, Last(run).head, None);
      OneMoreAttempt(log, first, run);
      if search.Search? {
        var to, head := search.config.toBlock, Last(run).head;
        assert at <= to;
        hide *;
        SearchCovers(log, head, at, to);
        WindowsAbut(log, first, at - 1, to);
      }
    }
  }

  /** What the last attempt of a run adds. */
  lemma OneMoreAttempt<T>(log: seq<Event<T>>, first: nat, run: seq<Attempt>)
    requires run != []
    ensures var (at, head) := (Cursor(first, Init(run)), Last(run).head);
            match NextSearch(at, Last(run).toBlock, head, None)
            case Search(config) =>
              && Cursor(first, run) == config.toBlock + 1
              && Ingested(log, first, run) ==
                 Ingested(log, first, Init(run)) + Window(Visible(log, head), at, config.toBlock)
              && Overrun(log, first, run) ==
                 Overrun(log, first, Init(run)) + Window(log, if at <= head then head + 1 else at, config.toBlock)
            case _ =>
              && Cursor(first, run) == Cursor(first, Init(run))
              && Ingested(log, first, run) == Ingested(log, first, Init(run))
              && Overrun(log, first, run) == Overrun(log, first, Init(run))
  {
  }

  /**
   Every event from the first block to `latestBlockSearched` is ingested exactly once if and only if no update
   searched past an event the node had yet to reach.
   */
  lemma EveryEventOnce<T>(log: seq<Event<T>>, first: nat, run: seq<Attempt>)
    requires IsLog(log)
    ensures Ingested(log, first, run) == Window(log, first, Cursor(first, run) - 1) <==> Overrun(log, first, run) == []
  {
    RunCovers(log, first, run);
  }

  /** Callers that never set `toBlock` past the node's head are safe. */
  lemma {:induction false} EveryEventOnceBelowHead<T>(log: seq<Event<T>>, first: nat, run: seq<Attempt>)
    requires IsLog(log)
    requires forall a :: a in run && a.toBlock.Some? ==> a.toBlock.value <= a.head
    ensures Ingested(log, first, run) == Window(log, first, Cursor(first, run) - 1)
  {
    NoOverrunBelowHead(log, first, run);
    RunCovers(log, first, run);
  }

  lemma {:induction false} NoOverrunBelowHead<T>(log: seq<Event<T>>, first: nat, run: seq<Attempt>)
    requires forall a :: a in run && a.toBlock.Some? ==> a.toBlock.value <= a.head
    ensures Overrun(log, first, run) == []
  {
    if run != [] {
      assert run == Init(run) + [Last(run)];
      NoOverrunBelowHead(log, first, Init(run));
      var at, head := Cursor(first, Init(run)), Last(run).head;
      var search := NextSearch(at, Last(run).toBlock, head, None);
      if search.Search? {
        EmptyWindow(log, head + 1, search.config.toBlock);
      }
    }
  }

  /** A caller that runs ahead of the node: block 7 is searched at head 5, so its event is never ingested. */
  lemma SearchingPastTheHeadLosesEvents()
    ensures var log := [Event(LogPos(7, 0, 0), ())];
            var run := [Attempt(Some(10), 5), Attempt(None, 20)];
            IsLog(log) && Cursor(0, run) == 21 && Ingested(log, 0, run) == [] && Window(log, 0, 20) == log
  {
    var log := [Event(LogPos(7, 0, 0), ())];
    var run := [Attempt(Some(10), 5), Attempt(None, 20)];
    assert Init(run) == [Attempt(Some(10), 5)] && Init(Init(run)) == [];
    VisibleWindow(log, 5, 0, 10);
    VisibleWindow(log, 20, 11, 20);
    FilterNone(log, InBlocks<()>(0, 5));
    FilterNone(log, InBlocks<()>(11, 20));
    FilterAll(log, InBlocks<()>(0, 20));
    assert Cursor(0, Init(run)) == 11;
    assert Ingested(log, 0, Init(run)) == [];
  }
}
