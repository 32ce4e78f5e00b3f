/** Event dispatch and the matching loop, over the synchronised order book. */
module MatchingEngine {
  import opened Types
  import opened PriceLevel
  import opened PriceLadder
  import opened AbstractBook
  import opened BookState
  import opened BookChanges
  import opened OrderBook
  import opened Runs
  import OrderPool
  import OrderIndex

  /** The process-wide acceptance counter. */
  class SequenceNumbers {
    var current: u64

    constructor ()
      ensures current == 0
    {
      current := 0;
    }

    /** The next number, never zero and never repeated; exhaustion is an error and changes nothing. */
    method Generate() returns (r: Result<u64>)
      modifies this
      ensures r == if old(current) == U64_MAX then Err(OverflowError) else Ok(old(current) + 1)
      ensures current == if r.Ok? then r.value else old(current)
    {
      if current == U64_MAX {
        return Err(OverflowError);
      }
      current := current + 1;
      return Ok(current);
    }
  }

  // ---- one execution on the abstract book -------------------------------------------------

  /** The book after the head of one side has been filled by x. */
  function FillHead(m: Market, b: Book, side: Side, x: u64): Book
    requires m.Sound() && b.Orders(side) != [] && x <= b.Orders(side)[0].remaining
  {
    var opp := b.Orders(side);
    if x == opp[0].remaining then
      b.With(side, opp[1..]).WithStale(side, AddStale(m.Ladder(side), b.Stale(side), opp[0].price, x))
    else b.With(side, [opp[0].(remaining := opp[0].remaining - x)] + opp[1..])
  }

  /** The executions still to come after one execution are those of the match that is left. */
  lemma MatchStep(m: Market, b: Book, o: NewOrder, side: Side, left: u64)
    requires m.Sound() && b.Orders(side) != [] && left > 0 && Crosses(o, b.Orders(side)[0].price) &&
        b.Orders(side)[0].remaining > 0
    ensures var opp, c := b.Orders(side), m.Ladder(side);
      var x := if left < opp[0].remaining then left else opp[0].remaining;
      var b' := FillHead(m, b, side, x);
      var r := Match(c, o, b'.Orders(side), b'.Stale(side), left - x);
      Match(c, o, opp, b.Stale(side), left) ==
      r.(fills := [Fill(opp[0].id, opp[0].seqNo, opp[0].price, x, x == opp[0].remaining)] + r.fills)
  {
    var opp, c := b.Orders(side), m.Ladder(side);
    if left < opp[0].remaining {
      var b' := FillHead(m, b, side, left);
      assert Match(c, o, b'.Orders(side), b'.Stale(side), 0) == Matched([], b'.Orders(side), b'.Stale(side), 0);
      var f := Fill(opp[0].id, opp[0].seqNo, opp[0].price, left, false);
      assert [f] + [] == [f];
    }
  }

  lemma FullFill(m: Market, b: Book, side: Side, i: nat)
    requires m.Sound() && !side.BadSide? && b.Orders(side) != [] && i < |b.Stale(side)| && i < m.levelCount
    requires b.Orders(side)[0].price == m.Ladder(side).PriceAt(i)
    requires Find(b.Orders(Opposite(side)), b.Orders(side)[0].id) == |b.Orders(Opposite(side))|
    ensures var head := b.Orders(side)[0];
      CancelIn(ReduceIn(b, head.id, 0).WithStale(side, b.Stale(side)[i := b.Stale(side)[i] +
          head.remaining]), head.id) ==
      FillHead(m, b, side, head.remaining)
  {
    var opp := b.Orders(side);
    IndexOfPriceAt(m.Ladder(side), i);
    var drained := opp[0 := opp[0].(remaining := 0)];
    assert SetRemaining(opp, opp[0].id, 0) == drained;
    assert Remove(drained, opp[0].id) == opp[1..];
  }

  lemma PartialFill(m: Market, b: Book, side: Side, x: u64)
    requires m.Sound() && !side.BadSide? && b.Orders(side) != [] && x < b.Orders(side)[0].remaining
    requires Find(b.Orders(Opposite(side)), b.Orders(side)[0].id) == |b.Orders(Opposite(side))|
    ensures var head := b.Orders(side)[0];
      ReduceIn(b, head.id, head.remaining - x) == FillHead(m, b, side, x)
  {
    var opp := b.Orders(side);
    assert opp[0 := opp[0].(remaining := opp[0].remaining - x)] ==
        [opp[0].(remaining := opp[0].remaining - x)] + opp[1..];
  }

  /** Part-way through a match: the executions so far and those still to come are the whole match. */
  ghost predicate Underway(m: Market, b0: Book, o: NewOrder, b: Book, fills: seq<Fill>, left: u64)
    requires m.Sound()
  {
    var side := Opposite(o.side);
    && b == b0.With(side, b.Orders(side)).WithStale(side, b.Stale(side))
    && MatchIn(m, b0, o) ==
       (var r := Match(m.Ladder(side), o, b.Orders(side), b.Stale(side), left); r.(fills := fills + r.fills))
  }

  lemma Begin(m: Market, b: Book, o: NewOrder)
    requires m.Sound()
    ensures Underway(m, b, o, b, [], o.quantity)
  {
    assert [] + MatchIn(m, b, o).fills == MatchIn(m, b, o).fills;
  }

  lemma FillsOneSide(m: Market, b: Book, side: Side, x: u64)
    requires m.Sound() && b.Orders(side) != [] && x <= b.Orders(side)[0].remaining
    ensures var b' := FillHead(m, b, side, x); b' == b.With(side, b'.Orders(side)).WithStale(side, b'.Stale(side))
  {
    hide AddStale, Market.Sound, Config.Sound;
    LadderSound(m, side);
  }

  lemma Continue(m: Market, b0: Book, o: NewOrder, b: Book, fills: seq<Fill>, left: u64, side: Side, x: u64, f: Fill)
    requires m.Sound() && Underway(m, b0, o, b, fills, left) && left > 0
    requires side == Opposite(o.side) && b.Orders(side) != [] && b.Orders(side)[0].remaining > 0
    requires Crosses(o, b.Orders(side)[0].price)
    requires x == if left < b.Orders(side)[0].remaining then left else b.Orders(side)[0].remaining
    requires var head := b.Orders(side)[0]; f == Fill(head.id, head.seqNo, head.price, x, x == head.remaining)
    ensures Underway(m, b0, o, FillHead(m, b, side, x), fills + [f], left - x)
  {
    hide FillHead, Match, MatchIn, Market.Sound, Config.Sound, Crosses;
    LadderSound(m, side);
    MatchStep(m, b, o, side, left);
    FillsOneSide(m, b, side, x);
    var b' := FillHead(m, b, side, x);
    var r := Match(m.Ladder(side), o, b'.Orders(side), b'.Stale(side), left - x);
    assert fills + ([f] + r.fills) == fills + [f] + r.fills;
  }

  lemma Finish(m: Market, b0: Book, o: NewOrder, b: Book, fills: seq<Fill>, left: u64)
    requires m.Sound() && Underway(m, b0, o, b, fills, left)
    requires left == 0 || b.Orders(Opposite(o.side)) == [] || !Crosses(o, b.Orders(Opposite(o.side))[0].price)
    ensures MatchIn(m, b0, o) == Matched(fills, b.Orders(Opposite(o.side)), b.Stale(Opposite(o.side)), left)
    ensures b == Executed(m, b0, o)
  {
    assert fills + [] == fills;
  }

  /** Fewer than n orders rest before event k. */
  ghost predicate FitsAt(m: Market, s: State, events: seq<Event>, n: nat, k: nat)
    requires m.Sound() && k < |events|
  {
    Run(m, s, events[..k]).state.book.Size() < n
  }

  /** Fewer than n orders rest before every event of the run. */
  ghost predicate Fits(m: Market, s: State, events: seq<Event>, n: nat)
    requires m.Sound()
  {
    forall k | 0 <= k < |events| :: FitsAt(m, s, events, n, k)
  }

  // ---- the engine -------------------------------------------------------------------------

  class MatchingEngine {
    const book: OrderBook
    const sequence: SequenceNumbers

    constructor (book: OrderBook, sequence: SequenceNumbers)
      ensures this.book == book && this.sequence == sequence
    {
      this.book, this.sequence := book, sequence;
    }

    ghost predicate Valid()
      reads book.pool, book.mem, book.index, book.bids, book.asks, book.bids.levels, book.asks.levels
    {
      book.market.Sound() && book.Valid(Null)
    }

    /** The abstract state the engine stands for. */
    ghost function State(): State
      reads book.pool, book.mem, book.index, book.bids, book.asks, book.bids.levels, book.asks.levels, sequence
      requires Valid()
    {
      AbstractBook.State.State(book.Contents(), sequence.current)
    }

    /** Executes x against the best resting order, whose full fill removes it everywhere. */
    method Execute(side: Side, i: nat, p: Ptr, x: u64)
      requires Valid() && !side.BadSide? && book.Contents().Orders(side) != [] &&
          Heads(book.market, book.View(), side, i, p)
      requires 0 < x <= book.mem.cells[p].remaining
      modifies book.pool, book.mem, book.index, book.bids, book.asks, book.bids.levels, book.asks.levels
      ensures Valid()
      ensures x <= old(book.Contents()).Orders(side)[0].remaining
      ensures book.Contents() == FillHead(book.market, old(book.Contents()), side, x)
      ensures book.Spare() == old(book.Spare())
    {
      hide LevelOk, Consistent, OrderPool.OrderPool.Tracks, OrderIndex.OrderIndex.Valid, PriceLadder.Valid, Abs,
        ReduceIn,
        CancelIn, FillHead, Held, Rests, Market.Sound;
      ghost var v := book.View();
      AllHeld(book.market, v, Null, p);
      Covered(book.market, v, p, v.cells[p].remaining - x);
      var reduced := book.mem.ReduceRemaining(p, x);
      if book.mem.cells[p].FullyFilled() {
        HeadFull(book.market, v, side, i, p);
        var removed := book.RemoveOrder(p, book.mem.cells[p]);
      } else {
        HeadPartial(book.market, v, side, i, p, x);
        var taken := book.TakeOff(p, x, v);
      }
    }

    /**
     * The matching loop: always against the head of the best opposing level, until nothing is left,
     * nothing rests, or the limit no longer crosses. It ends because every resting order has a
     * positive remaining quantity.
     */
    method Trade(o: NewOrder) returns (out: seq<Execution>, left: u64)
      requires Valid() && !o.side.BadSide? && !o.kind.BadType?
      modifies book.pool, book.mem, book.index, book.bids, book.asks, book.bids.levels, book.asks.levels
      ensures Valid()
      ensures var r := MatchIn(book.market, old(book.Contents()), o); out == Executions(o, r.fills) && left == r.left
      ensures book.Contents() == Executed(book.market, old(book.Contents()), o)
      ensures book.Spare() == old(book.Spare())
    {
      hide OrderBook.Valid, Abs, Market.Sound, Heads, FillHead, Underway, MatchIn, Executed;
      var m := book.market;
      ghost var b0 := book.Contents();
      ghost var fills: seq<Fill> := [];
      out, left := [], o.quantity;
      var side := if o.side.Buy? then Sell else Buy;
      Begin(m, b0, o);
      while left > 0
        invariant Valid() && Underway(m, b0, o, book.Contents(), fills, left) && out == Executions(o, fills)
        invariant book.Spare() == old(book.Spare())
        decreases left
      {
        var best, p, bestPrice := book.Touch(side);
        if best.Err? {
          break;
        }
        if o.kind.Limit? {
          if o.side.Buy? && o.price < bestPrice {
            break;
          }
          if o.side.Sell? && o.price > bestPrice {
            break;
          }
        }
        if p == Null {
          assert false;  // an occupied level has a head
        }
        var resting := book.mem.cells[p];
        var x := if left < resting.remaining then left else resting.remaining;
        out := out + [Execution(o.id, resting.id, resting.price, x)];
        ghost var fill := Fill(resting.id, resting.seqNo, resting.price, x, x == resting.remaining);
        Continue(m, b0, o, book.Contents(), fills, left, side, x, fill);
        fills, left := fills + [fill], left - x;
        Execute(side, best.value, p, x);
      }
      Finish(m, b0, o, book.Contents(), fills, left);
    }

    /** Rests the remainder of a limit order; a refusal leaves the executions standing. */
    method Rest(o: NewOrder, left: u64, seqNo: u64) returns (remainder: Remainder)
      requires Valid() && !o.side.BadSide? && !o.kind.BadType? && seqNo != 0
      requires o.id != 0 && o.timestamp != 0 && left <= o.quantity && (o.kind.Limit? ==> o.price != 0)
      requires !book.Contents().Has(o.id)
      modifies book.pool, book.mem, book.index, book.bids, book.asks, book.bids.levels, book.asks.levels
      ensures Valid() && remainder == Settle(book.market, old(book.Contents()), o, left)
      ensures book.Contents() == if remainder.Rested? then Add(old(book.Contents()), RestOrder(o, left, seqNo))
                                 else old(book.Contents())
      ensures old(book.Contents()).Size() < old(book.Capacity()) ==> book.Spare() == old(book.Spare())
    {
      hide OrderBook.Valid, Market.Sound, Admit, Add;
      if left > 0 && o.kind.Limit? {
        var added := book.AddOrder(o.id, o.price, o.quantity, left, o.timestamp, o.side, Limit, seqNo);
        return if added.Ok? then Rested(left) else Refused(left, added.error);
      }
      return if left == 0 then NothingLeft else Discarded(left);
    }

    /** Accepts, executes and settles one incoming order, or rejects it before any effect. */
    method MatchOrder(o: NewOrder) returns (outcome: Outcome)
      requires Valid()
      modifies book.pool, book.mem, book.index, book.bids, book.asks, book.bids.levels, book.asks.levels, sequence
      ensures Valid()
      ensures Stepped(State(), outcome) == Step(book.market, old(State()), New(o))
      ensures old(book.Contents()).Size() < old(book.Capacity()) ==> book.Spare() == old(book.Spare())
    {
      hide OrderBook.Valid, OrderBook.View, Abs, Find, Market.Sound, MatchIn, Executed, Settle, Add, Executions;
      if o.id == 0 || o.quantity == 0 || o.timestamp == 0 {
        return Rejected(InvalidArgument);
      }
      if !o.side.Buy? && !o.side.Sell? {
        return Rejected(InvalidArgument);
      }
      if !o.kind.Limit? && !o.kind.Market? {
        return Rejected(InvalidArgument);
      }
      if o.kind.Limit? && o.price == 0 {
        return Rejected(InvalidArgument);
      }
      if o.kind.Market? && o.price != 0 {
        return Rejected(InvalidArgument);
      }
      var known := book.FindOrder(o.id);
      if known != Null {
        return Rejected(LogicError);
      }
      var seqNo := sequence.Generate();
      if seqNo.Err? {
        return Rejected(seqNo.error);
      }
      NotBack(book.market, book.Contents(), o, o.id);
      MatchLeft(book.market, book.Contents(), o);
      ExecutedSize(book.market, book.Contents(), o);
      var out, left := Trade(o);
      var remainder := Rest(o, left, seqNo.value);
      return Accepted(out, remainder);
    }

    /** One event of the engine is one step of the abstract book. */
    method ProcessEvent(e: Event) returns (outcome: Outcome)
      requires Valid()
      modifies book.pool, book.mem, book.index, book.bids, book.asks, book.bids.levels, book.asks.levels, sequence
      ensures Valid()
      ensures Stepped(State(), outcome) == Step(book.market, old(State()), e)
      ensures old(book.Contents()).Size() < old(book.Capacity()) ==> book.Spare() == old(book.Spare())
    {
      hide OrderBook.Valid, Market.Sound, CancelIn, ReduceIn;
      match e
      case New(o) =>
        outcome := MatchOrder(o);
      case Cancel(id) =>
        if id == 0 {
          return Rejected(InvalidArgument);
        }
        var found := book.CancelOrder(id);
        outcome := Cancelled(found);
      case Reduce(id, quantity) =>
        if id == 0 {
          return Rejected(InvalidArgument);
        }
        var r := book.ReduceOrder(id, quantity);
        outcome := if r.Err? then Rejected(r.error) else Reduced(r.value);
      case Foreign =>
        var number := sequence.Generate();
        outcome := NumberTaken(number.Ok?);
    }

    /** Every sequence of events drives the structures exactly as the abstract book runs. */
    method ProcessAll(events: seq<Event>) returns (outcomes: seq<Outcome>)
      requires Valid()
      modifies book.pool, book.mem, book.index, book.bids, book.asks, book.bids.levels, book.asks.levels, sequence
      ensures Valid()
      ensures Ran(State(), outcomes) == Run(book.market, old(State()), events)
      ensures Fits(book.market, old(State()), events, old(book.Capacity())) ==> book.Spare() == old(book.Spare())
    {
      hide OrderBook.Valid, Market.Sound, Step;
      outcomes := [];
      for k := 0 to |events|
        invariant Valid()
        invariant Ran(State(), outcomes) == Run(book.market, old(State()), events[..k])
        invariant Fits(book.market, old(State()), events, old(book.Capacity())) ==> book.Spare() == old(book.Spare())
      {
        assert events[..k + 1][..k] == events[..k];
        assert Fits(book.market, old(State()), events, old(book.Capacity())) ==>
          FitsAt(book.market, old(State()), events, old(book.Capacity()), k);
        var outcome := ProcessEvent(events[k]);
        outcomes := outcomes + [outcome];
      }
      assert events[..|events|] == events;
    }
  }

  /** A full fill drains the head and removes it; the abstract book has its head consumed. */
  lemma HeadFull(m: Market, v: View, side: Side, i: nat, p: Ptr)
    requires Consistent(m, v, Null) && !side.BadSide? && Heads(m, v, side, i, p) && Held(m, v, p)
    ensures p != Null && Abs(v).Orders(side) != [] && v.cells[p].remaining == Abs(v).Orders(side)[0].remaining
    ensures Consistent(m, Rewritten(v, p, 0), p)
    ensures CancelIn(Abs(Rewritten(v, p, 0)), v.cells[p].id) == FillHead(m, Abs(v), side, v.cells[p].remaining)
  {
    hide LevelOk, Levelled, Occupied, Priced, Abs, ReduceIn, CancelIn, FillHead, Rewritten;
    HeadFacts(m, v, side, i, p);
    DrainOk(m, v, Rewritten(v, p, 0), p);
    FullFill(m, Abs(v), side, i);
  }

  lemma HeadPartial(m: Market, v: View, side: Side, i: nat, p: Ptr, x: u64)
    requires Consistent(m, v, Null) && !side.BadSide? && Heads(m, v, side, i, p) && x < v.cells[p].remaining
    ensures Abs(v).Orders(side) != [] && v.cells[p].remaining == Abs(v).Orders(side)[0].remaining
    ensures ReduceIn(Abs(v), v.cells[p].id, v.cells[p].remaining - x) == FillHead(m, Abs(v), side, x)
  {
    hide LevelOk, Levelled, Occupied, Priced, Abs, ReduceIn, FillHead;
    HeadFacts(m, v, side, i, p);
    PartialFill(m, Abs(v), side, x);
  }

  // ---- a whole session --------------------------------------------------------------------

  /**
   * An engine over an empty book with reserved capacity, fed any sequence of events: the outcomes are
   * those of the abstract run, the quotes it ends on are the heads of the abstract lists, bid below ask,
   * and while fewer orders rest than were reserved for, the pool and the index end as they were reserved.
   */
  method Session(minPrice: u64, tick: u64, levelCount: u64, hash: u64 -> nat, capacity: nat, events: seq<Event>)
    returns (r: Result<seq<Outcome>>, bid: Result<u64>, ask: Result<u64>, pages: nat, slots: nat)
    ensures var m := AbstractBook.Market.Market(minPrice, tick, levelCount);
      && (r.Ok? <==> m.Sound()) && (r.Err? ==> r.error == InvalidArgument)
      && (r.Ok? ==>
           var end := Run(m, Start(m, 0), events);
           && r.value == end.outcomes
           && bid == (if end.state.book.bids == [] then Err(LogicError) else Ok(end.state.book.bids[0].price))
           && ask == (if end.state.book.asks == [] then Err(LogicError) else Ok(end.state.book.asks[0].price))
           && (Fits(m, Start(m, 0), events, capacity) ==> SizedFor(capacity, pages, slots, (0, 0))))
    ensures r.Ok? && bid.Ok? && ask.Ok? ==> bid.value < ask.value
  {
    bid, ask, pages, slots := Err(LogicError), Err(LogicError), 0, 0;
    var b := CheckConfig(minPrice, tick, levelCount, true);
    if b.Err? {
      return Err(b.error), bid, ask, 0, 0;
    }
    var a := CheckConfig(minPrice, tick, levelCount, false);
    if a.Err? {
      assert false;  // both ladders check the same range
    }
    var m := AbstractBook.Market.Market(minPrice, tick, levelCount);
    var outcomes;
    outcomes, bid, ask, pages, slots := Play(m, hash, capacity, events);
    r := Ok(outcomes);
    RunSound(m, 0, events);
  }

  lemma FitsMore(m: Market, s: State, events: seq<Event>, n: nat, more: nat)
    requires m.Sound() && Fits(m, s, events, n) && n <= more
    ensures Fits(m, s, events, more)
  {
    forall k | 0 <= k < |events|
      ensures FitsAt(m, s, events, more, k)
    {
      assert FitsAt(m, s, events, n, k);
    }
  }

  method Play(m: Market, hash: u64 -> nat, capacity: nat, events: seq<Event>)
    returns (outcomes: seq<Outcome>, bid: Result<u64>, ask: Result<u64>, pages: nat, slots: nat)
    requires m.Sound()
    ensures var end := Run(m, Start(m, 0), events);
      && outcomes == end.outcomes
      && bid == (if end.state.book.bids == [] then Err(LogicError) else Ok(end.state.book.bids[0].price))
      && ask == (if end.state.book.asks == [] then Err(LogicError) else Ok(end.state.book.asks[0].price))
      && (Fits(m, Start(m, 0), events, capacity) ==> SizedFor(capacity, pages, slots, (0, 0)))
  {
    hide OrderBook.Valid, Market.Sound, Heads, OrderBook.View, Abs, Run, Fits, OrderBook.Capacity, SizedFor;
    var book := new OrderBook(m, hash);
    book.ReserveCapacity(capacity);
    var sequence := new SequenceNumbers();
    var engine := new MatchingEngine(book, sequence);
    if Fits(m, Start(m, 0), events, capacity) {
      FitsMore(m, Start(m, 0), events, capacity, book.Capacity());
    }
    outcomes := engine.ProcessAll(events);
    pages, slots := |book.pool.pages|, |book.index.slots|;
    bid, ask := Err(LogicError), Err(LogicError);
    var best, p, price := book.Touch(Buy);
    if best.Ok? {
      bid := Ok(price);
    }
    best, p, price := book.Touch(Sell);
    if best.Ok? {
      ask := Ok(price);
    }
  }
}
