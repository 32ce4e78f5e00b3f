/** The order book: index, ladders, levels and pool, kept synchronised, with rollback of failed insertions. */
module OrderBook {
  import opened Types
  import opened PriceLevel
  import opened PriceLadder
  import OrderIndex
  import OrderPool
  import opened AbstractBook
  import opened BookState
  import opened BookChanges

  /** A ladder whose marks agree with its levels. */
  ghost predicate Synced(ladder: PriceLadder, cells: map<Ptr, Order>)
    reads ladder, ladder.levels
  {
    ladder.Valid() && Levelled(cells, ladder.side, ladder.view) && Occupied(ladder.view, ladder.occ)
  }

  /** Marks a level by its price. */
  method Mark(ladder: PriceLadder, i: nat)
    requires ladder.Valid() && i < |ladder.levels| && i !in ladder.occ
    modifies ladder`words, ladder`bestIndex, ladder`occupied, ladder`occ
    ensures ladder.Valid() && ladder.occ == old(ladder.occ) + {i}
  {
    hide Marks, IsBest, Config.Sound, Config.IndexOf, Config.PriceAt;
    IndexOfPriceAt(ladder.config, i);
    assert ladder.levels[i].View() == ladder.view[i];
    assert ladder.view[i].price == ladder.config.PriceAt(i);
    var marked := ladder.MarkOccupied(ladder.levels[i].price);
  }

  /** Unmarks a level by its price. */
  method Unmark(ladder: PriceLadder, i: nat)
    requires ladder.Valid() && i < |ladder.levels| && i in ladder.occ
    modifies ladder`words, ladder`bestIndex, ladder`occupied, ladder`occ
    ensures ladder.Valid() && ladder.occ == old(ladder.occ) - {i}
  {
    hide Marks, IsBest, Config.Sound, Config.IndexOf, Config.PriceAt;
    IndexOfPriceAt(ladder.config, i);
    assert ladder.levels[i].View() == ladder.view[i];
    assert ladder.view[i].price == ladder.config.PriceAt(i);
    var marked := ladder.MarkEmpty(ladder.levels[i].price);
  }

  /** Appends an order to a level; the ladder's record of its levels follows. */
  method Append(ladder: PriceLadder, mem: OrderMemory, i: nat, p: Ptr) returns (r: Result<()>)
    requires ladder.Valid() && i < |ladder.levels| && LevelOk(ladder.view[i], Level(ladder.side, i), mem.cells)
    requires p in mem.cells && p != Null
    modifies ladder`view, ladder.levels[i], mem
    ensures ladder.Valid()
    ensures r == old(ladder.levels[i].Refusal(mem.cells, p))
    ensures r.Err? ==> ladder.view == old(ladder.view) && mem.cells == old(mem.cells)
    ensures r.Ok? ==>
      && old(ladder.view[i].tail != Null ==> ladder.view[i].tail in mem.cells)
      && old(ladder.view[i].total + mem.cells[p].remaining <= U64_MAX)
      && mem.cells == old(AppendCells(mem.cells, Level(ladder.side, i), ladder.view[i].tail, p))
      && ladder.view == old(ladder.view[i := AppendView(ladder.view[i], p, mem.cells[p].remaining)])
      && LevelOk(ladder.view[i], Level(ladder.side, i), mem.cells)
  {
    hide Marks, IsBest, LevelOk, Priced, Config.Sound;
    var level := ladder.levels[i];
    assert level.View() == ladder.view[i];
    r := level.AddOrder(mem, p);
    if r.Ok? {
      ladder.view := ladder.view[i := level.View()];
      PricedPut(ladder.config, old(ladder.view), i, level.View());
    }
  }

  /** Takes an order off a level; the ladder's record of its levels follows. */
  method Drop(ladder: PriceLadder, mem: OrderMemory, i: nat, p: Ptr)
    requires ladder.Valid() && i < |ladder.levels| && LevelOk(ladder.view[i], Level(ladder.side, i), mem.cells)
    requires p in mem.cells && mem.cells[p].level == Level(ladder.side, i)
    modifies ladder`view, ladder.levels[i], mem
    ensures ladder.Valid() && ladder.view[i].count == |ladder.view[i].fifo|
    ensures p in old(ladder.view[i].fifo)
    ensures old(ladder.view[i].count > 0 && mem.cells[p].remaining <= ladder.view[i].total)
    ensures mem.cells == old(UnlinkCells(mem.cells, p))
    ensures ladder.view ==
            old(ladder.view[i := UnlinkView(ladder.view[i], mem.cells[p], PosOf(ladder.view[i].fifo, p))])
  {
    hide Marks, IsBest, Priced, Config.Sound, Linked, Owns, Sum, UnlinkCells;
    var level := ladder.levels[i];
    assert level.View() == ladder.view[i];
    var removed := level.RemoveOrder(mem, p);
    ladder.view := ladder.view[i := level.View()];
    PricedPut(ladder.config, old(ladder.view), i, level.View());
  }

  /** Links an order at the tail of a level and marks the level when it was empty. */
  method Link(ladder: PriceLadder, mem: OrderMemory, i: nat, p: Ptr) returns (r: Result<()>)
    requires Synced(ladder, mem.cells) && i < |ladder.levels| && p in mem.cells && p != Null
    requires ladder.config.PriceAt(i) == mem.cells[p].price
    modifies ladder, ladder.levels[i], mem
    ensures ladder.Valid()
    ensures r == old(ladder.levels[i].Refusal(mem.cells, p))
    ensures r.Err? ==> ladder.view == old(ladder.view) && mem.cells == old(mem.cells)
    ensures r.Err? ==> ladder.occ == old(ladder.occ) && MarksOf(ladder) == old(MarksOf(ladder))
    ensures r.Ok? ==>
      && old(ladder.view[i].tail != Null ==> ladder.view[i].tail in mem.cells)
      && old(ladder.view[i].total + mem.cells[p].remaining <= U64_MAX)
      && mem.cells == old(AppendCells(mem.cells, Level(ladder.side, i), ladder.view[i].tail, p))
      && ladder.view == old(ladder.view[i := AppendView(ladder.view[i], p, mem.cells[p].remaining)])
      && ladder.occ == old(ladder.occ) + {i}
      && LevelOk(ladder.view[i], Level(ladder.side, i), mem.cells)
  {
    hide Marks, IsBest, Linked, Owns, Sum, AppendCells, Priced, Config.Sound;
    assert LevelOk(ladder.view[i], Level(ladder.side, i), mem.cells);
    assert ladder.levels[i].View() == ladder.view[i];
    var wasEmpty := ladder.levels[i].IsEmpty();
    r := Append(ladder, mem, i, p);
    if r.Ok? && wasEmpty {
      Mark(ladder, i);
    }
  }

  /** Unlinks an order from its level and unmarks the level when nothing is left. */
  method Unlink(ladder: PriceLadder, mem: OrderMemory, i: nat, p: Ptr)
    requires ladder.Valid() && i < |ladder.levels| && LevelOk(ladder.view[i], Level(ladder.side, i), mem.cells)
    requires p in mem.cells && mem.cells[p].level == Level(ladder.side, i) && i in ladder.occ
    modifies ladder, ladder.levels[i], mem
    ensures ladder.Valid()
    ensures p in old(ladder.view[i].fifo) && old(ladder.view[i].count > 0 &&
        mem.cells[p].remaining <= ladder.view[i].total)
    ensures mem.cells == old(UnlinkCells(mem.cells, p))
    ensures ladder.view == old(ladder.view[i := UnlinkView(ladder.view[i], mem.cells[p], PosOf(ladder.view[i].fifo,
        p))])
    ensures ladder.occ == if ladder.view[i].fifo == [] then old(ladder.occ) - {i} else old(ladder.occ)
  {
    hide Marks, IsBest, LevelOk, UnlinkCells, Priced, Config.Sound;
    Drop(ladder, mem, i, p);
    assert ladder.levels[i].View() == ladder.view[i];
    if ladder.levels[i].IsEmpty() {
      Unmark(ladder, i);
    }
  }

  // ---- rollback ---------------------------------------------------------------------------

  lemma {:induction false} PosOfLast(s: seq<Ptr>, p: Ptr)
    requires p !in s
    ensures PosOf(s + [p], p) == |s| && Without(s + [p], |s|) == s
  {
    if s != [] {
      assert (s + [p])[1..] == s[1..] + [p];
      PosOfLast(s[1..], p);
    }
  }

  /** Unlinking the order that was just linked restores memory and the level exactly. */
  lemma RollbackCells(cells: map<Ptr, Order>, here: LevelPtr, level: LevelView, p: Ptr)
    requires LevelOk(level, here, cells) && p in cells && p != Null && cells[p] == cells[p].Payload()
    requires cells[p].price == level.price && level.total + cells[p].remaining <= U64_MAX
    ensures level.tail != Null ==> level.tail in cells
    ensures var after := AppendCells(cells, here, level.tail, p); p in after && UnlinkCells(after, p) == cells
  {
    Queued(cells, here, level.price, level.fifo);
    if level.fifo != [] {
      assert LinkedAt(cells, here, level.price, level.fifo, |level.fifo| - 1);
    }
    var after := AppendCells(cells, here, level.tail, p);
    assert UnlinkCells(after, p) == cells;
  }

  lemma RollbackView(cells: map<Ptr, Order>, here: LevelPtr, level: LevelView, p: Ptr)
    requires LevelOk(level, here, cells) && p in cells && p != Null && cells[p] == cells[p].Payload()
    requires level.total + cells[p].remaining <= U64_MAX
    ensures level.tail != Null ==> level.tail in cells
    ensures var after := AppendCells(cells, here, level.tail, p);
      && p in after && p in level.fifo + [p]
      && UnlinkView(AppendView(level, p, cells[p].remaining), after[p], PosOf(level.fifo + [p], p)) == level
  {
    Queued(cells, here, level.price, level.fifo);
    PosOfLast(level.fifo, p);
    assert level.fifo != [] ==> level.tail in level.fifo;
  }

  /** The best index is a function of what is occupied. */
  lemma BestUnique(a: nat, b: nat, occ: set<nat>)
    requires IsBest(a, occ) && IsBest(b, occ)
    ensures a == b
  {
  }

  /** Linking and unlinking again, as seen by the whole ladder. */
  lemma Rollback(cells: map<Ptr, Order>, side: Side, view: seq<LevelView>, i: nat, p: Ptr)
    requires Levelled(cells, side, view) && i < |view|
    requires p in cells && p != Null && cells[p] == cells[p].Payload() && cells[p].price == view[i].price
    requires view[i].total + cells[p].remaining <= U64_MAX && (view[i].tail != Null ==> view[i].tail in cells)
    ensures var after := AppendCells(cells, Level(side, i), view[i].tail, p);
      var level := AppendView(view[i], p, cells[p].remaining);
      && p in after && p in level.fifo && level.count > 0 && after[p].remaining <= level.total
      && UnlinkCells(after, p) == cells
      && UnlinkView(level, after[p], PosOf(level.fifo, p)) == view[i]
      && view[i := level][i := view[i]] == view
  {
    hide UnlinkCells, AppendCells, Linked, Owns, Sum;
    assert LevelOk(view[i], Level(side, i), cells);
    RollbackCells(cells, Level(side, i), view[i], p);
    RollbackView(cells, Level(side, i), view[i], p);
  }

  /** An order that has been linked is held by its level. */
  lemma AttachedHeld(m: Market, v: View, v': View, p: Ptr, i: nat)
    requires Attachable(v, p, i) && v' == AttachedView(v, p, i)
    requires v.cells[p].WellFormed() && v.cells[p].kind.Limit? && i < m.levelCount == |v.Levels(v.cells[p].side)|
    requires LevelOk(v'.Levels(v.cells[p].side)[i], Level(v.cells[p].side, i), v'.cells)
    ensures Held(m, v', p) && v'.cells[p].level == Level(v.cells[p].side, i) && v'.cells[p].side == v.cells[p].side
    ensures v'.cells[p].id == v.cells[p].id
  {
    hide LevelOk;
  }

  /** Linking an order and then unlinking it restores every structure. */
  lemma RollbackOk(m: Market, v: View, v': View, p: Ptr, i: nat)
    requires Attachable(v, p, i) && v' == AttachedView(v, p, i) && Held(m, v', p)
    requires v'.cells[p].level == Level(v.cells[p].side, i) && v'.cells[p].side == v.cells[p].side
    requires var o := v.cells[p];
      && p != Null && o == o.Payload() && i < |v.Levels(o.side)| && o.price == v.Levels(o.side)[i].price
      && Levelled(v.cells, o.side, v.Levels(o.side)) && Occupied(v.Levels(o.side), v.Occ(o.side))
    ensures DetachedView(m, v', p) == v
  {
    hide LevelOk, Levelled, UnlinkCells, AppendCells, UnlinkView, Rests;
    var side := v.cells[p].side;
    Rollback(v.cells, side, v.Levels(side), i, p);
    assert DetachedView(m, v', p).Levels(side) == v.Levels(side);
  }

  /** A detached order in memory that can be tried at index i of its side. */
  ghost predicate Ready(m: Market, v: View, p: Ptr, i: nat) {
    && p in v.cells && p != Null
    && var o := v.cells[p];
       && o == o.Payload() && o.WellFormed() && o.kind.Limit? && o.remaining > 0
       && i < m.levelCount == |v.Levels(o.side)| && m.Ladder(o.side).PriceAt(i) == o.price == v.Levels(o.side)[i].price
       && Levelled(v.cells, o.side, v.Levels(o.side)) && Occupied(v.Levels(o.side), v.Occ(o.side))
  }

  lemma Malformed(m: Market, v: View, o: Order)
    requires Consistent(m, v, Null) && !o.WellFormed() && o.kind.Limit? && 0 < o.remaining <= o.original
    ensures AddCheck(m, Abs(v), o) == Err(InvalidArgument)
  {
  }

  /** What the concrete checks of a well-formed order decide is what the abstract check says. */
  lemma CheckIs(m: Market, v: View, o: Order)
    requires Consistent(m, v, Null) && o.WellFormed() && o.kind.Limit? && 0 < o.remaining <= o.original
    ensures match m.Ladder(o.side).IndexOf(o.price)
      case Err(e) => AddCheck(m, Abs(v), o) == Err(e)
      case Ok(i) =>
        && i < |v.Levels(o.side)|
        && AddCheck(m, Abs(v), o) == (if v.Levels(o.side)[i].total + o.remaining > U64_MAX then Err(OverflowError)
                                      else if o.id in v.contents then Err(LogicError) else Ok(()))
  {
    hide LevelOk, Levelled, Occupied;
    PriceAtIndexOf(m.Ladder(o.side), o.price);
    if m.Ladder(o.side).IndexOf(o.price).Ok? {
      TotalIs(m, v, Null, o.side, m.Ladder(o.side).IndexOf(o.price).value);
      HasIff(m, v, Null, o.id);
    }
  }

  /** A freshly allocated order is ready to be tried. */
  lemma ReadyFresh(m: Market, v: View, o: Order, p: Ptr, i: nat)
    requires Consistent(m, v, Null) && p != Null && p !in v.cells && o == o.Payload()
    requires o.WellFormed() && o.kind.Limit? && o.remaining > 0 && m.Ladder(o.side).IndexOf(o.price) == Ok(i)
    ensures Ready(m, v.(cells := v.cells[p := o]), p, i)
    ensures v.Levels(o.side)[i].total + o.remaining <= U64_MAX && o.id !in v.contents ==> Linkable(m, v, o, p, i)
  {
    hide LevelOk;
    PriceAtIndexOf(m.Ladder(o.side), o.price);
    FreshLevels(v.cells, o.side, v.Levels(o.side), p, o);
    assert v.Levels(o.side)[i].price == m.Ladder(o.side).PriceAt(i);
    assert LevelOk(v.Levels(o.side)[i], Level(o.side, i), v.cells);
    FreshLevel(v.Levels(o.side)[i], Level(o.side, i), v.cells, p, o);
  }

  /** What the abstract book says remains of a resting order is what memory says. */
  lemma RemainingIs(m: Market, v: View, p: Ptr)
    requires Consistent(m, v, Null) && p in v.cells
    ensures Abs(v).Has(v.cells[p].id) && RemainingOf(Abs(v), v.cells[p].id) == v.cells[p].remaining
  {
    hide LevelOk;
    Found(m, v, Null, p);
    assert Rests(m, v.cells[p]);
    Listed(v.cells, v.cells[p].side, v.Levels(v.cells[p].side));
  }

  lemma CancelNone(b: Book, id: u64)
    requires !b.Has(id)
    ensures CancelIn(b, id) == b
  {
  }

  lemma SetSame(b: Book, id: u64)
    requires b.Has(id) && (Find(b.bids, id) == |b.bids| || Find(b.asks, id) == |b.asks|)
    ensures ReduceIn(b, id, RemainingOf(b, id)) == b
  {
  }

  // ---- the empty book ---------------------------------------------------------------------

  function EmptyBook(m: Market): Book {
    Book([], [], seq(m.levelCount, _ => 0), seq(m.levelCount, _ => 0))
  }

  ghost predicate AllEmpty(c: Config, view: seq<LevelView>)
    requires c.Sound()
  {
    |view| == c.levelCount && forall i | 0 <= i < |view| :: view[i] == EmptyLevel(c, i)
  }

  lemma EmptySide(m: Market, v: View, side: Side)
    requires m.Sound() && (side.Buy? || side.Sell?) && v.cells == map[] && v.Occ(side) == {}
    requires AllEmpty(m.Ladder(side), v.Levels(side))
    ensures SideOk(m, v, side)
    ensures ListOf(v.cells, side, v.Levels(side)) == [] &&
        StaleIn(v.cells, side, v.Levels(side)) == seq(m.levelCount, _ => 0)
  {
    var view := v.Levels(side);
    forall i: nat | i < |view|
      ensures LevelOk(view[i], Level(side, i), v.cells)
    {
      assert view[i] == EmptyLevel(m.Ladder(side), i);
    }
    NothingQueued(view);
  }

  /** A view with nothing in it. */
  ghost predicate Vacant(m: Market, v: View)
    requires m.Sound()
  {
    && v.cells == map[] && v.contents == map[] && v.bidOcc == {} && v.askOcc == {}
    && AllEmpty(m.Ladder(Buy), v.bids) && AllEmpty(m.Ladder(Sell), v.asks)
  }

  lemma VacantOk(m: Market, v: View)
    requires m.Sound() && Vacant(m, v)
    ensures Consistent(m, v, Null) && Abs(v) == EmptyBook(m)
  {
    EmptySide(m, v, Buy);
    EmptySide(m, v, Sell);
  }

  /** Bitset words, cached best and count of a ladder. */
  ghost function MarksOf(ladder: PriceLadder): (seq<u64>, nat, nat)
    reads ladder
  {
    (ladder.words, ladder.bestIndex, ladder.occupied)
  }

  /** Two sound states of a ladder that mark the same levels have the same marks. */
  lemma SameMarks(ladder: PriceLadder, old': (seq<u64>, nat, nat))
    requires ladder.Occupancy() && Marks(old'.0, ladder.config.levelCount, ladder.occ)
    requires IsBest(old'.1, ladder.occ) && old'.2 == |ladder.occ|
    ensures MarksOf(ladder) == old'
  {
    MarksUnique(ladder.words, old'.0, ladder.config.levelCount, ladder.occ);
    BestUnique(ladder.bestIndex, old'.1, ladder.occ);
  }

  datatype Snapshot = Snapshot(
    bids: seq<SnapshotLevel>, asks: seq<SnapshotLevel>, bestBid: int, bestAsk: int, bidLevels: nat, askLevels: nat)

  function Top<T>(s: seq<T>, n: nat): seq<T> {
    if n < |s| then s[..n] else s
  }

  /** The walk over the first marked levels. */
  ghost predicate WalksFirst(m: Market, v: View, side: Side, out: seq<SnapshotLevel>, depth: nat) {
    var all := Indices(v.Occ(side), 0, m.levelCount);
    && |out| == (if depth < |all| then depth else |all|)
    && forall k | 0 <= k < |out| :: all[k] < |v.Levels(side)| && out[k] == Shown(v.Levels(side)[all[k]])
  }

  /** The levels walked over are the first levels of the abstract depth. */
  lemma ShownIs(m: Market, v: View, side: Side, out: seq<SnapshotLevel>, depth: nat)
    requires Consistent(m, v, Null) && !side.BadSide? && WalksFirst(m, v, side, out, depth)
    ensures out == Top(Depth(m, Abs(v), side, 0), depth) && |v.Occ(side)| == |Depth(m, Abs(v), side, 0)|
    ensures depth > 0 ==> (out == [] <==> Abs(v).Orders(side) == [])
    ensures out != [] ==> Abs(v).Orders(side) != [] && out[0].price == Abs(v).Orders(side)[0].price
  {
    hide SideOk, LevelOk, Levelled, Abs, Depth, Indices, WalksFirst, Market.Sound;
    ShownTop(m, v, side, out, depth);
    DepthEmpty(m, v, side);
    if out != [] { FirstShown(m, v, side, out, depth); }
  }

  /** The first level shown is the level of the first order. */
  lemma FirstShown(m: Market, v: View, side: Side, out: seq<SnapshotLevel>, depth: nat)
    requires Consistent(m, v, Null) && !side.BadSide? && WalksFirst(m, v, side, out, depth) && out != []
    ensures Abs(v).Orders(side) != [] && out[0].price == Abs(v).Orders(side)[0].price
  {
    hide LevelOk, Levelled, Abs, Occupied, Priced, Market.Sound, Indices;
    var all := Indices(v.Occ(side), 0, m.levelCount);
    IndicesSorted(v.Occ(side), 0, m.levelCount);
    forall k | k in v.Occ(side)
      ensures all[0] <= k
    {
      OccupiedBound(m, v, side, k);
      var j :| 0 <= j < |all| && all[j] == k;
    }
    HeadIs(m, v, Null, side, all[0]);
  }

  lemma OccupiedBound(m: Market, v: View, side: Side, k: nat)
    requires Consistent(m, v, Null) && !side.BadSide? && k in v.Occ(side)
    ensures k < m.levelCount
  {
  }

  lemma ShownTop(m: Market, v: View, side: Side, out: seq<SnapshotLevel>, depth: nat)
    requires Consistent(m, v, Null) && !side.BadSide? && WalksFirst(m, v, side, out, depth)
    ensures out == Top(Depth(m, Abs(v), side, 0), depth) && |v.Occ(side)| == |Depth(m, Abs(v), side, 0)|
  {
    hide LevelOk, Levelled, Abs, Depth, Indices, Priced, Market.Sound;
    DepthIs(m, v, Null, side, 0);
    IndicesCount(v.Occ(side), 0, m.levelCount);
  }

  /** Nothing is shown exactly when nothing rests. */
  lemma DepthEmpty(m: Market, v: View, side: Side)
    requires Consistent(m, v, Null) && !side.BadSide?
    ensures v.Occ(side) == {} <==> Abs(v).Orders(side) == []
  {
    hide LevelOk, Levelled, Abs, Occupied, Priced, Market.Sound;
    if i :| i in v.Occ(side) {
      var low := Lowest(v.Occ(side), i);
      HeadIs(m, v, Null, side, low);
    } else {
      EmptyIs(m, v, Null, side);
    }
  }

  lemma {:induction false} Lowest(occ: set<nat>, i: nat) returns (low: nat)
    requires i in occ
    ensures low in occ && forall k | k in occ :: low <= k
    decreases i
  {
    if k :| k in occ && k < i {
      low := Lowest(occ, k);
    } else {
      low := i;
    }
  }

  /** The best level, its head and its price; there is one exactly when an order rests on the side. */
  ghost predicate AtTouch(m: Market, v: View, side: Side, best: Result<nat>, p: Ptr, price: u64)
    requires Levelled(v.cells, Buy, v.bids) && Levelled(v.cells, Sell, v.asks)
  {
    var orders := Abs(v).Orders(side);
    && (best.Ok? <==> orders != [])
    && (best.Ok? ==>
          && p != Null && p in v.cells && Heads(m, v, side, best.value, p)
          && ToResting(v.cells[p]) == orders[0] && price == orders[0].price && orders[0].remaining > 0)
  }

  /** Both ladders of a new book. */
  method NewLadders(market: Market) returns (bids: PriceLadder, asks: PriceLadder)
    requires market.Sound()
    ensures fresh(bids) && fresh(asks) && fresh(bids.levels) && fresh(asks.levels) && bids != asks
    ensures bids.Valid() && asks.Valid() && (forall l | l in bids.levels :: l !in asks.levels)
    ensures bids.side == Buy && asks.side == Sell
    ensures bids.config == market.Ladder(Buy) && asks.config == market.Ladder(Sell)
    ensures bids.occ == {} && AllEmpty(market.Ladder(Buy), bids.view)
    ensures asks.occ == {} && AllEmpty(market.Ladder(Sell), asks.view)
  {
    hide PriceLadder.Occupancy, Priced;
    bids := new PriceLadder(Buy, market.Ladder(Buy));
    asks := new PriceLadder(Sell, market.Ladder(Sell));
  }

  /** Room for n orders and no more than that needs: the first sizes that fit, unless there was room before. */
  predicate SizedFor(n: nat, pages: nat, slots: nat, before: (nat, nat)) {
    && n <= OrderPool.SLOTS_PER_PAGE * pages && 2 * n <= slots
    && (pages == before.0 || OrderPool.SLOTS_PER_PAGE * (pages - 1) < n)
    && (slots == before.1 || slots == OrderIndex.INITIAL_CAPACITY || slots < 4 * n)
  }

  // ---- the book ---------------------------------------------------------------------------

  class OrderBook {
    const market: Market
    const pool: OrderPool.OrderPool
    const mem: OrderMemory
    const index: OrderIndex.OrderIndex
    const bids: PriceLadder
    const asks: PriceLadder

    ghost function View(): View
      reads mem, index, bids, asks
    {
      BookState.View.View(mem.cells, index.contents, bids.view, asks.view, bids.occ, asks.occ)
    }

    /** How the parts are put together; none of this ever changes. */
    ghost predicate Wired() {
      && pool.mem == mem && bids != asks && bids.side == Buy && asks.side == Sell
      && bids.config == market.Ladder(Buy) && asks.config == market.Ladder(Sell)
      && (forall l | l in bids.levels :: l !in asks.levels)
    }

    ghost predicate LaddersValid()
      reads bids, asks, bids.levels, asks.levels
    {
      Wired() && bids.Valid() && asks.Valid()
    }

    /** Each structure is sound, and they agree. */
    ghost predicate Valid(drained: Ptr)
      reads pool, mem, index, bids, asks, bids.levels, asks.levels
    {
      PartsValid() && Consistent(market, View(), drained)
    }

    /** The abstract book this book stands for. */
    ghost function Contents(): Book
      reads pool, mem, index, bids, asks, bids.levels, asks.levels
      requires Valid(Null)
    {
      Abs(View())
    }

    /** An empty book over a representable range of ticks, for any hash of order ids. */
    constructor (market: Market, hash: u64 -> nat)
      requires market.Sound()
      ensures Valid(Null) && this.market == market && Abs(View()) == EmptyBook(market)
      ensures fresh({pool, mem, index, bids, asks}) && fresh(bids.levels) && fresh(asks.levels)
      ensures Spare() == (0, 0)
    {
      hide OrderPool.OrderPool.Tracks, OrderIndex.OrderIndex.Valid, PriceLadder.Valid, Consistent, Abs, EmptyBook,
        AllEmpty;
      this.market := market;
      var p := new OrderPool.OrderPool();
      pool, mem := p, p.mem;
      index := new OrderIndex.OrderIndex(hash);
      var b, a := NewLadders(market);
      bids, asks := b, a;
      new;
      VacantOk(market, View());
    }

    method FindOrder(id: u64) returns (p: Ptr)
      requires Valid(Null)
      ensures p != Null <==> Abs(View()).Has(id)
      ensures p != Null ==> p in mem.cells && mem.cells[p].id == id
    {
      HasIff(market, View(), Null, id);
      p := index.FindOrder(id);
    }

    /** The ladder on which orders of a side rest. */
    function LadderOf(side: Side): PriceLadder {
      if side.Buy? then bids else asks
    }

    /** Unlinks a resting order from its level. */
    method Detach(p: Ptr)
      requires LaddersValid() && Held(market, View(), p)
      modifies mem, LadderOf(mem.cells[p].side), LadderOf(mem.cells[p].side).levels[mem.cells[p].level.index]
      ensures LaddersValid() && mem.cells.Keys == old(mem.cells.Keys)
      ensures View() == old(DetachedView(market, View(), p))
    {
      hide LevelOk, UnlinkCells, PriceLadder.Occupancy, Priced;
      DetachedCell(market, View(), p);
      var o := mem.cells[p];
      var ladder := LadderOf(o.side);
      ghost var other := LadderOf(Opposite(o.side));
      assert ladder.levels[o.level.index] !in other.levels;
      Unlink(ladder, mem, o.level.index, p);
      assert other.Valid();
    }

    /** Drops a detached order from the index and the pool. */
    method Retire(p: Ptr)
      requires pool.mem == mem && pool.Valid() && index.Valid()
      requires p in mem.cells && p != Null && mem.cells[p].id in index.contents && index.contents[mem.cells[p].id] == p
      modifies pool, mem, index
      ensures mem.cells == old(mem.cells) - {p} && index.contents == old(index.contents - {mem.cells[p].id})
      ensures pool.Valid() && index.Valid() && Spare() == old(Spare())
    {
      var unindexed := index.RemoveOrder(mem, p);
      var released := pool.Release(p);
    }

    /** How many pool pages and index slots there are. */
    ghost function Spare(): (nat, nat)
      reads pool, index
    {
      (|pool.pages|, |index.slots|)
    }

    /** How many orders fit without a new page and without a rehash. */
    ghost function Capacity(): nat
      reads pool, index
    {
      var slots := OrderPool.SLOTS_PER_PAGE * |pool.pages|;
      if slots < |index.slots| / 2 then slots else |index.slots| / 2
    }

    /** The structures are each sound. */
    ghost predicate PartsValid()
      reads pool, mem, index, bids, asks, bids.levels, asks.levels
    {
      LaddersValid() && pool.Valid() && index.Valid()
    }

    /** Takes an order off its level, then out of the index and the pool. */
    method RemoveHeld(p: Ptr)
      requires PartsValid() && Held(market, View(), p) && p != Null
      requires mem.cells[p].id in index.contents && index.contents[mem.cells[p].id] == p
      modifies pool, mem, index, bids, asks, bids.levels, asks.levels
      ensures PartsValid() && View() == old(RemovedView(market, View(), p)) && Spare() == old(Spare())
    {
      hide OrderPool.OrderPool.Tracks, OrderIndex.OrderIndex.Valid, PriceLadder.Occupancy, Priced, LevelOk, UnlinkCells,
        DetachedView, RemovedView;
      DetachedCell(market, View(), p);
      Detach(p);
      Retire(p);
    }

    /**
     * Removes a resting order from every structure; the single path of cancellation and matching.
     * A matched order arrives with its remaining quantity already at zero. `o` is what p points at, which
     * need not be an order of this book.
     */
    method RemoveOrder(p: Ptr, o: Order) returns (r: Result<()>)
      requires Valid(p) && (p in mem.cells ==> mem.cells[p] == o)
      modifies pool, mem, index, bids, asks, bids.levels, asks.levels
      ensures Valid(Null)
      ensures r == if p == Null then Err(InvalidArgument) else if p !in old(mem.cells) then Err(LogicError) else Ok(())
      ensures r.Err? ==> View() == old(View())
      ensures r.Ok? ==> Abs(View()) == CancelIn(old(Abs(View())), o.id)
      ensures r.Ok? ==> mem.cells.Keys == old(mem.cells.Keys) - {p}
      ensures Spare() == old(Spare())
    {
      hide OrderPool.OrderPool.Tracks, OrderIndex.OrderIndex.Valid, LevelOk, Levelled, Occupied, RemovedView, Abs,
        CancelIn;
      if p == Null {
        return Err(InvalidArgument);
      }
      var found := index.FindOrder(o.id);
      if found != p {
        return Err(LogicError);
      }
      if o.level == NoLevel {
        assert false;  // every order in memory stands on a level
      }
      ghost var v := View();
      AllHeld(market, v, p, p);
      RemoveHeld(p);
      RemovedOk(market, v, View(), p);
      return Ok(());
    }

    /** Links an allocated order and marks its level; a refusal changes nothing. */
    method Attach(p: Ptr, i: nat) returns (r: Result<()>)
      requires LaddersValid() && p in mem.cells && p != Null && i < market.levelCount
      requires Synced(LadderOf(mem.cells[p].side), mem.cells)
      requires LadderOf(mem.cells[p].side).config.PriceAt(i) == mem.cells[p].price
      requires mem.cells[p].level == NoLevel && mem.cells[p].remaining > 0 && !mem.cells[p].side.BadSide?
      modifies mem, LadderOf(mem.cells[p].side), LadderOf(mem.cells[p].side).levels[i]
      ensures LaddersValid() && mem.cells.Keys == old(mem.cells.Keys)
      ensures i < |old(View()).Levels(old(mem.cells[p].side))|
      ensures r == old(if View().Levels(mem.cells[p].side)[i].total + mem.cells[p].remaining > U64_MAX
                       then Err(OverflowError) else Ok(()))
      ensures r.Err? ==> View() == old(View())
      ensures r.Ok? ==> Attachable(old(View()), p, i) && View() == AttachedView(old(View()), p, i)
      ensures r.Ok? ==> LevelOk(View().Levels(old(mem.cells[p].side))[i], Level(old(mem.cells[p].side), i), mem.cells)
    {
      hide LevelOk, Levelled, Occupied, PriceLadder.Occupancy;
      var o := mem.cells[p];
      var ladder := LadderOf(o.side);
      ghost var other := if o.side.Buy? then asks else bids;
      assert ladder.levels[i] !in other.levels;
      assert ladder.levels[i].View() == ladder.view[i];
      assert ladder.view[i].price == ladder.config.PriceAt(i);
      r := Link(ladder, mem, i, p);
      assert other.Valid();
    }

    /** Links an allocated order into its level and the index, and unlinks it again if the id is taken. */
    method LinkAndIndex(p: Ptr, i: nat, ghost v: View) returns (r: Result<()>)
      requires LaddersValid() && index.Valid() && View() == v && Ready(market, v, p, i)
      modifies mem, index, bids, asks, bids.levels, asks.levels
      ensures LaddersValid() && index.Valid() && mem.cells.Keys == old(mem.cells.Keys)
      ensures r == if v.Levels(v.cells[p].side)[i].total + v.cells[p].remaining > U64_MAX then Err(OverflowError)
                   else if v.cells[p].id in v.contents then Err(LogicError) else Ok(())
      ensures r.Err? ==> View() == v
      ensures r.Ok? ==> Attachable(v, p, i) &&
                        View() == AttachedView(v, p, i).(contents := v.contents[v.cells[p].id := p])
      ensures old(2 * (index.count + 1) <= |index.slots|) ==> |index.slots| == old(|index.slots|)
    {
      hide LevelOk, Levelled, PriceLadder.Occupancy, OrderPool.OrderPool.Tracks, OrderIndex.OrderIndex.Valid,
        AttachedView, DetachedView;
      r := Attach(p, i);
      if r.Err? {
        return;
      }
      AttachedHeld(market, v, View(), p, i);
      r := index.AddOrder(mem, p);
      if r.Err? {
        RollbackOk(market, v, View(), p, i);
        Detach(p);
      }
    }

    /** Frees the slot of an order that was refused. */
    method Abandon(p: Ptr, ghost v: View, ghost o: Order)
      requires pool.mem == mem && pool.Valid() && mem.cells == v.cells[p := o] && p !in v.cells
      modifies pool, mem
      ensures pool.Valid() && mem.cells == v.cells && |pool.pages| == old(|pool.pages|)
    {
      hide OrderPool.PoolOk;
      var released := pool.Release(p);
      assert v.cells[p := o] - {p} == v.cells;
    }

    /** Tries an allocated, well-formed order at index i; on refusal the slot is freed again. */
    method Commit(p: Ptr, i: nat, ghost v: View, ghost o: Order) returns (r: Result<Ptr>)
      requires PartsValid() && p !in v.cells && View() == v.(cells := v.cells[p := o]) && Ready(market, View(), p, i)
      modifies pool, mem, index, bids, asks, bids.levels, asks.levels
      ensures PartsValid()
      ensures r == if v.Levels(o.side)[i].total + o.remaining > U64_MAX then Err(OverflowError)
                   else if o.id in v.contents then Err(LogicError) else Ok(p)
      ensures r.Err? ==> View() == v
      ensures r.Ok? ==>
        && Attachable(v.(cells := v.cells[p := o]), p, i)
        && View() == AttachedView(v.(cells := v.cells[p := o]), p, i).(contents := v.contents[o.id := p])
      ensures |pool.pages| == old(|pool.pages|)
      ensures old(2 * (index.count + 1) <= |index.slots|) ==> |index.slots| == old(|index.slots|)
    {
      hide LevelOk, Levelled, Occupied, PriceLadder.Occupancy, OrderPool.OrderPool.Tracks,
        OrderIndex.OrderIndex.Valid, AttachedView;
      var linked := LinkAndIndex(p, i, View());
      if linked.Err? {
        Abandon(p, v, o);
        return Err(linked.error);
      }
      return Ok(p);
    }

    /** Allocates an order, then links and indexes it, or leaves every structure as it was. */
    method Place(o: Order) returns (r: Result<Ptr>)
      requires Valid(Null) && o == o.Payload() && o.kind.Limit? && 0 < o.remaining <= o.original
      modifies pool, mem, index, bids, asks, bids.levels, asks.levels
      ensures Valid(Null)
      ensures var check := AddCheck(market, old(Abs(View())), o);
        r.Ok? == check.Ok? && (r.Err? ==> r.error == check.error)
      ensures r.Err? ==> View() == old(View())
      ensures r.Ok? ==> Abs(View()) == Add(old(Abs(View())), o)
      ensures r.Ok? ==> r.value !in old(mem.cells) && r.value in mem.cells && mem.cells[r.value].Payload() == o
      ensures old(pool.liveCount < OrderPool.SLOTS_PER_PAGE * |pool.pages|) ==> |pool.pages| == old(|pool.pages|)
      ensures old(2 * (index.count + 1) <= |index.slots|) ==> |index.slots| == old(|index.slots|)
    {
      hide LevelOk, Levelled, PriceLadder.Occupancy, OrderPool.OrderPool.Tracks, OrderIndex.OrderIndex.Valid,
        AttachedView, Abs, Add, AddCheck, Occupied, Ready;
      ghost var v := View();
      var p := pool.Allocate(o);
      if !o.WellFormed() {
        Abandon(p, v, o);
        Malformed(market, v, o);
        return Err(InvalidArgument);
      }
      CheckIs(market, v, o);
      var at := LadderOf(o.side).config.IndexOf(o.price);
      if at.Err? {
        Abandon(p, v, o);
        return Err(at.error);
      }
      ReadyFresh(market, v, o, p, at.value);
      r := Commit(p, at.value, v, o);
      if r.Ok? {
        InsertedOk(market, v, View(), o, p, at.value);
        AttachedPayload(v.(cells := v.cells[p := o]), p, at.value);
      }
    }

    /** Takes an amount off the aggregate of the level an order stands on, or refuses an underflow. */
    method ReduceLevel(p: Ptr, amount: u64) returns (r: Result<()>)
      requires LaddersValid() && p in mem.cells && Rests(market, mem.cells[p])
      modifies bids, asks, bids.levels, asks.levels
      ensures LaddersValid()
      ensures var v := old(View()); var o := v.cells[p]; var i := o.level.index;
        && i < |v.Levels(o.side)|
        && r == (if amount > v.Levels(o.side)[i].total then Err(InvalidArgument) else Ok(()))
        && View() == if r.Err? then v
                     else v.Put(o.side, i, v.Levels(o.side)[i].(total := v.Levels(o.side)[i].total - amount))
    {
      hide PriceLadder.Occupancy;
      var o := mem.cells[p];
      var i, ladder := o.level.index, LadderOf(o.side);
      ghost var other := if o.side.Buy? then asks else bids;
      var level := ladder.levels[i];
      assert level !in other.levels && level.View() == ladder.view[i];
      r := level.ReduceTotal(amount);
      ladder.view := ladder.view[i := level.View()];
      PricedPut(ladder.config, old(ladder.view), i, level.View());
      assert other.Valid();
    }

    /** Takes off the aggregate what was just taken off an order; the aggregate always suffices. */
    method TakeOff(p: Ptr, amount: u64, ghost v: View) returns (r: Result<()>)
      requires PartsValid() && Consistent(market, v, Null) && Held(market, v, p) && amount < v.cells[p].remaining
      requires View() == Rewritten(v, p, v.cells[p].remaining - amount)
      modifies bids, asks, bids.levels, asks.levels
      ensures r == Ok(()) && Valid(Null)
      ensures Abs(View()) == ReduceIn(Abs(v), v.cells[p].id, v.cells[p].remaining - amount)
    {
      hide Consistent, LevelOk, OrderPool.OrderPool.Tracks, OrderIndex.OrderIndex.Valid, PriceLadder.Valid, Abs,
        ReduceIn,
        SetView;
      Covered(market, v, p, v.cells[p].remaining - amount);
      r := ReduceLevel(p, amount);
      ghost var o := v.cells[p];
      SetViewIs(market, v, p, o.remaining - amount, v.Levels(o.side)[o.level.index].total - amount);
      ShrinkOk(market, v, View(), p, o.remaining - amount);
    }

    /** Adds a resting limit order: in price-time order, or with no effect on any structure. */
    method AddOrder(id: u64, price: u64, original: u64, remaining: u64, timestamp: u64, side: Side, kind: OrderType,
                    seqNo: u64) returns (r: Result<Ptr>)
      requires Valid(Null)
      modifies pool, mem, index, bids, asks, bids.levels, asks.levels
      ensures Valid(Null)
      ensures var o := Order(id, price, original, remaining, timestamp, side, kind, seqNo, Null, Null, NoLevel);
        var check := AddCheck(market, old(Abs(View())), o);
        && r.Ok? == check.Ok? && (r.Err? ==> r.error == check.error)
        && (r.Ok? ==> Abs(View()) == Add(old(Abs(View())), o))
        && (r.Ok? ==> r.value !in old(mem.cells) && r.value in mem.cells && mem.cells[r.value].Payload() == o)
      ensures !kind.Limit? || original == 0 || remaining == 0 || remaining > original ==> r == Err(InvalidArgument)
      ensures id == 0 || timestamp == 0 || seqNo == 0 || side.BadSide? || price == 0 ==> r == Err(InvalidArgument)
      ensures r.Err? ==> View() == old(View())
      ensures r.Err? ==> MarksOf(bids) == old(MarksOf(bids)) && MarksOf(asks) == old(MarksOf(asks))
      ensures old(Abs(View())).Size() < old(Capacity()) ==> Spare() == old(Spare())
    {
      hide Valid, View, Abs, Add, Admit, Find, OrderPool.OrderPool.Valid, OrderIndex.OrderIndex.Valid;
      if !kind.Limit? {
        return Err(InvalidArgument);
      }
      if original == 0 || remaining == 0 || remaining > original {
        return Err(InvalidArgument);
      }
      Counted();
      r := PlaceOrRestore(Order(id, price, original, remaining, timestamp, side, kind, seqNo, Null, Null, NoLevel));
    }

    /** The pool and the index count the orders that rest. */
    lemma Counted()
      requires Valid(Null)
      ensures pool.liveCount == index.count == Abs(View()).Size()
    {
      hide LevelOk, Levelled, Occupied, OrderPool.PoolOk, OrderIndex.Holds, OrderIndex.Probed, PriceLadder.Valid, Abs;
      SizeIs(market, View(), Null);
    }

    /** A refused order leaves the bits, the cached best and the count of either ladder as they were. */
    method PlaceOrRestore(o: Order) returns (r: Result<Ptr>)
      requires Valid(Null) && o == o.Payload() && o.kind.Limit? && 0 < o.remaining <= o.original
      modifies pool, mem, index, bids, asks, bids.levels, asks.levels
      ensures Valid(Null)
      ensures var check := AddCheck(market, old(Abs(View())), o);
        && r.Ok? == check.Ok? && (r.Err? ==> r.error == check.error)
        && (r.Ok? ==> Abs(View()) == Add(old(Abs(View())), o))
        && (r.Ok? ==> r.value !in old(mem.cells) && r.value in mem.cells && mem.cells[r.value].Payload() == o)
      ensures r.Err? ==> View() == old(View())
      ensures r.Err? ==> MarksOf(bids) == old(MarksOf(bids)) && MarksOf(asks) == old(MarksOf(asks))
      ensures old(pool.liveCount < OrderPool.SLOTS_PER_PAGE * |pool.pages|) ==> |pool.pages| == old(|pool.pages|)
      ensures old(2 * (index.count + 1) <= |index.slots|) ==> |index.slots| == old(|index.slots|)
    {
      hide OrderPool.OrderPool.Tracks, OrderIndex.OrderIndex.Valid, Consistent, Abs, Add, AddCheck, PriceLadder.Shape,
        Marks, IsBest;
      ghost var b, a := MarksOf(bids), MarksOf(asks);
      r := Place(o);
      if r.Err? {
        SameMarks(bids, b);
        SameMarks(asks, a);
      }
    }

    /** Removes a resting order by id; an absent id is reported. */
    method CancelOrder(id: u64) returns (found: bool)
      requires Valid(Null)
      modifies pool, mem, index, bids, asks, bids.levels, asks.levels
      ensures Valid(Null) && found == old(Abs(View())).Has(id)
      ensures Abs(View()) == CancelIn(old(Abs(View())), id) && Spare() == old(Spare())
    {
      hide LevelOk, Levelled, Occupied, OrderPool.OrderPool.Tracks, OrderIndex.OrderIndex.Valid;
      HasIff(market, View(), Null, id);
      var p := index.FindOrder(id);
      if p == Null {
        CancelNone(Abs(View()), id);
        return false;
      }
      var r := RemoveOrder(p, mem.cells[p]);
      return true;
    }

    /** Writes a smaller remaining quantity and lets the aggregate follow. */
    method Shrink(p: Ptr, quantity: u64)
      requires Valid(Null) && p in mem.cells && 0 < quantity < mem.cells[p].remaining
      modifies mem, bids, asks, bids.levels, asks.levels
      ensures Valid(Null)
      ensures Abs(View()) == ReduceIn(old(Abs(View())), old(mem.cells[p].id), quantity)
    {
      hide LevelOk, Consistent, OrderPool.OrderPool.Tracks, OrderIndex.OrderIndex.Valid, Abs, ReduceIn,
        PriceLadder.Occupancy, PriceLadder.Shape;
      ghost var v := View();
      AllHeld(market, v, Null, p);
      var remaining := mem.cells[p].remaining;
      var written := mem.SetRemaining(p, quantity);
      Covered(market, v, p, quantity);
      var reduced := TakeOff(p, remaining - quantity, v);
    }

    /** Shrinks a resting order in place; its entry keeps its position. */
    method ReduceOrder(id: u64, quantity: u64) returns (r: Result<bool>)
      requires Valid(Null)
      modifies mem, bids, asks, bids.levels, asks.levels
      ensures Valid(Null)
      ensures var b := old(Abs(View()));
        && r == (if !b.Has(id) then Ok(false)
                 else if quantity == 0 || quantity > RemainingOf(b, id) then Err(InvalidArgument) else Ok(true))
        && Abs(View()) == if r == Ok(true) then ReduceIn(b, id, quantity) else b
      ensures r != Ok(true) ==> View() == old(View())
    {
      hide LevelOk, Levelled, Occupied, OrderPool.OrderPool.Tracks, OrderIndex.OrderIndex.Valid, Abs, ReduceIn,
        Held, PriceLadder.Occupancy;
      var p := FindOrder(id);
      if p == Null {
        return Ok(false);
      }
      RemainingIs(market, View(), p);
      var remaining := mem.cells[p].remaining;
      if quantity == 0 || quantity > remaining {
        return Err(InvalidArgument);
      }
      if quantity == remaining {
        Found(market, View(), Null, p);
        SetSame(Abs(View()), id);
        return Ok(true);
      }
      Shrink(p, quantity);
      return Ok(true);
    }

    /** The index of the best level of a side, if any order rests there. */
    method Best(side: Side) returns (i: Result<nat>)
      requires Valid(Null) && !side.BadSide?
      ensures i.Ok? <==> Abs(View()).Orders(side) != []
      ensures i.Ok? ==> i.value < |LadderOf(side).levels|
      ensures i.Ok? ==> i.value in View().Occ(side) && forall k | k in View().Occ(side) :: i.value <= k
    {
      hide LevelOk, Levelled, Occupied, OrderPool.OrderPool.Tracks, OrderIndex.OrderIndex.Valid, Marks;
      i := LadderOf(side).Best();
      if i.Ok? {
        HeadIs(market, View(), Null, side, i.value);
      } else {
        EmptyIs(market, View(), Null, side);
      }
    }

    /** The best level of a side, with its head order and its price. */
    method Touch(side: Side) returns (best: Result<nat>, p: Ptr, price: u64)
      requires Valid(Null) && !side.BadSide?
      ensures AtTouch(market, View(), side, best, p, price)
    {
      hide LevelOk, Levelled, Occupied, OrderPool.OrderPool.Tracks, OrderIndex.OrderIndex.Valid,
        PriceLadder.Occupancy, Abs;
      p, price := Null, 0;
      best := Best(side);
      if best.Ok? {
        var level := LadderOf(side).levels[best.value];
        p, price := level.head, level.price;
        assert level.View() == LadderOf(side).view[best.value];
        HeadIs(market, View(), Null, side, best.value);
        HeadFacts(market, View(), side, best.value, p);
      }
    }

    /** Makes room ahead of time; nothing that rests is touched. */
    method ReserveCapacity(n: nat)
      requires Valid(Null)
      modifies pool, index
      ensures Valid(Null) && View() == old(View())
      ensures n <= Capacity() && old(Capacity()) <= Capacity()
      ensures SizedFor(n, Spare().0, Spare().1, old(Spare()))
    {
      hide LevelOk, Levelled, Occupied, OrderPool.OrderPool.Tracks, OrderIndex.OrderIndex.Valid, PriceLadder.Occupancy;
      pool.Reserve(n);
      index.Reserve(n);
    }

    /** The top levels of both sides, best first, with the aggregate each level reports. */
    method CaptureSnapshot(depth: nat) returns (s: Snapshot)
      requires Valid(Null)
      ensures s.bids <= Depth(market, Abs(View()), Buy, 0) && s.asks <= Depth(market, Abs(View()), Sell, 0)
      ensures |s.bids| == if depth < s.bidLevels then depth else s.bidLevels
      ensures |s.asks| == if depth < s.askLevels then depth else s.askLevels
      ensures s.bidLevels == |Depth(market, Abs(View()), Buy, 0)| &&
          s.askLevels == |Depth(market, Abs(View()), Sell, 0)|
      ensures s.bestBid == if depth == 0 || Abs(View()).bids == [] then 0 else Abs(View()).bids[0].price
      ensures s.bestAsk == if depth == 0 || Abs(View()).asks == [] then 0 else Abs(View()).asks[0].price
    {
      hide Depth, OrderPool.OrderPool.Tracks, OrderIndex.OrderIndex.Valid, PriceLadder.Valid;
      var b := SideSnapshot(Buy, depth);
      var a := SideSnapshot(Sell, depth);
      s := Snapshot(b, a, if b == [] then 0 else b[0].price, if a == [] then 0 else a[0].price,
                    bids.occupied, asks.occupied);
    }

    method SideSnapshot(side: Side, depth: nat) returns (out: seq<SnapshotLevel>)
      requires Valid(Null) && !side.BadSide?
      ensures out == Top(Depth(market, Abs(View()), side, 0), depth)
      ensures LadderOf(side).occupied == |Depth(market, Abs(View()), side, 0)|
      ensures depth > 0 ==> (out == [] <==> Abs(View()).Orders(side) == [])
      ensures out != [] ==> Abs(View()).Orders(side) != [] && out[0].price == Abs(View()).Orders(side)[0].price
    {
      hide LevelOk, SideOk, OrderPool.OrderPool.Tracks, OrderIndex.OrderIndex.Valid, Marks, Abs, PriceLadder.Shape;
      out := LadderOf(side).FirstLevels(depth);
      ShownIs(market, View(), side, out, depth);
    }
  }
}
