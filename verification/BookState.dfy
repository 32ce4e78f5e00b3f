/**
 * The synchronised structures of an order book as one value: order memory, the index map, the
 * levels of both ladders and the occupied indices; when they agree, and which abstract book they then
 * stand for.
 */
module BookState {
  import opened Types
  import opened PriceLevel
  import opened PriceLadder
  import opened AbstractBook

  datatype View = View(
    cells: map<Ptr, Order>, contents: map<u64, Ptr>,
    bids: seq<LevelView>, asks: seq<LevelView>, bidOcc: set<nat>, askOcc: set<nat>)
  {
    function Levels(side: Side): seq<LevelView> { if side.Buy? then bids else asks }

    function Occ(side: Side): set<nat> { if side.Buy? then bidOcc else askOcc }

    function Put(side: Side, i: nat, level: LevelView): View
      requires i < |Levels(side)|
    {
      if side.Buy? then this.(bids := bids[i := level]) else this.(asks := asks[i := level])
    }

    function Mark(side: Side, occ: set<nat>): View {
      if side.Buy? then this.(bidOcc := occ) else this.(askOcc := occ)
    }
  }

  // ---- agreement --------------------------------------------------------------------------

  ghost predicate Levelled(cells: map<Ptr, Order>, side: Side, view: seq<LevelView>) {
    forall i: nat {:trigger LevelOk(view[i], Level(side, i), cells)} | i < |view| ::
      LevelOk(view[i], Level(side, i), cells)
  }

  /** Occupancy marks exactly the non-empty levels. */
  ghost predicate Occupied(view: seq<LevelView>, occ: set<nat>) {
    forall i: nat :: i in occ <==> i < |view| && view[i].fifo != []
  }

  ghost predicate SideOk(m: Market, v: View, side: Side) {
    && |v.Levels(side)| == m.levelCount && Priced(m.Ladder(side), v.Levels(side))
    && Levelled(v.cells, side, v.Levels(side)) && Occupied(v.Levels(side), v.Occ(side))
  }

  /** An order that rests in the book, on the level of its own side. */
  ghost predicate Rests(m: Market, o: Order) {
    && o.level.Level? && o.level.side == o.side && o.level.index < m.levelCount
    && o.WellFormed() && o.kind.Limit?
  }

  ghost predicate Homed(m: Market, cells: map<Ptr, Order>, drained: Ptr) {
    forall p | p in cells :: p != Null && Rests(m, cells[p]) && (cells[p].remaining > 0 || p == drained)
  }

  /** The index maps exactly the orders in memory. */
  ghost predicate Indexed(cells: map<Ptr, Order>, contents: map<u64, Ptr>) {
    && (forall p | p in cells :: cells[p].id in contents && contents[cells[p].id] == p)
    && (forall id | id in contents :: contents[id] in cells && cells[contents[id]].id == id)
  }

  /**
   * The structures agree. While a resting order is being removed its remaining quantity may
   * already be zero; `drained` is then its address.
   */
  ghost predicate Consistent(m: Market, v: View, drained: Ptr) {
    && m.Sound() && SideOk(m, v, Buy) && SideOk(m, v, Sell)
    && Homed(m, v.cells, drained) && Indexed(v.cells, v.contents)
  }

  // ---- the abstract book ------------------------------------------------------------------

  ghost function Concat(view: seq<LevelView>): seq<Ptr> {
    if view == [] then [] else view[0].fifo + Concat(view[1..])
  }

  ghost function Resolve(cells: map<Ptr, Order>, s: seq<Ptr>): (r: seq<Resting>)
    requires forall p | p in s :: p in cells
    ensures |r| == |s|
  {
    seq(|s|, k requires 0 <= k < |s| => ToResting(cells[s[k]]))
  }

  ghost function StaleOf(cells: map<Ptr, Order>, view: seq<LevelView>): (r: seq<nat>)
    requires forall i: nat | i < |view| :: Sum(cells, view[i].fifo) <= view[i].total
    ensures |r| == |view|
  {
    seq(|view|, i requires 0 <= i < |view| => view[i].total - Sum(cells, view[i].fifo))
  }

  lemma {:induction false} ConcatSplit(a: seq<LevelView>, b: seq<LevelView>)
    ensures Concat(a + b) == Concat(a) + Concat(b)
  {
    if a == [] {
      assert a + b == b;
    } else {
      assert (a + b)[1..] == a[1..] + b;
      ConcatSplit(a[1..], b);
    }
  }

  lemma ConcatAt(view: seq<LevelView>, i: nat)
    requires i < |view|
    ensures Concat(view) == Concat(view[..i]) + view[i].fifo + Concat(view[i + 1..])
  {
    assert view == view[..i] + view[i..];
    ConcatSplit(view[..i], view[i..]);
    assert view[i..][1..] == view[i + 1..];
  }

  /** An order of the concatenation stands in some level's queue. */
  lemma {:induction false} InConcat(view: seq<LevelView>, p: Ptr) returns (i: nat)
    requires p in Concat(view)
    ensures i < |view| && p in view[i].fifo
  {
    if p in view[0].fifo {
      i := 0;
    } else {
      i := InConcat(view[1..], p);
      i := i + 1;
    }
  }

  /** Every listed order is alive, on this side, at the price of the level it points at. */
  lemma Listed(cells: map<Ptr, Order>, side: Side, view: seq<LevelView>)
    requires Levelled(cells, side, view)
    ensures forall p | p in Concat(view) ::
      && p in cells && cells[p].level.Level? && cells[p].level.side == side && cells[p].level.index < |view|
      && p in view[cells[p].level.index].fifo && cells[p].price == view[cells[p].level.index].price
  {
    forall p | p in Concat(view)
      ensures
        && p in cells && cells[p].level.Level? && cells[p].level.side == side && cells[p].level.index < |view|
        && p in view[cells[p].level.index].fifo && cells[p].price == view[cells[p].level.index].price
    {
      var i := InConcat(view, p);
      assert LevelOk(view[i], Level(side, i), cells);
      Queued(cells, Level(side, i), view[i].price, view[i].fifo);
    }
  }

  /** The abstract list of one side. */
  ghost function ListOf(cells: map<Ptr, Order>, side: Side, view: seq<LevelView>): seq<Resting>
    requires Levelled(cells, side, view)
  {
    Listed(cells, side, view);
    Resolve(cells, Concat(view))
  }

  ghost function StaleIn(cells: map<Ptr, Order>, side: Side, view: seq<LevelView>): (r: seq<nat>)
    requires Levelled(cells, side, view)
    ensures |r| == |view|
  {
    assert forall i: nat | i < |view| :: LevelOk(view[i], Level(side, i), cells);
    StaleOf(cells, view)
  }

  ghost function Abs(v: View): Book
    requires Levelled(v.cells, Buy, v.bids) && Levelled(v.cells, Sell, v.asks)
  {
    Book(ListOf(v.cells, Buy, v.bids), ListOf(v.cells, Sell, v.asks),
         StaleIn(v.cells, Buy, v.bids), StaleIn(v.cells, Sell, v.asks))
  }

  // ---- changes confined to one level ------------------------------------------------------

  /** No order of another level changed. */
  ghost predicate Elsewhere(before: map<Ptr, Order>, after: map<Ptr, Order>, here: LevelPtr) {
    && Null !in after
    && (forall q | q in before && before[q].level != here && before[q].level != NoLevel ::
          q in after && after[q] == before[q])
    && (forall q | q in after && after[q].level != here && after[q].level != NoLevel ::
          q in before && before[q].level == after[q].level)
  }

  lemma LevelElsewhere(v: LevelView, self: LevelPtr, before: map<Ptr, Order>, after: map<Ptr, Order>, here: LevelPtr)
    requires LevelOk(v, self, before) && Elsewhere(before, after, here) && self != here
    ensures LevelOk(v, self, after) && Sum(after, v.fifo) == Sum(before, v.fifo)
  {
    Queued(before, self, v.price, v.fifo);
    SumSame(before, after, v.fifo);
    forall k | 0 <= k < |v.fifo|
      ensures LinkedAt(after, self, v.price, v.fifo, k)
    {
      assert LinkedAt(before, self, v.price, v.fifo, k);
    }
  }

  /** Changing one level keeps a side sound, and changes its stale amounts only there. */
  lemma SideChanged(before: map<Ptr, Order>, after: map<Ptr, Order>, side: Side, view: seq<LevelView>,
                    i: nat, level: LevelView, view': seq<LevelView>)
    requires Levelled(before, side, view) && i < |view| && Elsewhere(before, after, Level(side, i))
    requires LevelOk(level, Level(side, i), after) && view' == view[i := level]
    ensures Levelled(after, side, view')
    ensures StaleIn(after, side, view') == StaleIn(before, side, view)[i := level.total - Sum(after, level.fifo)]
  {
    forall j: nat | j < |view|
      ensures LevelOk(view'[j], Level(side, j), after)
      ensures j != i ==> Sum(after, view'[j].fifo) == Sum(before, view[j].fifo)
    {
      if j != i {
        assert LevelOk(view[j], Level(side, j), before);
        LevelElsewhere(view[j], Level(side, j), before, after, Level(side, i));
      }
    }
  }

  /** A side on which nothing happened is the same side. */
  lemma SideSame(before: map<Ptr, Order>, after: map<Ptr, Order>, side: Side, view: seq<LevelView>, here: LevelPtr)
    requires Levelled(before, side, view) && Elsewhere(before, after, here) && here.Level? && here.side != side
    ensures Levelled(after, side, view)
    ensures StaleIn(after, side, view) == StaleIn(before, side, view)
    ensures ListOf(after, side, view) == ListOf(before, side, view)
  {
    forall j: nat | j < |view|
      ensures LevelOk(view[j], Level(side, j), after)
      ensures Sum(after, view[j].fifo) == Sum(before, view[j].fifo)
    {
      assert LevelOk(view[j], Level(side, j), before);
      LevelElsewhere(view[j], Level(side, j), before, after, here);
    }
    Listed(before, side, view);
  }

  // ---- positions --------------------------------------------------------------------------

  lemma ResolveConcat(cells: map<Ptr, Order>, a: seq<Ptr>, b: seq<Ptr>)
    requires (forall p | p in a :: p in cells) && (forall p | p in b :: p in cells)
    ensures (forall p | p in a + b :: p in cells) && Resolve(cells, a + b) == Resolve(cells, a) + Resolve(cells, b)
  {
  }

  lemma {:induction false} ConcatDistinct(cells: map<Ptr, Order>, side: Side, view: seq<LevelView>, base: nat)
    requires forall i: nat | i < |view| :: Linked(cells, Level(side, base + i), view[i].price, view[i].fifo)
    ensures Distinct(Concat(view))
    ensures forall p | p in Concat(view) :: p in cells && cells[p].level.Level? && cells[p].level.index >= base
  {
    if view != [] {
      assert Linked(cells, Level(side, base + 0), view[0].price, view[0].fifo);
      Queued(cells, Level(side, base), view[0].price, view[0].fifo);
      forall i: nat | i < |view[1..]|
        ensures Linked(cells, Level(side, base + 1 + i), view[1..][i].price, view[1..][i].fifo)
      {
        assert Linked(cells, Level(side, base + (i + 1)), view[i + 1].price, view[i + 1].fifo);
      }
      ConcatDistinct(cells, side, view[1..], base + 1);
      DistinctConcat(view[0].fifo, Concat(view[1..]));
    }
  }

  lemma DistinctConcat(a: seq<Ptr>, b: seq<Ptr>)
    requires Distinct(a) && Distinct(b) && forall p | p in a :: p !in b
    ensures Distinct(a + b)
  {
    forall i, j | 0 <= i < j < |a + b|
      ensures (a + b)[i] != (a + b)[j]
    {
      if i < |a| <= j {
        assert a[i] in a && b[j - |a|] in b;
      }
    }
  }

  /** Where an order stands in the list of its side. */
  ghost function Place(view: seq<LevelView>, i: nat, p: Ptr): (k: nat)
    requires i < |view| && p in view[i].fifo
    ensures k < |Concat(view)| && Concat(view)[k] == p
  {
    ConcatAt(view, i);
    |Concat(view[..i])| + PosOf(view[i].fifo, p)
  }

  lemma FoundOn(cells: map<Ptr, Order>, contents: map<u64, Ptr>, side: Side, view: seq<LevelView>, i: nat, p: Ptr)
    requires Levelled(cells, side, view) && Indexed(cells, contents) && i < |view| && p in view[i].fifo && p in cells
    ensures Find(ListOf(cells, side, view), cells[p].id) == Place(view, i, p)
  {
    var k := Place(view, i, p);
    assert forall j: nat | j < |view| :: LevelOk(view[j], Level(side, j), cells);
    ConcatDistinct(cells, side, view, 0);
    Listed(cells, side, view);
    var list, s := ListOf(cells, side, view), Concat(view);
    forall j | 0 <= j < k
      ensures list[j].id != cells[p].id
    {
      assert s[j] in s && s[j] != s[k];
    }
    FindFirst(list, cells[p].id, k);
  }

  lemma NotFoundOn(cells: map<Ptr, Order>, contents: map<u64, Ptr>, side: Side, view: seq<LevelView>, p: Ptr)
    requires Levelled(cells, side, view) && Indexed(cells, contents) && p in cells
    requires cells[p].level.Level? && cells[p].level.side != side
    ensures Find(ListOf(cells, side, view), cells[p].id) == |ListOf(cells, side, view)|
  {
    Listed(cells, side, view);
    var list, s := ListOf(cells, side, view), Concat(view);
    forall j | 0 <= j < |list|
      ensures list[j].id != cells[p].id
    {
      assert s[j] in s;
    }
    FindNone(list, cells[p].id);
  }

  /** The id of a resting order is found at its place, and nowhere on the other side. */
  lemma Found(m: Market, v: View, drained: Ptr, p: Ptr)
    requires Consistent(m, v, drained) && p in v.cells
    ensures var o := v.cells[p];
      && o.level.index < |v.Levels(o.side)| && p in v.Levels(o.side)[o.level.index].fifo
      && Find(Abs(v).Orders(o.side), o.id) == Place(v.Levels(o.side), o.level.index, p)
      && Find(Abs(v).Orders(Opposite(o.side)), o.id) == |Abs(v).Orders(Opposite(o.side))|
  {
    var o := v.cells[p];
    assert Rests(m, o);
    assert LevelOk(v.Levels(o.side)[o.level.index], Level(o.side, o.level.index), v.cells);
    FoundOn(v.cells, v.contents, o.side, v.Levels(o.side), o.level.index, p);
    NotFoundOn(v.cells, v.contents, Opposite(o.side), v.Levels(Opposite(o.side)), p);
  }

  /** The abstract book holds an id exactly when the index does. */
  lemma HasIff(m: Market, v: View, drained: Ptr, id: u64)
    requires Consistent(m, v, drained)
    ensures Abs(v).Has(id) <==> id in v.contents
  {
    if id in v.contents {
      Found(m, v, drained, v.contents[id]);
    } else {
      Listed(v.cells, Buy, v.bids);
      Listed(v.cells, Sell, v.asks);
      FindNone(Abs(v).bids, id);
      FindNone(Abs(v).asks, id);
    }
  }

  // ---- how many orders there are ------------------------------------------------------------

  lemma {:induction false} DistinctSize(s: seq<Ptr>)
    requires Distinct(s)
    ensures |set p | p in s| == |s|
  {
    if s == [] {
      assert (set p | p in s) == {};
    } else {
      var n := |s| - 1;
      DistinctSize(s[..n]);
      assert (set p | p in s) == (set p | p in s[..n]) + {s[n]};
    }
  }

  lemma {:induction false} SameSize(cells: map<Ptr, Order>, contents: map<u64, Ptr>)
    requires Indexed(cells, contents)
    ensures |cells| == |contents|
    decreases |cells|
  {
    if p :| p in cells {
      var id := cells[p].id;
      assert Indexed(cells - {p}, contents - {id});
      assert (cells - {p}).Keys == cells.Keys - {p} && (contents - {id}).Keys == contents.Keys - {id};
      SameSize(cells - {p}, contents - {id});
    } else {
      assert contents.Keys == {};
    }
  }

  lemma ListDistinct(cells: map<Ptr, Order>, side: Side, view: seq<LevelView>)
    requires Levelled(cells, side, view)
    ensures Distinct(Concat(view))
  {
    forall j: nat | j < |view|
      ensures Linked(cells, Level(side, 0 + j), view[j].price, view[j].fifo)
    {
      assert LevelOk(view[j], Level(side, j), cells);
    }
    ConcatDistinct(cells, side, view, 0);
  }

  /** The orders of one side are those in memory that point at its levels, each once. */
  lemma SideSize(m: Market, v: View, drained: Ptr, side: Side)
    requires Consistent(m, v, drained) && !side.BadSide?
    ensures |Abs(v).Orders(side)| == |set p | p in v.cells && v.cells[p].side == side|
  {
    hide Levelled, Occupied, Priced, Market.Sound;
    var view, s := v.Levels(side), Concat(v.Levels(side));
    ListDistinct(v.cells, side, view);
    DistinctSize(s);
    Listed(v.cells, side, view);
    forall p | p in v.cells && v.cells[p].side == side
      ensures p in s
    {
      Found(m, v, drained, p);
      ConcatAt(view, v.cells[p].level.index);
    }
    forall p | p in s
      ensures p in v.cells && v.cells[p].side == side
    {
      assert Rests(m, v.cells[p]);
    }
    assert (set p | p in s) == (set p | p in v.cells && v.cells[p].side == side);
  }

  /** Memory, index and abstract book hold the same number of orders. */
  lemma SizeIs(m: Market, v: View, drained: Ptr)
    requires Consistent(m, v, drained)
    ensures Abs(v).Size() == |v.cells.Keys| == |v.contents|
  {
    hide LevelOk, Levelled, Occupied, Abs, SideOk, Market.Sound, Rests;
    SideSize(m, v, drained, Buy);
    SideSize(m, v, drained, Sell);
    SameSize(v.cells, v.contents);
    SidesSplit(m, v.cells, drained);
  }

  lemma SidesSplit(m: Market, cells: map<Ptr, Order>, drained: Ptr)
    requires Homed(m, cells, drained)
    ensures |cells.Keys| == |set p | p in cells && cells[p].side == Buy| + |set p | p in cells && cells[p].side == Sell|
  {
    var bids, asks := set p | p in cells && cells[p].side == Buy, set p | p in cells && cells[p].side == Sell;
    forall p | p in cells
      ensures p in bids || p in asks
    {
      assert Rests(m, cells[p]);
    }
    SplitSize(cells.Keys, bids, asks);
  }

  lemma SplitSize<T>(s: set<T>, a: set<T>, b: set<T>)
    requires a <= s && b <= s && a !! b && forall x | x in s :: x in a || x in b
    ensures |s| == |a| + |b|
  {
    assert s == a + b;
  }

  // ---- the level aggregate ----------------------------------------------------------------

  lemma {:induction false} SumAtNone(list: seq<Resting>, price: int)
    requires forall k | 0 <= k < |list| :: list[k].price != price
    ensures SumAt(list, price) == 0
  {
    if list != [] { SumAtNone(list[1..], price); }
  }

  lemma {:induction false} SumAtAll(cells: map<Ptr, Order>, s: seq<Ptr>, price: int)
    requires forall p | p in s :: p in cells && cells[p].price == price
    ensures SumAt(Resolve(cells, s), price) == Sum(cells, s)
  {
    if s != [] {
      assert Resolve(cells, s)[1..] == Resolve(cells, s[1..]);
      SumAtAll(cells, s[1..], price);
    }
  }

  /** Orders of other levels rest at other prices. */
  lemma PartPrices(c: Config, cells: map<Ptr, Order>, side: Side, view: seq<LevelView>, i: nat)
    requires c.Sound() && |view| == c.levelCount && Priced(c, view) && Levelled(cells, side, view) && i < |view|
    ensures forall p | p in Concat(view[..i]) :: p in cells && c.Better(cells[p].price, c.PriceAt(i))
    ensures forall p | p in Concat(view[i + 1..]) :: p in cells && c.Better(c.PriceAt(i), cells[p].price)
    ensures forall p | p in view[i].fifo :: p in cells && cells[p].price == c.PriceAt(i)
  {
    forall p | p in Concat(view[..i])
      ensures p in cells && c.Better(cells[p].price, c.PriceAt(i))
    {
      var j := InConcat(view[..i], p);
      assert LevelOk(view[j], Level(side, j), cells);
      Queued(cells, Level(side, j), view[j].price, view[j].fifo);
      PriceOrder(c, j, i);
      assert view[j].price == c.PriceAt(j);
    }
    forall p | p in Concat(view[i + 1..])
      ensures p in cells && c.Better(c.PriceAt(i), cells[p].price)
    {
      var d := InConcat(view[i + 1..], p);
      var j := i + 1 + d;
      assert LevelOk(view[j], Level(side, j), cells);
      Queued(cells, Level(side, j), view[j].price, view[j].fifo);
      PriceOrder(c, i, j);
      assert view[j].price == c.PriceAt(j);
    }
    assert LevelOk(view[i], Level(side, i), cells);
    Queued(cells, Level(side, i), view[i].price, view[i].fifo);
    assert view[i].price == c.PriceAt(i);
  }

  lemma SumAtParts(a: seq<Resting>, b: seq<Resting>, d: seq<Resting>, price: int)
    requires forall k | 0 <= k < |a| :: a[k].price != price
    requires forall k | 0 <= k < |d| :: d[k].price != price
    ensures SumAt(a + b + d, price) == SumAt(b, price)
  {
    SumAtConcat(a + b, d, price);
    SumAtConcat(a, b, price);
    SumAtNone(a, price);
    SumAtNone(d, price);
  }

  /** The list of a side splits around one level. */
  lemma ListParts(cells: map<Ptr, Order>, side: Side, view: seq<LevelView>, i: nat)
    requires Levelled(cells, side, view) && i < |view|
    ensures var a, b, d := Concat(view[..i]), view[i].fifo, Concat(view[i + 1..]);
      && (forall p | p in a + b + d :: p in cells)
      && (forall p | p in a :: p in cells) && (forall p | p in b :: p in cells) && (forall p | p in d :: p in cells)
      && ListOf(cells, side, view) == Resolve(cells, a) + Resolve(cells, b) + Resolve(cells, d)
  {
    var a, b, d := Concat(view[..i]), view[i].fifo, Concat(view[i + 1..]);
    ConcatAt(view, i);
    Listed(cells, side, view);
    assert forall p | p in a + b + d :: p in cells;
    assert forall p | p in a || p in b || p in d :: p in a + b + d;
    ResolveConcat(cells, a + b, d);
    ResolveConcat(cells, a, b);
  }

  lemma SumAtLevel(c: Config, cells: map<Ptr, Order>, side: Side, view: seq<LevelView>, i: nat)
    requires c.Sound() && |view| == c.levelCount && Priced(c, view) && Levelled(cells, side, view) && i < |view|
    ensures SumAt(ListOf(cells, side, view), c.PriceAt(i)) == Sum(cells, view[i].fifo)
  {
    ListParts(cells, side, view, i);
    PartPrices(c, cells, side, view, i);
    var a, b, d := Concat(view[..i]), view[i].fifo, Concat(view[i + 1..]);
    SumAtParts(Resolve(cells, a), Resolve(cells, b), Resolve(cells, d), c.PriceAt(i));
    SumAtAll(cells, b, c.PriceAt(i));
  }

  /** A level's aggregate is what rests at its price plus what completing fills left there. */
  lemma TotalIs(m: Market, v: View, drained: Ptr, side: Side, i: nat)
    requires Consistent(m, v, drained) && (side.Buy? || side.Sell?) && i < m.levelCount
    ensures LevelTotal(m, Abs(v), side, i) == v.Levels(side)[i].total
  {
    SumAtLevel(m.Ladder(side), v.cells, side, v.Levels(side), i);
    assert LevelOk(v.Levels(side)[i], Level(side, i), v.cells);
  }

  /** A level holds exactly the orders of the list at its price. */
  lemma CountAtLevel(c: Config, cells: map<Ptr, Order>, side: Side, view: seq<LevelView>, i: nat)
    requires c.Sound() && |view| == c.levelCount && Priced(c, view) && Levelled(cells, side, view) && i < |view|
    ensures CountAt(ListOf(cells, side, view), c.PriceAt(i)) == |view[i].fifo| == view[i].count
  {
    hide Linked, Owns, Sum, Priced, Config.Sound, Config.PriceAt;
    ListParts(cells, side, view, i);
    PartPrices(c, cells, side, view, i);
    var price := c.PriceAt(i);
    var a, b, d := Concat(view[..i]), view[i].fifo, Concat(view[i + 1..]);
    CountAtConcat(Resolve(cells, a) + Resolve(cells, b), Resolve(cells, d), price);
    CountAtConcat(Resolve(cells, a), Resolve(cells, b), price);
    CountAtUniform(Resolve(cells, a), price, false);
    CountAtUniform(Resolve(cells, b), price, true);
    CountAtUniform(Resolve(cells, d), price, false);
    assert LevelOk(view[i], Level(side, i), cells);
  }

  /** The walk over marked levels shows what a scan of the whole range would. */
  lemma {:induction false} DepthIs(m: Market, v: View, drained: Ptr, side: Side, i: nat)
    requires Consistent(m, v, drained) && (side.Buy? || side.Sell?) && i <= m.levelCount
    ensures var s := Indices(v.Occ(side), i, m.levelCount);
      && (forall k | 0 <= k < |s| :: s[k] < |v.Levels(side)|)
      && Depth(m, Abs(v), side, i) == ShownAll(v.Levels(side), s)
    decreases m.levelCount - i
  {
    hide LevelOk, Levelled, Occupied, Priced, Abs, Depth, ShownAll;
    if i < m.levelCount {
      var t := Indices(v.Occ(side), i + 1, m.levelCount);
      DepthIs(m, v, drained, side, i + 1);
      DepthStep(m, v, drained, side, i);
      if i in v.Occ(side) {
        assert Indices(v.Occ(side), i, m.levelCount) == [i] + t;
        ShownCons(v.Levels(side), i, t);
      } else {
        assert Indices(v.Occ(side), i, m.levelCount) == t;
      }
    } else {
      DepthEnd(m, Abs(v), v.Levels(side), side, i);
    }
  }

  lemma DepthEnd(m: Market, b: Book, view: seq<LevelView>, side: Side, i: nat)
    requires i >= m.levelCount
    ensures Depth(m, b, side, i) == ShownAll(view, [])
  {
  }

  lemma DepthStep(m: Market, v: View, drained: Ptr, side: Side, i: nat)
    requires Consistent(m, v, drained) && (side.Buy? || side.Sell?) && i < m.levelCount
    ensures Depth(m, Abs(v), side, i) ==
      if i in v.Occ(side) then [Shown(v.Levels(side)[i])] + Depth(m, Abs(v), side, i + 1)
      else Depth(m, Abs(v), side, i + 1)
  {
    hide LevelOk, Levelled;
    CountAtLevel(m.Ladder(side), v.cells, side, v.Levels(side), i);
    TotalIs(m, v, drained, side, i);
    PriceBounds(m.Ladder(side), i);
    assert v.Levels(side)[i].price == m.Ladder(side).PriceAt(i);
  }

  lemma {:induction false} NothingQueued(view: seq<LevelView>)
    requires forall i | 0 <= i < |view| :: view[i].fifo == []
    ensures Concat(view) == []
  {
    if view != [] { NothingQueued(view[1..]); }
  }

  /** The head of the best level is the head of the list; there is no best level when the list is empty. */
  lemma HeadIs(m: Market, v: View, drained: Ptr, side: Side, i: nat)
    requires Consistent(m, v, drained) && (side.Buy? || side.Sell?)
    requires i in v.Occ(side) && forall k | k in v.Occ(side) :: i <= k
    ensures i < |v.Levels(side)| && v.Levels(side)[i].head in v.cells && Abs(v).Orders(side) != []
    ensures var o := v.cells[v.Levels(side)[i].head];
      && Abs(v).Orders(side)[0] == ToResting(o) && o.level == Level(side, i) && o.side == side
      && o.price == v.Levels(side)[i].price
  {
    var view := v.Levels(side);
    ConcatAt(view, i);
    NothingQueued(view[..i]);
    assert LevelOk(view[i], Level(side, i), v.cells);
    Queued(v.cells, Level(side, i), view[i].price, view[i].fifo);
    assert view[i].head in view[i].fifo;
    assert Concat(view)[0] == view[i].head;
    assert Rests(m, v.cells[view[i].head]);
  }

  lemma EmptyIs(m: Market, v: View, drained: Ptr, side: Side)
    requires Consistent(m, v, drained) && (side.Buy? || side.Sell?) && v.Occ(side) == {}
    ensures Abs(v).Orders(side) == []
  {
    NothingQueued(v.Levels(side));
  }

  /** The order at p is the head of the best level i of a side. */
  ghost predicate Heads(m: Market, v: View, side: Side, i: nat, p: Ptr) {
    && i < |v.Levels(side)| && v.Levels(side)[i].head == p && p in v.cells
    && i in v.Occ(side) && forall k | k in v.Occ(side) :: i <= k
  }

  lemma HeadFacts(m: Market, v: View, side: Side, i: nat, p: Ptr)
    requires Consistent(m, v, Null) && !side.BadSide? && Heads(m, v, side, i, p)
    ensures p != Null && v.cells[p].side == side && v.cells[p].level == Level(side, i) && v.cells[p].remaining > 0
    ensures v.cells[p].price == m.Ladder(side).PriceAt(i)
    ensures Abs(v).Orders(side) != [] && Abs(v).Orders(side)[0] == ToResting(v.cells[p])
    ensures Find(Abs(v).Orders(Opposite(side)), v.cells[p].id) == |Abs(v).Orders(Opposite(side))|
  {
    hide LevelOk, Levelled, Occupied, Abs;
    HeadIs(m, v, Null, side, i);
    Found(m, v, Null, p);
    assert v.Levels(side)[i].price == m.Ladder(side).PriceAt(i);
  }
}
