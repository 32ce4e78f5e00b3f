/** The changes the book makes to its structures, each as one operation on the abstract book. */
module BookChanges {
  import opened Types
  import opened PriceLevel
  import opened PriceLadder
  import opened AbstractBook
  import opened BookState

  /** Everything outside one level of one side is as before. */
  ghost predicate Confined(m: Market, v: View, v': View, side: Side, i: nat) {
    && (side.Buy? || side.Sell?) && i < m.levelCount
    && |v.Levels(side)| == m.levelCount && |v'.Levels(side)| == m.levelCount
    && Elsewhere(v.cells, v'.cells, Level(side, i))
    && v'.Levels(side) == v.Levels(side)[i := v'.Levels(side)[i]]
    && v'.Levels(side)[i].price == v.Levels(side)[i].price
    && v'.Levels(Opposite(side)) == v.Levels(Opposite(side)) && v'.Occ(Opposite(side)) == v.Occ(Opposite(side))
    && v'.Occ(side) == (if v'.Levels(side)[i].fifo == [] then v.Occ(side) - {i} else v.Occ(side) + {i})
  }

  lemma PricedPut(c: Config, view: seq<LevelView>, i: nat, level: LevelView)
    requires Priced(c, view) && i < |view| && level.price == view[i].price
    ensures Priced(c, view[i := level])
  {
    assert view[i].price == c.PriceAt(i);
  }

  lemma OccupiedPut(view: seq<LevelView>, occ: set<nat>, i: nat, level: LevelView)
    requires Occupied(view, occ) && i < |view|
    ensures Occupied(view[i := level], if level.fifo == [] then occ - {i} else occ + {i})
  {
  }

  lemma ConfinedSide(m: Market, v: View, v': View, side: Side, i: nat)
    requires SideOk(m, v, side) && Confined(m, v, v', side, i)
    requires LevelOk(v'.Levels(side)[i], Level(side, i), v'.cells)
    ensures SideOk(m, v', side)
    ensures StaleIn(v'.cells, side, v'.Levels(side)) ==
            StaleIn(v.cells, side, v.Levels(side))[i := v'.Levels(side)[i].total - Sum(v'.cells,
                v'.Levels(side)[i].fifo)]
  {
    SideChanged(v.cells, v'.cells, side, v.Levels(side), i, v'.Levels(side)[i], v'.Levels(side));
    PricedPut(m.Ladder(side), v.Levels(side), i, v'.Levels(side)[i]);
    OccupiedPut(v.Levels(side), v.Occ(side), i, v'.Levels(side)[i]);
  }

  ghost predicate BothOk(m: Market, v: View) {
    SideOk(m, v, Buy) && SideOk(m, v, Sell)
  }

  /** How much the aggregate of a level exceeds what rests there. */
  ghost function Excess(v: View, side: Side, i: nat): (x: int)
    requires i < |v.Levels(side)|
    ensures Levelled(v.cells, side, v.Levels(side)) ==> x >= 0
  {
    assert Levelled(v.cells, side, v.Levels(side)) ==> LevelOk(v.Levels(side)[i], Level(side, i), v.cells);
    v.Levels(side)[i].total - Sum(v.cells, v.Levels(side)[i].fifo)
  }

  /** A confined change keeps both ladders sound, and touches only one list and one stale amount. */
  lemma ConfinedOk(m: Market, v: View, v': View, side: Side, i: nat)
    requires BothOk(m, v) && Confined(m, v, v', side, i)
    requires LevelOk(v'.Levels(side)[i], Level(side, i), v'.cells)
    ensures BothOk(m, v')
    ensures Abs(v') == Abs(v).With(side, Abs(v').Orders(side))
                             .WithStale(side, Abs(v).Stale(side)[i := Excess(v', side, i)])
  {
    hide LevelOk, Levelled, Elsewhere, Priced, Occupied, Sum, ListOf, StaleIn;
    ConfinedSide(m, v, v', side, i);
    SideSame(v.cells, v'.cells, Opposite(side), v.Levels(Opposite(side)), Level(side, i));
  }

  lemma StaleKept(v: View, side: Side, i: nat)
    requires Levelled(v.cells, side, v.Levels(side)) && i < |v.Levels(side)|
    ensures StaleIn(v.cells, side, v.Levels(side))[i := Excess(v, side, i)] == StaleIn(v.cells, side, v.Levels(side))
  {
    assert StaleIn(v.cells, side, v.Levels(side))[i] == Excess(v, side, i);
  }

  /** A confined change that keeps the stale amount of its level keeps them all. */
  lemma ConfinedStale(m: Market, v: View, v': View, side: Side, i: nat)
    requires BothOk(m, v) && Confined(m, v, v', side, i)
    requires LevelOk(v'.Levels(side)[i], Level(side, i), v'.cells) && Excess(v', side, i) == Excess(v, side, i)
    ensures BothOk(m, v')
    ensures Abs(v') == Abs(v).With(side, Abs(v').Orders(side))
  {
    StaleKept(v, side, i);
    ConfinedOk(m, v, v', side, i);
  }

  // ---- what the changes do to the list of one side ----------------------------------------

  /** Orders of other levels look the same after a confined change. */
  lemma PartsSame(before: map<Ptr, Order>, after: map<Ptr, Order>, side: Side, view: seq<LevelView>, i: nat)
    requires Levelled(before, side, view) && i < |view| && Elsewhere(before, after, Level(side, i))
    ensures var a, d := Concat(view[..i]), Concat(view[i + 1..]);
      && (forall p | p in a :: p in before && p in after) && (forall p | p in d :: p in before && p in after)
      && Resolve(after, a) == Resolve(before, a) && Resolve(after, d) == Resolve(before, d)
  {
    forall p | p in Concat(view[..i])
      ensures p in before && p in after && after[p] == before[p]
    {
      var j := InConcat(view[..i], p);
      assert LevelOk(view[j], Level(side, j), before);
      Queued(before, Level(side, j), view[j].price, view[j].fifo);
    }
    forall p | p in Concat(view[i + 1..])
      ensures p in before && p in after && after[p] == before[p]
    {
      var j := InConcat(view[i + 1..], p);
      assert LevelOk(view[i + 1 + j], Level(side, i + 1 + j), before);
      Queued(before, Level(side, i + 1 + j), view[i + 1 + j].price, view[i + 1 + j].fifo);
    }
  }

  /** The two lists of a confined change, split around the changed level. */
  lemma ListsAround(before: map<Ptr, Order>, after: map<Ptr, Order>, side: Side, view: seq<LevelView>,
                    view': seq<LevelView>, i: nat) returns (a: seq<Resting>, d: seq<Resting>)
    requires Levelled(before, side, view) && Levelled(after, side, view') && i < |view| == |view'|
    requires view' == view[i := view'[i]] && Elsewhere(before, after, Level(side, i))
    ensures (forall p | p in view[i].fifo :: p in before) && (forall p | p in view'[i].fifo :: p in after)
    ensures ListOf(before, side, view) == a + Resolve(before, view[i].fifo) + d
    ensures ListOf(after, side, view') == a + Resolve(after, view'[i].fifo) + d
    ensures forall p | p in Concat(view[..i]) :: p in before
    ensures forall p | p in Concat(view[i + 1..]) :: p in before
    ensures a == Resolve(before, Concat(view[..i])) && d == Resolve(before, Concat(view[i + 1..]))
  {
    PartsSame(before, after, side, view, i);
    ListParts(before, side, view, i);
    ListParts(after, side, view', i);
    assert view'[..i] == view[..i] && view'[i + 1..] == view[i + 1..];
    a, d := Resolve(before, Concat(view[..i])), Resolve(before, Concat(view[i + 1..]));
  }

  lemma InsertMiddle(side: Side, a: seq<Resting>, b: seq<Resting>, d: seq<Resting>, o: Resting)
    requires forall j | 0 <= j < |a| :: !Better(side, o.price, a[j].price)
    requires forall j | 0 <= j < |b| :: !Better(side, o.price, b[j].price)
    requires forall j | 0 <= j < |d| :: Better(side, o.price, d[j].price)
    ensures Insert(side, a + b + d, o) == a + (b + [o]) + d
  {
    InsertSplit(side, a + b, d, o.price);
    assert (a + b + d)[..|a + b|] == a + b && (a + b + d)[|a + b|..] == d;
    assert a + b + [o] + d == a + (b + [o]) + d;
  }

  lemma RemoveMiddle(a: seq<Resting>, b: seq<Resting>, d: seq<Resting>, k: nat, id: u64)
    requires k < |b| && Find(a + b + d, id) == |a| + k
    ensures Remove(a + b + d, id) == a + Without(b, k) + d
  {
    assert Without(a + b + d, |a| + k) == a + Without(b, k) + d;
  }

  lemma SetMiddle(a: seq<Resting>, b: seq<Resting>, d: seq<Resting>, k: nat, id: u64, quantity: u64)
    requires k < |b| && Find(a + b + d, id) == |a| + k
    ensures SetRemaining(a + b + d, id, quantity) == a + b[k := b[k].(remaining := quantity)] + d
  {
    assert (a + b + d)[|a| + k] == b[k];
  }

  /** Appending to a level is insertion in price-time order. */
  lemma ListAppend(c: Config, before: map<Ptr, Order>, after: map<Ptr, Order>, side: Side, view: seq<LevelView>,
                   view': seq<LevelView>, i: nat, p: Ptr)
    requires c.Sound() && c.descending == side.Buy? && |view| == c.levelCount && Priced(c, view)
    requires Levelled(before, side, view) && Levelled(after, side, view') && i < |view| == |view'|
    requires view' == view[i := view'[i]] && Elsewhere(before, after, Level(side, i))
    requires view'[i].fifo == view[i].fifo + [p] && p in after && after[p].price == c.PriceAt(i)
    requires forall q | q in view[i].fifo :: q in before && q in after && ToResting(after[q]) == ToResting(before[q])
    ensures ListOf(after, side, view') == Insert(side, ListOf(before, side, view), ToResting(after[p]))
  {
    var a, d := ListsAround(before, after, side, view, view', i);
    var b := Resolve(before, view[i].fifo);
    assert Resolve(after, view'[i].fifo) == b + [ToResting(after[p])];
    PartPrices(c, before, side, view, i);
    InsertMiddle(side, a, b, d, ToResting(after[p]));
  }

  lemma ResolveWithout(before: map<Ptr, Order>, after: map<Ptr, Order>, s: seq<Ptr>, k: nat)
    requires k < |s| && (forall p | p in s :: p in before)
    requires forall q | q in Without(s, k) :: q in before && q in after && ToResting(after[q]) == ToResting(before[q])
    ensures Resolve(after, Without(s, k)) == Without(Resolve(before, s), k)
  {
    var left := Without(s, k);
    forall j | 0 <= j < |left|
      ensures ToResting(after[left[j]]) == Without(Resolve(before, s), k)[j]
    {
      assert left[j] in left;
    }
  }

  /** Unlinking from a level is removal by id. */
  lemma ListUnlink(before: map<Ptr, Order>, after: map<Ptr, Order>, contents: map<u64, Ptr>, side: Side,
                   view: seq<LevelView>, view': seq<LevelView>, i: nat, p: Ptr)
    requires Levelled(before, side, view) && Levelled(after, side, view') && i < |view| == |view'|
    requires view' == view[i := view'[i]] && Elsewhere(before, after, Level(side, i)) && Indexed(before, contents)
    requires p in view[i].fifo && p in before && view'[i].fifo == Without(view[i].fifo, PosOf(view[i].fifo, p))
    requires forall q | q in view'[i].fifo :: q in before && q in after && ToResting(after[q]) == ToResting(before[q])
    ensures ListOf(after, side, view') == Remove(ListOf(before, side, view), before[p].id)
  {
    var a, d := ListsAround(before, after, side, view, view', i);
    var b, k := Resolve(before, view[i].fifo), PosOf(view[i].fifo, p);
    ResolveWithout(before, after, view[i].fifo, k);
    FoundOn(before, contents, side, view, i, p);
    RemoveMiddle(a, b, d, k, before[p].id);
  }

  /** Rewriting an order's remaining quantity is the update of its entry. */
  lemma ListSet(before: map<Ptr, Order>, after: map<Ptr, Order>, contents: map<u64, Ptr>, side: Side,
                view: seq<LevelView>, view': seq<LevelView>, i: nat, p: Ptr, quantity: u64)
    requires Levelled(before, side, view) && Levelled(after, side, view') && i < |view| == |view'|
    requires view' == view[i := view'[i]] && Elsewhere(before, after, Level(side, i)) && Indexed(before, contents)
    requires p in view[i].fifo && p in before && view'[i].fifo == view[i].fifo
    requires after == before[p := before[p].(remaining := quantity)]
    ensures ListOf(after, side, view') == SetRemaining(ListOf(before, side, view), before[p].id, quantity)
  {
    var a, d := ListsAround(before, after, side, view, view', i);
    var b, k := Resolve(before, view[i].fifo), PosOf(view[i].fifo, p);
    assert LevelOk(view[i], Level(side, i), before);
    assert Resolve(after, view'[i].fifo) == b[k := b[k].(remaining := quantity)];
    FoundOn(before, contents, side, view, i, p);
    SetMiddle(a, b, d, k, before[p].id, quantity);
  }

  // ---- insertion --------------------------------------------------------------------------

  /** An order that may be linked at index i of its side. */
  ghost predicate Linkable(m: Market, v: View, o: Order, p: Ptr, i: nat) {
    && p != Null && p !in v.cells && o.level == NoLevel && o.WellFormed() && o.kind.Limit? && o.remaining > 0
    && o.id !in v.contents && i < m.levelCount == |v.Levels(o.side)| && m.Ladder(o.side).PriceAt(i) == o.price
    && v.Levels(o.side)[i].total + o.remaining <= U64_MAX
    && (v.Levels(o.side)[i].tail != Null ==> v.Levels(o.side)[i].tail in v.cells)
  }

  /** An order of memory may be appended at index i of its side. */
  ghost predicate Attachable(v: View, p: Ptr, i: nat) {
    && p in v.cells && i < |v.Levels(v.cells[p].side)|
    && v.Levels(v.cells[p].side)[i].total + v.cells[p].remaining <= U64_MAX
    && (v.Levels(v.cells[p].side)[i].tail != Null ==> v.Levels(v.cells[p].side)[i].tail in v.cells)
  }

  ghost function AttachedView(v: View, p: Ptr, i: nat): View
    requires Attachable(v, p, i)
  {
    var o := v.cells[p];
    v.(cells := AppendCells(v.cells, Level(o.side, i), v.Levels(o.side)[i].tail, p))
     .Put(o.side, i, AppendView(v.Levels(o.side)[i], p, o.remaining))
     .Mark(o.side, v.Occ(o.side) + {i})
  }

  lemma AttachedPayload(v: View, p: Ptr, i: nat)
    requires Attachable(v, p, i)
    ensures p in AttachedView(v, p, i).cells && AttachedView(v, p, i).cells[p].Payload() == v.cells[p].Payload()
  {
  }

  ghost function Inserted(m: Market, v: View, o: Order, p: Ptr, i: nat): View
    requires Linkable(m, v, o, p, i)
  {
    AttachedView(v.(cells := v.cells[p := o]), p, i).(contents := v.contents[o.id := p])
  }

  /** A detached order in memory disturbs no level. */
  lemma FreshLevel(v: LevelView, self: LevelPtr, cells: map<Ptr, Order>, p: Ptr, o: Order)
    requires LevelOk(v, self, cells) && p != Null && p !in cells && o.level == NoLevel
    ensures LevelOk(v, self, cells[p := o]) && Sum(cells[p := o], v.fifo) == Sum(cells, v.fifo)
    ensures v.tail != Null ==> v.tail in cells && cells[v.tail].level == self
  {
    LevelElsewhere(v, self, cells, cells[p := o], NoLevel);
    Queued(cells, self, v.price, v.fifo);
  }

  lemma FreshLevels(cells: map<Ptr, Order>, side: Side, view: seq<LevelView>, p: Ptr, o: Order)
    requires Levelled(cells, side, view) && p != Null && p !in cells && o.level == NoLevel
    ensures Levelled(cells[p := o], side, view)
  {
    forall i: nat | i < |view|
      ensures LevelOk(view[i], Level(side, i), cells[p := o])
    {
      assert LevelOk(view[i], Level(side, i), cells);
      FreshLevel(view[i], Level(side, i), cells, p, o);
    }
  }

  /** Memory gained one linked order; the others kept all but their links. */
  ghost predicate Grown(before: map<Ptr, Order>, after: map<Ptr, Order>, p: Ptr, o: Order, here: LevelPtr) {
    && after.Keys == before.Keys + {p}
    && after[p].Payload() == o.Payload() && after[p].level == here
    && (forall q | q in before :: after[q].Payload() == before[q].Payload() && after[q].level == before[q].level)
  }

  lemma AppendGrows(cells: map<Ptr, Order>, here: LevelPtr, level: LevelView, p: Ptr, o: Order)
    requires LevelOk(level, here, cells) && p != Null && p !in cells && o.level == NoLevel
    requires o.price == level.price && level.total + o.remaining <= U64_MAX
    ensures level.tail != Null ==> level.tail in cells
    ensures var after := AppendCells(cells[p := o], here, level.tail, p);
      && LevelOk(AppendView(level, p, o.remaining), here, after)
      && Elsewhere(cells, after, here) && Grown(cells, after, p, o, here)
      && Sum(after, level.fifo + [p]) == Sum(cells, level.fifo) + o.remaining
  {
    hide Linked, Owns, Sum;
    FreshLevel(level, here, cells, p, o);
    AppendOk(level, here, cells[p := o], p);
    Queued(cells, here, level.price, level.fifo);
    AppendSum(cells[p := o], here, level.tail, level.fifo, p);
  }

  lemma HomedGrown(m: Market, before: map<Ptr, Order>, after: map<Ptr, Order>, p: Ptr, o: Order, i: nat)
    requires Homed(m, before, Null) && Grown(before, after, p, o, Level(o.side, i)) && i < m.levelCount
    requires o.WellFormed() && o.kind.Limit? && o.remaining > 0 && p != Null
    ensures Homed(m, after, Null)
  {
    forall q | q in after
      ensures q != Null && Rests(m, after[q]) && after[q].remaining > 0
    {
      if q == p {
        assert after[p].Payload() == o.Payload();
      } else {
        assert after[q].Payload() == before[q].Payload();
        assert Rests(m, before[q]);
      }
    }
  }

  lemma IndexedGrown(before: map<Ptr, Order>, after: map<Ptr, Order>, contents: map<u64, Ptr>, p: Ptr, o: Order,
                     here: LevelPtr)
    requires Indexed(before, contents) && Grown(before, after, p, o, here) && o.id !in contents && p !in before
    ensures Indexed(after, contents[o.id := p])
  {
    assert after[p].Payload().id == o.Payload().id;
    forall q | q in before
      ensures after[q].id == before[q].id
    {
      assert after[q].Payload() == before[q].Payload();
    }
  }

  lemma ListGrown(c: Config, before: map<Ptr, Order>, after: map<Ptr, Order>, side: Side, view: seq<LevelView>,
                  view': seq<LevelView>, i: nat, p: Ptr, o: Order)
    requires c.Sound() && c.descending == side.Buy? && |view| == c.levelCount && Priced(c, view)
    requires Levelled(before, side, view) && Levelled(after, side, view') && i < |view| == |view'|
    requires view' == view[i := view'[i]] && Elsewhere(before, after, Level(side, i))
    requires view'[i].fifo == view[i].fifo + [p] && Grown(before, after, p, o, Level(side, i)) &&
        o.price == c.PriceAt(i)
    ensures ListOf(after, side, view') == Insert(side, ListOf(before, side, view), ToResting(o))
  {
    assert LevelOk(view[i], Level(side, i), before);
    Queued(before, Level(side, i), view[i].price, view[i].fifo);
    assert ToResting(after[p]) == ToResting(after[p].Payload()) == ToResting(o.Payload());
    forall q | q in view[i].fifo
      ensures q in before && q in after && ToResting(after[q]) == ToResting(before[q])
    {
      assert after[q].Payload() == before[q].Payload();
    }
    ListAppend(c, before, after, side, view, view', i, p);
  }

  lemma InsertedConfined(m: Market, v: View, v': View, o: Order, p: Ptr, i: nat)
    requires SideOk(m, v, o.side) && Linkable(m, v, o, p, i) && v' == Inserted(m, v, o, p, i)
    ensures Confined(m, v, v', o.side, i) && LevelOk(v'.Levels(o.side)[i], Level(o.side, i), v'.cells)
    ensures Grown(v.cells, v'.cells, p, o, Level(o.side, i)) && Excess(v', o.side, i) == Excess(v, o.side, i)
    ensures v'.Levels(o.side)[i].fifo == v.Levels(o.side)[i].fifo + [p]
  {
    var side, level := o.side, v.Levels(o.side)[i];
    assert LevelOk(level, Level(side, i), v.cells);
    assert level.price == m.Ladder(side).PriceAt(i);
    AppendGrows(v.cells, Level(side, i), level, p, o);
  }

  lemma InsertedAbs(m: Market, v: View, v': View, o: Order, p: Ptr, i: nat)
    requires m.Ladder(o.side).Sound() && BothOk(m, v) && BothOk(m, v') && Confined(m, v, v', o.side, i)
    requires Grown(v.cells, v'.cells, p, o, Level(o.side, i)) && m.Ladder(o.side).PriceAt(i) == o.price
    requires v'.Levels(o.side)[i].fifo == v.Levels(o.side)[i].fifo + [p]
    requires Abs(v') == Abs(v).With(o.side, Abs(v').Orders(o.side))
    ensures Abs(v') == Add(Abs(v), o)
  {
    ListGrown(m.Ladder(o.side), v.cells, v'.cells, o.side, v.Levels(o.side), v'.Levels(o.side), i, p, o);
  }

  /** Linking a new order keeps the structures in agreement and is insertion in the abstract book. */
  lemma InsertedOk(m: Market, v: View, v': View, o: Order, p: Ptr, i: nat)
    requires Consistent(m, v, Null) && Linkable(m, v, o, p, i) && v' == Inserted(m, v, o, p, i)
    ensures Consistent(m, v', Null) && Abs(v') == Add(Abs(v), o)
  {
    InsertedConfined(m, v, v', o, p, i);
    ConfinedStale(m, v, v', o.side, i);
    InsertedAbs(m, v, v', o, p, i);
    HomedGrown(m, v.cells, v'.cells, p, o, i);
    IndexedGrown(v.cells, v'.cells, v.contents, p, o, Level(o.side, i));
  }

  // ---- removal ----------------------------------------------------------------------------

  /** Memory lost one order; the others kept all but their links. */
  ghost predicate Shrunk(before: map<Ptr, Order>, after: map<Ptr, Order>, p: Ptr) {
    && after.Keys == before.Keys - {p}
    && (forall q | q in after :: after[q].Payload() == before[q].Payload() && after[q].level == before[q].level)
  }

  lemma UnlinkShrinks(cells: map<Ptr, Order>, here: LevelPtr, level: LevelView, p: Ptr)
    requires LevelOk(level, here, cells) && p in level.fifo
    ensures p in cells && level.count > 0 && cells[p].remaining <= level.total
    ensures var after := UnlinkCells(cells, p) - {p};
      && LevelOk(UnlinkView(level, cells[p], PosOf(level.fifo, p)), here, after)
      && Elsewhere(cells, after, here) && Shrunk(cells, after, p)
      && Sum(after, Without(level.fifo, PosOf(level.fifo, p))) == Sum(cells, level.fifo) - cells[p].remaining
  {
    var k := PosOf(level.fifo, p);
    Queued(cells, here, level.price, level.fifo);
    UnlinkElsewhere(cells, here, level, k);
    UnlinkOk(level, here, cells, k);
    UnlinkSum(cells, level.fifo, k);
    hide Linked, Owns, UnlinkCells, Sum, Elsewhere, Shrunk;
    var mid := UnlinkCells(cells, p);
    DroppedElsewhere(cells, p);
    LevelElsewhere(UnlinkView(level, cells[p], k), here, mid, mid - {p}, NoLevel);
  }

  lemma DroppedElsewhere(cells: map<Ptr, Order>, p: Ptr)
    requires p in cells && Null !in cells
    ensures Elsewhere(UnlinkCells(cells, p), UnlinkCells(cells, p) - {p}, NoLevel)
  {
  }

  /** Unlinking and dropping an order changes no order of another level. */
  lemma UnlinkElsewhere(cells: map<Ptr, Order>, here: LevelPtr, level: LevelView, k: nat)
    requires LevelOk(level, here, cells) && k < |level.fifo| && level.fifo[k] in cells
    ensures var after := UnlinkCells(cells, level.fifo[k]) - {level.fifo[k]};
      Elsewhere(cells, after, here) && Shrunk(cells, after, level.fifo[k])
  {
    UnlinkRelinks(level, here, cells, k);
    Queued(cells, here, level.price, level.fifo);
  }

  /** The order at p stands in the queue of its level, inside its aggregate. */
  ghost predicate Held(m: Market, v: View, p: Ptr) {
    && p in v.cells && Rests(m, v.cells[p]) && |v.Levels(v.cells[p].side)| == m.levelCount
    && v.cells[p].level.index in v.Occ(v.cells[p].side)
    && var level := v.Levels(v.cells[p].side)[v.cells[p].level.index];
       && LevelOk(level, v.cells[p].level, v.cells)
       && p in level.fifo && level.count > 0 && v.cells[p].remaining <= level.total
  }

  /** Every order in memory is held by its level. */
  lemma AllHeld(m: Market, v: View, drained: Ptr, p: Ptr)
    requires Consistent(m, v, drained) && p in v.cells
    ensures Held(m, v, p)
  {
    var o := v.cells[p];
    assert Rests(m, o);
    assert LevelOk(v.Levels(o.side)[o.level.index], Level(o.side, o.level.index), v.cells);
    UnlinkShrinks(v.cells, o.level, v.Levels(o.side)[o.level.index], p);
  }

  /** The order at p unlinked from its level, but still alive and indexed. */
  ghost function DetachedView(m: Market, v: View, p: Ptr): View
    requires Held(m, v, p)
  {
    var o, side, i := v.cells[p], v.cells[p].side, v.cells[p].level.index;
    var level := UnlinkView(v.Levels(side)[i], o, PosOf(v.Levels(side)[i].fifo, p));
    v.(cells := UnlinkCells(v.cells, p)).Put(side, i, level)
     .Mark(side, if level.fifo == [] then v.Occ(side) - {i} else v.Occ(side))
  }

  lemma DetachedCell(m: Market, v: View, p: Ptr)
    requires Held(m, v, p)
    ensures p in DetachedView(m, v, p).cells && DetachedView(m, v, p).cells[p].id == v.cells[p].id
    ensures DetachedView(m, v, p).cells.Keys == v.cells.Keys && DetachedView(m, v, p).contents == v.contents
    ensures RemovedView(m, v, p) ==
      DetachedView(m, v, p).(cells := DetachedView(m, v, p).cells - {p}, contents := v.contents - {v.cells[p].id})
  {
    hide LevelOk, UnlinkView;
  }

  ghost function RemovedView(m: Market, v: View, p: Ptr): View
    requires Held(m, v, p)
  {
    DetachedView(m, v, p).(cells := UnlinkCells(v.cells, p) - {p}, contents := v.contents - {v.cells[p].id})
  }

  lemma RemovedConfined(m: Market, v: View, v': View, p: Ptr)
    requires Held(m, v, p) && v' == RemovedView(m, v, p)
    ensures var side, i := v.cells[p].side, v.cells[p].level.index;
      && (side.Buy? || side.Sell?)
      && Confined(m, v, v', side, i) && LevelOk(v'.Levels(side)[i], Level(side, i), v'.cells)
      && Shrunk(v.cells, v'.cells, p) && Excess(v', side, i) == Excess(v, side, i)
      && p in v.Levels(side)[i].fifo
      && v'.Levels(side)[i].fifo == Without(v.Levels(side)[i].fifo, PosOf(v.Levels(side)[i].fifo, p))
  {
    hide LevelOk, UnlinkCells, Elsewhere, Shrunk, Sum;
    UnlinkShrinks(v.cells, v.cells[p].level, v.Levels(v.cells[p].side)[v.cells[p].level.index], p);
  }

  lemma ShrunkRest(m: Market, before: map<Ptr, Order>, after: map<Ptr, Order>, contents: map<u64, Ptr>, p: Ptr)
    requires Homed(m, before, p) && Indexed(before, contents) && p in before && Shrunk(before, after, p)
    ensures Homed(m, after, Null) && Indexed(after, contents - {before[p].id})
  {
    forall q | q in after
      ensures q != Null && Rests(m, after[q]) && after[q].remaining > 0 && after[q].id == before[q].id
    {
      assert after[q].Payload() == before[q].Payload();
      assert Rests(m, before[q]);
    }
  }

  lemma ListShrunk(before: map<Ptr, Order>, after: map<Ptr, Order>, contents: map<u64, Ptr>, side: Side,
                   view: seq<LevelView>, view': seq<LevelView>, i: nat, p: Ptr)
    requires Levelled(before, side, view) && Levelled(after, side, view') && i < |view| == |view'|
    requires view' == view[i := view'[i]] && Elsewhere(before, after, Level(side, i)) && Indexed(before, contents)
    requires p in view[i].fifo && p in before && view'[i].fifo == Without(view[i].fifo, PosOf(view[i].fifo, p))
    requires Shrunk(before, after, p)
    ensures ListOf(after, side, view') == Remove(ListOf(before, side, view), before[p].id)
  {
    assert LevelOk(view'[i], Level(side, i), after);
    Queued(after, Level(side, i), view'[i].price, view'[i].fifo);
    forall q | q in view'[i].fifo
      ensures q in before && q in after && ToResting(after[q]) == ToResting(before[q])
    {
      assert after[q].Payload() == before[q].Payload();
    }
    ListUnlink(before, after, contents, side, view, view', i, p);
  }

  /** Removing an order keeps the structures in agreement and is removal by id in the abstract book. */
  lemma RemovedOk(m: Market, v: View, v': View, p: Ptr)
    requires Consistent(m, v, p) && Held(m, v, p) && v' == RemovedView(m, v, p)
    ensures Consistent(m, v', Null) && Abs(v') == CancelIn(Abs(v), v.cells[p].id)
    ensures v'.cells.Keys == v.cells.Keys - {p}
  {
    var side, i := v.cells[p].side, v.cells[p].level.index;
    RemovedConfined(m, v, v', p);
    ConfinedStale(m, v, v', side, i);
    ShrunkRest(m, v.cells, v'.cells, v.contents, p);
    ListShrunk(v.cells, v'.cells, v.contents, side, v.Levels(side), v'.Levels(side), i, p);
    NotFoundOn(v.cells, v.contents, Opposite(side), v.Levels(Opposite(side)), p);
  }

  // ---- quantities -------------------------------------------------------------------------

  lemma {:induction false} SumSet(cells: map<Ptr, Order>, s: seq<Ptr>, p: Ptr, quantity: u64)
    requires p in cells && Distinct(s)
    ensures Sum(cells[p := cells[p].(remaining := quantity)], s) ==
            Sum(cells, s) + if p in s then quantity - cells[p].remaining else 0
  {
    if s != [] {
      SumSet(cells, s[1..], p, quantity);
      assert s == [s[0]] + s[1..];
      assert s[0] !in s[1..];
    }
  }

  ghost function SetView(m: Market, v: View, p: Ptr, quantity: u64, total: u64): View
    requires Held(m, v, p)
  {
    var o := v.cells[p];
    v.(cells := v.cells[p := o.(remaining := quantity)])
     .Put(o.side, o.level.index, v.Levels(o.side)[o.level.index].(total := total))
  }

  lemma SetLevel(cells: map<Ptr, Order>, here: LevelPtr, level: LevelView, p: Ptr, quantity: u64, total: u64)
    requires LevelOk(level, here, cells) && p in level.fifo && p in cells
    requires Sum(cells, level.fifo) - cells[p].remaining + quantity <= total
    ensures var after := cells[p := cells[p].(remaining := quantity)];
      && LevelOk(level.(total := total), here, after) && Elsewhere(cells, after, here)
      && Sum(after, level.fifo) == Sum(cells, level.fifo) - cells[p].remaining + quantity
  {
    var after := cells[p := cells[p].(remaining := quantity)];
    Queued(cells, here, level.price, level.fifo);
    SumSet(cells, level.fifo, p, quantity);
    forall k | 0 <= k < |level.fifo|
      ensures LinkedAt(after, here, level.price, level.fifo, k)
    {
      assert LinkedAt(cells, here, level.price, level.fifo, k);
    }
  }

  lemma SetConfined(m: Market, v: View, v': View, p: Ptr, quantity: u64, total: u64)
    requires Held(m, v, p) && v' == SetView(m, v, p, quantity, total)
    requires var o := v.cells[p]; var level := v.Levels(o.side)[o.level.index];
      Sum(v.cells, level.fifo) - o.remaining + quantity <= total
    ensures var o := v.cells[p]; var side, i := o.side, o.level.index;
      && (side.Buy? || side.Sell?)
      && Confined(m, v, v', side, i) && LevelOk(v'.Levels(side)[i], Level(side, i), v'.cells)
      && Excess(v', side, i) == total - Sum(v.cells, v.Levels(side)[i].fifo) + o.remaining - quantity
  {
    var o := v.cells[p];
    SetLevel(v.cells, o.level, v.Levels(o.side)[o.level.index], p, quantity, total);
  }

  lemma SetAbs(m: Market, v: View, v': View, p: Ptr, quantity: u64, i: nat, side: Side)
    requires BothOk(m, v) && BothOk(m, v') && Confined(m, v, v', side, i) && Indexed(v.cells, v.contents)
    requires p in v.cells && v.cells[p].level == Level(side, i) && p in v.Levels(side)[i].fifo
    requires v'.cells == v.cells[p := v.cells[p].(remaining := quantity)]
    requires v'.Levels(side)[i].fifo == v.Levels(side)[i].fifo
    ensures Abs(v').Orders(side) == ReduceIn(Abs(v), v.cells[p].id, quantity).Orders(side)
    ensures Abs(v).Orders(Opposite(side)) == ReduceIn(Abs(v), v.cells[p].id, quantity).Orders(Opposite(side))
  {
    hide LevelOk, Levelled, Elsewhere, Priced, Occupied, ListOf, StaleIn;
    ListSet(v.cells, v'.cells, v.contents, side, v.Levels(side), v'.Levels(side), i, p, quantity);
    NotFoundOn(v.cells, v.contents, Opposite(side), v.Levels(Opposite(side)), p);
  }

  /**
   * Rewriting a resting order's quantity and its level's aggregate updates its entry in the abstract
   * book; the stale amount is whatever the aggregate then exceeds the sum by.
   */
  lemma SetOk(m: Market, v: View, v': View, p: Ptr, quantity: u64, total: u64)
    requires Consistent(m, v, Null) && Held(m, v, p) && v' == SetView(m, v, p, quantity, total)
    requires quantity <= v.cells[p].remaining
    requires var o := v.cells[p]; var level := v.Levels(o.side)[o.level.index];
      Sum(v.cells, level.fifo) - o.remaining + quantity <= total
    ensures Consistent(m, v', if quantity == 0 then p else Null)
    ensures var o := v.cells[p]; var side, i := o.side, o.level.index;
      && i < |Abs(v).Stale(side)| == |v'.Levels(side)|
      && Excess(v', side, i) == Excess(v, side, i) + total - v.Levels(side)[i].total + o.remaining - quantity
      && Abs(v') == ReduceIn(Abs(v), o.id, quantity).WithStale(side, Abs(v).Stale(side)[i := Excess(v', side, i)])
  {
    var o := v.cells[p];
    SetConfined(m, v, v', p, quantity, total);
    ConfinedOk(m, v, v', o.side, o.level.index);
    SetAbs(m, v, v', p, quantity, o.level.index, o.side);
    SetRest(m, v.cells, v.contents, p, quantity);
  }

  lemma SetRest(m: Market, cells: map<Ptr, Order>, contents: map<u64, Ptr>, p: Ptr, quantity: u64)
    requires Homed(m, cells, Null) && Indexed(cells, contents) && p in cells && quantity <= cells[p].remaining
    ensures var after := cells[p := cells[p].(remaining := quantity)];
      Homed(m, after, if quantity == 0 then p else Null) && Indexed(after, contents)
  {
    var after := cells[p := cells[p].(remaining := quantity)];
    forall q | q in after
      ensures q != Null && Rests(m, after[q])
    {
      assert Rests(m, cells[q]);
    }
  }

  /** Taking the same amount off an order and off its level's aggregate leaves no stale amount behind. */
  lemma ShrinkOk(m: Market, v: View, v': View, p: Ptr, quantity: u64)
    requires Consistent(m, v, Null) && Held(m, v, p) && quantity <= v.cells[p].remaining
    requires var o := v.cells[p];
      v' == SetView(m, v, p, quantity, v.Levels(o.side)[o.level.index].total - (o.remaining - quantity))
    ensures Consistent(m, v', if quantity == 0 then p else Null) && Abs(v') == ReduceIn(Abs(v), v.cells[p].id, quantity)
  {
    hide LevelOk, Levelled;
    var o := v.cells[p];
    var side, i := o.side, o.level.index;
    HeldSum(m, v, p);
    SetOk(m, v, v', p, quantity, v.Levels(side)[i].total - (o.remaining - quantity));
    StaleKept(v, side, i);
  }

  lemma HeldSum(m: Market, v: View, p: Ptr)
    requires Held(m, v, p)
    ensures var o := v.cells[p]; var level := v.Levels(o.side)[o.level.index];
      o.remaining <= Sum(v.cells, level.fifo) <= level.total
  {
    var o := v.cells[p];
    var level := v.Levels(o.side)[o.level.index];
    Queued(v.cells, o.level, level.price, level.fifo);
    SumSplit(v.cells, level.fifo, PosOf(level.fifo, p));
  }

  /** The memory of a view with one remaining quantity rewritten. */
  ghost function Rewritten(v: View, p: Ptr, quantity: u64): View
    requires p in v.cells
  {
    v.(cells := v.cells[p := v.cells[p].(remaining := quantity)])
  }

  /** The aggregate of a held order's level covers anything that may be taken off the order. */
  lemma Covered(m: Market, v: View, p: Ptr, quantity: u64)
    requires Held(m, v, p) && quantity <= v.cells[p].remaining
    ensures var v1, o := Rewritten(v, p, quantity), v.cells[p];
      && p in v1.cells && Rests(m, v1.cells[p]) && v1.cells[p].level == o.level && v1.cells[p].side == o.side
      && v1.cells.Keys == v.cells.Keys
      && o.remaining - quantity <= v1.Levels(o.side)[o.level.index].total
  {
    hide LevelOk;
    HeldSum(m, v, p);
  }

  lemma SetViewIs(m: Market, v: View, p: Ptr, quantity: u64, total: u64)
    requires Held(m, v, p)
    ensures var o := v.cells[p];
      SetView(m, v, p, quantity, total) ==
      Rewritten(v, p, quantity).Put(o.side, o.level.index, v.Levels(o.side)[o.level.index].(total := total))
  {
    hide LevelOk;
  }

  lemma DrainIs(m: Market, v: View, p: Ptr)
    requires Held(m, v, p)
    ensures SetView(m, v, p, 0, v.Levels(v.cells[p].side)[v.cells[p].level.index].total) == Rewritten(v, p, 0)
  {
    hide LevelOk;
    var side, i := v.cells[p].side, v.cells[p].level.index;
    SetViewIs(m, v, p, 0, v.Levels(side)[i].total);
    assert v.Levels(side)[i := v.Levels(side)[i].(total := v.Levels(side)[i].total)] == v.Levels(side);
  }

  lemma StaleAt(v: View, side: Side, i: nat)
    requires Levelled(v.cells, side, v.Levels(side)) && i < |v.Levels(side)|
    ensures StaleIn(v.cells, side, v.Levels(side))[i] == Excess(v, side, i)
  {
  }

  /** Draining an order without touching the aggregate leaves its last slice behind as stale amount. */
  lemma DrainOk(m: Market, v: View, v': View, p: Ptr)
    requires Consistent(m, v, Null) && Held(m, v, p) && v' == Rewritten(v, p, 0)
    ensures Consistent(m, v', p)
    ensures var o := v.cells[p]; var side, i := o.side, o.level.index;
      && i < |Abs(v).Stale(side)|
      && Abs(v') == ReduceIn(Abs(v), o.id, 0).WithStale(side, Abs(v).Stale(side)[i := Abs(v).Stale(side)[i] +
          o.remaining])
  {
    hide LevelOk, Levelled, Occupied, Priced, SetView, ReduceIn, Homed, Indexed, Market.Sound;
    var o := v.cells[p];
    var side, i := o.side, o.level.index;
    HeldSum(m, v, p);
    DrainIs(m, v, p);
    SetOk(m, v, v', p, 0, v.Levels(side)[i].total);
    StaleAt(v, side, i);
  }


  /**
   * The repaired order of operations: were the aggregate reduced on full fills too, before the order is
   * removed, no stale amount would ever arise.
   */
  lemma RepairedFill(m: Market, v: View, drained: View, v': View, p: Ptr)
    requires Consistent(m, v, Null) && Held(m, v, p)
    requires var o := v.cells[p];
      drained == SetView(m, v, p, 0, v.Levels(o.side)[o.level.index].total - o.remaining)
    requires Held(m, drained, p) && v' == RemovedView(m, drained, p)
    ensures Consistent(m, v', Null)
    ensures Abs(v').staleBids == Abs(v).staleBids && Abs(v').staleAsks == Abs(v).staleAsks
    ensures Abs(v') == CancelIn(ReduceIn(Abs(v), v.cells[p].id, 0), v.cells[p].id)
  {
    hide LevelOk, Levelled, Occupied, Priced, RemovedView;
    ShrinkOk(m, v, drained, p, 0);
    RemovedOk(m, drained, v', p);
  }
}
