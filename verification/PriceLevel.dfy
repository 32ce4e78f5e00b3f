/**
 * One price: an intrusive doubly linked FIFO of orders with an aggregate quantity. The links live
 * in the orders, so every operation also rewrites order memory.
 */
module PriceLevel {
  import opened Types

  /** A level as a value, with the queue its links stand for. */
  datatype LevelView = LevelView(price: u64, head: Ptr, tail: Ptr, count: nat, total: u64, fifo: seq<Ptr>)

  ghost predicate Distinct(s: seq<Ptr>) {
    forall i, j | 0 <= i < j < |s| :: s[i] != s[j]
  }

  /** The element at position k of the queue, null on either side of it. */
  ghost function Elem(s: seq<Ptr>, k: int): Ptr {
    if 0 <= k < |s| then s[k] else Null
  }

  /** The order at position k carries the links, the level pointer and the price of its place. */
  ghost predicate LinkedAt(cells: map<Ptr, Order>, self: LevelPtr, price: u64, fifo: seq<Ptr>, k: nat)
    requires k < |fifo|
  {
    && fifo[k] != Null && fifo[k] in cells
    && cells[fifo[k]].next == Elem(fifo, k + 1)
    && cells[fifo[k]].prev == Elem(fifo, k - 1)
    && cells[fifo[k]].level == self
    && cells[fifo[k]].price == price
  }

  ghost predicate Linked(cells: map<Ptr, Order>, self: LevelPtr, price: u64, fifo: seq<Ptr>) {
    Distinct(fifo) && forall k | 0 <= k < |fifo| :: LinkedAt(cells, self, price, fifo, k)
  }

  /** Only the queued orders point at this level. */
  ghost predicate Owns(cells: map<Ptr, Order>, self: LevelPtr, fifo: seq<Ptr>) {
    forall p | p in cells && cells[p].level == self :: p in fifo
  }

  ghost function Sum(cells: map<Ptr, Order>, fifo: seq<Ptr>): nat {
    if fifo == [] then 0
    else (if fifo[0] in cells then cells[fifo[0]].remaining else 0) + Sum(cells, fifo[1..])
  }

  ghost predicate LevelOk(v: LevelView, self: LevelPtr, cells: map<Ptr, Order>) {
    && self.Level? && Null !in cells
    && Linked(cells, self, v.price, v.fifo) && Owns(cells, self, v.fifo)
    && v.head == Elem(v.fifo, 0) && v.tail == Elem(v.fifo, |v.fifo| - 1) && v.count == |v.fifo|
    && Sum(cells, v.fifo) <= v.total
  }

  /** Memory changed only in the links of the given orders. */
  ghost predicate Relinked(before: map<Ptr, Order>, after: map<Ptr, Order>, touched: set<Ptr>) {
    && after.Keys == before.Keys
    && (forall p | p in before :: after[p].Payload() == before[p].Payload())
    && (forall p | p in before && p !in touched :: after[p] == before[p])
  }

  // ---- sums -------------------------------------------------------------------------------

  lemma {:induction false} SumSame(a: map<Ptr, Order>, b: map<Ptr, Order>, fifo: seq<Ptr>)
    requires forall p | p in fifo :: p in a && p in b && a[p].remaining == b[p].remaining
    ensures Sum(a, fifo) == Sum(b, fifo)
  {
    if fifo != [] {
      SumSame(a, b, fifo[1..]);
    }
  }

  lemma {:induction false} SumConcat(cells: map<Ptr, Order>, s: seq<Ptr>, t: seq<Ptr>)
    ensures Sum(cells, s + t) == Sum(cells, s) + Sum(cells, t)
  {
    if s == [] {
      assert s + t == t;
    } else {
      assert (s + t)[1..] == s[1..] + t;
      SumConcat(cells, s[1..], t);
    }
  }

  lemma SumOne(cells: map<Ptr, Order>, p: Ptr)
    requires p in cells
    ensures Sum(cells, [p]) == cells[p].remaining
  {
    assert [p][1..] == [];
  }

  /** The sum splits around any position. */
  lemma SumSplit(cells: map<Ptr, Order>, s: seq<Ptr>, k: nat)
    requires k < |s| && s[k] in cells
    ensures Sum(cells, s) == Sum(cells, s[..k]) + cells[s[k]].remaining + Sum(cells, s[k + 1..])
    ensures Sum(cells, Without(s, k)) == Sum(cells, s) - cells[s[k]].remaining
  {
    assert s == s[..k] + [s[k]] + s[k + 1..];
    SumConcat(cells, s[..k] + [s[k]], s[k + 1..]);
    SumConcat(cells, s[..k], [s[k]]);
    SumOne(cells, s[k]);
    SumConcat(cells, s[..k], s[k + 1..]);
  }

  function Without<T>(s: seq<T>, k: nat): seq<T>
    requires k < |s|
  {
    s[..k] + s[k + 1..]
  }

  // ---- what the operations do to a level and to order memory -------------------------------

  ghost function AppendCells(cells: map<Ptr, Order>, self: LevelPtr, tail: Ptr, p: Ptr): map<Ptr, Order>
    requires p in cells && (tail != Null ==> tail in cells)
  {
    var linked := cells[p := cells[p].(prev := tail, next := Null, level := self)];
    if tail == Null then linked else linked[tail := linked[tail].(next := p)]
  }

  ghost function AppendView(v: LevelView, p: Ptr, remaining: u64): LevelView
    requires v.total + remaining <= U64_MAX
  {
    LevelView(v.price, if v.tail == Null then p else v.head, p, v.count + 1, v.total + remaining, v.fifo + [p])
  }

  ghost function UnlinkCells(cells: map<Ptr, Order>, p: Ptr): map<Ptr, Order>
    requires p in cells
  {
    map q | q in cells ::
      if q == p then cells[p].Payload()
      else cells[q].(next := if q == cells[p].prev then cells[p].next else cells[q].next,
                     prev := if q == cells[p].next then cells[p].prev else cells[q].prev)
  }

  ghost function UnlinkView(v: LevelView, o: Order, m: nat): LevelView
    requires m < |v.fifo| && v.count > 0 && o.remaining <= v.total
  {
    LevelView(v.price, if o.prev == Null then o.next else v.head, if o.next == Null then o.prev else v.tail,
              v.count - 1, v.total - o.remaining, Without(v.fifo, m))
  }

  ghost function PosOf(s: seq<Ptr>, p: Ptr): (k: nat)
    requires p in s
    ensures k < |s| && s[k] == p
  {
    if s[0] == p then 0 else 1 + PosOf(s[1..], p)
  }

  /** The queued orders are alive and point at this level. */
  lemma Queued(cells: map<Ptr, Order>, self: LevelPtr, price: u64, fifo: seq<Ptr>)
    requires Linked(cells, self, price, fifo)
    ensures forall q | q in fifo :: q != Null && q in cells && cells[q].level == self && cells[q].price == price
  {
    forall q | q in fifo
      ensures q != Null && q in cells && cells[q].level == self && cells[q].price == price
    {
      assert LinkedAt(cells, self, price, fifo, PosOf(fifo, q));
    }
  }

  /** Linking a detached order behind the tail appends it to the queue. */
  lemma AppendLinks(cells: map<Ptr, Order>, self: LevelPtr, price: u64, fifo: seq<Ptr>, p: Ptr)
    requires Linked(cells, self, price, fifo) && Owns(cells, self, fifo)
    requires p != Null && p in cells && cells[p].level == NoLevel != self && cells[p].price == price
    ensures var tail := Elem(fifo, |fifo| - 1);
      && (tail != Null ==> tail in cells)
      && var after := AppendCells(cells, self, tail, p);
         && Linked(after, self, price, fifo + [p]) && Owns(after, self, fifo + [p])
         && Relinked(cells, after, {p, tail})
  {
    var tail, n := Elem(fifo, |fifo| - 1), |fifo|;
    Queued(cells, self, price, fifo);
    var after := AppendCells(cells, self, tail, p);
    forall k | 0 <= k < n + 1
      ensures LinkedAt(after, self, price, fifo + [p], k)
    {
      if k < n {
        assert LinkedAt(cells, self, price, fifo, k);
        assert (fifo + [p])[k] == fifo[k];
      }
    }
  }

  /** What appending does to the sum. */
  lemma AppendSum(cells: map<Ptr, Order>, self: LevelPtr, tail: Ptr, fifo: seq<Ptr>, p: Ptr)
    requires p in cells && (tail != Null ==> tail in cells) && (forall q | q in fifo :: q in cells)
    ensures Sum(AppendCells(cells, self, tail, p), fifo + [p]) == Sum(cells, fifo) + cells[p].remaining
  {
    var after := AppendCells(cells, self, tail, p);
    SumConcat(after, fifo, [p]);
    SumSame(after, cells, fifo);
    SumOne(after, p);
  }

  /** Appending keeps the level sound, and touches only the links of the new and the old tail. */
  lemma AppendOk(v: LevelView, self: LevelPtr, cells: map<Ptr, Order>, p: Ptr)
    requires LevelOk(v, self, cells) && p != Null && p in cells && cells[p].level == NoLevel
    requires cells[p].price == v.price && v.total + cells[p].remaining <= U64_MAX
    ensures v.tail != Null ==> v.tail in cells
    ensures LevelOk(AppendView(v, p, cells[p].remaining), self, AppendCells(cells, self, v.tail, p))
    ensures Relinked(cells, AppendCells(cells, self, v.tail, p), {p, v.tail})
  {
    hide Linked, Owns, Sum, AppendCells, Relinked;
    Queued(cells, self, v.price, v.fifo);
    assert v.fifo != [] ==> v.tail in v.fifo;
    AppendLinks(cells, self, v.price, v.fifo, p);
    AppendSum(cells, self, v.tail, v.fifo, p);
  }

  /** Bypassing a queued order removes exactly that position from the queue. */
  lemma UnlinkLinks(cells: map<Ptr, Order>, self: LevelPtr, price: u64, fifo: seq<Ptr>, m: nat)
    requires Linked(cells, self, price, fifo) && m < |fifo| && fifo[m] in cells
    ensures Linked(UnlinkCells(cells, fifo[m]), self, price, Without(fifo, m))
  {
    var p := fifo[m];
    assert LinkedAt(cells, self, price, fifo, m);
    var after, left := UnlinkCells(cells, p), Without(fifo, m);
    forall k | 0 <= k < |left|
      ensures LinkedAt(after, self, price, left, k)
    {
      var j := if k < m then k else k + 1;
      assert left[k] == fifo[j];
      assert LinkedAt(cells, self, price, fifo, j);
      assert Elem(left, k + 1) == if j + 1 == m then Elem(fifo, m + 1) else Elem(fifo, j + 1);
      assert Elem(left, k - 1) == if j - 1 == m then Elem(fifo, m - 1) else Elem(fifo, j - 1);
    }
  }

  lemma UnlinkOwns(cells: map<Ptr, Order>, self: LevelPtr, fifo: seq<Ptr>, m: nat)
    requires Owns(cells, self, fifo) && m < |fifo| && fifo[m] in cells && self != NoLevel
    ensures Owns(UnlinkCells(cells, fifo[m]), self, Without(fifo, m))
  {
    var left := Without(fifo, m);
    forall q | q in cells && q != fifo[m] && cells[q].level == self
      ensures q in left
    {
      var k := PosOf(fifo, q);
      assert left[if k < m then k else k - 1] == q;
    }
  }

  lemma UnlinkSum(cells: map<Ptr, Order>, fifo: seq<Ptr>, m: nat)
    requires m < |fifo| && (forall q | q in fifo :: q in cells)
    ensures Sum(cells, fifo) == Sum(UnlinkCells(cells, fifo[m]), Without(fifo, m)) + cells[fifo[m]].remaining
  {
    SumSplit(cells, fifo, m);
    SumSame(cells, UnlinkCells(cells, fifo[m]), Without(fifo, m));
  }

  /** Unlinking keeps the level sound, and touches only the links of the order and its neighbours. */
  lemma UnlinkOk(v: LevelView, self: LevelPtr, cells: map<Ptr, Order>, m: nat)
    requires LevelOk(v, self, cells) && m < |v.fifo|
    ensures v.fifo[m] in cells && v.count > 0 && cells[v.fifo[m]].remaining <= v.total
    ensures LevelOk(UnlinkView(v, cells[v.fifo[m]], m), self, UnlinkCells(cells, v.fifo[m]))
  {
    hide Linked, Owns, Sum;
    Queued(cells, self, v.price, v.fifo);
    LinksOf(cells, self, v.price, v.fifo, m);
    UnlinkLinks(cells, self, v.price, v.fifo, m);
    UnlinkOwns(cells, self, v.fifo, m);
    UnlinkSum(cells, v.fifo, m);
  }

  /** The links of an order lead to its neighbours in the sequence. */
  lemma LinksOf(cells: map<Ptr, Order>, self: LevelPtr, price: u64, fifo: seq<Ptr>, m: nat)
    requires Linked(cells, self, price, fifo) && m < |fifo|
    ensures fifo[m] in cells
    ensures cells[fifo[m]].prev == Elem(fifo, m - 1) && cells[fifo[m]].next == Elem(fifo, m + 1)
    ensures m > 0 ==> Elem(fifo, m - 1) != Null
    ensures m + 1 < |fifo| ==> Elem(fifo, m + 1) != Null
  {
    assert LinkedAt(cells, self, price, fifo, m);
    if m > 0 { assert LinkedAt(cells, self, price, fifo, m - 1); }
    if m + 1 < |fifo| { assert LinkedAt(cells, self, price, fifo, m + 1); }
  }

  lemma UnlinkRelinks(v: LevelView, self: LevelPtr, cells: map<Ptr, Order>, m: nat)
    requires LevelOk(v, self, cells) && m < |v.fifo| && v.fifo[m] in cells
    ensures Relinked(cells, UnlinkCells(cells, v.fifo[m]), set q | q in v.fifo)
  {
    Neighbours(cells, self, v.price, v.fifo, m);
  }

  lemma Neighbours(cells: map<Ptr, Order>, self: LevelPtr, price: u64, fifo: seq<Ptr>, m: nat)
    requires Linked(cells, self, price, fifo) && m < |fifo|
    ensures fifo[m] in cells
    ensures var o := cells[fifo[m]];
      && (o.prev != Null ==> o.prev in cells && o.prev in fifo && o.prev != fifo[m])
      && (o.next != Null ==> o.next in cells && o.next in fifo && o.next != fifo[m])
  {
    Queued(cells, self, price, fifo);
    assert LinkedAt(cells, self, price, fifo, m);
  }

  /** The three stores of an unlink, taken together. */
  lemma UnlinkSteps(cells: map<Ptr, Order>, p: Ptr)
    requires p in cells && Null !in cells
    requires cells[p].prev != Null ==> cells[p].prev in cells && cells[p].prev != p
    requires cells[p].next != Null ==> cells[p].next in cells && cells[p].next != p
    ensures var prev, next := cells[p].prev, cells[p].next;
      var a := if prev == Null then cells else cells[prev := cells[prev].(next := next)];
      var b := if next == Null then a else a[next := a[next].(prev := prev)];
      b[p := b[p].(prev := Null, next := Null, level := NoLevel)] == UnlinkCells(cells, p)
  {
    var prev, next := cells[p].prev, cells[p].next;
    var a := if prev == Null then cells else cells[prev := cells[prev].(next := next)];
    var b := if next == Null then a else a[next := a[next].(prev := prev)];
    assert b[p := b[p].(prev := Null, next := Null, level := NoLevel)] == UnlinkCells(cells, p);
  }

  // ---- the level --------------------------------------------------------------------------

  class PriceLevel {
    /** This level's own address. */
    const self: LevelPtr
    const price: u64
    var head: Ptr
    var tail: Ptr
    var count: nat
    var total: u64
    ghost var fifo: seq<Ptr>

    ghost function View(): LevelView
      reads this
    {
      LevelView(price, head, tail, count, total, fifo)
    }

    ghost predicate Valid(cells: map<Ptr, Order>)
      reads this
    {
      LevelOk(View(), self, cells)
    }

    constructor (self: LevelPtr, price: u64)
      ensures View() == LevelView(price, Null, Null, 0, 0, []) && this.self == self && this.price == price
    {
      this.self := self;
      this.price := price;
      head, tail, count, total := Null, Null, 0, 0;
      fifo := [];
    }

    predicate IsEmpty()
      reads this
    {
      count == 0
    }

    /** Why an order cannot be appended, if it cannot. */
    ghost function Refusal(cells: map<Ptr, Order>, p: Ptr): Result<()>
      requires p != Null ==> p in cells
      reads this
    {
      if p == Null || cells[p].price != price || cells[p].level != NoLevel || cells[p].remaining == 0
        then Err(InvalidArgument)
      else if cells[p].remaining + total > U64_MAX then Err(OverflowError) else Ok(())
    }

    /** Appends at the tail, or refuses without touching anything. */
    method AddOrder(mem: OrderMemory, p: Ptr) returns (r: Result<()>)
      requires Valid(mem.cells) && (p != Null ==> p in mem.cells)
      modifies this, mem
      ensures r == old(Refusal(mem.cells, p))
      ensures r == if p == Null then Err(InvalidArgument)
                   else if old(mem.cells[p].price != price || mem.cells[p].level != NoLevel) then Err(InvalidArgument)
                   else if old(mem.cells[p].remaining) == 0 then Err(InvalidArgument)
                   else if old(mem.cells[p].remaining + total) > U64_MAX then Err(OverflowError) else Ok(())
      ensures r.Err? ==> View() == old(View()) && mem.cells == old(mem.cells)
      ensures r.Ok? ==> View() == old(AppendView(View(), p, mem.cells[p].remaining)) && Valid(mem.cells)
      ensures r.Ok? ==> old(tail != Null ==> tail in mem.cells) &&
                        mem.cells == old(AppendCells(mem.cells, self, tail, p))
    {
      hide Linked, Owns, Sum;
      if p == Null {
        return Err(InvalidArgument);
      }
      if mem.cells[p].price != price {
        return Err(InvalidArgument);
      }
      if mem.cells[p].level != NoLevel {
        return Err(InvalidArgument);
      }
      if mem.cells[p].FullyFilled() {
        return Err(InvalidArgument);
      }
      if mem.cells[p].remaining > U64_MAX - total {
        return Err(OverflowError);
      }
      AppendOk(View(), self, mem.cells, p);
      var cells := mem.cells[p := mem.cells[p].(prev := tail, next := Null)];
      if tail != Null {
        cells := cells[tail := cells[tail].(next := p)];
      } else {
        head := p;
      }
      tail := p;
      count := count + 1;
      total := total + cells[p].remaining;
      cells := cells[p := cells[p].(level := self)];
      assert cells == old(AppendCells(mem.cells, self, tail, p));
      mem.cells := cells;
      fifo := fifo + [p];
      return Ok(());
    }

    /** Unlinks an order wherever it stands in the queue. */
    method RemoveOrder(mem: OrderMemory, p: Ptr) returns (r: Result<()>)
      requires Valid(mem.cells) && (p != Null ==> p in mem.cells)
      modifies this, mem
      ensures r == if p == Null || old(mem.cells[p].level) != self then Err(InvalidArgument) else Ok(())
      ensures r.Err? ==> View() == old(View()) && mem.cells == old(mem.cells)
      ensures r.Ok? ==> p in old(fifo) && old(count > 0 && mem.cells[p].remaining <= total) &&
                        View() == old(UnlinkView(View(), mem.cells[p], PosOf(fifo, p))) && Valid(mem.cells)
      ensures r.Ok? ==> mem.cells == old(UnlinkCells(mem.cells, p))
    {
      hide Linked, Sum, UnlinkCells;
      if p == Null || mem.cells[p].level != self {
        return Err(InvalidArgument);
      }
      ghost var m := PosOf(fifo, p);
      UnlinkOk(View(), self, mem.cells, m);
      Neighbours(mem.cells, self, price, fifo, m);
      var cells := mem.cells;
      var prev, next := cells[p].prev, cells[p].next;
      if prev != Null {
        cells := cells[prev := cells[prev].(next := next)];
      } else {
        head := next;
      }
      if next != Null {
        cells := cells[next := cells[next].(prev := prev)];
      } else {
        tail := prev;
      }
      total := total - cells[p].remaining;
      count := count - 1;
      cells := cells[p := cells[p].(prev := Null, next := Null, level := NoLevel)];
      UnlinkSteps(mem.cells, p);
      mem.cells := cells;
      fifo := Without(fifo, m);
      return Ok(());
    }

    /** Takes a partial execution or a reduction off the aggregate. */
    method ReduceTotal(quantity: u64) returns (r: Result<()>)
      modifies this
      ensures r == if quantity > old(total) then Err(InvalidArgument) else Ok(())
      ensures View() == if r.Err? then old(View()) else old(View()).(total := old(total) - quantity)
    {
      if quantity > total {
        return Err(InvalidArgument);
      }
      total := total - quantity;
      return Ok(());
    }
  }
}
