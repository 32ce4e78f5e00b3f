/** What every run of the engine keeps: priority, distinct orders and an uncrossed book. */
module Runs {
  import opened Types
  import opened PriceLevel
  import opened PriceLadder
  import opened AbstractBook

  // ---- the invariant ----------------------------------------------------------------------

  /** Order a is served before order b: better price, or the same price and accepted earlier. */
  ghost predicate Prior(side: Side, a: Resting, b: Resting) {
    Better(side, a.price, b.price) || (a.price == b.price && a.seqNo < b.seqNo)
  }

  ghost predicate Apart(a: Resting, b: Resting) {
    a.id != b.id && a.seqNo != b.seqNo
  }

  /** The list is in strict price-time priority and repeats no id and no sequence number. */
  ghost predicate Ordered(side: Side, list: seq<Resting>) {
    forall i, j | 0 <= i < j < |list| :: Prior(side, list[i], list[j]) && Apart(list[i], list[j])
  }

  /** A resting order of an engine that has accepted n orders. */
  ghost predicate Resident(m: Market, side: Side, n: nat, o: Resting)
    requires m.Sound()
  {
    && 0 < o.remaining <= o.original && 0 < o.seqNo <= n && o.id != 0
    && m.Ladder(side).IndexOf(o.price).Ok?
  }

  ghost predicate Residents(m: Market, side: Side, n: nat, list: seq<Resting>)
    requires m.Sound()
  {
    forall k | 0 <= k < |list| :: Resident(m, side, n, list[k])
  }

  /** Every bid lies below every ask. */
  ghost predicate Spread(b: Book) {
    forall i, j | 0 <= i < |b.bids| && 0 <= j < |b.asks| :: b.bids[i].price < b.asks[j].price
  }

  /** Bids lie below asks, and no order stands on both sides. */
  ghost predicate Uncrossed(b: Book) {
    Spread(b) && forall i, j | 0 <= i < |b.bids| && 0 <= j < |b.asks| :: Apart(b.bids[i], b.asks[j])
  }

  /** Better prices come first; nothing is said about ids and sequence numbers. */
  ghost predicate Ranked(side: Side, list: seq<Resting>) {
    forall i, j | 0 <= i < j < |list| :: !Better(side, list[j].price, list[i].price)
  }

  lemma OrderedRanked(side: Side, list: seq<Resting>)
    requires Ordered(side, list)
    ensures Ranked(side, list)
  {
    forall i, j | 0 <= i < j < |list|
      ensures !Better(side, list[j].price, list[i].price)
    {
      assert Prior(side, list[i], list[j]);
    }
  }

  ghost predicate Sound(m: Market, s: State)
    requires m.Sound()
  {
    && Ordered(Buy, s.book.bids) && Ordered(Sell, s.book.asks) && Uncrossed(s.book)
    && Residents(m, Buy, s.seqNo, s.book.bids) && Residents(m, Sell, s.seqNo, s.book.asks)
    && |s.book.staleBids| == m.levelCount && |s.book.staleAsks| == m.levelCount
  }

  // ---- the operations keep it -------------------------------------------------------------

  lemma OrderedTail(side: Side, list: seq<Resting>, rest: seq<Resting>)
    requires Ordered(side, list) && TailOf(list, rest)
    ensures Ordered(side, rest)
  {
    forall i, j | 0 <= i < j < |rest|
      ensures Prior(side, rest[i], rest[j]) && Apart(rest[i], rest[j])
    {
      var d := |list| - |rest|;
      assert Lessened(list[d + i], rest[i]) && Lessened(list[d + j], rest[j]);
      assert Prior(side, list[d + i], list[d + j]) && Apart(list[d + i], list[d + j]);
    }
  }

  ghost predicate IsFrom(list: seq<Resting>, x: Resting) {
    exists j :: 0 <= j < |list| && Lessened(list[j], x)
  }

  /** Every order of rest is an order of list, with perhaps less of it left. */
  ghost predicate From(list: seq<Resting>, rest: seq<Resting>) {
    forall k | 0 <= k < |rest| :: IsFrom(list, rest[k])
  }

  lemma ResidentsFrom(m: Market, side: Side, n: nat, list: seq<Resting>, rest: seq<Resting>)
    requires m.Sound() && Residents(m, side, n, list) && From(list, rest)
    ensures Residents(m, side, n, rest)
  {
    forall k | 0 <= k < |rest|
      ensures Resident(m, side, n, rest[k])
    {
      assert IsFrom(list, rest[k]);
      var j :| 0 <= j < |list| && Lessened(list[j], rest[k]);
      assert Resident(m, side, n, list[j]);
    }
  }

  lemma UncrossedFrom(b: Book, side: Side, rest: seq<Resting>)
    requires Uncrossed(b) && From(b.Orders(side), rest)
    ensures Uncrossed(b.With(side, rest))
  {
    var b' := b.With(side, rest);
    forall i, j | 0 <= i < |b'.bids| && 0 <= j < |b'.asks|
      ensures b'.bids[i].price < b'.asks[j].price && Apart(b'.bids[i], b'.asks[j])
    {
      if side.Buy? {
        assert IsFrom(b.bids, rest[i]);
        var k :| 0 <= k < |b.bids| && Lessened(b.bids[k], rest[i]);
      } else {
        assert IsFrom(b.asks, rest[j]);
        var k :| 0 <= k < |b.asks| && Lessened(b.asks[k], rest[j]);
      }
    }
  }

  /** In a list in priority order, everything behind the insertion point is strictly worse. */
  lemma {:induction false} InsertPoint(side: Side, list: seq<Resting>, price: u64)
    requires Ranked(side, list)
    ensures var k := InsertPos(side, list, price);
      && (forall j | 0 <= j < k :: !Better(side, price, list[j].price))
      && (forall j | k <= j < |list| :: Better(side, price, list[j].price))
  {
    if list == [] {
    } else if Better(side, price, list[0].price) {
      assert forall j | 0 < j < |list| :: !Better(side, list[j].price, list[0].price);
    } else {
      assert Ranked(side, list[1..]);
      InsertPoint(side, list[1..], price);
      var k := InsertPos(side, list, price);
      assert forall j | 0 < j < |list| :: list[j] == list[1..][j - 1];
    }
  }

  lemma OrderedInsert(side: Side, list: seq<Resting>, o: Resting)
    requires Ordered(side, list) && forall j | 0 <= j < |list| :: Apart(list[j], o) && list[j].seqNo < o.seqNo
    ensures Ordered(side, Insert(side, list, o))
  {
    OrderedRanked(side, list);
    InsertPoint(side, list, o.price);
    var k, after := InsertPos(side, list, o.price), Insert(side, list, o);
    forall i, j | 0 <= i < j < |after|
      ensures Prior(side, after[i], after[j]) && Apart(after[i], after[j])
    {
      if i != k && j != k {
        var i', j' := if i < k then i else i - 1, if j < k then j else j - 1;
        assert Prior(side, list[i'], list[j']) && Apart(list[i'], list[j']);
      }
    }
  }

  /** An order of the list after an insertion is the new one or an old one. */
  lemma InsertElements(side: Side, list: seq<Resting>, o: Resting, i: nat)
    requires i < |Insert(side, list, o)|
    ensures Insert(side, list, o)[i] == o || Insert(side, list, o)[i] in list
  {
  }

  lemma OrderedWithout(side: Side, list: seq<Resting>, k: nat)
    requires Ordered(side, list) && k < |list|
    ensures Ordered(side, Without(list, k))
  {
    var after := Without(list, k);
    forall i, j | 0 <= i < j < |after|
      ensures Prior(side, after[i], after[j]) && Apart(after[i], after[j])
    {
      var i', j' := if i < k then i else i + 1, if j < k then j else j + 1;
      assert Prior(side, list[i'], list[j']) && Apart(list[i'], list[j']);
    }
  }

  lemma OrderedSet(side: Side, list: seq<Resting>, k: nat, quantity: u64)
    requires Ordered(side, list) && k < |list|
    ensures Ordered(side, list[k := list[k].(remaining := quantity)])
  {
    var after := list[k := list[k].(remaining := quantity)];
    forall i, j | 0 <= i < j < |after|
      ensures Prior(side, after[i], after[j]) && Apart(after[i], after[j])
    {
      assert Prior(side, list[i], list[j]) && Apart(list[i], list[j]);
    }
  }

  // ---- cancel and reduce ------------------------------------------------------------------

  lemma RemoveKeeps(side: Side, list: seq<Resting>, id: u64)
    requires Ordered(side, list)
    ensures Ordered(side, Remove(list, id)) && From(list, Remove(list, id))
  {
    var k, rest := Find(list, id), Remove(list, id);
    if k < |list| {
      OrderedWithout(side, list, k);
    }
    forall i | 0 <= i < |rest|
      ensures IsFrom(list, rest[i])
    {
      assert Lessened(list[if i < k then i else i + 1], rest[i]);
    }
  }

  lemma CancelKeeps(m: Market, s: State, id: u64)
    requires m.Sound() && Sound(m, s)
    ensures Sound(m, s.(book := CancelIn(s.book, id)))
  {
    var b := s.book;
    RemoveKeeps(Buy, b.bids, id);
    RemoveKeeps(Sell, b.asks, id);
    UncrossedFrom(b, Buy, Remove(b.bids, id));
    UncrossedFrom(b.With(Buy, Remove(b.bids, id)), Sell, Remove(b.asks, id));
    ResidentsFrom(m, Buy, s.seqNo, b.bids, Remove(b.bids, id));
    ResidentsFrom(m, Sell, s.seqNo, b.asks, Remove(b.asks, id));
  }

  lemma SetKeeps(side: Side, list: seq<Resting>, id: u64, quantity: u64)
    requires Ordered(side, list) && 0 < quantity && (Find(list, id) < |list| ==>
        quantity <= list[Find(list, id)].remaining)
    ensures Ordered(side, SetRemaining(list, id, quantity)) && From(list, SetRemaining(list, id, quantity))
  {
    var k, rest := Find(list, id), SetRemaining(list, id, quantity);
    if k < |list| {
      OrderedSet(side, list, k, quantity);
    }
    forall i | 0 <= i < |rest|
      ensures IsFrom(list, rest[i])
    {
      assert Lessened(list[i], rest[i]);
    }
  }

  /** In an uncrossed book an id stands on at most one side. */
  lemma OneSide(b: Book, id: u64)
    requires Uncrossed(b)
    ensures Find(b.bids, id) == |b.bids| || Find(b.asks, id) == |b.asks|
  {
    var i, j := Find(b.bids, id), Find(b.asks, id);
    if i < |b.bids| && j < |b.asks| {
      assert false;
    }
  }

  lemma ReduceKeeps(m: Market, s: State, id: u64, quantity: u64)
    requires m.Sound() && Sound(m, s) && s.book.Has(id) && 0 < quantity <= RemainingOf(s.book, id)
    ensures Sound(m, s.(book := ReduceIn(s.book, id, quantity)))
  {
    hide Ordered, Uncrossed, Residents, From, Market.Sound;
    var b := s.book;
    OneSide(b, id);
    var bids, asks := SetRemaining(b.bids, id, quantity), SetRemaining(b.asks, id, quantity);
    SetKeeps(Buy, b.bids, id, quantity);
    SetKeeps(Sell, b.asks, id, quantity);
    UncrossedFrom(b, Buy, bids);
    UncrossedFrom(b.With(Buy, bids), Sell, asks);
    ResidentsFrom(m, Buy, s.seqNo, b.bids, bids);
    ResidentsFrom(m, Sell, s.seqNo, b.asks, asks);
  }

  // ---- new orders -------------------------------------------------------------------------

  lemma TailFrom(list: seq<Resting>, rest: seq<Resting>)
    requires TailOf(list, rest)
    ensures From(list, rest)
  {
    forall k | 0 <= k < |rest|
      ensures IsFrom(list, rest[k])
    {
      assert Lessened(list[|list| - |rest| + k], rest[k]);
    }
  }

  lemma {:induction false} MatchStale(c: Config, o: NewOrder, opp: seq<Resting>, stale: seq<nat>, quantity: u64)
    requires c.Sound()
    ensures |Match(c, o, opp, stale, quantity).stale| == |stale|
    decreases |opp|
  {
    if !(quantity == 0 || opp == [] || !Crosses(o, opp[0].price)) && quantity >= opp[0].remaining {
      MatchStale(c, o, opp[1..], AddStale(c, stale, opp[0].price, opp[0].remaining), quantity - opp[0].remaining);
    }
  }

  lemma ExecutedKeeps(m: Market, s: State, o: NewOrder)
    requires m.Sound() && Sound(m, s) && !o.side.BadSide?
    ensures Sound(m, s.(book := Executed(m, s.book, o)))
  {
    var side := Opposite(o.side);
    var c, opp, r := m.Ladder(side), s.book.Orders(side), MatchIn(m, s.book, o);
    MatchSuffix(c, o, opp, s.book.Stale(side), o.quantity);
    MatchStale(c, o, opp, s.book.Stale(side), o.quantity);
    OrderedTail(side, opp, r.rest);
    TailFrom(opp, r.rest);
    UncrossedFrom(s.book, side, r.rest);
    ResidentsFrom(m, side, s.seqNo, opp, r.rest);
  }

  /** Matching stops only when nothing is left, nothing rests, or the limit does not cross. */
  lemma {:induction false} MatchStops(c: Config, o: NewOrder, opp: seq<Resting>, stale: seq<nat>, quantity: u64)
    requires c.Sound()
    ensures var r := Match(c, o, opp, stale, quantity);
      r.left == 0 || r.rest == [] || !Crosses(o, r.rest[0].price)
    decreases |opp|
  {
    if !(quantity == 0 || opp == [] || !Crosses(o, opp[0].price)) && quantity >= opp[0].remaining {
      MatchStops(c, o, opp[1..], AddStale(c, stale, opp[0].price, opp[0].remaining), quantity - opp[0].remaining);
    }
  }

  /** The order's price stays strictly short of the best of the other side. */
  predicate Short(b: Book, side: Side, price: u64) {
    var opp := b.Orders(Opposite(side));
    opp == [] || (if side.Buy? then price < opp[0].price else price > opp[0].price)
  }

  /** Insertion keeps bids below asks exactly when the order stays short of the other side's best. */
  lemma AddUncrossedIff(b: Book, o: Order)
    requires !o.side.BadSide? && Spread(b) && Ranked(Opposite(o.side), b.Orders(Opposite(o.side)))
    ensures Spread(Add(b, o)) <==> Short(b, o.side, o.price)
  {
    var r, opp := ToResting(o), b.Orders(Opposite(o.side));
    var list, b' := b.Orders(o.side), Add(b, o);
    var k := InsertPos(o.side, list, o.price);
    assert b'.Orders(o.side)[k] == r;
    if opp != [] {
      assert forall j | 0 < j < |opp| :: !Better(Opposite(o.side), opp[j].price, opp[0].price);
    }
    forall i | 0 <= i < |b'.Orders(o.side)|
      ensures b'.Orders(o.side)[i] == r || b'.Orders(o.side)[i] in list
    {
      InsertElements(o.side, list, r, i);
    }
  }

  /** An insertion under a new id and a later number puts no order on both sides. */
  lemma AddApart(m: Market, s: State, o: Order)
    requires m.Sound() && Sound(m, s) && !o.side.BadSide? && !s.book.Has(o.id) && o.seqNo > s.seqNo
    requires Short(s.book, o.side, o.price)
    ensures Uncrossed(Add(s.book, o))
  {
    var b, opp, list := s.book, s.book.Orders(Opposite(o.side)), s.book.Orders(o.side);
    OrderedRanked(Opposite(o.side), opp);
    AddUncrossedIff(b, o);
    FindNone(opp, o.id);
    assert forall j | 0 <= j < |opp| :: Resident(m, Opposite(o.side), s.seqNo, opp[j]);
    forall i | 0 <= i < |Insert(o.side, list, ToResting(o))|
      ensures forall j | 0 <= j < |opp| :: Apart(Insert(o.side, list, ToResting(o))[i], opp[j])
    {
      InsertElements(o.side, list, ToResting(o), i);
    }
  }

  lemma RestKeeps(m: Market, s: State, o: NewOrder, left: u64)
    requires m.Sound() && Sound(m, s) && !o.side.BadSide? && s.seqNo < U64_MAX && !s.book.Has(o.id) && o.id != 0
    requires 0 < left <= o.quantity && o.kind.Limit? && Admit(m, s.book, o.side, o.price, left).Ok?
    requires var opp := s.book.Orders(Opposite(o.side)); opp == [] || !Crosses(o, opp[0].price)
    ensures Sound(m, State(Add(s.book, RestOrder(o, left, s.seqNo + 1)), s.seqNo + 1))
  {
    var b, x := s.book, RestOrder(o, left, s.seqNo + 1);
    var list, r := b.Orders(o.side), ToResting(x);
    FindNone(list, o.id);
    OrderedInsert(o.side, list, r);
    AddApart(m, s, x);
    forall i | 0 <= i < |Insert(o.side, list, r)|
      ensures Resident(m, o.side, s.seqNo + 1, Insert(o.side, list, r)[i])
    {
      InsertElements(o.side, list, r, i);
    }
  }

  lemma NewKeeps(m: Market, s: State, o: NewOrder)
    requires m.Sound() && Sound(m, s) && Entry(s, o).Ok?
    ensures Sound(m, StepNew(m, s, o).state)
  {
    hide Sound, Match, AddStale, Market.Sound, Config.Sound, Add, Admit, Find;
    LadderSound(m, Opposite(o.side));
    var side, r := Opposite(o.side), MatchIn(m, s.book, o);
    var after := s.(book := Executed(m, s.book, o));
    ExecutedKeeps(m, s, o);
    MatchStops(m.Ladder(side), o, s.book.Orders(side), s.book.Stale(side), o.quantity);
    MatchLeft(m, s.book, o);
    if Settle(m, after.book, o, r.left).Rested? {
      NotBack(m, s.book, o, o.id);
      RestKeeps(m, after, o, r.left);
    } else {
      LaterSound(m, after);
    }
  }

  /** Executions never bring back an id. */
  lemma NotBack(m: Market, b: Book, o: NewOrder, id: u64)
    requires m.Sound() && !b.Has(id)
    ensures !Executed(m, b, o).Has(id)
  {
    hide Match, AddStale, Market.Sound, Config.Sound, Find;
    var side := Opposite(o.side);
    LadderSound(m, side);
    FindNone(b.bids, id);
    FindNone(b.asks, id);
    MatchSuffix(m.Ladder(side), o, b.Orders(side), b.Stale(side), o.quantity);
    var list, rest := b.Orders(side), MatchIn(m, b, o).rest;
    forall k | 0 <= k < |rest|
      ensures rest[k].id != id
    {
      assert Lessened(list[|list| - |rest| + k], rest[k]);
    }
    FindNone(rest, id);
  }

  lemma LaterSound(m: Market, s: State)
    requires m.Sound() && Sound(m, s) && s.seqNo < U64_MAX
    ensures Sound(m, s.(seqNo := s.seqNo + 1))
  {
    forall k | 0 <= k < |s.book.bids|
      ensures Resident(m, Buy, s.seqNo + 1, s.book.bids[k])
    {
      assert Resident(m, Buy, s.seqNo, s.book.bids[k]);
    }
    forall k | 0 <= k < |s.book.asks|
      ensures Resident(m, Sell, s.seqNo + 1, s.book.asks[k])
    {
      assert Resident(m, Sell, s.seqNo, s.book.asks[k]);
    }
  }

  // ---- runs -------------------------------------------------------------------------------

  /** Every event keeps the invariant, whatever its outcome. */
  lemma StepKeeps(m: Market, s: State, e: Event)
    requires m.Sound() && Sound(m, s)
    ensures Sound(m, Step(m, s, e).state) && s.seqNo <= Step(m, s, e).state.seqNo
  {
    match e
    case New(o) =>
      if Entry(s, o).Ok? { NewKeeps(m, s, o); }
    case Cancel(id) =>
      CancelKeeps(m, s, id);
    case Reduce(id, quantity) =>
      if s.book.Has(id) && 0 < quantity <= RemainingOf(s.book, id) { ReduceKeeps(m, s, id, quantity); }
    case Foreign =>
      if s.seqNo < U64_MAX { LaterSound(m, s); }
  }

  /** The state of an engine over an empty book. */
  function Start(m: Market, seqNo: u64): State {
    State(Book([], [], seq(m.levelCount, _ => 0), seq(m.levelCount, _ => 0)), seqNo)
  }

  /**
   * In every reachable state of an engine that started on an empty book, including after a refused
   * remainder, both lists are in strict price-time priority and every bid lies below every ask.
   */
  lemma {:induction false} RunSound(m: Market, seqNo: u64, events: seq<Event>)
    requires m.Sound()
    ensures Sound(m, Run(m, Start(m, seqNo), events).state)
    decreases |events|
  {
    if events != [] {
      var n := |events| - 1;
      RunSound(m, seqNo, events[..n]);
      StepKeeps(m, Run(m, Start(m, seqNo), events[..n]).state, events[n]);
    }
  }
}
