/** What a level's aggregate means over whole runs, and that what is bought is what is sold. */
module Accounting {
  import opened Types
  import opened PriceLevel
  import opened PriceLadder
  import opened AbstractBook
  import opened Runs
  import opened Greedy
  import opened Ledger

  // ---- the slices that completing fills leave in an aggregate -----------------------------

  predicate CompletesAt(e: Ledger.Entry, side: Side, price: int) {
    e.Trade? && e.completes && e.restingSide == side && e.price == price
  }

  /** The final slices of the orders of one level that were filled completely. */
  function Slices(j: seq<Ledger.Entry>, side: Side, price: int): nat {
    if j == [] then 0
    else (if CompletesAt(j[0], side, price) then j[0].quantity else 0) + Slices(j[1..], side, price)
  }

  lemma {:induction false} SlicesConcat(a: seq<Ledger.Entry>, b: seq<Ledger.Entry>, side: Side, price: int)
    ensures Slices(a + b, side, price) == Slices(a, side, price) + Slices(b, side, price)
  {
    if a == [] {
      assert a + b == b;
    } else {
      assert (a + b)[1..] == a[1..] + b;
      SlicesConcat(a[1..], b, side, price);
    }
  }

  lemma {:induction false} SlicesNone(j: seq<Ledger.Entry>, side: Side, price: int)
    requires forall k | 0 <= k < |j| :: !CompletesAt(j[k], side, price)
    ensures Slices(j, side, price) == 0
  {
    if j != [] { SlicesNone(j[1..], side, price); }
  }

  lemma {:induction false} SlicesSome(j: seq<Ledger.Entry>, side: Side, price: int, k: nat)
    requires k < |j| && CompletesAt(j[k], side, price) && j[k].quantity > 0
    ensures Slices(j, side, price) > 0
  {
    if k > 0 { SlicesSome(j[1..], side, price, k - 1); }
  }

  /** Only the level of the filled order is touched. */
  lemma AddStaleAt(c: Config, stale: seq<nat>, price: u64, quantity: nat, i: nat)
    requires c.Sound() && i < |stale| == c.levelCount && c.IndexOf(price).Ok?
    ensures AddStale(c, stale, price, quantity)[i] == stale[i] + if price == c.PriceAt(i) then quantity else 0
  {
    PriceAtIndexOf(c, price);
    IndexOfPriceAt(c, i);
  }

  lemma TradesSlices(n: u64, id: u64, side: Side, f: Fill, fills: seq<Fill>, price: int)
    ensures Slices(Trades(n, id, side, [f] + fills), side, price) ==
            (if f.completes && f.price == price then f.quantity else 0) +
                Slices(Trades(n, id, side, fills), side, price)
  {
    assert Trades(n, id, side, [f] + fills)[1..] == Trades(n, id, side, fills);
  }

  ghost predicate Representable(c: Config, opp: seq<Resting>)
    requires c.Sound()
  {
    forall k | 0 <= k < |opp| :: c.IndexOf(opp[k].price).Ok?
  }

  lemma {:induction false} MatchSlices(c: Config, o: NewOrder, opp: seq<Resting>, stale: seq<nat>, quantity: u64,
                                       n: u64, side: Side, i: nat)
    requires c.Sound() && Representable(c, opp) && i < |stale| == c.levelCount
    ensures var r := Match(c, o, opp, stale, quantity);
      |r.stale| == |stale| && r.stale[i] == stale[i] + Slices(Trades(n, o.id, side, r.fills), side, c.PriceAt(i))
    decreases |opp|
  {
    hide AddStale, Config.Sound, Config.IndexOf, Config.PriceAt, Trades, Crosses, Slices, Match;
    MatchCases(c, o, opp, stale, quantity);
    TradesEmpty(n, o.id, side);
    SlicesNone([], side, c.PriceAt(i));
    if Stops(o, opp, quantity) {
    } else if quantity < opp[0].remaining {
      TradesSlices(n, o.id, side, FillOf(opp[0], quantity), [], c.PriceAt(i));
    } else {
      var stale' := AddStale(c, stale, opp[0].price, opp[0].remaining);
      AddStaleAt(c, stale, opp[0].price, opp[0].remaining, i);
      MatchSlices(c, o, opp[1..], stale', quantity - opp[0].remaining, n, side, i);
      TradesSlices(n, o.id, side, FillOf(opp[0], opp[0].remaining),
                   Match(c, o, opp[1..], stale', quantity - opp[0].remaining).fills, c.PriceAt(i));
    }
  }

  lemma NewSlices(m: Market, s: State, o: NewOrder, side: Side, i: nat)
    requires m.Sound() && Sound(m, s) && AbstractBook.Entry(s, o).Ok? && !side.BadSide? && i < m.levelCount
    ensures |StepNew(m, s, o).state.book.Stale(side)| == |s.book.Stale(side)| == m.levelCount
    ensures StepNew(m, s, o).state.book.Stale(side)[i] ==
            s.book.Stale(side)[i] + Slices(NewEntries(m, s, o), side, m.Ladder(side).PriceAt(i))
  {
    hide Match, Slices, Config.Sound, Config.PriceAt, Market.Sound, Ordered, Uncrossed, Insert, Settle, Trades;
    LadderSound(m, side);
    var opp, n, r, price := Opposite(o.side), s.seqNo + 1, MatchIn(m, s.book, o), m.Ladder(side).PriceAt(i);
    NewEntriesSlices(m, s, o, side, price);
    if side == opp {
      MatchSlices(m.Ladder(side), o, s.book.Orders(side), s.book.Stale(side), o.quantity, n, side, i);
    }
  }

  lemma NewEntriesSlices(m: Market, s: State, o: NewOrder, side: Side, price: int)
    requires m.Sound() && AbstractBook.Entry(s, o).Ok?
    ensures Slices(NewEntries(m, s, o), side, price) ==
            if side == Opposite(o.side)
            then Slices(Trades(s.seqNo + 1, o.id, Opposite(o.side), MatchIn(m, s.book, o).fills), side, price) else 0
  {
    hide Match, Slices, Config.Sound, Market.Sound, Settle;
    var n, r := s.seqNo + 1, MatchIn(m, s.book, o);
    var remainder := Settle(m, Executed(m, s.book, o), o, r.left);
    var submit, trades := [Submit(n, o.id, o.side, o.quantity)], Trades(n, o.id, Opposite(o.side), r.fills);
    var lapse := if remainder.Discarded? || remainder.Refused? then [Lapse(n, o.id, r.left)] else [];
    SlicesConcat(submit + trades, lapse, side, price);
    SlicesConcat(submit, trades, side, price);
    SlicesNone(submit, side, price);
    SlicesNone(lapse, side, price);
    if side != Opposite(o.side) {
      SlicesNone(trades, side, price);
    }
  }

  lemma StepSlices(m: Market, s: State, e: Event, side: Side, i: nat)
    requires m.Sound() && Sound(m, s) && !side.BadSide? && i < m.levelCount
    ensures |Step(m, s, e).state.book.Stale(side)| == |s.book.Stale(side)| == m.levelCount
    ensures Step(m, s, e).state.book.Stale(side)[i] ==
            s.book.Stale(side)[i] + Slices(Entries(m, s, e), side, m.Ladder(side).PriceAt(i))
  {
    hide Slices, Config.PriceAt, Market.Sound, Ordered, Uncrossed, Residents, StepNew, NewEntries;
    var price := m.Ladder(side).PriceAt(i);
    if e.New? && AbstractBook.Entry(s, e.order).Ok? {
      NewSlices(m, s, e.order, side, i);
    } else {
      SlicesNone(Entries(m, s, e), side, price);
    }
  }

  /** On every run, what a level's aggregate shows beyond what rests there is what completing fills left. */
  lemma {:induction false} StaleIsSlices(m: Market, seqNo: u64, events: seq<Event>, side: Side, i: nat)
    requires m.Sound() && !side.BadSide? && i < m.levelCount
    ensures var b := Run(m, Start(m, seqNo), events).state.book;
      |b.Stale(side)| == m.levelCount &&
      b.Stale(side)[i] == Slices(Journal(m, Start(m, seqNo), events), side, m.Ladder(side).PriceAt(i))
    decreases |events|
  {
    hide Slices, Config.PriceAt, Config.Sound, Market.Sound, Step, Entries, Sound;
    var price := m.Ladder(side).PriceAt(i);
    if events == [] {
      SlicesNone([], side, price);
    } else {
      var n := |events| - 1;
      var s := Run(m, Start(m, seqNo), events[..n]).state;
      StaleIsSlices(m, seqNo, events[..n], side, i);
      RunSound(m, seqNo, events[..n]);
      StepSlices(m, s, events[n], side, i);
      SlicesConcat(Journal(m, Start(m, seqNo), events[..n]), Entries(m, s, events[n]), side, price);
    }
  }

  ghost predicate PositiveTrades(j: seq<Ledger.Entry>) {
    forall k | 0 <= k < |j| && j[k].Trade? :: j[k].quantity > 0
  }

  lemma FillsPositive(m: Market, s: State, o: NewOrder)
    requires m.Sound() && Sound(m, s)
    ensures forall k | 0 <= k < |MatchIn(m, s.book, o).fills| :: MatchIn(m, s.book, o).fills[k].quantity > 0
  {
    hide Sound, Match, Greedy.Remainder, Market.Sound;
    var side := Opposite(o.side);
    LadderSound(m, side);
    AllPositive(m, s, side);
    MatchIsGreedy(m.Ladder(side), o, s.book.Orders(side), s.book.Stale(side), o.quantity);
    var fills := MatchIn(m, s.book, o).fills;
    assert forall k | 0 <= k < |fills| :: FillsOrder(o, s.book.Orders(side)[k], fills[k]);
  }

  lemma StepPositive(m: Market, s: State, e: Event)
    requires m.Sound() && Sound(m, s)
    ensures PositiveTrades(Entries(m, s, e))
  {
    hide Sound, Market.Sound, MatchIn, Settle, Executed;
    if e.New? {
      FillsPositive(m, s, e.order);
    }
  }

  lemma {:induction false} JournalPositive(m: Market, seqNo: u64, events: seq<Event>)
    requires m.Sound()
    ensures PositiveTrades(Journal(m, Start(m, seqNo), events))
    decreases |events|
  {
    if events != [] {
      var n := |events| - 1;
      JournalPositive(m, seqNo, events[..n]);
      RunSound(m, seqNo, events[..n]);
      StepPositive(m, Run(m, Start(m, seqNo), events[..n]).state, events[n]);
    }
  }

  ghost predicate EverCompleted(j: seq<Ledger.Entry>, side: Side, price: int) {
    exists k :: 0 <= k < |j| && CompletesAt(j[k], side, price)
  }

  /**
   * The aggregate of a level is the sum of what rests there plus the final slices of the orders ever
   * filled there; it is the plain sum exactly when no order was ever filled completely there.
   */
  lemma AggregateAccounting(m: Market, seqNo: u64, events: seq<Event>, side: Side, i: nat)
    requires m.Sound() && !side.BadSide? && i < m.levelCount
    ensures var b, j := Run(m, Start(m, seqNo), events).state.book, Journal(m, Start(m, seqNo), events);
      var price := m.Ladder(side).PriceAt(i);
      && LevelTotal(m, b, side, i) == SumAt(b.Orders(side), price) + Slices(j, side, price)
      && (LevelTotal(m, b, side, i) == SumAt(b.Orders(side), price) <==> !EverCompleted(j, side, price))
  {
    hide Slices, Config.PriceAt, Config.Sound, Market.Sound, Journal, Run;
    var j, price := Journal(m, Start(m, seqNo), events), m.Ladder(side).PriceAt(i);
    StaleIsSlices(m, seqNo, events, side, i);
    JournalPositive(m, seqNo, events);
    if EverCompleted(j, side, price) {
      var k :| 0 <= k < |j| && CompletesAt(j[k], side, price);
      SlicesSome(j, side, price, k);
    } else {
      SlicesNone(j, side, price);
    }
  }

  // ---- bought and sold --------------------------------------------------------------------

  /** The side on which a sequence number was submitted; BadSide when it was not. */
  function SideIn(j: seq<Ledger.Entry>, k: nat): Side {
    if j == [] then BadSide
    else if j[0].Submit? && j[0].seqNo == k && !j[0].side.BadSide? then j[0].side else SideIn(j[1..], k)
  }

  lemma {:induction false} SideInConcat(a: seq<Ledger.Entry>, b: seq<Ledger.Entry>, k: nat)
    ensures SideIn(a + b, k) == if SideIn(a, k).BadSide? then SideIn(b, k) else SideIn(a, k)
  {
    if a == [] {
      assert a + b == b;
    } else {
      assert (a + b)[1..] == a[1..] + b;
      SideInConcat(a[1..], b, k);
    }
  }

  lemma {:induction false} NotSubmitted(j: seq<Ledger.Entry>, k: nat)
    requires forall i | 0 <= i < |j| && j[i].Submit? :: j[i].seqNo != k
    ensures SideIn(j, k) == BadSide
  {
    if j != [] { NotSubmitted(j[1..], k); }
  }

  /** What the orders of one side with sequence numbers up to n have executed. */
  ghost function Volume(f: nat -> Side, j: seq<Ledger.Entry>, side: Side, n: nat): nat {
    if n == 0 then 0 else (if f(n) == side then Tally(j, n).executed else 0) + Volume(f, j, side, n - 1)
  }

  /** The part of one entry in that volume. */
  ghost function Part(f: nat -> Side, e: Ledger.Entry, side: Side, n: nat): nat {
    if !e.Trade? then 0
    else (if f(e.incoming) == side && 0 < e.incoming <= n then e.quantity else 0) +
         (if f(e.resting) == side && 0 < e.resting <= n then e.quantity else 0)
  }

  lemma {:induction false} VolumeCons(f: nat -> Side, e: Ledger.Entry, j: seq<Ledger.Entry>, side: Side, n: nat)
    ensures Volume(f, [e] + j, side, n) == Part(f, e, side, n) + Volume(f, j, side, n)
  {
    if n > 0 {
      VolumeCons(f, e, j, side, n - 1);
      assert ([e] + j)[1..] == j;
    }
  }

  /** A trade between a submitted buy and a submitted sell. */
  ghost predicate TwoSided(f: nat -> Side, e: Ledger.Entry, n: nat) {
    e.Trade? ==>
      && 0 < e.incoming <= n && 0 < e.resting <= n
      && !e.restingSide.BadSide? && f(e.resting) == e.restingSide && f(e.incoming) == Opposite(e.restingSide)
  }

  lemma {:induction false} VolumesEqual(f: nat -> Side, j: seq<Ledger.Entry>, n: nat)
    requires forall k | 0 <= k < |j| :: TwoSided(f, j[k], n)
    ensures Volume(f, j, Buy, n) == Volume(f, j, Sell, n)
  {
    if j == [] {
      NoVolume(f, Buy, n);
      NoVolume(f, Sell, n);
    } else {
      assert j == [j[0]] + j[1..];
      VolumeCons(f, j[0], j[1..], Buy, n);
      VolumeCons(f, j[0], j[1..], Sell, n);
      VolumesEqual(f, j[1..], n);
      assert TwoSided(f, j[0], n);
    }
  }

  lemma {:induction false} NoVolume(f: nat -> Side, side: Side, n: nat)
    ensures Volume(f, [], side, n) == 0
  {
    if n > 0 { NoVolume(f, side, n - 1); }
  }

  ghost function SidesOf(j: seq<Ledger.Entry>): nat -> Side {
    (k: nat) => SideIn(j, k)
  }

  ghost predicate ListSided(j: seq<Ledger.Entry>, side: Side, list: seq<Resting>) {
    forall k | 0 <= k < |list| :: SideIn(j, list[k].seqNo) == side
  }

  ghost predicate Bounded(j: seq<Ledger.Entry>, n: nat) {
    forall k | 0 <= k < |j| && j[k].Submit? :: j[k].seqNo <= n
  }

  ghost predicate AllTwoSided(j: seq<Ledger.Entry>, f: nat -> Side, n: nat) {
    forall k | 0 <= k < |j| :: TwoSided(f, j[k], n)
  }

  /** The journal knows the side of every resting order and of both parties of every trade. */
  ghost predicate SidesKnown(j: seq<Ledger.Entry>, s: State) {
    && Bounded(j, s.seqNo) && ListSided(j, Buy, s.book.bids) && ListSided(j, Sell, s.book.asks)
    && AllTwoSided(j, SidesOf(j), s.seqNo)
  }

  lemma SidesGrow(j: seq<Ledger.Entry>, more: seq<Ledger.Entry>, n: nat, n': nat)
    requires AllTwoSided(j, SidesOf(j), n) && n <= n'
    ensures AllTwoSided(j, SidesOf(j + more), n')
  {
    forall k | 0 <= k < |j|
      ensures TwoSided(SidesOf(j + more), j[k], n')
    {
      assert TwoSided(SidesOf(j), j[k], n);
      if j[k].Trade? {
        SideInConcat(j, more, j[k].incoming);
        SideInConcat(j, more, j[k].resting);
      }
    }
  }

  lemma ListGrow(j: seq<Ledger.Entry>, more: seq<Ledger.Entry>, side: Side, list: seq<Resting>, rest: seq<Resting>)
    requires ListSided(j, side, list) && From(list, rest) && !side.BadSide?
    ensures ListSided(j + more, side, rest)
  {
    forall k | 0 <= k < |rest|
      ensures SideIn(j + more, rest[k].seqNo) == side
    {
      assert IsFrom(list, rest[k]);
      var i :| 0 <= i < |list| && Lessened(list[i], rest[k]);
      assert SideIn(j, list[i].seqNo) == side;
      SideInConcat(j, more, rest[k].seqNo);
    }
  }

  /** Entries that neither submit nor trade change no side. */
  lemma QuietStep(j: seq<Ledger.Entry>, more: seq<Ledger.Entry>, s: State, s': State)
    requires SidesKnown(j, s) && s.seqNo <= s'.seqNo
    requires forall k | 0 <= k < |more| :: !more[k].Submit? && !more[k].Trade?
    requires From(s.book.bids, s'.book.bids) && From(s.book.asks, s'.book.asks)
    ensures SidesKnown(j + more, s')
  {
    ListGrow(j, more, Buy, s.book.bids, s'.book.bids);
    ListGrow(j, more, Sell, s.book.asks, s'.book.asks);
    SidesGrow(j, more, s.seqNo, s'.seqNo);
  }

  lemma SelfFrom(list: seq<Resting>)
    ensures From(list, list)
  {
    forall k | 0 <= k < |list|
      ensures IsFrom(list, list[k])
    {
      assert Lessened(list[k], list[k]);
    }
  }

  /** The trades of one incoming order are between it and orders of the other side. */
  lemma TradesTwoSided(j: seq<Ledger.Entry>, more: seq<Ledger.Entry>, n: u64, id: u64, side: Side, fills: seq<Fill>,
                       opp: seq<Resting>)
    requires !side.BadSide? && n > 0 && |fills| <= |opp| && ListSided(j, side, opp) &&
        SideIn(j + more, n) == Opposite(side)
    requires forall k | 0 <= k < |fills| :: fills[k].seqNo == opp[k].seqNo && 0 < opp[k].seqNo <= n
    ensures AllTwoSided(Trades(n, id, side, fills), SidesOf(j + more), n)
  {
    forall k | 0 <= k < |fills|
      ensures TwoSided(SidesOf(j + more), Trades(n, id, side, fills)[k], n)
    {
      assert SideIn(j, opp[k].seqNo) == side;
      SideInConcat(j, more, fills[k].seqNo);
    }
  }

  lemma NewSide(j: seq<Ledger.Entry>, more: seq<Ledger.Entry>, n: u64, id: u64, side: Side, quantity: u64)
    requires n > 0 && Bounded(j, n - 1) && more != [] && more[0] == Submit(n, id, side, quantity) && !side.BadSide?
    ensures SideIn(j + more, n) == side
  {
    NotSubmitted(j, n);
    SideInConcat(j, more, n);
  }

  lemma FillsFollow(m: Market, s: State, o: NewOrder)
    requires m.Sound() && Sound(m, s) && AbstractBook.Entry(s, o).Ok?
    ensures var side := Opposite(o.side); var opp, fills := s.book.Orders(side), MatchIn(m, s.book, o).fills;
      && |fills| <= |opp|
      && (forall k | 0 <= k < |fills| :: fills[k].seqNo == opp[k].seqNo && 0 < opp[k].seqNo <= s.seqNo)
      && From(opp, MatchIn(m, s.book, o).rest)
  {
    hide Ordered, Uncrossed, Match, Config.Sound;
    var side := Opposite(o.side);
    LadderSound(m, side);
    var opp, r := s.book.Orders(side), MatchIn(m, s.book, o);
    MatchIsGreedy(m.Ladder(side), o, opp, s.book.Stale(side), o.quantity);
    assert forall k | 0 <= k < |r.fills| :: FillsOrder(o, opp[k], r.fills[k]);
    MatchSuffix(m.Ladder(side), o, opp, s.book.Stale(side), o.quantity);
    TailFrom(opp, r.rest);
  }

  lemma AllConcat(a: seq<Ledger.Entry>, b: seq<Ledger.Entry>, f: nat -> Side, n: nat)
    requires AllTwoSided(a, f, n) && AllTwoSided(b, f, n)
    ensures AllTwoSided(a + b, f, n)
  {
  }

  lemma NewEntriesTwoSided(m: Market, s: State, o: NewOrder, j: seq<Ledger.Entry>)
    requires m.Sound() && Sound(m, s) && AbstractBook.Entry(s, o).Ok? && SidesKnown(j, s)
    ensures var more := NewEntries(m, s, o);
      && SideIn(j + more, s.seqNo + 1) == o.side
      && AllTwoSided(j + more, SidesOf(j + more), s.seqNo + 1) && Bounded(j + more, s.seqNo + 1)
  {
    hide Sound, Settle, MatchIn, Executed, Market.Sound, SideIn;
    var n, side, more := s.seqNo + 1, Opposite(o.side), NewEntries(m, s, o);
    var fills := MatchIn(m, s.book, o).fills;
    NewSide(j, more, n, o.id, o.side, o.quantity);
    FillsFollow(m, s, o);
    TradesTwoSided(j, more, n, o.id, side, fills, s.book.Orders(side));
    SidesGrow(j, more, s.seqNo, n);
    var f := SidesOf(j + more);
    var tail := more[1 + |fills|..];
    assert more == [more[0]] + Trades(n, o.id, side, fills) + tail;
    AllConcat([more[0]], Trades(n, o.id, side, fills), f, n);
    AllConcat([more[0]] + Trades(n, o.id, side, fills), tail, f, n);
    AllConcat(j, more, f, n);
  }

  lemma NewLists(m: Market, s: State, o: NewOrder, j: seq<Ledger.Entry>, more: seq<Ledger.Entry>)
    requires m.Sound() && Sound(m, s) && AbstractBook.Entry(s, o).Ok? && SidesKnown(j, s)
    requires SideIn(j + more, s.seqNo + 1) == o.side
    ensures var b := StepNew(m, s, o).state.book; ListSided(j + more, Buy, b.bids) && ListSided(j + more, Sell, b.asks)
  {
    hide Sound, Settle, MatchIn, Market.Sound, SideIn, Insert;
    var side, after := Opposite(o.side), Executed(m, s.book, o);
    FillsFollow(m, s, o);
    SelfFrom(s.book.Orders(o.side));
    ListGrow(j, more, side, s.book.Orders(side), after.Orders(side));
    ListGrow(j, more, o.side, s.book.Orders(o.side), after.Orders(o.side));
    var list, x := after.Orders(o.side), ToResting(RestOrder(o, MatchIn(m, s.book, o).left, s.seqNo + 1));
    forall i | 0 <= i < |Insert(o.side, list, x)|
      ensures SideIn(j + more, Insert(o.side, list, x)[i].seqNo) == o.side
    {
      InsertElements(o.side, list, x, i);
    }
  }

  lemma CancelSides(m: Market, s: State, id: u64, j: seq<Ledger.Entry>)
    requires m.Sound() && Sound(m, s) && SidesKnown(j, s) && id != 0
    ensures SidesKnown(j + Entries(m, s, Cancel(id)), Step(m, s, Cancel(id)).state)
  {
    hide Market.Sound, SidesKnown, Remove, Find;
    RemoveKeeps(Buy, s.book.bids, id);
    RemoveKeeps(Sell, s.book.asks, id);
    QuietStep(j, Entries(m, s, Cancel(id)), s, Step(m, s, Cancel(id)).state);
  }

  lemma ReduceSides(m: Market, s: State, id: u64, quantity: u64, j: seq<Ledger.Entry>)
    requires m.Sound() && Sound(m, s) && SidesKnown(j, s) && Step(m, s, Reduce(id, quantity)).outcome == Reduced(true)
    ensures SidesKnown(j + Entries(m, s, Reduce(id, quantity)), Step(m, s, Reduce(id, quantity)).state)
  {
    hide Market.Sound, SidesKnown, SetRemaining;
    OneSide(s.book, id);
    SetKeeps(Buy, s.book.bids, id, quantity);
    SetKeeps(Sell, s.book.asks, id, quantity);
    QuietStep(j, Entries(m, s, Reduce(id, quantity)), s, Step(m, s, Reduce(id, quantity)).state);
  }

  lemma StepSides(m: Market, s: State, e: Event, j: seq<Ledger.Entry>)
    requires m.Sound() && Sound(m, s) && SidesKnown(j, s)
    ensures SidesKnown(j + Entries(m, s, e), Step(m, s, e).state)
  {
    hide Market.Sound, Sound, SidesKnown, StepNew, NewEntries, Withdrawals, Cuts, CancelIn, ReduceIn;
    QuietSelf(j, s);
    match e
    case New(o) =>
      if AbstractBook.Entry(s, o).Ok? { NewSides(m, s, o, j); }
    case Cancel(id) =>
      if id != 0 { CancelSides(m, s, id, j); }
    case Reduce(id, quantity) =>
      if Step(m, s, e).outcome == Reduced(true) { ReduceSides(m, s, id, quantity, j); }
    case Foreign =>
      ForeignSides(s, Step(m, s, e).state, j);
  }

  /** Numbers that other engines take belong to no order of this run. */
  lemma ForeignSides(s: State, s': State, j: seq<Ledger.Entry>)
    requires SidesKnown(j, s) && s'.book == s.book && s.seqNo <= s'.seqNo
    ensures SidesKnown(j + [], s')
  {
    hide SidesKnown;
    SelfFrom(s.book.bids);
    SelfFrom(s.book.asks);
    QuietStep(j, [], s, s');
  }

  lemma QuietSelf(j: seq<Ledger.Entry>, s: State)
    requires SidesKnown(j, s)
    ensures SidesKnown(j + [], s)
  {
    assert j + [] == j;
  }

  lemma NewSides(m: Market, s: State, o: NewOrder, j: seq<Ledger.Entry>)
    requires m.Sound() && Sound(m, s) && AbstractBook.Entry(s, o).Ok? && SidesKnown(j, s)
    ensures SidesKnown(j + NewEntries(m, s, o), StepNew(m, s, o).state)
  {
    hide Market.Sound, Sound, NewEntries, Bounded, ListSided, AllTwoSided;
    NewEntriesTwoSided(m, s, o, j);
    NewLists(m, s, o, j, NewEntries(m, s, o));
  }

  lemma {:induction false} RunSides(m: Market, seqNo: u64, events: seq<Event>)
    requires m.Sound()
    ensures SidesKnown(Journal(m, Start(m, seqNo), events), Run(m, Start(m, seqNo), events).state)
    decreases |events|
  {
    if events != [] {
      hide Sound, SidesKnown, Step, Entries;
      var n := |events| - 1;
      var s := Run(m, Start(m, seqNo), events[..n]).state;
      RunSides(m, seqNo, events[..n]);
      RunSound(m, seqNo, events[..n]);
      StepSides(m, s, events[n], Journal(m, Start(m, seqNo), events[..n]));
    }
  }

  /** Over every run, the orders submitted to buy have executed as much as the orders submitted to sell. */
  lemma BoughtIsSold(m: Market, seqNo: u64, events: seq<Event>)
    requires m.Sound()
    ensures var j := Journal(m, Start(m, seqNo), events); var n := Run(m, Start(m, seqNo), events).state.seqNo;
      Volume(SidesOf(j), j, Buy, n) == Volume(SidesOf(j), j, Sell, n)
  {
    RunSides(m, seqNo, events);
    var j := Journal(m, Start(m, seqNo), events);
    VolumesEqual(SidesOf(j), j, Run(m, Start(m, seqNo), events).state.seqNo);
  }
}
