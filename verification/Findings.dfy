/** Concrete runs on which the code departs from what its comments promise. */
module Findings {
  import opened Types
  import opened PriceLevel
  import opened PriceLadder
  import opened AbstractBook
  import opened Runs
  import opened DirectInsertion

  function Sale(id: u64, price: u64, quantity: u64): NewOrder {
    NewOrder(id, price, quantity, 1, Sell, Limit)
  }

  function Purchase(id: u64, price: u64, quantity: u64): NewOrder {
    NewOrder(id, price, quantity, 1, Buy, Limit)
  }

  function RestingSale(id: u64, price: u64, quantity: u64, seqNo: u64): Resting {
    Resting(id, price, quantity, quantity, 1, seqNo)
  }

  /** A book that holds one sell order. */
  function OneAsk(b: Book, r: Resting): Book {
    b.(bids := [], asks := [r])
  }

  /** A sell order against an empty book rests, if its level still has room. */
  lemma SaleRests(m: Market, s: State, id: u64, price: u64, quantity: u64, i: nat)
    requires m.Sound() && s.book.bids == [] && s.book.asks == [] && s.seqNo < U64_MAX
    requires id != 0 && price != 0 && quantity != 0 && m.Ladder(Sell).IndexOf(price) == Ok(i)
    requires i < |s.book.staleAsks| && s.book.staleAsks[i] + quantity <= U64_MAX
    ensures Step(m, s, New(Sale(id, price, quantity))) ==
      Stepped(State(OneAsk(s.book, RestingSale(id, price, quantity, s.seqNo + 1)), s.seqNo +
          1), Accepted([], Rested(quantity)))
  {
    hide Config.Sound, Config.IndexOf, Config.PriceAt;
    var o := Sale(id, price, quantity);
    LadderSound(m, Buy);
    MatchCases(m.Ladder(Buy), o, [], s.book.staleBids, quantity);
    assert Insert(Sell, [], RestingSale(id, price, quantity, s.seqNo + 1)) ==
        [RestingSale(id, price, quantity, s.seqNo + 1)];
    assert Executions(o, []) == [];
  }

  /** A purchase of the whole resting sale empties the book, but not the aggregate of the level. */
  lemma PurchaseDrains(m: Market, s: State, r: Resting, id: u64, i: nat)
    requires m.Sound() && s.book.bids == [] && s.book.asks == [r] && s.seqNo < U64_MAX
    requires id != 0 && id != r.id && r.price != 0 && r.remaining != 0 && m.Ladder(Sell).IndexOf(r.price) == Ok(i)
    requires i < |s.book.staleAsks|
    ensures Step(m, s, New(Purchase(id, r.price, r.remaining))) ==
      Stepped(State(s.book.(asks := [], staleAsks := s.book.staleAsks[i := s.book.staleAsks[i] +
          r.remaining]), s.seqNo + 1),
              Accepted([Execution(id, r.id, r.price, r.remaining)], NothingLeft))
  {
    hide Config.Sound, Config.IndexOf, Config.PriceAt;
    var o := Purchase(id, r.price, r.remaining);
    LadderSound(m, Sell);
    var stale' := AddStale(m.Ladder(Sell), s.book.staleAsks, r.price, r.remaining);
    assert [r][1..] == [];
    MatchCases(m.Ladder(Sell), o, [r], s.book.staleAsks, r.remaining);
    MatchCases(m.Ladder(Sell), o, [], stale', 0);
    assert [FillOf(r, r.remaining)] + [] == [FillOf(r, r.remaining)];
    assert Executions(o, [FillOf(r, r.remaining)]) == [Execution(id, r.id, r.price, r.remaining)];
  }

  lemma TwoEvents(m: Market, s: State, a: Event, b: Event)
    requires m.Sound()
    ensures var x := Step(m, s, a); var y := Step(m, x.state, b);
      Run(m, s, [a, b]) == Ran(y.state, [x.outcome, y.outcome])
  {
    hide Step;
    assert [a, b][..1] == [a] && [a][..0] == [];
    assert Run(m, s, [a]) == Ran(Step(m, s, a).state, [] + [Step(m, s, a).outcome]);
  }

  /**
   * The aggregate is not the sum of the remaining quantities: for every quantity and every price, selling
   * and buying it back leaves an empty level that still reports the whole quantity.
   */
  lemma AggregateDrifts(m: Market, price: u64, quantity: u64, i: nat)
    requires m.Sound() && price != 0 && quantity != 0 && m.Ladder(Sell).IndexOf(price) == Ok(i) && i < m.levelCount
    ensures var b := Run(m, Start(m, 0), [New(Sale(1, price, quantity)), New(Purchase(2, price, quantity))]).state.book;
      b.bids == [] && b.asks == [] && LevelTotal(m, b, Sell, i) == quantity
  {
    hide Config.Sound, Config.IndexOf, Config.PriceAt, Market.Sound, Step;
    TwoEvents(m, Start(m, 0), New(Sale(1, price, quantity)), New(Purchase(2, price, quantity)));
    SaleRests(m, Start(m, 0), 1, price, quantity, i);
    PurchaseDrains(m, Step(m, Start(m, 0), New(Sale(1, price, quantity))).state, RestingSale(1, price, quantity, 1),
        2, i);
  }

  /** A sell order that finds no room in the aggregate of its empty level is accepted and then refused. */
  lemma SaleRefused(m: Market, s: State, id: u64, price: u64, quantity: u64, i: nat)
    requires m.Sound() && s.book.bids == [] && s.book.asks == [] && s.seqNo < U64_MAX
    requires id != 0 && price != 0 && quantity != 0 && m.Ladder(Sell).IndexOf(price) == Ok(i)
    requires i < |s.book.staleAsks| && s.book.staleAsks[i] + quantity > U64_MAX
    ensures Step(m, s, New(Sale(id, price, quantity))) ==
      Stepped(s.(seqNo := s.seqNo + 1), Accepted([], Refused(quantity, OverflowError)))
  {
    hide Config.Sound, Config.IndexOf, Config.PriceAt;
    var o := Sale(id, price, quantity);
    LadderSound(m, Buy);
    MatchCases(m.Ladder(Buy), o, [], s.book.staleBids, quantity);
    assert Executions(o, []) == [];
  }

  lemma OneMore(m: Market, s: State, events: seq<Event>, e: Event)
    requires m.Sound()
    ensures var before := Run(m, s, events); var x := Step(m, before.state, e);
      Run(m, s, events + [e]) == Ran(x.state, before.outcomes + [x.outcome])
  {
    hide Step;
    assert (events + [e])[..|events|] == events;
  }

  /**
   * Once the largest quantity has been sold and bought back at a price, the level is empty and refuses
   * every further order, whatever its quantity.
   */
  lemma DriftedLevelRefuses(m: Market, price: u64, quantity: u64, i: nat)
    requires m.Sound() && price != 0 && quantity != 0 && m.Ladder(Sell).IndexOf(price) == Ok(i) && i < m.levelCount
    ensures var traded := [New(Sale(1, price, U64_MAX)), New(Purchase(2, price, U64_MAX))];
      var end := Run(m, Start(m, 0), traded + [New(Sale(3, price, quantity))]);
      && end.outcomes == [Accepted([], Rested(U64_MAX)), Accepted([Execution(2, 1, price, U64_MAX)], NothingLeft),
                          Accepted([], Refused(quantity, OverflowError))]
      && end.state.book.bids == [] && end.state.book.asks == []
  {
    hide Config.Sound, Config.IndexOf, Config.PriceAt, Market.Sound, Step, Run;
    var sale, purchase := New(Sale(1, price, U64_MAX)), New(Purchase(2, price, U64_MAX));
    TwoEvents(m, Start(m, 0), sale, purchase);
    SaleRests(m, Start(m, 0), 1, price, U64_MAX, i);
    PurchaseDrains(m, Step(m, Start(m, 0), sale).state, RestingSale(1, price, U64_MAX, 1), 2, i);
    OneMore(m, Start(m, 0), [sale, purchase], New(Sale(3, price, quantity)));
    SaleRefused(m, Run(m, Start(m, 0), [sale, purchase]).state, 3, price, quantity, i);
  }

  /** A limit with no tick of its own is noticed only after the order has traded; the remainder is then refused. */
  lemma PurchaseOverruns(m: Market, s: State, r: Resting, id: u64, limit: u64, more: u64, e: Error)
    requires m.Sound() && s.book.bids == [] && s.book.asks == [r] && s.seqNo < U64_MAX
    requires id != 0 && id != r.id && 0 < r.remaining && 0 < more && r.remaining + more <= U64_MAX && r.price <= limit
    requires limit != 0 && m.Ladder(Buy).IndexOf(limit) == Err(e)
    ensures Step(m, s, New(Purchase(id, limit, r.remaining + more))).outcome ==
      Accepted([Execution(id, r.id, r.price, r.remaining)], Refused(more, e))
  {
    hide Config.Sound, Config.IndexOf, Config.PriceAt, AddStale, LevelTotal;
    var o := Purchase(id, limit, r.remaining + more);
    LadderSound(m, Sell);
    var stale' := AddStale(m.Ladder(Sell), s.book.staleAsks, r.price, r.remaining);
    assert [r][1..] == [];
    MatchCases(m.Ladder(Sell), o, [r], s.book.staleAsks, o.quantity);
    MatchCases(m.Ladder(Sell), o, [], stale', more);
    assert [FillOf(r, r.remaining)] + [] == [FillOf(r, r.remaining)];
    assert Executions(o, [FillOf(r, r.remaining)]) == [Execution(id, r.id, r.price, r.remaining)];
  }

  /**
   * For every limit the ladder has no level for, out of range or off tick, a run from the empty book in
   * which an order trades up to that limit and only then has its remainder refused.
   */
  lemma RefusedAfterTrading(m: Market, price: u64, quantity: u64, limit: u64, more: u64, e: Error, i: nat)
    requires m.Sound() && price != 0 && quantity != 0 && m.Ladder(Sell).IndexOf(price) == Ok(i) && i < m.levelCount
    requires price <= limit && m.Ladder(Buy).IndexOf(limit) == Err(e) && 0 < more && quantity + more <= U64_MAX
    ensures Run(m, Start(m, 0), [New(Sale(1, price, quantity)), New(Purchase(2, limit, quantity + more))]).outcomes ==
      [Accepted([], Rested(quantity)), Accepted([Execution(2, 1, price, quantity)], Refused(more, e))]
  {
    hide Config.Sound, Config.IndexOf, Config.PriceAt, Market.Sound, Step, Run;
    var sale := New(Sale(1, price, quantity));
    TwoEvents(m, Start(m, 0), sale, New(Purchase(2, limit, quantity + more)));
    SaleRests(m, Start(m, 0), 1, price, quantity, i);
    PurchaseOverruns(m, Step(m, Start(m, 0), sale).state, RestingSale(1, price, quantity, 1), 2, limit, more, e);
  }

  /** The public insertion of the book does not match: a buy at a resting sell's price is accepted and crosses. */
  lemma BuyAtAsk(m: Market, r: Resting, b: Book, o: Order, i: nat)
    requires m.Sound() && b.bids == [] && b.asks == [r] && o.WellFormed() && o.kind.Limit? && o.side.Buy?
    requires o.remaining > 0 && o.id != r.id && o.price == r.price && m.Ladder(Buy).IndexOf(o.price) == Ok(i)
    requires i < |b.staleBids| && b.staleBids[i] + o.remaining <= U64_MAX
    ensures AddCheck(m, b, o).Ok? && !Spread(Add(b, o))
  {
    hide Config.Sound, Config.IndexOf, Config.PriceAt;
    assert Add(b, o).bids[0] == ToResting(o) && Add(b, o).asks[0] == r;
  }

  /** For every price, a run from the empty book in which a direct insertion after one engine event crosses the book. */
  lemma DirectInsertionCrosses(m: Market, price: u64, quantity: u64, o: Order, i: nat, k: nat)
    requires m.Sound() && price != 0 && quantity != 0 && i < m.levelCount && k < m.levelCount
    requires m.Ladder(Sell).IndexOf(price) == Ok(i) && m.Ladder(Buy).IndexOf(price) == Ok(k)
    requires o.WellFormed() && o.kind.Limit? && o.side.Buy? && o.remaining > 0 && o.id != 1 && o.price == price
    ensures !Spread(After(m, Start(m, 0), [Engine(New(Sale(1, price, quantity))), Direct(o)]).book)
  {
    hide Config.Sound, Config.IndexOf, Config.PriceAt, Market.Sound, Step, AddCheck, Add, Spread;
    var sale := Engine(New(Sale(1, price, quantity)));
    SaleRests(m, Start(m, 0), 1, price, quantity, i);
    assert [sale, Direct(o)][..1] == [sale] && [sale][..0] == [];
    assert After(m, Start(m, 0), [sale]) == Moved(m, After(m, Start(m, 0), []), sale);
    BuyAtAsk(m, RestingSale(1, price, quantity, 1), After(m, Start(m, 0), [sale]).book, o, k);
  }
}
