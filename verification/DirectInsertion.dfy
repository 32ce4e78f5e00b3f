/** Runs that mix the engine with the book's public insertion, which does not match. */
module DirectInsertion {
  import opened Types
  import opened PriceLevel
  import opened PriceLadder
  import opened AbstractBook
  import opened Runs

  /** An event of the engine, or an order added to the book by its caller, under any sequence number. */
  datatype Move = Engine(event: Event) | Direct(order: Order)

  function Moved(m: Market, s: State, move: Move): State
    requires m.Sound()
  {
    match move
    case Engine(e) => Step(m, s, e).state
    case Direct(o) => if AddCheck(m, s.book, o).Ok? then s.(book := Add(s.book, o)) else s
  }

  function After(m: Market, s: State, moves: seq<Move>): State
    requires m.Sound()
  {
    if moves == [] then s else Moved(m, After(m, s, moves[..|moves| - 1]), moves[|moves| - 1])
  }

  ghost predicate RankedBook(b: Book) {
    Ranked(Buy, b.bids) && Ranked(Sell, b.asks)
  }

  // ---- lists that only lose orders ----------------------------------------------------------

  ghost predicate Picks(list: seq<Resting>, rest: seq<Resting>, f: seq<nat>) {
    && |f| == |rest| && (forall i | 0 <= i < |f| :: f[i] < |list| && rest[i].price == list[f[i]].price)
    && forall i, j | 0 <= i < j < |f| :: f[i] < f[j]
  }

  /** The prices of rest are those of some orders of list, in the same order. */
  ghost predicate Thinned(list: seq<Resting>, rest: seq<Resting>) {
    exists f :: Picks(list, rest, f)
  }

  lemma RankedThinned(side: Side, list: seq<Resting>, rest: seq<Resting>)
    requires Ranked(side, list) && Thinned(list, rest)
    ensures Ranked(side, rest)
  {
    var f :| Picks(list, rest, f);
    forall i, j | 0 <= i < j < |rest|
      ensures !Better(side, rest[j].price, rest[i].price)
    {
      assert f[i] < f[j];
      assert !Better(side, list[f[j]].price, list[f[i]].price);
    }
  }

  lemma SpreadThinned(b: Book, side: Side, rest: seq<Resting>)
    requires Spread(b) && Thinned(b.Orders(side), rest)
    ensures Spread(b.With(side, rest))
  {
    var f :| Picks(b.Orders(side), rest, f);
    forall i | 0 <= i < |rest|
      ensures f[i] < |b.Orders(side)| && rest[i].price == b.Orders(side)[f[i]].price
    {
    }
  }

  lemma RemoveThinned(list: seq<Resting>, id: u64)
    ensures Thinned(list, Remove(list, id))
  {
    hide Find;
    var k, rest := Find(list, id), Remove(list, id);
    assert Picks(list, rest, seq(|rest|, i requires 0 <= i < |rest| => if i < k then i else i + 1));
  }

  lemma SetThinned(list: seq<Resting>, id: u64, quantity: u64)
    ensures Thinned(list, SetRemaining(list, id, quantity))
  {
    hide Find;
    assert Picks(list, SetRemaining(list, id, quantity), seq(|list|, i requires 0 <= i < |list| => i));
  }

  lemma TailThinned(list: seq<Resting>, rest: seq<Resting>)
    requires TailOf(list, rest)
    ensures Thinned(list, rest)
  {
    var d := |list| - |rest|;
    var f := seq(|rest|, i requires 0 <= i < |rest| => d + i);
    forall i | 0 <= i < |rest|
      ensures f[i] < |list| && rest[i].price == list[f[i]].price
    {
      assert Lessened(list[d + i], rest[i]);
    }
    assert Picks(list, rest, f);
  }

  lemma InsertRanked(side: Side, list: seq<Resting>, o: Resting)
    requires Ranked(side, list)
    ensures Ranked(side, Insert(side, list, o))
  {
    InsertPoint(side, list, o.price);
    var k, after := InsertPos(side, list, o.price), Insert(side, list, o);
    forall i, j | 0 <= i < j < |after|
      ensures !Better(side, after[j].price, after[i].price)
    {
      if i != k && j != k {
        var i', j' := if i < k then i else i - 1, if j < k then j else j - 1;
        assert !Better(side, list[j'].price, list[i'].price);
      }
    }
  }

  // ---- every move keeps the ranking -----------------------------------------------------------

  lemma CancelRanked(b: Book, id: u64)
    requires RankedBook(b)
    ensures RankedBook(CancelIn(b, id)) && (Spread(b) ==> Spread(CancelIn(b, id)))
  {
    hide Remove, Ranked, Spread, Thinned;
    RemoveThinned(b.bids, id);
    RemoveThinned(b.asks, id);
    ThinBoth(b, Remove(b.bids, id), Remove(b.asks, id));
  }

  lemma ReduceRanked(b: Book, id: u64, quantity: u64)
    requires RankedBook(b)
    ensures RankedBook(ReduceIn(b, id, quantity)) && (Spread(b) ==> Spread(ReduceIn(b, id, quantity)))
  {
    hide SetRemaining, Ranked, Spread, Thinned;
    SetThinned(b.bids, id, quantity);
    SetThinned(b.asks, id, quantity);
    ThinBoth(b, SetRemaining(b.bids, id, quantity), SetRemaining(b.asks, id, quantity));
  }

  lemma ThinBoth(b: Book, bids: seq<Resting>, asks: seq<Resting>)
    requires RankedBook(b) && Thinned(b.bids, bids) && Thinned(b.asks, asks)
    ensures RankedBook(b.(bids := bids, asks := asks)) && (Spread(b) ==> Spread(b.(bids := bids, asks := asks)))
  {
    hide Ranked, Spread, Thinned;
    RankedThinned(Buy, b.bids, bids);
    RankedThinned(Sell, b.asks, asks);
    if Spread(b) {
      SpreadThinned(b, Buy, bids);
      SpreadThinned(b.(bids := bids), Sell, asks);
    }
  }

  lemma ExecutedRanked(m: Market, b: Book, o: NewOrder)
    requires m.Sound() && RankedBook(b)
    ensures RankedBook(Executed(m, b, o)) && (Spread(b) ==> Spread(Executed(m, b, o)))
  {
    hide Ranked, Thinned, Match, Config.Sound, Spread;
    var side := Opposite(o.side);
    var list, r := b.Orders(side), MatchIn(m, b, o);
    LadderSound(m, side);
    MatchSuffix(m.Ladder(side), o, list, b.Stale(side), o.quantity);
    TailThinned(list, r.rest);
    RankedThinned(side, list, r.rest);
    if Spread(b) {
      SpreadThinned(b, side, r.rest);
      SpreadStale(b.With(side, r.rest), side, r.stale);
    }
  }

  lemma SpreadStale(b: Book, side: Side, stale: seq<nat>)
    requires Spread(b)
    ensures Spread(b.WithStale(side, stale))
  {
  }

  lemma AddRanked(b: Book, o: Order)
    requires RankedBook(b) && !o.side.BadSide?
    ensures RankedBook(Add(b, o)) && (Spread(b) ==> (Spread(Add(b, o)) <==> Short(b, o.side, o.price)))
  {
    hide Ranked, Spread, Short, Insert;
    InsertRanked(o.side, b.Orders(o.side), ToResting(o));
    if Spread(b) { AddUncrossedIff(b, o); }
  }

  lemma NewRanked(m: Market, s: State, o: NewOrder)
    requires m.Sound() && RankedBook(s.book) && Entry(s, o).Ok?
    ensures var b := StepNew(m, s, o).state.book; RankedBook(b) && (Spread(s.book) ==> Spread(b))
  {
    hide RankedBook, Spread, Match, AddStale, Config.Sound, Admit, Add;
    var side, after, r := Opposite(o.side), Executed(m, s.book, o), MatchIn(m, s.book, o);
    LadderSound(m, side);
    ExecutedRanked(m, s.book, o);
    MatchStops(m.Ladder(side), o, s.book.Orders(side), s.book.Stale(side), o.quantity);
    AddRanked(after, RestOrder(o, r.left, s.seqNo + 1));
  }

  /** A move keeps the ranking; it keeps bids below asks unless it is an accepted direct insertion that is not short. */
  lemma MoveRanked(m: Market, s: State, move: Move)
    requires m.Sound() && RankedBook(s.book)
    ensures RankedBook(Moved(m, s, move).book)
    ensures Spread(s.book) ==> (Spread(Moved(m, s, move).book) <==> Minds(m, s, move))
  {
    hide RankedBook, Spread, Short, Market.Sound, Entry, StepNew, CancelIn, ReduceIn, Add, Admit, RemainingOf, Find;
    match move
    case Direct(o) =>
      if AddCheck(m, s.book, o).Ok? { AddRanked(s.book, o); }
    case Engine(e) =>
      match e
      case New(o) => if Entry(s, o).Ok? { NewRanked(m, s, o); }
      case Cancel(id) => CancelRanked(s.book, id);
      case Reduce(id, quantity) => ReduceRanked(s.book, id, quantity);
      case Foreign =>
  }

  // ---- every mixed run ------------------------------------------------------------------------

  /** A direct insertion that the book would accept stays short of the other side's best. */
  predicate Minds(m: Market, s: State, move: Move)
    requires m.Sound()
  {
    move.Direct? && AddCheck(m, s.book, move.order).Ok? ==> Short(s.book, move.order.side, move.order.price)
  }

  ghost predicate MindsAt(m: Market, s: State, moves: seq<Move>, k: nat)
    requires m.Sound() && k < |moves|
  {
    Minds(m, After(m, s, moves[..k]), moves[k])
  }

  ghost predicate SpreadAt(m: Market, s: State, moves: seq<Move>, k: nat)
    requires m.Sound() && k <= |moves|
  {
    Spread(After(m, s, moves[..k]).book)
  }

  /** In every mixed run both lists stay in price order, whatever numbers the direct insertions carry. */
  lemma {:induction false} AfterRanked(m: Market, seqNo: u64, moves: seq<Move>)
    requires m.Sound()
    ensures RankedBook(After(m, Start(m, seqNo), moves).book)
    decreases |moves|
  {
    if moves != [] {
      hide RankedBook, Moved;
      var n := |moves| - 1;
      AfterRanked(m, seqNo, moves[..n]);
      MoveRanked(m, After(m, Start(m, seqNo), moves[..n]), moves[n]);
    }
  }

  /**
   * A run that mixes the engine with direct insertions is uncrossed in all its states if and only if
   * every direct insertion the book accepted stayed strictly short of the other side's best at the time.
   */
  lemma {:induction false} MixedUncrossedIff(m: Market, seqNo: u64, moves: seq<Move>)
    requires m.Sound()
    ensures (forall k | 0 <= k <= |moves| :: SpreadAt(m, Start(m, seqNo), moves, k)) <==>
            (forall k | 0 <= k < |moves| :: MindsAt(m, Start(m, seqNo), moves, k))
    decreases |moves|
  {
    hide Moved, Minds, Spread, RankedBook, Market.Sound;
    var s := Start(m, seqNo);
    if moves == [] {
      EmptySpread(m, seqNo);
      assert SpreadAt(m, s, moves, 0);
    } else {
      var n := |moves| - 1;
      var before := moves[..n];
      MixedUncrossedIff(m, seqNo, before);
      forall k | 0 <= k <= n
        ensures SpreadAt(m, s, moves, k) == SpreadAt(m, s, before, k)
        ensures k < n ==> MindsAt(m, s, moves, k) == MindsAt(m, s, before, k)
      {
        assert before[..k] == moves[..k];
      }
      assert moves[..n + 1] == moves;
      AfterRanked(m, seqNo, before);
      MoveRanked(m, After(m, s, before), moves[n]);
      assert SpreadAt(m, s, moves, n) ==> (SpreadAt(m, s, moves, n + 1) <==> MindsAt(m, s, moves, n));
    }
  }

  lemma EmptySpread(m: Market, seqNo: u64)
    ensures Spread(Start(m, seqNo).book)
  {
  }
}
