/** Where every submitted unit of quantity went, over whole runs. */
module Ledger {
  import opened Types
  import opened PriceLevel
  import opened PriceLadder
  import opened AbstractBook
  import opened Runs
  import opened Greedy

  // ---- the journal of a run ---------------------------------------------------------------

  /** What happened to accepted orders, by sequence number, since ids can be reused. */
  datatype Entry =
    | Submit(seqNo: u64, id: u64, side: Side, quantity: u64)
    | Trade(incoming: u64, id: u64, resting: u64, restingId: u64, restingSide: Side, price: u64, quantity: u64,
            completes: bool)
    | Cut(seqNo: u64, id: u64, quantity: u64, left: u64)
    | Withdraw(seqNo: u64, id: u64, quantity: u64)
    | Lapse(seqNo: u64, id: u64, quantity: u64)

  function TradeOf(seqNo: u64, id: u64, side: Side, f: Fill): Entry {
    Trade(seqNo, id, f.seqNo, f.id, side, f.price, f.quantity, f.completes)
  }

  function Trades(seqNo: u64, id: u64, side: Side, fills: seq<Fill>): seq<Entry> {
    seq(|fills|, k requires 0 <= k < |fills| => TradeOf(seqNo, id, side, fills[k]))
  }

  function Withdrawals(list: seq<Resting>, id: u64): seq<Entry> {
    var k := Find(list, id);
    if k < |list| then [Withdraw(list[k].seqNo, id, list[k].remaining)] else []
  }

  function Cuts(list: seq<Resting>, id: u64, quantity: u64): seq<Entry> {
    var k := Find(list, id);
    if k < |list| && quantity <= list[k].remaining
    then [Cut(list[k].seqNo, id, list[k].remaining - quantity, quantity)] else []
  }

  function NewEntries(m: Market, s: State, o: NewOrder): seq<Entry>
    requires m.Sound() && AbstractBook.Entry(s, o).Ok?
  {
    var r := MatchIn(m, s.book, o);
    var remainder := Settle(m, Executed(m, s.book, o), o, r.left);
    [Submit(s.seqNo + 1, o.id, o.side, o.quantity)] + Trades(s.seqNo + 1, o.id, Opposite(o.side), r.fills) +
    (if remainder.Discarded? || remainder.Refused? then [Lapse(s.seqNo + 1, o.id, r.left)] else [])
  }

  function Entries(m: Market, s: State, e: Event): seq<Entry>
    requires m.Sound()
  {
    match e
    case New(o) => if AbstractBook.Entry(s, o).Ok? then NewEntries(m, s, o) else []
    case Cancel(id) => if id == 0 then [] else Withdrawals(s.book.bids, id) + Withdrawals(s.book.asks, id)
    case Reduce(id, quantity) =>
      if Step(m, s, e).outcome == Reduced(true)
      then Cuts(s.book.bids, id, quantity) + Cuts(s.book.asks, id, quantity) else []
    case Foreign => []
  }

  function Journal(m: Market, s: State, events: seq<Event>): seq<Entry>
    requires m.Sound()
  {
    if events == [] then []
    else
      var n := |events| - 1;
      Journal(m, s, events[..n]) + Entries(m, Run(m, s, events[..n]).state, events[n])
  }

  // ---- accounts ---------------------------------------------------------------------------

  datatype Account = Account(submitted: nat, executed: nat, reduced: nat, cancelled: nat, lapsed: nat)
  {
    function Plus(a: Account): Account {
      Account(submitted + a.submitted, executed + a.executed, reduced + a.reduced,
              cancelled + a.cancelled, lapsed + a.lapsed)
    }

    /** What the account says is still resting. */
    function Open(): int { submitted - executed - reduced - cancelled - lapsed }
  }

  function Post(e: Entry, s: nat): Account {
    match e
    case Submit(n, _, _, q) => Account(if n == s then q else 0, 0, 0, 0, 0)
    case Trade(i, _, r, _, _, _, q, _) => Account(0, (if i == s then q else 0) + (if r == s then q else 0), 0, 0, 0)
    case Cut(n, _, q, _) => Account(0, 0, if n == s then q else 0, 0, 0)
    case Withdraw(n, _, q) => Account(0, 0, 0, if n == s then q else 0, 0)
    case Lapse(n, _, q) => Account(0, 0, 0, 0, if n == s then q else 0)
  }

  function Tally(j: seq<Entry>, s: nat): Account {
    if j == [] then Account(0, 0, 0, 0, 0) else Post(j[0], s).Plus(Tally(j[1..], s))
  }

  /** The quantity resting under a sequence number. */
  function QtyOf(list: seq<Resting>, s: nat): nat {
    if list == [] then 0 else (if list[0].seqNo == s then list[0].remaining else 0) + QtyOf(list[1..], s)
  }

  function RestingQty(b: Book, s: nat): nat {
    QtyOf(b.bids, s) + QtyOf(b.asks, s)
  }

  lemma {:induction false} TallyConcat(a: seq<Entry>, b: seq<Entry>, s: nat)
    ensures Tally(a + b, s) == Tally(a, s).Plus(Tally(b, s))
  {
    if a == [] {
      assert a + b == b;
    } else {
      assert (a + b)[1..] == a[1..] + b;
      TallyConcat(a[1..], b, s);
    }
  }

  /** What is still open adds up. */
  lemma OpenConcat(a: seq<Entry>, b: seq<Entry>, s: nat)
    ensures Tally(a + b, s).Open() == Tally(a, s).Open() + Tally(b, s).Open()
  {
    TallyConcat(a, b, s);
  }

  lemma NothingOpen(s: nat)
    ensures Tally([], s).Open() == 0
  {
  }

  lemma TallyOne(e: Entry, s: nat)
    ensures Tally([e], s) == Post(e, s)
  {
    assert [e][1..] == [];
  }

  lemma {:induction false} QtyConcat(a: seq<Resting>, b: seq<Resting>, s: nat)
    ensures QtyOf(a + b, s) == QtyOf(a, s) + QtyOf(b, s)
  {
    if a == [] {
      assert a + b == b;
    } else {
      assert (a + b)[1..] == a[1..] + b;
      QtyConcat(a[1..], b, s);
    }
  }

  lemma QtyOne(o: Resting, s: nat)
    ensures QtyOf([o], s) == if o.seqNo == s then o.remaining else 0
  {
    assert [o][1..] == [];
  }

  lemma QtyHead(list: seq<Resting>, s: nat)
    requires list != []
    ensures QtyOf(list, s) == QtyOf([list[0]], s) + QtyOf(list[1..], s)
  {
    QtyOne(list[0], s);
  }

  lemma QtyAt(list: seq<Resting>, k: nat, s: nat)
    requires k < |list|
    ensures QtyOf(list, s) == QtyOf(list[..k], s) + QtyOf([list[k]], s) + QtyOf(list[k + 1..], s)
  {
    assert list == list[..k] + [list[k]] + list[k + 1..];
    QtyConcat(list[..k] + [list[k]], list[k + 1..], s);
    QtyConcat(list[..k], [list[k]], s);
  }

  // ---- each operation moves quantity between accounts -------------------------------------

  lemma QtyWithout(list: seq<Resting>, k: nat, s: nat)
    requires k < |list|
    ensures QtyOf(Without(list, k), s) == QtyOf(list, s) - if list[k].seqNo == s then list[k].remaining else 0
  {
    hide QtyOf;
    QtyAt(list, k, s);
    QtyOne(list[k], s);
    QtyConcat(list[..k], list[k + 1..], s);
  }

  lemma QtySet(list: seq<Resting>, k: nat, quantity: u64, s: nat)
    requires k < |list|
    ensures QtyOf(list[k := list[k].(remaining := quantity)], s) ==
            QtyOf(list, s) + if list[k].seqNo == s then quantity - list[k].remaining else 0
  {
    hide QtyOf;
    var after := list[k := list[k].(remaining := quantity)];
    QtyAt(list, k, s);
    QtyAt(after, k, s);
    QtyOne(list[k], s);
    QtyOne(after[k], s);
    assert after[..k] == list[..k] && after[k + 1..] == list[k + 1..];
  }

  lemma RemoveMoves(list: seq<Resting>, id: u64, s: nat)
    ensures QtyOf(Remove(list, id), s) == QtyOf(list, s) + Tally(Withdrawals(list, id), s).Open()
  {
    hide QtyOf, Find, Tally, Account.Open;
    var k := Find(list, id);
    if k < |list| {
      QtyWithout(list, k, s);
      OpenOf(Withdraw(list[k].seqNo, id, list[k].remaining), s);
    } else {
      NothingOpen(s);
    }
  }

  /** What one entry does to what is open under a number. */
  lemma OpenOf(e: Entry, s: nat)
    ensures Tally([e], s).Open() == Change(e, s)
  {
    hide Tally;
    TallyOne(e, s);
  }

  function Change(e: Entry, s: nat): int {
    match e
    case Submit(n, _, _, q) => if n == s then q else 0
    case Trade(i, _, r, _, _, _, q, _) => 0 - (if i == s then q else 0) - (if r == s then q else 0)
    case Cut(n, _, q, _) => if n == s then 0 - q else 0
    case Withdraw(n, _, q) => if n == s then 0 - q else 0
    case Lapse(n, _, q) => if n == s then 0 - q else 0
  }

  lemma SetMoves(list: seq<Resting>, id: u64, quantity: u64, s: nat)
    requires Find(list, id) < |list| ==> quantity <= list[Find(list, id)].remaining
    ensures QtyOf(SetRemaining(list, id, quantity), s) == QtyOf(list, s) + Tally(Cuts(list, id, quantity), s).Open()
  {
    hide QtyOf, Find, Tally, Account.Open;
    var k := Find(list, id);
    if k < |list| {
      QtySet(list, k, quantity, s);
      OpenOf(Cut(list[k].seqNo, id, list[k].remaining - quantity, quantity), s);
    } else {
      NothingOpen(s);
    }
  }

  lemma InsertMoves(side: Side, list: seq<Resting>, o: Resting, s: nat)
    ensures QtyOf(Insert(side, list, o), s) == QtyOf(list, s) + if o.seqNo == s then o.remaining else 0
  {
    var k := InsertPos(side, list, o.price);
    QtyConcat(list[..k] + [o], list[k..], s);
    QtyConcat(list[..k], [o], s);
    QtyOne(o, s);
    assert list == list[..k] + list[k..];
    QtyConcat(list[..k], list[k..], s);
  }

  lemma TradesCons(n: u64, id: u64, side: Side, f: Fill, fills: seq<Fill>, s: nat)
    ensures Tally(Trades(n, id, side, [f] + fills), s).Open() ==
            Tally(Trades(n, id, side, fills), s).Open() - (if n == s then f.quantity else 0)
            - (if f.seqNo == s then f.quantity else 0)
  {
    hide Tally, Account.Open;
    var e := TradeOf(n, id, side, f);
    assert Trades(n, id, side, [f] + fills) == [e] + Trades(n, id, side, fills);
    OpenConcat([e], Trades(n, id, side, fills), s);
    OpenOf(e, s);
  }

  /** Executions take from the resting orders and from the incoming order the same quantities. */
  lemma {:induction false} MatchMoves(c: Config, o: NewOrder, opp: seq<Resting>, stale: seq<nat>, quantity: u64,
                                      n: u64, side: Side, s: nat)
    requires c.Sound()
    ensures var r := Match(c, o, opp, stale, quantity);
      QtyOf(r.rest, s) + (if s == n then r.left else 0) ==
      QtyOf(opp, s) + (if s == n then quantity else 0) + Tally(Trades(n, o.id, side, r.fills), s).Open()
    decreases |opp|
  {
    hide AddStale, Config.Sound, Trades, Tally, Account.Open, Crosses, Match, QtyOf, Stops;
    MatchCases(c, o, opp, stale, quantity);
    TradesEmpty(n, o.id, side);
    NothingOpen(s);
    if Stops(o, opp, quantity) {
      return;
    }
    StopsNot(o, opp, quantity);
    QtyHead(opp, s);
    QtyOne(opp[0], s);
    if quantity < opp[0].remaining {
      TradesCons(n, o.id, side, FillOf(opp[0], quantity), [], s);
      var shrunk := opp[0].(remaining := opp[0].remaining - quantity);
      QtyConcat([shrunk], opp[1..], s);
      QtyOne(shrunk, s);
    } else {
      var stale' := AddStale(c, stale, opp[0].price, opp[0].remaining);
      MatchMoves(c, o, opp[1..], stale', quantity - opp[0].remaining, n, side, s);
      var rest := Match(c, o, opp[1..], stale', quantity - opp[0].remaining);
      TradesCons(n, o.id, side, FillOf(opp[0], opp[0].remaining), rest.fills, s);
    }
  }

  lemma StopsNot(o: NewOrder, opp: seq<Resting>, quantity: u64)
    requires !Stops(o, opp, quantity)
    ensures opp != []
  {
  }

  lemma TradesEmpty(n: u64, id: u64, side: Side)
    ensures Trades(n, id, side, []) == []
  {
  }

  // ---- steps and runs ---------------------------------------------------------------------

  lemma NewTally(n: u64, id: u64, side: Side, quantity: u64, trades: seq<Entry>, lapses: bool, left: u64, k: nat)
    ensures Tally([Submit(n, id, side, quantity)] + trades + (if lapses then [Lapse(n, id, left)] else []), k).Open() ==
            (if n == k then quantity else 0) + Tally(trades, k).Open() - (if n == k && lapses then left else 0)
  {
    hide Tally, Account.Open;
    var submit, lapse := Submit(n, id, side, quantity), if lapses then [Lapse(n, id, left)] else [];
    OpenConcat([submit] + trades, lapse, k);
    OpenConcat([submit], trades, k);
    OpenOf(submit, k);
    NothingOpen(k);
    OpenOf(Lapse(n, id, left), k);
  }

  /** What the executions and the settlement leave resting. */
  lemma NewRests(m: Market, s: State, o: NewOrder, k: nat)
    requires m.Sound() && AbstractBook.Entry(s, o).Ok?
    ensures var r := MatchIn(m, s.book, o); var remainder := Settle(m, Executed(m, s.book, o), o, r.left);
      RestingQty(StepNew(m, s, o).state.book, k) ==
      QtyOf(s.book.Orders(o.side), k) + QtyOf(r.rest, k) + if s.seqNo + 1 == k && remainder.Rested? then r.left else 0
  {
    hide QtyOf, Match, Insert, Settle, Market.Sound;
    var r, after := MatchIn(m, s.book, o), Executed(m, s.book, o);
    InsertMoves(o.side, after.Orders(o.side), ToResting(RestOrder(o, r.left, s.seqNo + 1)), k);
  }

  /** An accepted order: what was open before, plus what it brought, is what is open after. */
  lemma NewMoves(m: Market, s: State, o: NewOrder, k: nat)
    requires m.Sound() && AbstractBook.Entry(s, o).Ok?
    ensures RestingQty(StepNew(m, s, o).state.book, k) == RestingQty(s.book, k) + Tally(NewEntries(m, s, o), k).Open()
  {
    hide QtyOf, Tally, Account.Open, Match, Trades, StepNew, Executed, Admit, Market.Sound, Config.Sound;
    LadderSound(m, Opposite(o.side));
    var side, r, n := Opposite(o.side), MatchIn(m, s.book, o), s.seqNo + 1;
    var remainder := Settle(m, Executed(m, s.book, o), o, r.left);
    MatchMoves(m.Ladder(side), o, s.book.Orders(side), s.book.Stale(side), o.quantity, n, side, k);
    var lapses := remainder.Discarded? || remainder.Refused?;
    NewTally(n, o.id, o.side, o.quantity, Trades(n, o.id, side, r.fills), lapses, r.left, k);
    NewRests(m, s, o, k);
  }

  lemma CancelMoves(b: Book, id: u64, k: nat)
    ensures RestingQty(CancelIn(b, id), k) ==
            RestingQty(b, k) + Tally(Withdrawals(b.bids, id) + Withdrawals(b.asks, id), k).Open()
  {
    hide QtyOf, Tally, Account.Open, Remove, Withdrawals;
    RemoveMoves(b.bids, id, k);
    RemoveMoves(b.asks, id, k);
    OpenConcat(Withdrawals(b.bids, id), Withdrawals(b.asks, id), k);
  }

  lemma ReduceMoves(b: Book, id: u64, quantity: u64, k: nat)
    requires Uncrossed(b) && b.Has(id) && quantity <= RemainingOf(b, id)
    ensures RestingQty(ReduceIn(b, id, quantity), k) ==
            RestingQty(b, k) + Tally(Cuts(b.bids, id, quantity) + Cuts(b.asks, id, quantity), k).Open()
  {
    hide QtyOf, Tally, Account.Open, SetRemaining, Cuts, Find, Uncrossed;
    OneSide(b, id);
    SetMoves(b.bids, id, quantity, k);
    SetMoves(b.asks, id, quantity, k);
    OpenConcat(Cuts(b.bids, id, quantity), Cuts(b.asks, id, quantity), k);
  }

  lemma StepMoves(m: Market, s: State, e: Event, k: nat)
    requires m.Sound() && Sound(m, s)
    ensures RestingQty(Step(m, s, e).state.book, k) == RestingQty(s.book, k) + Tally(Entries(m, s, e), k).Open()
  {
    hide RestingQty, Tally, Account.Open, StepNew, NewEntries, Market.Sound, CancelIn, ReduceIn, Withdrawals, Cuts,
      Ordered, Residents,
      Uncrossed, Find, RemainingOf, AbstractBook.Entry;
    NothingOpen(k);
    match e
    case New(o) =>
      if AbstractBook.Entry(s, o).Ok? { NewMoves(m, s, o, k); }
    case Cancel(id) =>
      CancelMoves(s.book, id, k);
    case Reduce(id, quantity) =>
      if Step(m, s, e).outcome == Reduced(true) { ReduceMoves(s.book, id, quantity, k); }
    case Foreign =>
  }

  /**
   * Conservation over every run from an empty book: whatever was submitted under a sequence number has
   * been executed, reduced away, cancelled, lapsed as a discarded or refused remainder, or still rests.
   */
  lemma {:induction false} Conservation(m: Market, seqNo: u64, events: seq<Event>, k: nat)
    requires m.Sound()
    ensures var a := Tally(Journal(m, Start(m, seqNo), events), k);
      a.submitted == a.executed + a.reduced + a.cancelled + a.lapsed +
          RestingQty(Run(m, Start(m, seqNo), events).state.book, k)
    decreases |events|
  {
    if events != [] {
      var n := |events| - 1;
      var s := Run(m, Start(m, seqNo), events[..n]).state;
      Conservation(m, seqNo, events[..n], k);
      RunSound(m, seqNo, events[..n]);
      StepMoves(m, s, events[n], k);
      TallyConcat(Journal(m, Start(m, seqNo), events[..n]), Entries(m, s, events[n]), k);
    }
  }
}
