/**
 * What each event answers and does in every reachable state, said element by element of the two lists
 * and in plain prices and quantities.
 */
module Answers {
  import opened Types
  import opened PriceLevel
  import opened PriceLadder
  import opened AbstractBook
  import opened Runs
  import opened Greedy
  import opened Reports
  import Ledger
  import Accounting
  import Refusals

  ghost predicate HasId(list: seq<Resting>, id: u64) {
    exists k :: 0 <= k < |list| && list[k].id == id
  }

  lemma FoundIff(list: seq<Resting>, id: u64)
    ensures HasId(list, id) <==> Find(list, id) < |list|
  {
    FindNone(list, id);
    var k := Find(list, id);
    if k < |list| { assert list[k].id == id; }
  }

  ghost function Reached(m: Market, seqNo: u64, events: seq<Event>): State
    requires m.Sound()
  {
    Run(m, Start(m, seqNo), events).state
  }

  // ---- the book itself ----------------------------------------------------------------------

  /** An order of a reachable book, by itself. */
  ghost predicate RestsWell(m: Market, n: nat, x: Resting) {
    0 < x.remaining <= x.original && x.id != 0 && 0 < x.seqNo <= n && OnTick(m, x.price)
  }

  /**
   * Every reachable book: bids fall and asks rise in price, orders at one price stand in the order of
   * their numbers, every bid is below every ask, and no id and no number occurs twice.
   */
  lemma BookInOrder(m: Market, seqNo: u64, events: seq<Event>)
    requires m.Sound()
    ensures var s := Reached(m, seqNo, events); var bids, asks := s.book.bids, s.book.asks;
      && (forall i, j | 0 <= i < j < |bids| ::
            && (bids[i].price > bids[j].price || (bids[i].price == bids[j].price && bids[i].seqNo < bids[j].seqNo))
            && bids[i].id != bids[j].id && bids[i].seqNo != bids[j].seqNo)
      && (forall i, j | 0 <= i < j < |asks| ::
            && (asks[i].price < asks[j].price || (asks[i].price == asks[j].price && asks[i].seqNo < asks[j].seqNo))
            && asks[i].id != asks[j].id && asks[i].seqNo != asks[j].seqNo)
      && (forall i, j | 0 <= i < |bids| && 0 <= j < |asks| ::
            bids[i].price < asks[j].price && bids[i].id != asks[j].id && bids[i].seqNo != asks[j].seqNo)
      && (forall i | 0 <= i < |bids| :: RestsWell(m, s.seqNo, bids[i]))
      && (forall i | 0 <= i < |asks| :: RestsWell(m, s.seqNo, asks[i]))
  {
    hide Run, Market.Sound, Ordered, Uncrossed, RestsWell;
    var s := Reached(m, seqNo, events);
    RunSound(m, seqNo, events);
    InPriceOrder(s.book);
    forall i | 0 <= i < |s.book.bids|
      ensures RestsWell(m, s.seqNo, s.book.bids[i])
    {
      RestingWell(m, Buy, s.seqNo, s.book.bids[i]);
    }
    forall i | 0 <= i < |s.book.asks|
      ensures RestsWell(m, s.seqNo, s.book.asks[i])
    {
      RestingWell(m, Sell, s.seqNo, s.book.asks[i]);
    }
  }

  lemma InPriceOrder(b: Book)
    requires Ordered(Buy, b.bids) && Ordered(Sell, b.asks) && Uncrossed(b)
    ensures forall i, j | 0 <= i < j < |b.bids| ::
      && (b.bids[i].price > b.bids[j].price ||
          (b.bids[i].price == b.bids[j].price && b.bids[i].seqNo < b.bids[j].seqNo))
      && b.bids[i].id != b.bids[j].id && b.bids[i].seqNo != b.bids[j].seqNo
    ensures forall i, j | 0 <= i < j < |b.asks| ::
      && (b.asks[i].price < b.asks[j].price ||
          (b.asks[i].price == b.asks[j].price && b.asks[i].seqNo < b.asks[j].seqNo))
      && b.asks[i].id != b.asks[j].id && b.asks[i].seqNo != b.asks[j].seqNo
    ensures forall i, j | 0 <= i < |b.bids| && 0 <= j < |b.asks| ::
      b.bids[i].price < b.asks[j].price && b.bids[i].id != b.asks[j].id && b.bids[i].seqNo != b.asks[j].seqNo
  {
    assert forall i, j | 0 <= i < j < |b.bids| :: Prior(Buy, b.bids[i], b.bids[j]) && Apart(b.bids[i], b.bids[j]);
    assert forall i, j | 0 <= i < j < |b.asks| :: Prior(Sell, b.asks[i], b.asks[j]) && Apart(b.asks[i], b.asks[j]);
    assert forall i, j | 0 <= i < |b.bids| && 0 <= j < |b.asks| :: Apart(b.bids[i], b.asks[j]);
  }

  lemma RestingWell(m: Market, side: Side, n: nat, x: Resting)
    requires m.Sound() && !side.BadSide? && Resident(m, side, n, x)
    ensures RestsWell(m, n, x)
  {
    hide Config.IndexOf, Config.PriceAt, OnTick, Market.Sound;
    IndexIff(m, side, x.price);
  }

  // ---- which new orders are accepted --------------------------------------------------------

  /** The fields of an incoming order that the engine asks for, whatever the book holds. */
  predicate FieldsOk(o: NewOrder) {
    && o.id != 0 && o.quantity != 0 && o.timestamp != 0
    && (o.side == Buy || o.side == Sell)
    && ((o.kind.Limit? && o.price != 0) || (o.kind.Market? && o.price == 0))
  }

  /** The four answers to a new order, each with its exact condition; a rejection changes nothing. */
  lemma NewAnswer(m: Market, s: State, o: NewOrder)
    requires m.Sound()
    ensures var r := Step(m, s, New(o));
      var taken := HasId(s.book.bids, o.id) || HasId(s.book.asks, o.id);
      && (r.outcome.Accepted? <==> FieldsOk(o) && !taken && s.seqNo < U64_MAX)
      && (r.outcome == Rejected(LogicError) <==> FieldsOk(o) && taken)
      && (r.outcome == Rejected(OverflowError) <==> FieldsOk(o) && !taken && s.seqNo == U64_MAX)
      && (r.outcome == Rejected(InvalidArgument) <==> !FieldsOk(o))
      && (if r.outcome.Accepted? then r.state.seqNo == s.seqNo + 1 else r.state == s)
  {
    hide Find, HasId, MatchIn, Executed, Settle, Add, Market.Sound;
    FoundIff(s.book.bids, o.id);
    FoundIff(s.book.asks, o.id);
  }

  // ---- cancelling and reducing --------------------------------------------------------------

  /** Only element k changed, and of it only the remaining quantity. */
  ghost predicate Shrunk(before: seq<Resting>, after: seq<Resting>, k: nat, quantity: u64) {
    && |after| == |before| && k < |before|
    && (forall j | 0 <= j < |before| && j != k :: after[j] == before[j])
    && after[k] == before[k].(remaining := quantity)
  }

  ghost predicate SameButBids(s: State, t: State) {
    t.seqNo == s.seqNo && t.book.asks == s.book.asks && t.book.staleBids == s.book.staleBids &&
    t.book.staleAsks == s.book.staleAsks
  }

  ghost predicate SameButAsks(s: State, t: State) {
    t.seqNo == s.seqNo && t.book.bids == s.book.bids && t.book.staleBids == s.book.staleBids &&
    t.book.staleAsks == s.book.staleAsks
  }

  /** In a list in priority order the element with an id is where the search finds it. */
  lemma FoundAt(side: Side, list: seq<Resting>, k: nat)
    requires Ordered(side, list) && k < |list|
    ensures Find(list, list[k].id) == k
  {
    forall j | 0 <= j < k
      ensures list[j].id != list[k].id
    {
      assert Apart(list[j], list[k]);
    }
    FindFirst(list, list[k].id, k);
  }

  lemma OnlyOn(b: Book, id: u64)
    requires Uncrossed(b)
    ensures !(HasId(b.bids, id) && HasId(b.asks, id))
  {
    hide Find, HasId, Uncrossed;
    FoundIff(b.bids, id);
    FoundIff(b.asks, id);
    OneSide(b, id);
  }

  /** A bid under the id is reduced in place, or the quantity is refused and nothing changes. */
  lemma ReduceBid(m: Market, seqNo: u64, events: seq<Event>, k: nat, quantity: u64)
    requires m.Sound() && k < |Reached(m, seqNo, events).book.bids|
    ensures var s := Reached(m, seqNo, events);
      var r := Step(m, s, Reduce(s.book.bids[k].id, quantity));
      if 0 < quantity <= s.book.bids[k].remaining then
        r.outcome == Reduced(true) && Shrunk(s.book.bids, r.state.book.bids, k, quantity) && SameButBids(s, r.state)
      else r.outcome == Rejected(InvalidArgument) && r.state == s
  {
    hide Run, Ordered, Uncrossed, Market.Sound, Find;
    var s := Reached(m, seqNo, events);
    RunSound(m, seqNo, events);
    FoundAt(Buy, s.book.bids, k);
    OneSide(s.book, s.book.bids[k].id);
    assert Resident(m, Buy, s.seqNo, s.book.bids[k]);
  }

  /** An ask under the id is reduced in place, or the quantity is refused and nothing changes. */
  lemma ReduceAsk(m: Market, seqNo: u64, events: seq<Event>, k: nat, quantity: u64)
    requires m.Sound() && k < |Reached(m, seqNo, events).book.asks|
    ensures var s := Reached(m, seqNo, events);
      var r := Step(m, s, Reduce(s.book.asks[k].id, quantity));
      if 0 < quantity <= s.book.asks[k].remaining then
        r.outcome == Reduced(true) && Shrunk(s.book.asks, r.state.book.asks, k, quantity) && SameButAsks(s, r.state)
      else r.outcome == Rejected(InvalidArgument) && r.state == s
  {
    hide Run, Ordered, Uncrossed, Market.Sound, Find;
    var s := Reached(m, seqNo, events);
    RunSound(m, seqNo, events);
    FoundAt(Sell, s.book.asks, k);
    OneSide(s.book, s.book.asks[k].id);
    assert Resident(m, Sell, s.seqNo, s.book.asks[k]);
  }

  /** A bid under the id leaves its list, and nothing else changes. */
  lemma CancelBid(m: Market, seqNo: u64, events: seq<Event>, k: nat)
    requires m.Sound() && k < |Reached(m, seqNo, events).book.bids|
    ensures var s := Reached(m, seqNo, events);
      var r := Step(m, s, Cancel(s.book.bids[k].id));
      && r.outcome == Cancelled(true) && r.state.book.bids == s.book.bids[..k] + s.book.bids[k + 1..]
      && SameButBids(s, r.state)
  {
    hide Run, Ordered, Uncrossed, Market.Sound, Find;
    var s := Reached(m, seqNo, events);
    RunSound(m, seqNo, events);
    FoundAt(Buy, s.book.bids, k);
    OneSide(s.book, s.book.bids[k].id);
    assert Resident(m, Buy, s.seqNo, s.book.bids[k]);
  }

  /** An ask under the id leaves its list, and nothing else changes. */
  lemma CancelAsk(m: Market, seqNo: u64, events: seq<Event>, k: nat)
    requires m.Sound() && k < |Reached(m, seqNo, events).book.asks|
    ensures var s := Reached(m, seqNo, events);
      var r := Step(m, s, Cancel(s.book.asks[k].id));
      && r.outcome == Cancelled(true) && r.state.book.asks == s.book.asks[..k] + s.book.asks[k + 1..]
      && SameButAsks(s, r.state)
  {
    hide Run, Ordered, Uncrossed, Market.Sound, Find;
    var s := Reached(m, seqNo, events);
    RunSound(m, seqNo, events);
    FoundAt(Sell, s.book.asks, k);
    OneSide(s.book, s.book.asks[k].id);
    assert Resident(m, Sell, s.seqNo, s.book.asks[k]);
  }

  /** An id under which nothing rests is reported, id 0 is refused, and neither changes anything. */
  lemma AbsentAnswer(m: Market, s: State, id: u64, quantity: u64)
    requires m.Sound() && !HasId(s.book.bids, id) && !HasId(s.book.asks, id)
    ensures Step(m, s, Reduce(id, quantity)) ==
            Stepped(s, if id == 0 then Rejected(InvalidArgument) else Reduced(false))
    ensures Step(m, s, Cancel(id)) ==
            Stepped(s, if id == 0 then Rejected(InvalidArgument) else Cancelled(false))
  {
    hide Find, HasId, Market.Sound;
    FoundIff(s.book.bids, id);
    FoundIff(s.book.asks, id);
  }

  // ---- executions ---------------------------------------------------------------------------

  function Filled(executions: seq<Execution>): nat {
    if executions == [] then 0 else executions[0].quantity + Filled(executions[1..])
  }

  /** A price that suits the incoming order: any for a market order, at most the limit to buy, at least to sell. */
  predicate Suits(o: NewOrder, price: u64) {
    match o.kind
    case Limit => (o.side == Buy && price <= o.price) || (o.side == Sell && price >= o.price)
    case _ => true
  }

  /** What rests on a list at prices that suit the order. */
  function Supply(o: NewOrder, list: seq<Resting>): nat {
    if list == [] then 0 else (if Suits(o, list[0].price) then list[0].remaining else 0) + Supply(o, list[1..])
  }

  function Against(b: Book, o: NewOrder): seq<Resting> {
    if o.side == Buy then b.asks else b.bids
  }

  function Own(b: Book, o: NewOrder): seq<Resting> {
    if o.side == Buy then b.bids else b.asks
  }

  /** Execution k is against order k of the opposing list, at its price, and takes all of it unless it is the last. */
  ghost predicate InTurn(o: NewOrder, opp: seq<Resting>, ex: seq<Execution>) {
    && |ex| <= |opp|
    && forall k | 0 <= k < |ex| ::
         && ex[k].incoming == o.id && ex[k].resting == opp[k].id && ex[k].price == opp[k].price
         && 0 < ex[k].quantity <= opp[k].remaining && (k + 1 < |ex| ==> ex[k].quantity == opp[k].remaining)
  }

  /** The opposing list without what was executed; an order filled in part keeps its place and all else. */
  ghost predicate Consumed(opp: seq<Resting>, ex: seq<Execution>, after: seq<Resting>)
    requires |ex| <= |opp|
  {
    var n := |ex|;
    if n == 0 then after == opp
    else if ex[n - 1].quantity == opp[n - 1].remaining then after == opp[n..]
    else after != [] && after[1..] == opp[n..] && ex[n - 1].quantity <= opp[n - 1].remaining &&
         after[0] == opp[n - 1].(remaining := opp[n - 1].remaining - ex[n - 1].quantity)
  }

  lemma SuitsIff(o: NewOrder, price: u64)
    requires o.side == Buy || o.side == Sell
    ensures Suits(o, price) <==> Crosses(o, price)
  {
  }

  lemma {:induction false} ExecutedIs(o: NewOrder, fills: seq<Fill>)
    ensures Filled(Executions(o, fills)) == Traded(fills)
  {
    if fills != [] {
      assert Executions(o, fills)[1..] == Executions(o, fills[1..]);
      ExecutedIs(o, fills[1..]);
    }
  }

  lemma TurnIs(o: NewOrder, opp: seq<Resting>, quantity: nat, fills: seq<Fill>, left: nat)
    requires IsGreedy(o, opp, quantity, fills, left)
    ensures InTurn(o, opp, Executions(o, fills)) && Consumed(opp, Executions(o, fills), Greedy.Remainder(opp, fills))
    ensures Filled(Executions(o, fills)) + left == quantity
    ensures |fills| <= |opp| && forall k | 0 <= k < |fills| :: Crosses(o, opp[k].price)
  {
    hide Crosses, Traded, Filled;
    ExecutedIs(o, fills);
    var ex := Executions(o, fills);
    forall k | 0 <= k < |ex|
      ensures ex[k] == Execution(o.id, opp[k].id, opp[k].price, fills[k].quantity) && Crosses(o, opp[k].price)
      ensures 0 < ex[k].quantity <= opp[k].remaining && (k + 1 < |ex| ==> ex[k].quantity == opp[k].remaining)
    {
      assert FillsOrder(o, opp[k], fills[k]);
    }
    if |fills| > 0 {
      assert FillsOrder(o, opp[|fills| - 1], fills[|fills| - 1]);
    }
  }

  /** What an accepted order executes, against the opposing list it meets. */
  ghost predicate ExecutedInTurn(s: State, r: Stepped, o: NewOrder) {
    && r.outcome.Accepted?
    && var ex := r.outcome.executions;
       && InTurn(o, Against(s.book, o), ex) && Consumed(Against(s.book, o), ex, Against(r.state.book, o))
       && Filled(ex) + LeftOver(r.outcome.remainder) == o.quantity
  }

  /**
   * In every reachable state the executions of an accepted order take the opposing list in its order and
   * leave the rest of it alone, and executed plus left over is what was submitted.
   */
  lemma NewExecutes(m: Market, seqNo: u64, events: seq<Event>, o: NewOrder)
    requires m.Sound() && Step(m, Reached(m, seqNo, events), New(o)).outcome.Accepted?
    ensures ExecutedInTurn(Reached(m, seqNo, events), Step(m, Reached(m, seqNo, events), New(o)), o)
    ensures var s := Reached(m, seqNo, events); var n := |Step(m, s, New(o)).outcome.executions|;
      n <= |Against(s.book, o)| && forall k | 0 <= k < n :: Suits(o, Against(s.book, o)[k].price)
  {
    hide Run, IsGreedy, Greedy.Remainder, Crosses, Suits, Filled, InTurn, Consumed, StepNew, Executions, Market.Sound,
      Find;
    var s := Reached(m, seqNo, events);
    var fills := NewFollowsPriority(m, seqNo, events, o);
    var r, opp := Step(m, s, New(o)), Against(s.book, o);
    TurnIs(o, opp, o.quantity, fills, LeftOver(r.outcome.remainder));
    SameLength(o, fills);
    forall k | 0 <= k < |fills|
      ensures Suits(o, opp[k].price)
    {
      SuitsIff(o, opp[k].price);
    }
  }

  lemma SameLength(o: NewOrder, fills: seq<Fill>)
    ensures |Executions(o, fills)| == |fills|
  {
  }

  /** What stays behind suits the order no more. */
  lemma LeavesNone(m: Market, seqNo: u64, events: seq<Event>, o: NewOrder)
    requires m.Sound() && Step(m, Reached(m, seqNo, events), New(o)).outcome.Accepted?
    ensures var r := Step(m, Reached(m, seqNo, events), New(o));
      LeftOver(r.outcome.remainder) > 0 ==>
        forall j | 0 <= j < |Against(r.state.book, o)| :: !Suits(o, Against(r.state.book, o)[j].price)
  {
    hide Run, Crosses, Suits, StepNew, Market.Sound, Find, Uncrossed, Residents;
    var s := Reached(m, seqNo, events);
    var r := Step(m, s, New(o));
    var fills := NewFollowsPriority(m, seqNo, events, o);
    RunSound(m, seqNo, events);
    var opp, after, n := Against(s.book, o), Against(r.state.book, o), |fills|;
    if LeftOver(r.outcome.remainder) > 0 {
      assert n > 0 ==> fills[n - 1].completes;
      assert after == opp[n..];
      forall j | 0 <= j < |after|
        ensures !Suits(o, after[j].price)
      {
        WorseToo(o, opp, n, n + j);
        SuitsIff(o, opp[n + j].price);
      }
    }
  }

  /** Behind an order that does not cross, none does. */
  lemma WorseToo(o: NewOrder, opp: seq<Resting>, n: nat, j: nat)
    requires !o.side.BadSide? && Ordered(Opposite(o.side), opp) && n <= j < |opp| && !Crosses(o, opp[n].price)
    ensures !Crosses(o, opp[j].price)
  {
    if n < j { assert Prior(Opposite(o.side), opp[n], opp[j]); }
  }

  /**
   * Within the limit, in plain prices: every execution of a limit buy is at most at its limit and of a
   * limit sell at least at it; and while something is left, every order still resting on the other side
   * is priced strictly beyond the limit.
   */
  lemma LimitRespected(m: Market, seqNo: u64, events: seq<Event>, o: NewOrder)
    requires m.Sound() && Step(m, Reached(m, seqNo, events), New(o)).outcome.Accepted? && o.kind.Limit?
    ensures var r := Step(m, Reached(m, seqNo, events), New(o)); var ex := r.outcome.executions;
      && (o.side == Buy ==> forall k | 0 <= k < |ex| :: ex[k].price <= o.price)
      && (o.side == Sell ==> forall k | 0 <= k < |ex| :: ex[k].price >= o.price)
      && (Filled(ex) < o.quantity && o.side == Buy ==>
            forall j | 0 <= j < |r.state.book.asks| :: r.state.book.asks[j].price > o.price)
      && (Filled(ex) < o.quantity && o.side == Sell ==>
            forall j | 0 <= j < |r.state.book.bids| :: r.state.book.bids[j].price < o.price)
  {
    hide Run, Filled, Consumed, Step, Market.Sound;
    NewExecutes(m, seqNo, events, o);
    LeavesNone(m, seqNo, events, o);
    var s := Reached(m, seqNo, events);
    var ex := Step(m, s, New(o)).outcome.executions;
    forall k | 0 <= k < |ex|
      ensures Suits(o, ex[k].price)
    {
      assert ex[k].price == Against(s.book, o)[k].price;
    }
  }

  /** An accepted order executes all that the other side supplies at suitable prices, up to its own quantity. */
  lemma ExecutesSupply(m: Market, seqNo: u64, events: seq<Event>, o: NewOrder)
    requires m.Sound() && Step(m, Reached(m, seqNo, events), New(o)).outcome.Accepted?
    ensures var s := Reached(m, seqNo, events); var ex := Step(m, s, New(o)).outcome.executions;
      var supply := Supply(o, Against(s.book, o));
      Filled(ex) == if o.quantity < supply then o.quantity else supply
  {
    hide Run, Filled, Step, Market.Sound, Suits, Supply;
    NewExecutes(m, seqNo, events, o);
    LeavesNone(m, seqNo, events, o);
    var s := Reached(m, seqNo, events);
    var r := Step(m, s, New(o));
    SupplyConsumed(o, Against(s.book, o), r.outcome.executions, Against(r.state.book, o));
    if LeftOver(r.outcome.remainder) > 0 {
      NoSupply(o, Against(r.state.book, o));
    }
  }

  lemma {:induction false} NoSupply(o: NewOrder, list: seq<Resting>)
    requires forall j | 0 <= j < |list| :: !Suits(o, list[j].price)
    ensures Supply(o, list) == 0
  {
    if list != [] { NoSupply(o, list[1..]); }
  }

  /** What was supplied is what was executed plus what is still supplied. */
  lemma {:induction false} SupplyConsumed(o: NewOrder, opp: seq<Resting>, ex: seq<Execution>, after: seq<Resting>)
    requires InTurn(o, opp, ex) && Consumed(opp, ex, after) && forall k | 0 <= k < |ex| :: Suits(o, opp[k].price)
    ensures Supply(o, opp) == Filled(ex) + Supply(o, after)
  {
    hide Suits;
    if |ex| == 1 {
      assert Suits(o, opp[0].price);
      assert ex[1..] == [];
    } else if |ex| > 1 {
      assert Suits(o, opp[0].price) && ex[0].quantity == opp[0].remaining;
      var n := |ex|;
      assert opp[1..][n - 2] == opp[n - 1] && ex[1..][n - 2] == ex[n - 1] && opp[1..][n - 1..] == opp[n..];
      forall k | 0 <= k < n - 1
        ensures ex[1..][k] == ex[k + 1] && opp[1..][k] == opp[k + 1] && Suits(o, opp[1..][k].price)
      {
      }
      SupplyConsumed(o, opp[1..], ex[1..], after);
    }
  }

  function AllRemaining(list: seq<Resting>): nat {
    if list == [] then 0 else list[0].remaining + AllRemaining(list[1..])
  }

  lemma {:induction false} MarketSupply(o: NewOrder, list: seq<Resting>)
    requires o.kind.Market?
    ensures Supply(o, list) == AllRemaining(list)
  {
    if list != [] { MarketSupply(o, list[1..]); }
  }

  /**
   * A market order executes the smaller of its quantity and everything that rests on the other side; it
   * is left with something only when the other side is empty, and that is then discarded.
   */
  lemma MarketSweeps(m: Market, seqNo: u64, events: seq<Event>, o: NewOrder)
    requires m.Sound() && Step(m, Reached(m, seqNo, events), New(o)).outcome.Accepted? && o.kind.Market?
    ensures var s := Reached(m, seqNo, events); var r := Step(m, s, New(o));
      var ex, all := r.outcome.executions, AllRemaining(if o.side == Buy then s.book.asks else s.book.bids);
      && Filled(ex) == (if o.quantity < all then o.quantity else all)
      && (Filled(ex) < o.quantity ==> (if o.side == Buy then r.state.book.asks else r.state.book.bids) == [])
      && r.outcome.remainder ==
         (if Filled(ex) == o.quantity then NothingLeft else Discarded(o.quantity - Filled(ex)))
  {
    hide Run, Filled, Market.Sound, AllRemaining, Supply, InTurn, Consumed, StepNew, Find;
    var s := Reached(m, seqNo, events);
    ExecutesSupply(m, seqNo, events, o);
    MarketSupply(o, Against(s.book, o));
    NewExecutes(m, seqNo, events, o);
    LeavesNone(m, seqNo, events, o);
    MarketRemainder(m, s, o);
    var after := Against(Step(m, s, New(o)).state.book, o);
    assert after != [] ==> Suits(o, after[0].price);
  }

  lemma MarketRemainder(m: Market, s: State, o: NewOrder)
    requires m.Sound() && Entry(s, o).Ok? && o.kind.Market?
    ensures StepNew(m, s, o).outcome.remainder.NothingLeft? || StepNew(m, s, o).outcome.remainder.Discarded?
    ensures StepNew(m, s, o).outcome.remainder.Discarded? ==> StepNew(m, s, o).outcome.remainder.quantity > 0
  {
    hide MatchIn, Executed, Add, Market.Sound;
  }

  // ---- what becomes of the remainder --------------------------------------------------------

  /** Element k is new; everything before it is priced at least as well, everything behind it worse. */
  ghost predicate Spliced(buys: bool, before: seq<Resting>, after: seq<Resting>, x: Resting, k: nat) {
    && k <= |before| && after == before[..k] + [x] + before[k..]
    && (forall j | 0 <= j < k :: if buys then before[j].price >= x.price else before[j].price <= x.price)
    && (forall j | k <= j < |before| :: if buys then before[j].price < x.price else before[j].price > x.price)
  }

  lemma InsertSplices(side: Side, list: seq<Resting>, x: Resting) returns (k: nat)
    requires Ranked(side, list) && !side.BadSide?
    ensures Spliced(side == Buy, list, Insert(side, list, x), x, k)
  {
    InsertPoint(side, list, x.price);
    k := InsertPos(side, list, x.price);
  }

  /**
   * A rested remainder stands behind every order of its side priced at least as well, with the quantity
   * that was submitted as its original, what is left as its remaining quantity and the new number; all
   * other orders of its side, and the whole side when nothing rests, are as before.
   */
  lemma RestedAs(m: Market, seqNo: u64, events: seq<Event>, o: NewOrder) returns (k: nat)
    requires m.Sound() && Step(m, Reached(m, seqNo, events), New(o)).outcome.Accepted?
    ensures var s := Reached(m, seqNo, events); var r := Step(m, s, New(o));
      var left := r.outcome.remainder;
      if left.Rested? then
        Spliced(o.side == Buy, Own(s.book, o), Own(r.state.book, o),
                Resting(o.id, o.price, o.quantity, left.quantity, o.timestamp, s.seqNo + 1), k)
      else Own(r.state.book, o) == Own(s.book, o)
  {
    hide Run, Match, MatchIn, Admit, Market.Sound, Find, Insert, Uncrossed, Residents, Spliced, Ordered;
    var s := Reached(m, seqNo, events);
    RunSound(m, seqNo, events);
    OrderedRanked(o.side, Own(s.book, o));
    var left := Step(m, s, New(o)).outcome.remainder;
    k := 0;
    if left.Rested? {
      k := InsertSplices(o.side, Own(s.book, o),
                         Resting(o.id, o.price, o.quantity, left.quantity, o.timestamp, s.seqNo + 1));
    }
  }

  /** The price of tick i. */
  function Tick(m: Market, i: nat): int { m.minPrice + i * m.tick }

  ghost predicate OnTick(m: Market, price: int) {
    exists i: nat :: i < m.levelCount && price == Tick(m, i)
  }

  predicate InRange(m: Market, price: int) {
    m.minPrice <= price <= m.minPrice + (m.levelCount - 1) * m.tick
  }

  /** A price has an index on either side exactly when it is on a tick; outside the range that is the error reported. */
  lemma IndexIff(m: Market, side: Side, price: u64)
    requires m.Sound() && !side.BadSide?
    ensures var at := m.Ladder(side).IndexOf(price);
      && (at.Ok? <==> OnTick(m, price)) && (OnTick(m, price) ==> InRange(m, price))
      && (at.Ok? ==> at.value < m.levelCount && m.Ladder(side).PriceAt(at.value) == price)
      && (at == Err(OutOfRange) <==> !InRange(m, price))
      && (at == Err(InvalidArgument) <==> InRange(m, price) && !OnTick(m, price))
  {
    hide Config.IndexOf, Config.PriceAt;
    var c := m.Ladder(side);
    PriceAtIndexOf(c, price);
    if c.IndexOf(price).Ok? {
      var i := c.IndexOf(price).value;
      PriceAtIs(c, i);
      assert price == Tick(m, if side.Buy? then m.levelCount - 1 - i else i);
    }
    if OnTick(m, price) {
      var i: nat :| i < m.levelCount && price == Tick(m, i);
      var j := if side.Buy? then m.levelCount - 1 - i else i;
      PriceAtIs(c, j);
      PriceBounds(c, j);
      assert c.PriceAt(j) == price;
    }
  }

  /** What the aggregate of the level at a price says: the sum of what rests there and of what completing fills left. */
  ghost function TotalAt(m: Market, seqNo: u64, events: seq<Event>, side: Side, price: u64): nat
    requires m.Sound()
  {
    SumAt(Reached(m, seqNo, events).book.Orders(side), price) +
    Accounting.Slices(Ledger.Journal(m, Start(m, seqNo), events), side, price)
  }

  /** The fate of what did not execute, in plain prices and quantities. */
  ghost function Settled(m: Market, o: NewOrder, left: u64, total: nat): AbstractBook.Remainder {
    if left == 0 then NothingLeft
    else if o.kind.Market? then Discarded(left)
    else if !InRange(m, o.price) then Refused(left, OutOfRange)
    else if !OnTick(m, o.price) then Refused(left, InvalidArgument)
    else if left + total > U64_MAX then Refused(left, OverflowError)
    else Rested(left)
  }

  lemma AdmitIs(m: Market, b: Book, side: Side, price: u64, quantity: u64, total: nat)
    requires m.Sound() && !side.BadSide?
    requires forall i: nat | i < m.levelCount && m.Ladder(side).PriceAt(i) == price ::
      LevelTotal(m, b, side, i) == total
    ensures Admit(m, b, side, price, quantity) ==
      if !InRange(m, price) then Err(OutOfRange)
      else if !OnTick(m, price) then Err(InvalidArgument)
      else if quantity + total > U64_MAX then Err(OverflowError) else Ok(())
  {
    hide Config.IndexOf, Config.PriceAt, Config.Sound, LevelTotal, InRange, OnTick;
    LadderSound(m, side);
    IndexIff(m, side, price);
    PriceAtIndexOf(m.Ladder(side), price);
  }

  /** The remainder of every accepted order, decided by its price, what did not execute, and the level's aggregate. */
  lemma RemainderIs(m: Market, seqNo: u64, events: seq<Event>, o: NewOrder)
    requires m.Sound() && Step(m, Reached(m, seqNo, events), New(o)).outcome.Accepted?
    ensures var s := Reached(m, seqNo, events); var out := Step(m, s, New(o)).outcome;
      && Filled(out.executions) <= o.quantity
      && out.remainder == Settled(m, o, o.quantity - Filled(out.executions), TotalAt(m, seqNo, events, o.side, o.price))
  {
    hide Run, Filled, InTurn, Consumed, Admit, Market.Sound, Find, TotalAt, InRange, OnTick, Match, Executed, Add;
    var s := Reached(m, seqNo, events);
    NewExecutes(m, seqNo, events, o);
    var left := MatchIn(m, s.book, o).left;
    Refusals.AdmitUnaffected(m, s.book, o, left);
    TotalIsAt(m, seqNo, events, o.side, o.price);
    AdmitIs(m, s.book, o.side, o.price, left, TotalAt(m, seqNo, events, o.side, o.price));
  }

  lemma TotalIsAt(m: Market, seqNo: u64, events: seq<Event>, side: Side, price: u64)
    requires m.Sound() && !side.BadSide?
    ensures forall i: nat | i < m.levelCount && m.Ladder(side).PriceAt(i) == price ::
      LevelTotal(m, Reached(m, seqNo, events).book, side, i) == TotalAt(m, seqNo, events, side, price)
  {
    hide Run, LevelTotal, Accounting.Slices, Accounting.EverCompleted, Ledger.Journal, SumAt, Market.Sound,
      Config.PriceAt;
    forall i: nat | i < m.levelCount && m.Ladder(side).PriceAt(i) == price
      ensures LevelTotal(m, Reached(m, seqNo, events).book, side, i) == TotalAt(m, seqNo, events, side, price)
    {
      Accounting.AggregateAccounting(m, seqNo, events, side, i);
    }
  }

  // ---- direct insertion ---------------------------------------------------------------------

  /** The fields of an order that the book asks for, whatever it holds. */
  predicate OrderOk(o: Order) {
    && o.kind.Limit? && o.id != 0 && o.price != 0 && o.timestamp != 0 && o.seqNo != 0
    && (o.side == Buy || o.side == Sell) && 0 < o.remaining <= o.original
  }

  /** The answers of the book's own insertion, each with its exact condition, in the order of precedence. */
  lemma AddAnswer(m: Market, b: Book, o: Order, total: nat)
    requires m.Sound()
    requires forall i: nat | i < m.levelCount && m.Ladder(o.side).PriceAt(i) == o.price ::
      LevelTotal(m, b, o.side, i) == total
    ensures AddCheck(m, b, o) ==
      if !OrderOk(o) then Err(InvalidArgument)
      else if !InRange(m, o.price) then Err(OutOfRange)
      else if !OnTick(m, o.price) then Err(InvalidArgument)
      else if o.remaining + total > U64_MAX then Err(OverflowError)
      else if HasId(b.bids, o.id) || HasId(b.asks, o.id) then Err(LogicError) else Ok(())
  {
    hide Find, HasId, Admit, InRange, OnTick, Market.Sound, LevelTotal;
    FoundIff(b.bids, o.id);
    FoundIff(b.asks, o.id);
    if OrderOk(o) { AdmitIs(m, b, o.side, o.price, o.remaining, total); }
  }

  /** Where an inserted order stands, and with which fields; nothing else changes. */
  lemma AddPlaces(b: Book, o: Order) returns (k: nat)
    requires Ranked(o.side, b.Orders(o.side)) && (o.side == Buy || o.side == Sell)
    ensures var x := Resting(o.id, o.price, o.original, o.remaining, o.timestamp, o.seqNo);
      && (o.side == Buy ==> Spliced(true, b.bids, Add(b, o).bids, x, k) && Add(b, o).asks == b.asks)
      && (o.side == Sell ==> Spliced(false, b.asks, Add(b, o).asks, x, k) && Add(b, o).bids == b.bids)
      && Add(b, o).staleBids == b.staleBids && Add(b, o).staleAsks == b.staleAsks
  {
    hide Insert, Spliced;
    k := InsertSplices(o.side, b.Orders(o.side), Resting(o.id, o.price, o.original, o.remaining, o.timestamp, o.seqNo));
  }

  // ---- original quantities over runs --------------------------------------------------------

  /** Every order of the list rests with the quantity that was submitted under its number. */
  ghost predicate Originals(j: seq<Ledger.Entry>, list: seq<Resting>) {
    forall k | 0 <= k < |list| :: Ledger.Tally(j, list[k].seqNo).submitted == list[k].original
  }

  /** Orders that stay keep their originals while only later numbers are submitted. */
  lemma OriginalsStay(j: seq<Ledger.Entry>, more: seq<Ledger.Entry>, list: seq<Resting>, rest: seq<Resting>, n: nat)
    requires Originals(j, list) && From(list, rest) && forall k | 0 <= k < |list| :: list[k].seqNo <= n
    requires forall i: nat | i <= n :: Ledger.Tally(more, i).submitted == 0
    ensures Originals(j + more, rest)
  {
    hide Ledger.Tally;
    forall k | 0 <= k < |rest|
      ensures Ledger.Tally(j + more, rest[k].seqNo).submitted == rest[k].original
    {
      assert IsFrom(list, rest[k]);
      var i :| 0 <= i < |list| && Lessened(list[i], rest[k]);
      Ledger.TallyConcat(j, more, rest[k].seqNo);
    }
  }

  lemma EarlierSettled(m: Market, s: State, e: Event)
    requires m.Sound()
    ensures forall i: nat | i <= s.seqNo :: Ledger.Tally(Ledger.Entries(m, s, e), i).submitted == 0
  {
    hide Market.Sound, Step, Ledger.Entries, Ledger.Tally;
    forall i: nat | i <= s.seqNo
      ensures Ledger.Tally(Ledger.Entries(m, s, e), i).submitted == 0
    {
      StepSubmits(m, s, e, i);
    }
  }

  lemma NumbersBound(m: Market, side: Side, n: nat, list: seq<Resting>)
    requires m.Sound() && Residents(m, side, n, list)
    ensures forall k | 0 <= k < |list| :: list[k].seqNo <= n
  {
    forall k | 0 <= k < |list|
      ensures list[k].seqNo <= n
    {
      assert Resident(m, side, n, list[k]);
    }
  }

  /** An event that accepts no order only takes from the lists. */
  lemma QuietFrom(m: Market, s: State, e: Event)
    requires m.Sound() && Sound(m, s) && !Step(m, s, e).outcome.Accepted?
    ensures var b := Step(m, s, e).state.book; From(s.book.bids, b.bids) && From(s.book.asks, b.asks)
  {
    hide Market.Sound, From, Ordered, Residents, Uncrossed, Find, StepNew, Entry, Remove, SetRemaining;
    Accounting.SelfFrom(s.book.bids);
    Accounting.SelfFrom(s.book.asks);
    match e
    case New(o) =>
      NewAnswer(m, s, o);
    case Cancel(id) =>
      RemoveKeeps(Buy, s.book.bids, id);
      RemoveKeeps(Sell, s.book.asks, id);
    case Reduce(id, quantity) =>
      if Step(m, s, e).outcome == Reduced(true) {
        OneSide(s.book, id);
        SetKeeps(Buy, s.book.bids, id, quantity);
        SetKeeps(Sell, s.book.asks, id, quantity);
      }
    case Foreign =>
  }

  lemma StepOriginals(m: Market, seqNo: u64, events: seq<Event>, e: Event)
    requires m.Sound()
    requires var b, j := Reached(m, seqNo, events).book, Ledger.Journal(m, Start(m, seqNo), events);
      Originals(j, b.bids) && Originals(j, b.asks)
    ensures var s := Reached(m, seqNo, events);
      var b, j := Step(m, s, e).state.book, Ledger.Journal(m, Start(m, seqNo), events) + Ledger.Entries(m, s, e);
      Originals(j, b.bids) && Originals(j, b.asks)
  {
    hide Originals, Run, Step, Market.Sound, Ledger.Entries, Ledger.Journal, Ledger.Tally, From, Ordered, Residents,
      Uncrossed;
    var s, j := Reached(m, seqNo, events), Ledger.Journal(m, Start(m, seqNo), events);
    var more, after := Ledger.Entries(m, s, e), Step(m, s, e).state.book;
    RunSound(m, seqNo, events);
    EarlierSettled(m, s, e);
    NumbersBound(m, Buy, s.seqNo, s.book.bids);
    NumbersBound(m, Sell, s.seqNo, s.book.asks);
    if Step(m, s, e).outcome.Accepted? {
      StepSubmits(m, s, e, 0);
      NewOriginals(m, seqNo, events, e.order);
    } else {
      QuietFrom(m, s, e);
      OriginalsStay(j, more, s.book.bids, after.bids, s.seqNo);
      OriginalsStay(j, more, s.book.asks, after.asks, s.seqNo);
    }
  }

  /** The opposing list only loses. */
  lemma AgainstFrom(m: Market, s: State, o: NewOrder)
    requires m.Sound() && Sound(m, s) && Step(m, s, New(o)).outcome.Accepted?
    ensures From(Against(s.book, o), Against(Step(m, s, New(o)).state.book, o))
  {
    hide Market.Sound, From, Sound, MatchIn, Settle, Find;
    Accounting.FillsFollow(m, s, o);
  }

  lemma NewOriginals(m: Market, seqNo: u64, events: seq<Event>, o: NewOrder)
    requires m.Sound() && Step(m, Reached(m, seqNo, events), New(o)).outcome.Accepted?
    requires var b, j := Reached(m, seqNo, events).book, Ledger.Journal(m, Start(m, seqNo), events);
      Originals(j, b.bids) && Originals(j, b.asks)
    ensures var s := Reached(m, seqNo, events); var b := Step(m, s, New(o)).state.book;
      var j := Ledger.Journal(m, Start(m, seqNo), events) + Ledger.Entries(m, s, New(o));
      Originals(j, b.bids) && Originals(j, b.asks)
  {
    hide Originals, Run, Step, Market.Sound, Ledger.Entries, Ledger.Journal, Ledger.Tally, From, Ordered, Residents,
      Uncrossed, Spliced;
    var s, j := Reached(m, seqNo, events), Ledger.Journal(m, Start(m, seqNo), events);
    var more, r := Ledger.Entries(m, s, New(o)), Step(m, s, New(o));
    RunSound(m, seqNo, events);
    EarlierSettled(m, s, New(o));
    NumbersBound(m, Buy, s.seqNo, s.book.bids);
    NumbersBound(m, Sell, s.seqNo, s.book.asks);
    AgainstFrom(m, s, o);
    Accounting.SelfFrom(Own(s.book, o));
    OriginalsStay(j, more, Against(s.book, o), Against(r.state.book, o), s.seqNo);
    OriginalsStay(j, more, Own(s.book, o), Own(s.book, o), s.seqNo);
    var k := RestedAs(m, seqNo, events, o);
    NewAnswer(m, s, o);
    if r.outcome.remainder.Rested? {
      StepSubmits(m, s, New(o), s.seqNo + 1);
      Unsubmitted(m, seqNo, events, s.seqNo + 1);
      Ledger.TallyConcat(j, more, s.seqNo + 1);
      var x := Resting(o.id, o.price, o.quantity, r.outcome.remainder.quantity, o.timestamp, s.seqNo + 1);
      SplicedOriginals(o.side == Buy, j + more, Own(s.book, o), Own(r.state.book, o), x, k);
    }
  }

  lemma SplicedOriginals(buys: bool, j: seq<Ledger.Entry>, before: seq<Resting>, after: seq<Resting>, x: Resting,
                         k: nat)
    requires Spliced(buys, before, after, x, k) && Originals(j, before)
    requires Ledger.Tally(j, x.seqNo).submitted == x.original
    ensures Originals(j, after)
  {
    hide Ledger.Tally;
    forall i | 0 <= i < |after|
      ensures Ledger.Tally(j, after[i].seqNo).submitted == after[i].original
    {
      if i < k {
        assert after[i] == before[i];
      } else if i > k {
        assert after[i] == before[i - 1];
      }
    }
  }

  /** In every reachable state the original of every resting order is what was submitted under its number. */
  lemma {:induction false} OriginalIsSubmitted(m: Market, seqNo: u64, events: seq<Event>)
    requires m.Sound()
    ensures var b, j := Reached(m, seqNo, events).book, Ledger.Journal(m, Start(m, seqNo), events);
      Originals(j, b.bids) && Originals(j, b.asks)
    decreases |events|
  {
    if events != [] {
      hide Originals, Step, Market.Sound, Ledger.Entries;
      var n := |events| - 1;
      OriginalIsSubmitted(m, seqNo, events[..n]);
      RunSound(m, seqNo, events[..n]);
      StepOriginals(m, seqNo, events[..n], events[n]);
    } else {
      NoOriginals(m, seqNo);
    }
  }

  lemma NoOriginals(m: Market, seqNo: u64)
    ensures Originals([], Start(m, seqNo).book.bids) && Originals([], Start(m, seqNo).book.asks)
  {
  }
}
