/** When the remainder of an accepted order is refused, said in terms of the book before the order. */
module Refusals {
  import opened Types
  import opened PriceLadder
  import opened AbstractBook
  import opened Runs
  import opened Greedy
  import Ledger
  import Accounting

  /** How much the opposing side offers within the limit: the leading orders that the order crosses. */
  function Reach(o: NewOrder, opp: seq<Resting>): nat {
    if opp == [] || !Crosses(o, opp[0].price) then 0 else opp[0].remaining + Reach(o, opp[1..])
  }

  /** What is left after matching is what the opposing side does not offer within the limit. */
  lemma {:induction false} LeftIs(c: Config, o: NewOrder, opp: seq<Resting>, stale: seq<nat>, quantity: u64)
    requires c.Sound()
    ensures Match(c, o, opp, stale, quantity).left == if Reach(o, opp) < quantity then quantity - Reach(o, opp) else 0
    decreases |opp|
  {
    hide Match, AddStale, Config.Sound, Crosses;
    MatchCases(c, o, opp, stale, quantity);
    if !Stops(o, opp, quantity) && quantity >= opp[0].remaining {
      LeftIs(c, o, opp[1..], AddStale(c, stale, opp[0].price, opp[0].remaining), quantity - opp[0].remaining);
    }
  }

  /** In a book in priority order the leading orders that cross are all the orders that cross. */
  lemma {:induction false} ReachIsAll(side: Side, o: NewOrder, opp: seq<Resting>)
    requires Ordered(side, opp) && side == Opposite(o.side)
    ensures Reach(o, opp) == Offered(o, opp)
  {
    if opp != [] {
      OrderedRest(side, opp);
      if Crosses(o, opp[0].price) {
        ReachIsAll(side, o, opp[1..]);
      } else {
        forall k | 0 <= k < |opp|
          ensures !Crosses(o, opp[k].price)
        {
          if k > 0 { assert Prior(side, opp[0], opp[k]); }
        }
        NoneOffered(o, opp);
      }
    }
  }

  /** The whole quantity on the opposing side at prices within the limit. */
  function Offered(o: NewOrder, opp: seq<Resting>): nat {
    if opp == [] then 0 else (if Crosses(o, opp[0].price) then opp[0].remaining else 0) + Offered(o, opp[1..])
  }

  lemma {:induction false} NoneOffered(o: NewOrder, opp: seq<Resting>)
    requires forall k | 0 <= k < |opp| :: !Crosses(o, opp[k].price)
    ensures Offered(o, opp) == 0
  {
    if opp != [] { NoneOffered(o, opp[1..]); }
  }

  lemma OrderedRest(side: Side, list: seq<Resting>)
    requires Ordered(side, list) && list != []
    ensures Ordered(side, list[1..])
  {
    forall i, j | 0 <= i < j < |list[1..]|
      ensures Prior(side, list[1..][i], list[1..][j]) && Apart(list[1..][i], list[1..][j])
    {
      assert Prior(side, list[i + 1], list[j + 1]) && Apart(list[i + 1], list[j + 1]);
    }
  }

  /** Executions happen on the other side, so they change nothing about where a remainder may rest. */
  lemma AdmitUnaffected(m: Market, b: Book, o: NewOrder, left: u64)
    requires m.Sound() && !o.side.BadSide?
    ensures Admit(m, Executed(m, b, o), o.side, o.price, left) == Admit(m, b, o.side, o.price, left)
  {
    hide MatchIn, Config.Sound, Config.IndexOf, Config.PriceAt, SumAt;
  }

  /** What becomes of an accepted order, decided on the book it meets. */
  function Fate(m: Market, b: Book, o: NewOrder): AbstractBook.Remainder
    requires m.Sound() && !o.side.BadSide?
  {
    var reach := Reach(o, b.Orders(Opposite(o.side)));
    if o.quantity <= reach then NothingLeft
    else if o.kind.Market? then Discarded(o.quantity - reach)
    else match Admit(m, b, o.side, o.price, o.quantity - reach)
      case Err(e) => Refused(o.quantity - reach, e)
      case Ok(_) => Rested(o.quantity - reach)
  }

  lemma FateIs(m: Market, s: State, o: NewOrder)
    requires m.Sound() && Entry(s, o).Ok?
    ensures StepNew(m, s, o).outcome.remainder == Fate(m, s.book, o)
  {
    hide Match, Admit, Executed, Reach, Config.Sound;
    var side := Opposite(o.side);
    LadderSound(m, side);
    LeftIs(m.Ladder(side), o, s.book.Orders(side), s.book.Stale(side), o.quantity);
    AdmitUnaffected(m, s.book, o, MatchIn(m, s.book, o).left);
  }

  /** There are executions exactly when something is offered within the limit. */
  lemma TradesIff(m: Market, s: State, o: NewOrder)
    requires m.Sound() && Sound(m, s) && Entry(s, o).Ok?
    ensures StepNew(m, s, o).outcome.executions != [] <==> Reach(o, s.book.Orders(Opposite(o.side))) > 0
  {
    hide Match, Executed, Settle, Add, Config.Sound, Crosses, Ordered, Uncrossed, Residents;
    var side := Opposite(o.side);
    LadderSound(m, side);
    AllPositive(m, s, side);
    MatchCases(m.Ladder(side), o, s.book.Orders(side), s.book.Stale(side), o.quantity);
  }

  /**
   * In every reachable state: the remainder of an accepted order is refused if and only if it is a limit
   * order, the opposing side offers less than its quantity within the limit, and the rest would not be
   * admitted on its own level; it has traded before that if and only if anything was offered at all.
   */
  lemma RefusedIff(m: Market, seqNo: u64, events: seq<Event>, o: NewOrder)
    requires m.Sound() && Entry(Run(m, Start(m, seqNo), events).state, o).Ok?
    ensures var s := Run(m, Start(m, seqNo), events).state;
      var reach := Offered(o, s.book.Orders(Opposite(o.side)));
      var out := Step(m, s, New(o)).outcome;
      && (out.remainder.Refused? <==>
            o.kind.Limit? && reach < o.quantity && Admit(m, s.book, o.side, o.price, o.quantity - reach).Err?)
      && (out.remainder.Refused? && out.executions != [] <==>
            o.kind.Limit? && 0 < reach < o.quantity && Admit(m, s.book, o.side, o.price, o.quantity - reach).Err?)
      && out.remainder == Fate(m, s.book, o)
  {
    hide Run, Admit, StepNew, Ordered, Uncrossed, Residents, Market.Sound, Reach, Offered;
    var s, side := Run(m, Start(m, seqNo), events).state, Opposite(o.side);
    RunSound(m, seqNo, events);
    ReachIsAll(side, o, s.book.Orders(side));
    FateIs(m, s, o);
    TradesIff(m, s, o);
  }

  /**
   * On a tick of the ladder the remainder is refused if and only if it does not fit beside what rests at
   * its price and what all completing fills there have left in the aggregate. Without such fills that
   * takes more than a 64-bit quantity of resting orders; with them it can happen on an empty level.
   */
  lemma OverflowIff(m: Market, seqNo: u64, events: seq<Event>, o: NewOrder, i: nat)
    requires m.Sound() && Entry(Run(m, Start(m, seqNo), events).state, o).Ok?
    requires o.kind.Limit? && m.Ladder(o.side).IndexOf(o.price) == Ok(i)
    ensures var s, j := Run(m, Start(m, seqNo), events).state, Ledger.Journal(m, Start(m, seqNo), events);
      var reach := Offered(o, s.book.Orders(Opposite(o.side)));
      var rests, slices := SumAt(s.book.Orders(o.side), o.price), Accounting.Slices(j, o.side, o.price);
      Step(m, s, New(o)).outcome.remainder.Refused? <==>
        reach < o.quantity && o.quantity - reach + rests + slices > U64_MAX
  {
    hide Run, StepNew, Market.Sound, Config.Sound, Config.IndexOf, Config.PriceAt, Offered, SumAt, Ledger.Journal,
      Accounting.Slices, Accounting.EverCompleted, LevelTotal;
    LadderSound(m, o.side);
    PriceAtIndexOf(m.Ladder(o.side), o.price);
    RefusedIff(m, seqNo, events, o);
    Accounting.AggregateAccounting(m, seqNo, events, o.side, i);
  }
}
