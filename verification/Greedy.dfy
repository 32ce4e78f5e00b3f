/** What the matching of one incoming order means, said without the algorithm. */
module Greedy {
  import opened Types
  import opened PriceLadder
  import opened AbstractBook
  import opened Runs

  function Traded(fills: seq<Fill>): nat {
    if fills == [] then 0 else fills[0].quantity + Traded(fills[1..])
  }

  /** Fill k is against order k of the opposing list, at its price, within the limit and within its quantity. */
  ghost predicate FillsOrder(o: NewOrder, r: Resting, f: Fill) {
    && f.id == r.id && f.seqNo == r.seqNo && f.price == r.price && Crosses(o, r.price)
    && 0 < f.quantity <= r.remaining && f.completes == (f.quantity == r.remaining)
  }

  /**
   * The executions follow the opposing list with no order skipped or repeated, all but the last fill
   * their resting order fully, executed plus left over is what was submitted, and something is left
   * over only when every reached order was filled and the next one is absent or out of limit.
   */
  ghost predicate IsGreedy(o: NewOrder, opp: seq<Resting>, quantity: nat, fills: seq<Fill>, left: nat) {
    && |fills| <= |opp|
    && (forall k | 0 <= k < |fills| :: FillsOrder(o, opp[k], fills[k]))
    && (forall k | 0 <= k < |fills| :: k + 1 < |fills| || left > 0 ==> fills[k].completes)
    && Traded(fills) + left == quantity
    && (left > 0 ==> |fills| == |opp| || !Crosses(o, opp[|fills|].price))
  }

  ghost predicate Positive(opp: seq<Resting>) {
    forall k | 0 <= k < |opp| :: opp[k].remaining > 0
  }

  lemma AllPositive(m: Market, s: State, side: Side)
    requires m.Sound() && Sound(m, s)
    ensures Positive(s.book.Orders(side))
  {
    var list := s.book.Orders(side);
    forall k | 0 <= k < |list|
      ensures list[k].remaining > 0
    {
      assert Resident(m, if side.Buy? then Buy else Sell, s.seqNo, list[k]);
    }
  }

  /** The matching loop's function is greedy, and leaves exactly the unreached tail. */
  lemma {:induction false} MatchIsGreedy(c: Config, o: NewOrder, opp: seq<Resting>, stale: seq<nat>, quantity: u64)
    requires c.Sound() && Positive(opp)
    ensures var r := Match(c, o, opp, stale, quantity);
      && IsGreedy(o, opp, quantity, r.fills, r.left)
      && r.rest == Remainder(opp, r.fills)
    decreases |opp|
  {
    hide Match, AddStale, Config.Sound, Crosses, Traded, IsGreedy, Remainder;
    MatchCases(c, o, opp, stale, quantity);
    if Stops(o, opp, quantity) {
      GreedyNone(o, opp, quantity);
    } else if quantity < opp[0].remaining {
      assert [FillOf(opp[0], quantity)] + [] == [FillOf(opp[0], quantity)];
      GreedyOne(o, opp, quantity);
    } else {
      var stale' := AddStale(c, stale, opp[0].price, opp[0].remaining);
      MatchIsGreedy(c, o, opp[1..], stale', quantity - opp[0].remaining);
      var r := Match(c, o, opp[1..], stale', quantity - opp[0].remaining);
      GreedyCons(o, opp, quantity, FillOf(opp[0], opp[0].remaining), r.fills, r.left);
    }
  }

  lemma GreedyNone(o: NewOrder, opp: seq<Resting>, quantity: u64)
    requires Stops(o, opp, quantity)
    ensures IsGreedy(o, opp, quantity, [], quantity) && Remainder(opp, []) == opp
  {
  }

  lemma GreedyOne(o: NewOrder, opp: seq<Resting>, quantity: u64)
    requires !Stops(o, opp, quantity) && quantity < opp[0].remaining
    ensures var f := FillOf(opp[0], quantity);
      && IsGreedy(o, opp, quantity, [f], 0)
      && Remainder(opp, [f]) == [opp[0].(remaining := opp[0].remaining - quantity)] + opp[1..]
  {
    assert [FillOf(opp[0], quantity)][1..] == [];
  }

  /** The opposing list without the filled orders; an order filled in part keeps its place. */
  function Remainder(opp: seq<Resting>, fills: seq<Fill>): seq<Resting>
  {
    var n := |fills|;
    if n == 0 || n > |opp| then opp
    else if fills[n - 1].completes || fills[n - 1].quantity > opp[n - 1].remaining then opp[n..]
    else [opp[n - 1].(remaining := opp[n - 1].remaining - fills[n - 1].quantity)] + opp[n..]
  }

  lemma GreedyCons(o: NewOrder, opp: seq<Resting>, quantity: nat, f: Fill, fills: seq<Fill>, left: nat)
    requires opp != [] && FillsOrder(o, opp[0], f) && f.completes && f.quantity <= quantity
    requires IsGreedy(o, opp[1..], quantity - f.quantity, fills, left)
    ensures IsGreedy(o, opp, quantity, [f] + fills, left)
    ensures Remainder(opp, [f] + fills) == Remainder(opp[1..], fills)
  {
    var all := [f] + fills;
    assert all[1..] == fills;
    forall k | 0 <= k < |all|
      ensures FillsOrder(o, opp[k], all[k])
    {
      if k > 0 { assert FillsOrder(o, opp[1..][k - 1], fills[k - 1]); }
    }
    if fills != [] {
      assert opp[1..][|fills|..] == opp[|all|..];
    }
  }

  /** There is only one greedy matching: whatever has these properties is what the engine does. */
  lemma {:induction false} GreedyIsMatch(c: Config, o: NewOrder, opp: seq<Resting>, stale: seq<nat>, quantity: u64,
                                         fills: seq<Fill>, left: nat)
    requires c.Sound() && Positive(opp) && IsGreedy(o, opp, quantity, fills, left)
    ensures var r := Match(c, o, opp, stale, quantity); fills == r.fills && left == r.left
    decreases |opp|
  {
    hide Match, AddStale, Config.Sound, Crosses, IsGreedy;
    MatchCases(c, o, opp, stale, quantity);
    if Stops(o, opp, quantity) {
      NoFill(o, opp, quantity, fills, left);
    } else {
      FirstFill(o, opp, quantity, fills, left);
      if quantity >= opp[0].remaining {
        GreedyTail(o, opp, quantity, fills, left);
        var stale' := AddStale(c, stale, opp[0].price, opp[0].remaining);
        GreedyIsMatch(c, o, opp[1..], stale', quantity - opp[0].remaining, fills[1..], left);
        assert fills == [fills[0]] + fills[1..];
      } else {
        assert fills == [FillOf(opp[0], quantity)] + [];
      }
    }
  }

  /** Where matching stops at once there is no execution. */
  lemma NoFill(o: NewOrder, opp: seq<Resting>, quantity: u64, fills: seq<Fill>, left: nat)
    requires Stops(o, opp, quantity) && IsGreedy(o, opp, quantity, fills, left)
    ensures fills == [] && left == quantity
  {
    assert fills != [] ==> FillsOrder(o, opp[0], fills[0]);
  }

  lemma {:induction false} TradedPositive(o: NewOrder, opp: seq<Resting>, fills: seq<Fill>)
    requires |fills| <= |opp| && forall k | 0 <= k < |fills| :: FillsOrder(o, opp[k], fills[k])
    ensures fills != [] ==> Traded(fills) > 0
  {
    if fills != [] { assert FillsOrder(o, opp[0], fills[0]); }
  }

  /** A crossing head is filled by the smaller of the two quantities, and more follows only if it was filled. */
  lemma FirstFill(o: NewOrder, opp: seq<Resting>, quantity: u64, fills: seq<Fill>, left: nat)
    requires Positive(opp) && IsGreedy(o, opp, quantity, fills, left) && quantity > 0 && opp != [] &&
        Crosses(o, opp[0].price)
    ensures fills != []
    ensures fills[0] == Fill(opp[0].id, opp[0].seqNo, opp[0].price,
                             if quantity < opp[0].remaining then quantity else opp[0].remaining,
                             quantity >= opp[0].remaining)
    ensures quantity < opp[0].remaining ==> |fills| == 1 && left == 0
  {
    assert fills != [];
    assert FillsOrder(o, opp[0], fills[0]);
    var rest := fills[1..];
    assert forall k | 0 <= k < |rest| :: rest[k] == fills[k + 1];
    forall k | 0 <= k < |rest|
      ensures FillsOrder(o, opp[1..][k], rest[k])
    {
      assert FillsOrder(o, opp[k + 1], fills[k + 1]);
    }
    TradedPositive(o, opp[1..], rest);
    assert 0 + 1 < |fills| || left > 0 ==> fills[0].completes;
    assert Traded(fills) == fills[0].quantity + Traded(rest);
    if |fills| == 1 {
      assert rest == [];
    }
  }

  lemma GreedyTail(o: NewOrder, opp: seq<Resting>, quantity: u64, fills: seq<Fill>, left: nat)
    requires IsGreedy(o, opp, quantity, fills, left) && opp != [] && fills != [] &&
        fills[0].quantity == opp[0].remaining
    ensures fills[0].quantity <= quantity && IsGreedy(o, opp[1..], quantity - fills[0].quantity, fills[1..], left)
  {
    var rest := fills[1..];
    forall k | 0 <= k < |rest|
      ensures FillsOrder(o, opp[1..][k], rest[k])
      ensures k + 1 < |rest| || left > 0 ==> rest[k].completes
    {
      assert FillsOrder(o, opp[k + 1], fills[k + 1]);
    }
  }

  /** Execution prices never improve from one execution to the next, and all are within the limit. */
  lemma PricesMonotone(side: Side, o: NewOrder, opp: seq<Resting>, quantity: nat, fills: seq<Fill>, left: nat)
    requires Ordered(side, opp) && IsGreedy(o, opp, quantity, fills, left)
    ensures forall i, j | 0 <= i < j < |fills| ::
        !Better(side, fills[j].price, fills[i].price) && fills[i].id != fills[j].id
    ensures forall k | 0 <= k < |fills| :: Crosses(o, fills[k].price)
  {
    forall i, j | 0 <= i < j < |fills|
      ensures !Better(side, fills[j].price, fills[i].price) && fills[i].id != fills[j].id
    {
      assert FillsOrder(o, opp[i], fills[i]) && FillsOrder(o, opp[j], fills[j]);
      assert Prior(side, opp[i], opp[j]) && Apart(opp[i], opp[j]);
    }
    forall k | 0 <= k < |fills|
      ensures Crosses(o, fills[k].price)
    {
      assert FillsOrder(o, opp[k], fills[k]);
    }
  }
}
