/**
 * The book a trader sees: two lists in price-time priority, consumed greedily. Beside them stands,
 * per price level, the quantity by which the level's aggregate exceeds what rests there.
 */
module AbstractBook {
  import opened Types
  import opened PriceLevel
  import opened PriceLadder

  datatype Resting = Resting(id: u64, price: u64, original: u64, remaining: u64, timestamp: u64, seqNo: u64)

  /** The instrument: one range of ticks, indexed downwards for bids and upwards for asks. */
  datatype Market = Market(minPrice: u64, tick: u64, levelCount: u64)
  {
    function Ladder(side: Side): Config { Config(minPrice, tick, levelCount, side.Buy?) }

    ghost predicate Sound() { Ladder(Buy).Sound() && Ladder(Sell).Sound() }
  }

  lemma LadderSound(m: Market, side: Side)
    requires m.Sound()
    ensures m.Ladder(side).Sound()
  {
  }

  function Opposite(side: Side): Side { if side.Buy? then Sell else Buy }

  datatype Book = Book(bids: seq<Resting>, asks: seq<Resting>, staleBids: seq<nat>, staleAsks: seq<nat>)
  {
    function Orders(side: Side): seq<Resting> { if side.Buy? then bids else asks }

    function Stale(side: Side): seq<nat> { if side.Buy? then staleBids else staleAsks }

    function With(side: Side, orders: seq<Resting>): Book {
      if side.Buy? then this.(bids := orders) else this.(asks := orders)
    }

    function WithStale(side: Side, stale: seq<nat>): Book {
      if side.Buy? then this.(staleBids := stale) else this.(staleAsks := stale)
    }

    predicate Has(id: u64) { Find(bids, id) < |bids| || Find(asks, id) < |asks| }

    function Size(): nat { |bids| + |asks| }
  }

  // ---- list operations --------------------------------------------------------------------

  predicate Better(side: Side, a: int, b: int) {
    if side.Buy? then a > b else a < b
  }

  /** The position behind every order whose price is at least as good. */
  function InsertPos(side: Side, list: seq<Resting>, price: u64): (k: nat)
    ensures k <= |list|
  {
    if list == [] || Better(side, price, list[0].price) then 0 else 1 + InsertPos(side, list[1..], price)
  }

  function Insert(side: Side, list: seq<Resting>, o: Resting): seq<Resting> {
    var k := InsertPos(side, list, o.price);
    list[..k] + [o] + list[k..]
  }

  /** The position of an id, or the length of the list. */
  function Find(list: seq<Resting>, id: u64): (k: nat)
    ensures k <= |list|
    ensures k < |list| ==> list[k].id == id
  {
    if list == [] || list[0].id == id then 0 else 1 + Find(list[1..], id)
  }

  function Remove(list: seq<Resting>, id: u64): seq<Resting> {
    var k := Find(list, id);
    if k < |list| then Without(list, k) else list
  }

  function SetRemaining(list: seq<Resting>, id: u64, quantity: u64): seq<Resting> {
    var k := Find(list, id);
    if k < |list| then list[k := list[k].(remaining := quantity)] else list
  }

  function SumAt(list: seq<Resting>, price: int): nat {
    if list == [] then 0 else (if list[0].price == price then list[0].remaining else 0) + SumAt(list[1..], price)
  }

  function CountAt(list: seq<Resting>, price: int): nat {
    if list == [] then 0 else (if list[0].price == price then 1 else 0) + CountAt(list[1..], price)
  }

  lemma {:induction false} CountAtConcat(a: seq<Resting>, b: seq<Resting>, price: int)
    ensures CountAt(a + b, price) == CountAt(a, price) + CountAt(b, price)
  {
    if a == [] {
      assert a + b == b;
    } else {
      assert (a + b)[1..] == a[1..] + b;
      CountAtConcat(a[1..], b, price);
    }
  }

  lemma {:induction false} CountAtUniform(a: seq<Resting>, price: int, same: bool)
    requires forall k | 0 <= k < |a| :: (a[k].price == price) == same
    ensures CountAt(a, price) == if same then |a| else 0
  {
    if a != [] { CountAtUniform(a[1..], price, same); }
  }

  lemma {:induction false} FindFirst(list: seq<Resting>, id: u64, k: nat)
    requires k < |list| && list[k].id == id && forall j | 0 <= j < k :: list[j].id != id
    ensures Find(list, id) == k
  {
    if k > 0 { FindFirst(list[1..], id, k - 1); }
  }

  lemma {:induction false} FindNone(list: seq<Resting>, id: u64)
    ensures Find(list, id) == |list| <==> forall j | 0 <= j < |list| :: list[j].id != id
  {
    if list != [] && list[0].id != id {
      FindNone(list[1..], id);
      assert forall j | 0 <= j < |list| :: j > 0 ==> list[j] == list[1..][j - 1];
      assert forall j | 0 <= j < |list[1..]| :: list[1..][j] == list[j + 1];
    }
  }

  lemma {:induction false} InsertSplit(side: Side, a: seq<Resting>, b: seq<Resting>, price: u64)
    requires forall j | 0 <= j < |a| :: !Better(side, price, a[j].price)
    requires b != [] ==> Better(side, price, b[0].price)
    ensures InsertPos(side, a + b, price) == |a|
  {
    if a == [] {
      assert a + b == b;
    } else {
      assert (a + b)[1..] == a[1..] + b;
      InsertSplit(side, a[1..], b, price);
    }
  }

  lemma {:induction false} SumAtConcat(a: seq<Resting>, b: seq<Resting>, price: int)
    ensures SumAt(a + b, price) == SumAt(a, price) + SumAt(b, price)
  {
    if a == [] {
      assert a + b == b;
    } else {
      assert (a + b)[1..] == a[1..] + b;
      SumAtConcat(a[1..], b, price);
    }
  }

  // ---- matching ---------------------------------------------------------------------------

  datatype NewOrder = NewOrder(id: u64, price: u64, quantity: u64, timestamp: u64, side: Side, kind: OrderType)

  /** Whether an incoming order trades at the given opposing price. */
  predicate Crosses(o: NewOrder, best: u64) {
    o.kind.Limit? ==> if o.side.Buy? then o.price >= best else o.price <= best
  }

  /** One execution, with what it did to the resting order. */
  datatype Fill = Fill(id: u64, seqNo: u64, price: u64, quantity: u64, completes: bool)

  datatype Matched = Matched(fills: seq<Fill>, rest: seq<Resting>, stale: seq<nat>, left: u64)

  /** A completing fill leaves its final slice in the aggregate of the level. */
  function AddStale(c: Config, stale: seq<nat>, price: u64, quantity: nat): (r: seq<nat>)
    requires c.Sound()
    ensures |r| == |stale|
  {
    var at := c.IndexOf(price);
    if at.Ok? && at.value < |stale| then stale[at.value := stale[at.value] + quantity] else stale
  }

  /** Consume the opposing list from its head while the incoming order crosses it. */
  function Match(c: Config, o: NewOrder, opp: seq<Resting>, stale: seq<nat>, quantity: u64): Matched
    requires c.Sound()
    decreases |opp|
  {
    if quantity == 0 || opp == [] || !Crosses(o, opp[0].price) then Matched([], opp, stale, quantity)
    else if quantity < opp[0].remaining then
      Matched([Fill(opp[0].id, opp[0].seqNo, opp[0].price, quantity, false)],
              [opp[0].(remaining := opp[0].remaining - quantity)] + opp[1..], stale, 0)
    else
      var m := Match(c, o, opp[1..], AddStale(c, stale, opp[0].price, opp[0].remaining), quantity - opp[0].remaining);
      m.(fills := [Fill(opp[0].id, opp[0].seqNo, opp[0].price, opp[0].remaining, true)] + m.fills)
  }

  ghost predicate Stops(o: NewOrder, opp: seq<Resting>, quantity: u64) {
    quantity == 0 || opp == [] || !Crosses(o, opp[0].price)
  }

  function FillOf(r: Resting, quantity: u64): Fill {
    Fill(r.id, r.seqNo, r.price, quantity, quantity == r.remaining)
  }

  /** The three cases of one round of matching. */
  lemma MatchCases(c: Config, o: NewOrder, opp: seq<Resting>, stale: seq<nat>, quantity: u64)
    requires c.Sound()
    ensures Stops(o, opp, quantity) ==> Match(c, o, opp, stale, quantity) == Matched([], opp, stale, quantity)
    ensures !Stops(o, opp, quantity) && quantity < opp[0].remaining ==>
      Match(c, o, opp, stale, quantity) ==
      Matched([FillOf(opp[0], quantity)] + [], [opp[0].(remaining := opp[0].remaining - quantity)] + opp[1..], stale, 0)
    ensures !Stops(o, opp, quantity) && quantity >= opp[0].remaining ==>
      var r := Match(c, o, opp[1..], AddStale(c, stale, opp[0].price, opp[0].remaining), quantity - opp[0].remaining);
      Match(c, o, opp, stale, quantity) == r.(fills := [FillOf(opp[0], opp[0].remaining)] + r.fills)
  {
    hide AddStale, Config.Sound;
  }

  /** b is a with at most some of its quantity gone, and never all of it. */
  ghost predicate Lessened(a: Resting, b: Resting) {
    b == a.(remaining := b.remaining) && b.remaining <= a.remaining && (a.remaining > 0 ==> b.remaining > 0)
  }

  /** The tail of a list, up to quantities that have gone. */
  ghost predicate TailOf(list: seq<Resting>, rest: seq<Resting>) {
    |rest| <= |list| && forall k | 0 <= k < |rest| :: Lessened(list[|list| - |rest| + k], rest[k])
  }

  lemma TailOfTail(list: seq<Resting>, rest: seq<Resting>)
    requires list != [] && TailOf(list[1..], rest)
    ensures TailOf(list, rest)
  {
    forall k | 0 <= k < |rest|
      ensures Lessened(list[|list| - |rest| + k], rest[k])
    {
      assert Lessened(list[1..][|list[1..]| - |rest| + k], rest[k]);
    }
  }

  /** What is left of the opposing list is its tail. */
  lemma {:induction false} MatchSuffix(c: Config, o: NewOrder, opp: seq<Resting>, stale: seq<nat>, quantity: u64)
    requires c.Sound()
    ensures TailOf(opp, Match(c, o, opp, stale, quantity).rest)
    decreases |opp|
  {
    if quantity == 0 || opp == [] || !Crosses(o, opp[0].price) || quantity < opp[0].remaining {
    } else {
      MatchSuffix(c, o, opp[1..], AddStale(c, stale, opp[0].price, opp[0].remaining), quantity - opp[0].remaining);
      TailOfTail(opp, Match(c, o, opp, stale, quantity).rest);
    }
  }

  // ---- insertion --------------------------------------------------------------------------

  /** What the level's aggregate says: what rests there, and what completing fills left behind. */
  function LevelTotal(m: Market, b: Book, side: Side, i: nat): nat {
    SumAt(b.Orders(side), m.Ladder(side).PriceAt(i)) + (if i < |b.Stale(side)| then b.Stale(side)[i] else 0)
  }

  /** Whether a level accepts a quantity at a price; decided only when an order is to rest. */
  function Admit(m: Market, b: Book, side: Side, price: u64, remaining: u64): Result<()>
    requires m.Sound() && (side.Buy? || side.Sell?)
  {
    match m.Ladder(side).IndexOf(price)
    case Err(e) => Err(e)
    case Ok(i) => if remaining + LevelTotal(m, b, side, i) > U64_MAX then Err(OverflowError) else Ok(())
  }

  /** The checks of a book insertion, in the order in which the code makes them. */
  function AddCheck(m: Market, b: Book, o: Order): Result<()>
    requires m.Sound()
  {
    if !o.kind.Limit? then Err(InvalidArgument)
    else if o.original == 0 || o.remaining == 0 || o.remaining > o.original then Err(InvalidArgument)
    else if !o.WellFormed() then Err(InvalidArgument)
    else match Admit(m, b, o.side, o.price, o.remaining)
      case Err(e) => Err(e)
      case Ok(_) => if b.Has(o.id) then Err(LogicError) else Ok(())
  }

  function ToResting(o: Order): Resting {
    Resting(o.id, o.price, o.original, o.remaining, o.timestamp, o.seqNo)
  }

  function Add(b: Book, o: Order): Book {
    b.With(o.side, Insert(o.side, b.Orders(o.side), ToResting(o)))
  }

  function CancelIn(b: Book, id: u64): Book {
    b.(bids := Remove(b.bids, id), asks := Remove(b.asks, id))
  }

  function ReduceIn(b: Book, id: u64, quantity: u64): Book {
    b.(bids := SetRemaining(b.bids, id, quantity), asks := SetRemaining(b.asks, id, quantity))
  }

  /** The remaining quantity of a resting id. */
  function RemainingOf(b: Book, id: u64): u64
    requires b.Has(id)
  {
    var k := Find(b.bids, id);
    if k < |b.bids| then b.bids[k].remaining else b.asks[Find(b.asks, id)].remaining
  }

  // ---- market depth -----------------------------------------------------------------------

  /** The non-empty levels of a side from tick index i on, by linear scan of the whole range. */
  ghost function Depth(m: Market, b: Book, side: Side, i: nat): seq<SnapshotLevel>
    decreases m.levelCount - i
  {
    if i >= m.levelCount then [] else
      var price := m.Ladder(side).PriceAt(i);
      var n := CountAt(b.Orders(side), price);
      (if n > 0 then [SnapshotLevel(price, LevelTotal(m, b, side, i), n)] else []) + Depth(m, b, side, i + 1)
  }

  /** A level shown is a non-empty tick at or beyond index i, with its own aggregate and number of orders. */
  ghost predicate ShowsTick(m: Market, b: Book, side: Side, i: nat, t: nat, x: SnapshotLevel) {
    var price := m.Ladder(side).PriceAt(t);
    i <= t < m.levelCount && CountAt(b.Orders(side), price) > 0 &&
    x == SnapshotLevel(price, LevelTotal(m, b, side, t), CountAt(b.Orders(side), price))
  }

  ghost predicate ShowsSome(m: Market, b: Book, side: Side, i: nat, x: SnapshotLevel) {
    exists t :: ShowsTick(m, b, side, i, t, x)
  }

  ghost predicate ShownAt(d: seq<SnapshotLevel>, price: int) {
    exists k :: 0 <= k < |d| && d[k].price == price
  }

  /** Shows non-empty levels only, and all of them from index i on, in strict price priority. */
  ghost predicate InPriority(m: Market, b: Book, side: Side, i: nat, d: seq<SnapshotLevel>) {
    && (forall k | 0 <= k < |d| :: ShowsSome(m, b, side, i, d[k]))
    && (forall k, l | 0 <= k < l < |d| :: Better(side, d[k].price, d[l].price))
    && (forall t: nat {:trigger m.Ladder(side).PriceAt(t)} |
          i <= t < m.levelCount && CountAt(b.Orders(side), m.Ladder(side).PriceAt(t)) > 0 ::
          ShownAt(d, m.Ladder(side).PriceAt(t)))
  }

  lemma ShownLater(m: Market, b: Book, side: Side, i: nat, x: SnapshotLevel)
    requires m.Sound() && !side.BadSide? && ShowsSome(m, b, side, i + 1, x)
    ensures ShowsSome(m, b, side, i, x) && Better(side, m.Ladder(side).PriceAt(i), x.price)
  {
    var t :| ShowsTick(m, b, side, i + 1, t, x);
    assert ShowsTick(m, b, side, i, t, x);
    PriceOrder(m.Ladder(side), i, t);
  }

  /** A non-empty level goes in front of what is shown beyond it. */
  lemma PriorityCons(m: Market, b: Book, side: Side, i: nat, x: SnapshotLevel, rest: seq<SnapshotLevel>)
    requires m.Sound() && !side.BadSide? && InPriority(m, b, side, i + 1, rest) && ShowsTick(m, b, side, i, i, x)
    ensures InPriority(m, b, side, i, [x] + rest)
  {
    hide Config.PriceAt, Config.Sound, CountAt, LevelTotal, Market.Sound, ShownAt, ShowsSome, Better;
    forall k | 0 <= k < |rest|
      ensures ShowsSome(m, b, side, i, rest[k]) && Better(side, x.price, rest[k].price)
    {
      ShownLater(m, b, side, i, rest[k]);
    }
    ShownTick(m, b, side, i, x);
    forall t: nat | i <= t < m.levelCount && CountAt(b.Orders(side), m.Ladder(side).PriceAt(t)) > 0
      ensures ShownAt([x] + rest, m.Ladder(side).PriceAt(t))
    {
      ShownFirst(x, rest, m.Ladder(side).PriceAt(t));
    }
  }

  lemma ShownTick(m: Market, b: Book, side: Side, i: nat, x: SnapshotLevel)
    requires ShowsTick(m, b, side, i, i, x)
    ensures ShowsSome(m, b, side, i, x)
  {
  }

  lemma ShownFirst(x: SnapshotLevel, rest: seq<SnapshotLevel>, price: int)
    requires x.price == price || ShownAt(rest, price)
    ensures ShownAt([x] + rest, price)
  {
    var d := [x] + rest;
    if x.price == price {
      assert d[0].price == price;
    } else {
      var k :| 0 <= k < |rest| && rest[k].price == price;
      assert d[k + 1] == rest[k];
    }
  }

  lemma PrioritySkip(m: Market, b: Book, side: Side, i: nat, rest: seq<SnapshotLevel>)
    requires m.Sound() && !side.BadSide? && InPriority(m, b, side, i + 1, rest)
    requires CountAt(b.Orders(side), m.Ladder(side).PriceAt(i)) == 0
    ensures InPriority(m, b, side, i, rest)
  {
    forall k | 0 <= k < |rest|
      ensures ShowsSome(m, b, side, i, rest[k])
    {
      ShownLater(m, b, side, i, rest[k]);
    }
  }

  /** The depth shows exactly the non-empty levels, in strict price priority. */
  lemma {:induction false} DepthPriority(m: Market, b: Book, side: Side, i: nat)
    requires m.Sound() && !side.BadSide?
    ensures InPriority(m, b, side, i, Depth(m, b, side, i))
    decreases m.levelCount - i
  {
    if i < m.levelCount {
      hide InPriority, Config.PriceAt, Config.Sound, CountAt, LevelTotal, Market.Sound;
      DepthPriority(m, b, side, i + 1);
      var rest, price := Depth(m, b, side, i + 1), m.Ladder(side).PriceAt(i);
      var n := CountAt(b.Orders(side), price);
      if n > 0 {
        PriorityCons(m, b, side, i, SnapshotLevel(price, LevelTotal(m, b, side, i), n), rest);
      } else {
        PrioritySkip(m, b, side, i, rest);
        assert [] + rest == rest;
      }
    }
  }

  // ---- events -----------------------------------------------------------------------------

  /** What happens between two states; Foreign is another engine of the process taking a sequence number. */
  datatype Event = New(order: NewOrder) | Cancel(id: u64) | Reduce(id: u64, quantity: u64) | Foreign

  datatype Execution = Execution(incoming: u64, resting: u64, price: u64, quantity: u64)

  /** What became of the quantity that did not execute. */
  datatype Remainder =
    | NothingLeft
    | Rested(quantity: u64)
    | Discarded(quantity: u64)
    | Refused(quantity: u64, error: Error)

  /** A NEW is rejected before any effect, or accepted; only the remainder can then be refused. */
  datatype Outcome =
    | Rejected(error: Error)
    | Accepted(executions: seq<Execution>, remainder: Remainder)
    | Cancelled(found: bool)
    | Reduced(found: bool)
    | NumberTaken(taken: bool)

  datatype State = State(book: Book, seqNo: u64)

  datatype Stepped = Stepped(state: State, outcome: Outcome)

  /** Why an incoming order is not even accepted. */
  function Entry(s: State, o: NewOrder): Result<()> {
    if o.id == 0 || o.quantity == 0 || o.timestamp == 0 then Err(InvalidArgument)
    else if !(o.side.Buy? || o.side.Sell?) then Err(InvalidArgument)
    else if !(o.kind.Limit? || o.kind.Market?) then Err(InvalidArgument)
    else if o.kind.Limit? && o.price == 0 then Err(InvalidArgument)
    else if o.kind.Market? && o.price != 0 then Err(InvalidArgument)
    else if s.book.Has(o.id) then Err(LogicError)
    else if s.seqNo == U64_MAX then Err(OverflowError)
    else Ok(())
  }

  function Executions(o: NewOrder, fills: seq<Fill>): seq<Execution> {
    seq(|fills|, k requires 0 <= k < |fills| => Execution(o.id, fills[k].id, fills[k].price, fills[k].quantity))
  }

  function MatchIn(m: Market, b: Book, o: NewOrder): Matched
    requires m.Sound()
  {
    var side := Opposite(o.side);
    Match(m.Ladder(side), o, b.Orders(side), b.Stale(side), o.quantity)
  }

  /** The book after the executions of an accepted order. */
  function Executed(m: Market, b: Book, o: NewOrder): Book
    requires m.Sound()
  {
    var side := Opposite(o.side);
    var r := MatchIn(m, b, o);
    b.With(side, r.rest).WithStale(side, r.stale)
  }

  function RestOrder(o: NewOrder, left: u64, seqNo: u64): Order {
    Order(o.id, o.price, o.quantity, left, o.timestamp, o.side, Limit, seqNo, Null, Null, NoLevel)
  }

  /** What becomes of the quantity left after matching. */
  function Settle(m: Market, b: Book, o: NewOrder, left: u64): Remainder
    requires m.Sound() && (o.side.Buy? || o.side.Sell?)
  {
    if left == 0 then NothingLeft
    else if o.kind.Market? then Discarded(left)
    else match Admit(m, b, o.side, o.price, left)
      case Err(e) => Refused(left, e)
      case Ok(_) => Rested(left)
  }

  function StepNew(m: Market, s: State, o: NewOrder): Stepped
    requires m.Sound() && Entry(s, o).Ok?
  {
    var after := Executed(m, s.book, o);
    var r := MatchIn(m, s.book, o);
    var remainder := Settle(m, after, o, r.left);
    var book := if remainder.Rested? then Add(after, RestOrder(o, r.left, s.seqNo + 1)) else after;
    Stepped(State(book, s.seqNo + 1), Accepted(Executions(o, r.fills), remainder))
  }

  /** One event of the engine, on the abstract book. */
  function Step(m: Market, s: State, e: Event): Stepped
    requires m.Sound()
  {
    match e
    case New(o) =>
      (match Entry(s, o)
       case Err(error) => Stepped(s, Rejected(error))
       case Ok(_) => StepNew(m, s, o))
    case Cancel(id) =>
      if id == 0 then Stepped(s, Rejected(InvalidArgument))
      else Stepped(s.(book := CancelIn(s.book, id)), Cancelled(s.book.Has(id)))
    case Reduce(id, quantity) =>
      if id == 0 then Stepped(s, Rejected(InvalidArgument))
      else if !s.book.Has(id) then Stepped(s, Reduced(false))
      else if quantity == 0 || quantity > RemainingOf(s.book, id) then Stepped(s, Rejected(InvalidArgument))
      else Stepped(s.(book := ReduceIn(s.book, id, quantity)), Reduced(true))
    case Foreign =>
      if s.seqNo == U64_MAX then Stepped(s, NumberTaken(false))
      else Stepped(s.(seqNo := s.seqNo + 1), NumberTaken(true))
  }

  datatype Ran = Ran(state: State, outcomes: seq<Outcome>)

  /** A whole run, event by event. */
  function Run(m: Market, s: State, events: seq<Event>): (r: Ran)
    requires m.Sound()
    ensures |r.outcomes| == |events|
  {
    if events == [] then Ran(s, [])
    else
      var before := Run(m, s, events[..|events| - 1]);
      var last := Step(m, before.state, events[|events| - 1]);
      Ran(last.state, before.outcomes + [last.outcome])
  }

  /** Less is left than was submitted. */
  lemma {:induction false} LeftBound(c: Config, o: NewOrder, opp: seq<Resting>, stale: seq<nat>, quantity: u64)
    requires c.Sound()
    ensures Match(c, o, opp, stale, quantity).left <= quantity
    decreases |opp|
  {
    if !(quantity == 0 || opp == [] || !Crosses(o, opp[0].price)) && quantity >= opp[0].remaining {
      LeftBound(c, o, opp[1..], AddStale(c, stale, opp[0].price, opp[0].remaining), quantity - opp[0].remaining);
    }
  }

  /** Executions never add an order. */
  lemma ExecutedSize(m: Market, b: Book, o: NewOrder)
    requires m.Sound()
    ensures Executed(m, b, o).Size() <= b.Size()
  {
    hide Match, Config.Sound;
    var side := Opposite(o.side);
    LadderSound(m, side);
    MatchSuffix(m.Ladder(side), o, b.Orders(side), b.Stale(side), o.quantity);
  }

  lemma MatchLeft(m: Market, b: Book, o: NewOrder)
    requires m.Sound()
    ensures MatchIn(m, b, o).left <= o.quantity
  {
    var side := Opposite(o.side);
    LeftBound(m.Ladder(side), o, b.Orders(side), b.Stale(side), o.quantity);
  }
}
