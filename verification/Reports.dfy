/** What the engine reports to its caller, against what happened to the book. */
module Reports {
  import opened Types
  import opened PriceLadder
  import opened AbstractBook
  import opened Runs
  import opened Greedy
  import Ledger

  // ---- one new order in a run -------------------------------------------------------------

  /** How much of an accepted order did not execute. */
  function LeftOver(r: AbstractBook.Remainder): u64 {
    if r.NothingLeft? then 0 else r.quantity
  }

  /**
   * Whatever came before, the reported executions of an accepted order are the one greedy matching of
   * the opposing list, at prices that never improve; the remainder reported is what it leaves over, and
   * the opposing list loses exactly what was executed.
   */
  lemma NewFollowsPriority(m: Market, seqNo: u64, events: seq<Event>, o: NewOrder) returns (fills: seq<Fill>)
    requires m.Sound() && Entry(Run(m, Start(m, seqNo), events).state, o).Ok?
    ensures var s := Run(m, Start(m, seqNo), events).state;
      var r, side := Step(m, s, New(o)), Opposite(o.side);
      && r.outcome.Accepted?
      && r.outcome.executions == Executions(o, fills)
      && IsGreedy(o, s.book.Orders(side), o.quantity, fills, LeftOver(r.outcome.remainder))
      && r.state.book.Orders(side) == Greedy.Remainder(s.book.Orders(side), fills)
      && forall i, j | 0 <= i < j < |fills| ::
          !Better(side, fills[j].price, fills[i].price) && fills[i].id != fills[j].id
  {
    hide Run, Match, AddStale, Config.Sound, Residents, Uncrossed, IsGreedy, Greedy.Remainder;
    var s, side := Run(m, Start(m, seqNo), events).state, Opposite(o.side);
    RunSound(m, seqNo, events);
    LadderSound(m, side);
    var opp := s.book.Orders(side);
    AllPositive(m, s, side);
    MatchIsGreedy(m.Ladder(side), o, opp, s.book.Stale(side), o.quantity);
    var matched := MatchIn(m, s.book, o);
    fills := matched.fills;
    PricesMonotone(side, o, opp, o.quantity, fills, matched.left);
  }

  // ---- the journal and the outcomes -------------------------------------------------------

  /** What a caller can see of a journal entry. */
  datatype Note =
    | Submitted(id: u64, side: Side, quantity: u64)
    | Deal(execution: Execution)
    | Gone(id: u64, quantity: u64)
    | Trimmed(id: u64, left: u64)
    | Withdrawn(id: u64)

  function NoteOf(e: Ledger.Entry): Note {
    match e
    case Submit(_, id, side, quantity) => Submitted(id, side, quantity)
    case Trade(_, id, _, restingId, _, price, quantity, _) => Deal(Execution(id, restingId, price, quantity))
    case Cut(_, id, _, left) => Trimmed(id, left)
    case Withdraw(_, id, _) => Withdrawn(id)
    case Lapse(_, id, quantity) => Gone(id, quantity)
  }

  function Notes(j: seq<Ledger.Entry>): seq<Note> {
    seq(|j|, k requires 0 <= k < |j| => NoteOf(j[k]))
  }

  function Deals(executions: seq<Execution>): seq<Note> {
    seq(|executions|, k requires 0 <= k < |executions| => Deal(executions[k]))
  }

  /** What the outcome of an accepted order tells its caller. */
  function ReportedNew(o: NewOrder, executions: seq<Execution>, r: AbstractBook.Remainder): seq<Note> {
    [Submitted(o.id, o.side, o.quantity)] + Deals(executions) +
    (if r.Discarded? || r.Refused? then [Gone(o.id, r.quantity)] else [])
  }

  /** What an event and its outcome tell the caller. */
  function Reported(e: Event, o: Outcome): seq<Note> {
    match e
    case New(order) => if o.Accepted? then ReportedNew(order, o.executions, o.remainder) else []
    case Cancel(id) => if o == Cancelled(true) then [Withdrawn(id)] else []
    case Reduce(id, quantity) => if o == Reduced(true) then [Trimmed(id, quantity)] else []
    case Foreign => []
  }

  function AllReported(events: seq<Event>, outcomes: seq<Outcome>): seq<Note>
    requires |events| == |outcomes|
  {
    if events == [] then []
    else
      var n := |events| - 1;
      AllReported(events[..n], outcomes[..n]) + Reported(events[n], outcomes[n])
  }

  lemma NewReported(m: Market, s: State, o: NewOrder)
    requires m.Sound() && Entry(s, o).Ok?
    ensures Notes(Ledger.NewEntries(m, s, o)) == Reported(New(o), StepNew(m, s, o).outcome)
  {
    hide Match, MatchIn, Executed, Add, Admit, Market.Sound, Notes, Deals, Ledger.Trades, Executions, Find;
    var fills, n := MatchIn(m, s.book, o).fills, s.seqNo + 1;
    var trades, submit := Ledger.Trades(n, o.id, Opposite(o.side), fills), Ledger.Submit(n, o.id, o.side, o.quantity);
    var lapse := Ledger.Lapse(n, o.id, MatchIn(m, s.book, o).left);
    TradesReported(n, Opposite(o.side), o, fills);
    NotesOf(submit, trades, lapse);
  }

  lemma TradesReported(n: u64, side: Side, o: NewOrder, fills: seq<Fill>)
    ensures Notes(Ledger.Trades(n, o.id, side, fills)) == Deals(Executions(o, fills))
  {
  }

  lemma NotesOf(submit: Ledger.Entry, trades: seq<Ledger.Entry>, lapse: Ledger.Entry)
    ensures Notes([submit] + trades + [lapse]) == [NoteOf(submit)] + Notes(trades) + [NoteOf(lapse)]
    ensures Notes([submit] + trades + []) == [NoteOf(submit)] + Notes(trades) + []
  {
  }

  lemma RemainingFound(b: Book, id: u64, quantity: u64)
    requires b.Has(id) && Uncrossed(b) && quantity <= RemainingOf(b, id)
    ensures Notes(Ledger.Cuts(b.bids, id, quantity) + Ledger.Cuts(b.asks, id, quantity)) == [Trimmed(id, quantity)]
  {
    hide Find, Uncrossed;
    OneSide(b, id);
  }

  lemma WithdrawnFound(b: Book, id: u64)
    requires Uncrossed(b)
    ensures Notes(Ledger.Withdrawals(b.bids, id) + Ledger.Withdrawals(b.asks, id)) ==
            if b.Has(id) then [Withdrawn(id)] else []
  {
    hide Find, Uncrossed;
    OneSide(b, id);
  }

  lemma StepReported(m: Market, s: State, e: Event)
    requires m.Sound() && Sound(m, s)
    ensures Notes(Ledger.Entries(m, s, e)) == Reported(e, Step(m, s, e).outcome)
  {
    hide StepNew, Ledger.NewEntries, Find, Entry, RemainingOf, Ledger.Cuts, Ledger.Withdrawals, Market.Sound, Residents,
      Ordered, Uncrossed, CancelIn, ReduceIn, ReportedNew;
    match e
    case New(o) => if Entry(s, o).Ok? { NewReported(m, s, o); }
    case Cancel(id) => WithdrawnFound(s.book, id);
    case Reduce(id, quantity) =>
      if Step(m, s, e).outcome == Reduced(true) { RemainingFound(s.book, id, quantity); }
    case Foreign =>
  }

  lemma NotesConcat(a: seq<Ledger.Entry>, b: seq<Ledger.Entry>)
    ensures Notes(a + b) == Notes(a) + Notes(b)
  {
  }

  /**
   * Over every run, the journal whose accounts balance lists exactly what the events and their outcomes
   * told the caller, in order: orders with their quantities, executions with both parties, remainders,
   * reductions and cancellations.
   */
  lemma {:induction false} JournalReported(m: Market, seqNo: u64, events: seq<Event>)
    requires m.Sound()
    ensures Notes(Ledger.Journal(m, Start(m, seqNo), events)) ==
            AllReported(events, Run(m, Start(m, seqNo), events).outcomes)
    decreases |events|
  {
    if events != [] {
      hide Notes, Step, Ledger.Entries, Market.Sound, Reported;
      var n := |events| - 1;
      var before := Run(m, Start(m, seqNo), events[..n]);
      JournalReported(m, seqNo, events[..n]);
      RunSound(m, seqNo, events[..n]);
      StepReported(m, before.state, events[n]);
      NotesConcat(Ledger.Journal(m, Start(m, seqNo), events[..n]), Ledger.Entries(m, before.state, events[n]));
      assert Run(m, Start(m, seqNo), events).outcomes[..n] == before.outcomes;
    } else {
      NoNotes();
    }
  }

  lemma NoNotes()
    ensures Notes([]) == []
  {
  }

  // ---- sequence numbers -------------------------------------------------------------------

  /** How many sequence numbers were taken. */
  function Numbers(outcomes: seq<Outcome>): nat {
    if outcomes == [] then 0
    else
      var last := outcomes[|outcomes| - 1];
      Numbers(outcomes[..|outcomes| - 1]) + if last.Accepted? || last == NumberTaken(true) then 1 else 0
  }

  lemma {:induction false} RunNumbers(m: Market, seqNo: u64, events: seq<Event>)
    requires m.Sound()
    ensures var r := Run(m, Start(m, seqNo), events); r.state.seqNo == seqNo + Numbers(r.outcomes)
    decreases |events|
  {
    if events != [] {
      hide Market.Sound, Entry, MatchIn, Executed, Settle, CancelIn, ReduceIn, RemainingOf;
      var n := |events| - 1;
      RunNumbers(m, seqNo, events[..n]);
      assert Run(m, Start(m, seqNo), events).outcomes[..n] == Run(m, Start(m, seqNo), events[..n]).outcomes;
    }
  }

  /** An event submits under the next number, and only when it is accepted. */
  lemma StepSubmits(m: Market, s: State, e: Event, k: nat)
    requires m.Sound()
    ensures var o := Step(m, s, e).outcome;
      && (o.Accepted? ==> e.New?)
      && Ledger.Tally(Ledger.Entries(m, s, e), k).submitted == if o.Accepted? &&
          k == s.seqNo + 1 then e.order.quantity else 0
  {
    hide Market.Sound, Entry, MatchIn, Executed, Settle, CancelIn, ReduceIn, RemainingOf, Ledger.Tally, Find;
    forall j: seq<Ledger.Entry> | NoSubmit(j)
      ensures Ledger.Tally(j, k).submitted == 0
    {
      NoneSubmitted(j, k);
    }
    if Step(m, s, e).outcome.Accepted? {
      var j := Ledger.NewEntries(m, s, e.order);
      assert j == [j[0]] + j[1..];
      Ledger.TallyConcat([j[0]], j[1..], k);
      Ledger.TallyOne(j[0], k);
      assert NoSubmit(j[1..]);
    } else {
      assert NoSubmit(Ledger.Entries(m, s, e));
    }
  }

  ghost predicate NoSubmit(j: seq<Ledger.Entry>) {
    forall i | 0 <= i < |j| :: !j[i].Submit?
  }

  lemma {:induction false} NoneSubmitted(j: seq<Ledger.Entry>, k: nat)
    requires NoSubmit(j)
    ensures Ledger.Tally(j, k).submitted == 0
  {
    if j != [] { NoneSubmitted(j[1..], k); }
  }

  /** Numbers not taken in the run have nothing submitted under them. */
  lemma {:induction false} Unsubmitted(m: Market, seqNo: u64, events: seq<Event>, k: nat)
    requires m.Sound() && (k <= seqNo || k > Run(m, Start(m, seqNo), events).state.seqNo)
    ensures Ledger.Tally(Ledger.Journal(m, Start(m, seqNo), events), k).submitted == 0
    decreases |events|
  {
    if events != [] {
      hide Market.Sound, Step, Ledger.Entries, Ledger.Tally, Ledger.Account.Plus;
      var n := |events| - 1;
      var s := Run(m, Start(m, seqNo), events[..n]).state;
      StepNumbers(m, s, events[n]);
      RunNumbers(m, seqNo, events[..n]);
      Unsubmitted(m, seqNo, events[..n], k);
      SubmitsConcat(m, seqNo, events, k);
    }
  }

  lemma StepNumbers(m: Market, s: State, e: Event)
    requires m.Sound()
    ensures var r := Step(m, s, e);
      r.state.seqNo == s.seqNo + if r.outcome.Accepted? || r.outcome == NumberTaken(true) then 1 else 0
  {
    hide Market.Sound, Entry, MatchIn, Executed, Settle, CancelIn, ReduceIn, RemainingOf;
  }

  lemma SubmitsConcat(m: Market, seqNo: u64, events: seq<Event>, k: nat)
    requires m.Sound() && events != []
    ensures var n := |events| - 1; var s := Run(m, Start(m, seqNo), events[..n]).state;
      var o := Step(m, s, events[n]).outcome;
      && (o.Accepted? ==> events[n].New?)
      && Ledger.Tally(Ledger.Journal(m, Start(m, seqNo), events), k).submitted ==
         Ledger.Tally(Ledger.Journal(m, Start(m, seqNo), events[..n]), k).submitted +
         if o.Accepted? && k == s.seqNo + 1 then events[n].order.quantity else 0
  {
    hide Market.Sound, Step, Ledger.Entries, Ledger.Tally;
    var n := |events| - 1;
    var s := Run(m, Start(m, seqNo), events[..n]).state;
    StepSubmits(m, s, events[n], k);
    Ledger.TallyConcat(Ledger.Journal(m, Start(m, seqNo), events[..n]), Ledger.Entries(m, s, events[n]), k);
  }

  /**
   * The number an accepted order was given counts the numbers taken up to it, and exactly that order's
   * quantity is submitted under it over the whole run; nothing is under a number another engine took.
   */
  lemma {:induction false} SubmittedOnce(m: Market, seqNo: u64, events: seq<Event>, i: nat)
    requires m.Sound() && i < |events|
    requires var o := Run(m, Start(m, seqNo), events).outcomes[i]; o.Accepted? || o == NumberTaken(true)
    ensures var o := Run(m, Start(m, seqNo), events).outcomes;
      && (o[i].Accepted? ==> events[i].New?)
      && Ledger.Tally(Ledger.Journal(m, Start(m, seqNo), events), seqNo + Numbers(o[..i + 1])).submitted ==
         if o[i].Accepted? then events[i].order.quantity else 0
    decreases |events|
  {
    hide Market.Sound, Run, Step, Ledger.Entries, Ledger.Tally, Ledger.Journal, Numbers;
    var n := |events| - 1;
    var before, all := Run(m, Start(m, seqNo), events[..n]), Run(m, Start(m, seqNo), events);
    var k := seqNo + Numbers(all.outcomes[..i + 1]);
    RunLast(m, Start(m, seqNo), events);
    RunNumbers(m, seqNo, events[..n]);
    SubmitsConcat(m, seqNo, events, k);
    if i == n {
      NumbersLast(before.outcomes, all.outcomes[n]);
      assert all.outcomes[..i + 1] == all.outcomes;
      Unsubmitted(m, seqNo, events[..n], k);
    } else {
      assert all.outcomes[..i + 1] == before.outcomes[..i + 1];
      NumbersGrow(before.outcomes, i + 1);
      SubmittedOnce(m, seqNo, events[..n], i);
    }
  }

  lemma RunLast(m: Market, s: State, events: seq<Event>)
    requires m.Sound() && events != []
    ensures var n := |events| - 1; var before := Run(m, s, events[..n]);
      Run(m, s, events).outcomes == before.outcomes + [Step(m, before.state, events[n]).outcome]
  {
    hide Market.Sound, Step;
  }

  lemma NumbersLast(outcomes: seq<Outcome>, last: Outcome)
    ensures Numbers(outcomes + [last]) ==
            Numbers(outcomes) + if last.Accepted? || last == NumberTaken(true) then 1 else 0
  {
    assert (outcomes + [last])[..|outcomes|] == outcomes;
  }

  lemma {:induction false} NumbersGrow(outcomes: seq<Outcome>, i: nat)
    requires i <= |outcomes|
    ensures Numbers(outcomes[..i]) <= Numbers(outcomes)
  {
    if i == |outcomes| {
      assert outcomes[..i] == outcomes;
    } else {
      NumbersGrow(outcomes[..|outcomes| - 1], i);
      assert outcomes[..|outcomes| - 1][..i] == outcomes[..i];
    }
  }
}
