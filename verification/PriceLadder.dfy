/**
 * One side of the book: an array of levels indexed by tick, a bitset of the occupied ones and the
 * cached index of the best. Index 0 is the best price a level of this side can have.
 */
module PriceLadder {
  import opened Types
  import opened Bits
  import opened PriceLevel

  const NPOS: u64 := U64_MAX

  // ---- prices and indices -----------------------------------------------------------------

  datatype Config = Config(minPrice: u64, tick: u64, levelCount: u64, descending: bool)
  {
    ghost predicate Sound() {
      minPrice > 0 && tick > 0 && levelCount > 0 && MaxPrice() <= U64_MAX
    }

    function MaxPrice(): int { minPrice + (levelCount - 1) * tick }

    function PriceAt(i: nat): int {
      if descending then MaxPrice() - i * tick else minPrice + i * tick
    }

    /** Range errors come before tick errors. */
    function IndexOf(price: u64): Result<nat>
      requires Sound()
    {
      if price < minPrice || price > MaxPrice() then Err(OutOfRange)
      else
        var offset := if descending then MaxPrice() - price else price - minPrice;
        if offset % tick != 0 then Err(InvalidArgument)
        else
          assert offset / tick >= 0;
          Ok(offset / tick)
    }

    /** Price a has priority over price b on this side. */
    predicate Better(a: int, b: int) {
      if descending then a > b else a < b
    }
  }

  /** The division test of the constructor accepts exactly the ranges that fit 64 bits. */
  method CheckConfig(minPrice: u64, tick: u64, levelCount: u64, descending: bool) returns (r: Result<Config>)
    ensures r == if Config(minPrice, tick, levelCount, descending).Sound()
                 then Ok(Config(minPrice, tick, levelCount, descending)) else Err(InvalidArgument)
    ensures r.Ok? <==> minPrice > 0 && tick > 0 && levelCount > 0 && minPrice + (levelCount - 1) * tick <= U64_MAX
  {
    if minPrice == 0 {
      return Err(InvalidArgument);
    }
    if tick == 0 {
      return Err(InvalidArgument);
    }
    if levelCount == 0 {
      return Err(InvalidArgument);
    }
    var span := levelCount - 1;
    DivisionTest(span, tick, U64_MAX - minPrice);
    if span > (U64_MAX - minPrice) / tick {
      return Err(InvalidArgument);
    }
    return Ok(Config(minPrice, tick, levelCount, descending));
  }

  lemma DivisionTest(span: nat, tick: nat, room: nat)
    requires tick > 0
    ensures span > room / tick <==> span * tick > room
  {
    var q := room / tick;
    assert q * tick <= room < (q + 1) * tick by {
      assert room == q * tick + room % tick;
      assert (q + 1) * tick == q * tick + tick;
    }
    if span > q {
      MulMonotone(q + 1, span, tick);
    } else {
      MulMonotone(span, q, tick);
    }
  }

  lemma {:induction false} MulMonotone(a: nat, b: nat, t: nat)
    requires a <= b
    ensures a * t <= b * t
    decreases b - a
  {
    if a < b {
      MulMonotone(a + 1, b, t);
      assert (a + 1) * t == a * t + t;
    }
  }

  lemma MulOrder(a: nat, b: nat, t: nat)
    requires t > 0
    ensures a < b <==> a * t < b * t
  {
    if a < b {
      assert (b - a) * t > 0;
    } else {
      assert (a - b) * t >= 0;
    }
  }

  /** Every level price fits 64 bits. */
  lemma PriceBounds(c: Config, i: nat)
    requires c.Sound() && i < c.levelCount
    ensures c.minPrice <= c.PriceAt(i) <= c.MaxPrice()
  {
    MulOrder(i, c.levelCount - 1, c.tick);
    MulOrder(c.levelCount - 1, i, c.tick);
  }

  /** Index order is price priority. */
  /** The levels of either side are the ticks from the lowest price on, from the best price outward. */
  lemma PriceAtIs(c: Config, i: nat)
    requires c.Sound() && i < c.levelCount
    ensures c.PriceAt(i) == c.minPrice + (if c.descending then c.levelCount - 1 - i else i) * c.tick
  {
    assert (c.levelCount - 1 - i) * c.tick == (c.levelCount - 1) * c.tick - i * c.tick;
  }

  lemma PriceOrder(c: Config, i: nat, j: nat)
    requires c.Sound() && i < j < c.levelCount
    ensures c.Better(c.PriceAt(i), c.PriceAt(j))
  {
    MulOrder(i, j, c.tick);
  }

  /** Every level price is found at its own index. */
  lemma IndexOfPriceAt(c: Config, i: nat)
    requires c.Sound() && i < c.levelCount
    ensures c.minPrice <= c.PriceAt(i) <= c.MaxPrice() && c.IndexOf(c.PriceAt(i)) == Ok(i)
  {
    PriceBounds(c, i);
    ModUnique(i * c.tick, c.tick, i, 0);
  }

  /** An accepted price is the price of the level it selects; the others are exactly the unrepresentable ones. */
  lemma PriceAtIndexOf(c: Config, price: u64)
    requires c.Sound()
    ensures c.IndexOf(price).Ok? ==>
      c.IndexOf(price).value < c.levelCount && c.PriceAt(c.IndexOf(price).value) == price
    ensures c.IndexOf(price).Ok? <==> exists i: nat :: i < c.levelCount && c.PriceAt(i) == price
    ensures c.IndexOf(price) == Err(OutOfRange) <==> price < c.minPrice || price > c.MaxPrice()
    ensures c.IndexOf(price).Err? ==> c.IndexOf(price).error in {OutOfRange, InvalidArgument}
  {
    if c.IndexOf(price).Ok? {
      var i := c.IndexOf(price).value;
      var offset := if c.descending then c.MaxPrice() - price else price - c.minPrice;
      assert offset == i * c.tick;
      assert offset <= (c.levelCount - 1) * c.tick;
      MulOrder(c.levelCount - 1, i, c.tick);
    } else if i: nat :| i < c.levelCount && c.PriceAt(i) == price {
      IndexOfPriceAt(c, i);
      assert false;
    }
  }

  // ---- occupancy --------------------------------------------------------------------------

  predicate Marked(words: seq<u64>, i: nat)
    requires i / 64 < |words|
  {
    Bit(words[i / 64], i % 64)
  }

  /** The words mark exactly the given indices. */
  ghost predicate Marks(words: seq<u64>, n: nat, occ: set<nat>) {
    && |words| == (n + 63) / 64
    && (forall i: nat {:trigger Marked(words, i)} | i < 64 * |words| :: Marked(words, i) <==> i in occ)
    && (forall i | i in occ :: i < n)
  }

  /** The cached best is the lowest occupied index, or npos when there is none. */
  ghost predicate IsBest(best: nat, occ: set<nat>) {
    if occ == {} then best == NPOS else best in occ && forall i | i in occ :: best <= i
  }

  /** The words are a function of what they mark. */
  lemma MarksUnique(a: seq<u64>, b: seq<u64>, n: nat, occ: set<nat>)
    requires Marks(a, n, occ) && Marks(b, n, occ)
    ensures a == b
  {
    WordSize();
    forall w | 0 <= w < |a|
      ensures a[w] == b[w]
    {
      forall k: nat
        ensures Bit(a[w], k) == Bit(b[w], k)
      {
        if k < 64 {
          var i := 64 * w + k;
          assert i / 64 == w && i % 64 == k;
          assert Marked(a, i) == Marked(b, i);
        } else {
          HighBits(a[w], 64, k);
          HighBits(b[w], 64, k);
        }
      }
      SameBits(a[w], b[w]);
    }
  }

  function SetMark(words: seq<u64>, i: nat): (r: seq<u64>)
    requires i / 64 < |words|
    ensures |r| == |words|
  {
    WordSize();
    Pow2Grows(i % 64, 64);
    OrFits(words[i / 64], Pow2(i % 64), 64);
    words[i / 64 := BitOr(words[i / 64], Pow2(i % 64))]
  }

  function ClearMark(words: seq<u64>, i: nat): (r: seq<u64>)
    requires i / 64 < |words|
    ensures |r| == |words|
  {
    WordSize();
    Pow2Grows(i % 64, 64);
    AndFits(words[i / 64], U64_MAX - Pow2(i % 64));
    words[i / 64 := BitAnd(words[i / 64], U64_MAX - Pow2(i % 64))]
  }

  lemma SetMarks(words: seq<u64>, n: nat, occ: set<nat>, i: nat)
    requires Marks(words, n, occ) && i < n
    ensures Marks(SetMark(words, i), n, occ + {i})
  {
    forall j: nat | j < 64 * |words|
      ensures Marked(SetMark(words, i), j) <==> j in occ + {i}
    {
      assert Marked(words, j) <==> j in occ;
      if j / 64 == i / 64 {
        OrBit(words[i / 64], Pow2(i % 64), j % 64);
        OneBit(i % 64, j % 64);
      }
    }
  }

  lemma ClearMarks(words: seq<u64>, n: nat, occ: set<nat>, i: nat)
    requires Marks(words, n, occ) && i < n
    ensures Marks(ClearMark(words, i), n, occ - {i})
  {
    WordSize();
    Pow2Grows(i % 64, 64);
    forall j: nat | j < 64 * |words|
      ensures Marked(ClearMark(words, i), j) <==> j in occ - {i}
    {
      assert Marked(words, j) <==> j in occ;
      if j / 64 == i / 64 {
        AndBit(words[i / 64], U64_MAX - Pow2(i % 64), j % 64);
        NotBit(Pow2(i % 64), 64, j % 64);
        OneBit(i % 64, j % 64);
      }
    }
  }

  /** The set bits from an index on, by linear scan. */
  ghost function Indices(occ: set<nat>, i: nat, n: nat): seq<nat>
    decreases n - i
  {
    if i >= n then [] else (if i in occ then [i] else []) + Indices(occ, i + 1, n)
  }

  lemma {:induction false} IndicesAfterGap(occ: set<nat>, i: nat, j: nat, n: nat)
    requires i <= j <= n && forall k | i <= k < j :: k !in occ
    ensures Indices(occ, i, n) == Indices(occ, j, n)
    decreases j - i
  {
    if i < j { IndicesAfterGap(occ, i + 1, j, n); }
  }

  /** The linear scan lists every occupied index once, in increasing order. */
  lemma {:induction false} IndicesSorted(occ: set<nat>, i: nat, n: nat)
    ensures forall k | 0 <= k < |Indices(occ, i, n)| :: i <= Indices(occ, i, n)[k] < n && Indices(occ, i, n)[k] in occ
    ensures forall k, m | 0 <= k < m < |Indices(occ, i, n)| :: Indices(occ, i, n)[k] < Indices(occ, i, n)[m]
    ensures forall x | x in occ && i <= x < n :: x in Indices(occ, i, n)
    decreases n - i
  {
    if i < n {
      var rest := Indices(occ, i + 1, n);
      IndicesSorted(occ, i + 1, n);
      if i in occ {
        assert Indices(occ, i, n) == [i] + rest;
      }
    }
  }

  /** There are as many indices as marks. */
  lemma {:induction false} IndicesCount(occ: set<nat>, i: nat, n: nat)
    requires forall x | x in occ :: i <= x < n
    ensures |Indices(occ, i, n)| == |occ|
    decreases n - i
  {
    if i >= n {
      assert occ == {};
    } else if i in occ {
      IndicesDrop(occ, i, i + 1, n);
      IndicesCount(occ - {i}, i + 1, n);
    } else {
      IndicesCount(occ, i + 1, n);
    }
  }

  lemma FirstIndex(occ: set<nat>, from: nat, index: nat, n: nat)
    requires from <= index < n && index in occ && Gap(occ, from, index)
    ensures Indices(occ, from, n) == [index] + Indices(occ, index + 1, n)
  {
    IndicesAfterGap(occ, from, index, n);
  }

  /** The occupied indices are those already visited and those found from `from` on. */
  ghost predicate Walked(visited: seq<nat>, occ: set<nat>, n: nat, from: nat) {
    from <= n && visited + Indices(occ, from, n) == Indices(occ, 0, n)
  }

  lemma WalkStep(visited: seq<nat>, occ: set<nat>, n: nat, from: nat, index: nat)
    requires Walked(visited, occ, n, from) && from <= index < n && index in occ && Gap(occ, from, index)
    ensures Walked(visited + [index], occ, n, index + 1)
  {
    FirstIndex(occ, from, index, n);
    assert visited + ([index] + Indices(occ, index + 1, n)) == visited + [index] + Indices(occ, index + 1, n);
  }

  lemma WalkEnd(visited: seq<nat>, occ: set<nat>, n: nat, from: nat)
    requires Walked(visited, occ, n, from)
    ensures Gap(occ, from, n) ==> visited == Indices(occ, 0, n)
    ensures visited <= Indices(occ, 0, n)
  {
    if Gap(occ, from, n) {
      IndicesAfterGap(occ, from, n, n);
    }
  }

  lemma {:induction false} IndicesDrop(occ: set<nat>, x: nat, i: nat, n: nat)
    requires x < i
    ensures Indices(occ, i, n) == Indices(occ - {x}, i, n)
    decreases n - i
  {
    if i < n { IndicesDrop(occ, x, i + 1, n); }
  }

  /** No index in the given range is occupied. */
  ghost predicate Gap(occ: set<nat>, from: nat, to: nat) {
    forall k | k in occ :: k < from || to <= k
  }

  lemma WordBit(words: seq<u64>, n: nat, occ: set<nat>, w: nat, k: nat)
    requires Marks(words, n, occ) && w < |words| && k < 64
    ensures Bit(words[w], k) <==> 64 * w + k in occ
  {
    var i := 64 * w + k;
    assert i / 64 == w && i % 64 == k;
    assert Marked(words, i) <==> i in occ;
  }

  /** The lowest set bit of a nonzero word, read from a start bit on, is the next occupied index. */
  lemma WordHit(words: seq<u64>, n: nat, occ: set<nat>, w: nat, start: nat)
    requires Marks(words, n, occ) && w < |words| && start < 64 && ShiftRight(words[w], start) != 0
    ensures var i := 64 * w + start + TrailingZeros(ShiftRight(words[w], start));
      i in occ && Gap(occ, 64 * w + start, i)
  {
    var word := ShiftRight(words[w], start);
    var tz := TrailingZeros(word);
    LowestBit(word);
    ShiftBit(words[w], start, tz);
    WordSize();
    if start + tz >= 64 {
      HighBits(words[w], 64, start + tz);
      assert false;
    }
    WordBit(words, n, occ, w, start + tz);
    forall k | k in occ && 64 * w + start <= k < 64 * w + start + tz
      ensures false
    {
      var d := k - 64 * w - start;
      ShiftBit(words[w], start, d);
      WordBit(words, n, occ, w, start + d);
    }
  }

  lemma WordMiss(words: seq<u64>, n: nat, occ: set<nat>, w: nat, start: nat)
    requires Marks(words, n, occ) && w < |words| && start < 64 && ShiftRight(words[w], start) == 0
    ensures Gap(occ, 64 * w + start, 64 * w + 64)
  {
    forall k | k in occ && 64 * w + start <= k < 64 * w + 64
      ensures false
    {
      var d := k - 64 * w - start;
      ShiftBit(words[w], start, d);
      ZeroBit(d);
      WordBit(words, n, occ, w, start + d);
    }
  }

  /** The word-wise search finds what a linear scan would, also with a partial last word. */
  method NextSetBit(words: seq<u64>, n: u64, from: nat, ghost occ: set<nat>) returns (i: nat)
    requires Marks(words, n, occ)
    ensures i == NPOS ==> Gap(occ, from, n)
    ensures i != NPOS ==> i in occ && from <= i && Gap(occ, from, i)
  {
    if from >= n {
      return NPOS;
    }
    var startWord, startBit := from / 64, from % 64;
    var firstWord := ShiftRight(words[startWord], startBit);
    if firstWord != 0 {
      WordHit(words, n, occ, startWord, startBit);
      return from + TrailingZeros(firstWord);
    }
    WordMiss(words, n, occ, startWord, startBit);
    for word := startWord + 1 to |words|
      invariant Gap(occ, from, 64 * word)
    {
      if words[word] != 0 {
        var index := word * 64 + TrailingZeros(words[word]);
        i := if index < n then index else NPOS;
        WordHit(words, n, occ, word, 0);
        return;
      }
      WordMiss(words, n, occ, word, 0);
    }
    return NPOS;
  }

  // ---- the ladder -------------------------------------------------------------------------

  /** What a snapshot shows of one level. */
  datatype SnapshotLevel = SnapshotLevel(price: int, quantity: nat, orderCount: nat)

  /** What a walk over the given levels shows. */
  ghost function ShownAll(view: seq<LevelView>, s: seq<nat>): seq<SnapshotLevel>
    requires forall k | 0 <= k < |s| :: s[k] < |view|
  {
    seq(|s|, k requires 0 <= k < |s| => Shown(view[s[k]]))
  }

  lemma ShownCons(view: seq<LevelView>, i: nat, s: seq<nat>)
    requires i < |view| && forall k | 0 <= k < |s| :: s[k] < |view|
    ensures ShownAll(view, [i] + s) == [Shown(view[i])] + ShownAll(view, s)
  {
  }

  function Shown(v: LevelView): SnapshotLevel {
    SnapshotLevel(v.price, v.total, v.count)
  }

  lemma NoMarks(words: seq<u64>, n: nat)
    requires |words| == (n + 63) / 64 && forall w | 0 <= w < |words| :: words[w] == 0
    ensures Marks(words, n, {})
  {
    forall i: nat | i < 64 * |words|
      ensures !Marked(words, i)
    {
      ZeroBit(i % 64);
    }
  }

  /** The k-th level of a ladder that holds no orders. */
  ghost function EmptyLevel(config: Config, k: nat): LevelView
    requires config.Sound() && k < config.levelCount
  {
    PriceBounds(config, k);
    LevelView(config.PriceAt(k), Null, Null, 0, 0, [])
  }

  /** Constructs every level the ladder will ever have, at its permanent price. */
  method BuildLevels(side: Side, config: Config) returns (levels: seq<PriceLevel>, ghost view: seq<LevelView>)
    requires config.Sound()
    ensures |levels| == |view| == config.levelCount && fresh(levels)
    ensures forall k | 0 <= k < |levels| :: levels[k].self == Level(side, k) && levels[k].View() == view[k]
    ensures forall k | 0 <= k < |levels| :: view[k] == EmptyLevel(config, k)
  {
    levels, view := [], [];
    for i := 0 to config.levelCount
      invariant |levels| == |view| == i && fresh(levels)
      invariant forall k | 0 <= k < i :: levels[k].self == Level(side, k) && levels[k].View() == view[k]
      invariant forall k | 0 <= k < i :: view[k] == EmptyLevel(config, k)
    {
      PriceBounds(config, i);
      var level := new PriceLevel(Level(side, i), config.PriceAt(i));
      levels, view := levels + [level], view + [level.View()];
    }
  }

  /** Every level stands at the price of its index. */
  ghost predicate Priced(config: Config, view: seq<LevelView>) {
    forall i: nat {:trigger config.PriceAt(i)} | i < |view| :: view[i].price == config.PriceAt(i)
  }

  class PriceLadder {
    const side: Side
    const config: Config
    const levels: seq<PriceLevel>
    var words: seq<u64>
    var bestIndex: nat
    var occupied: nat
    /** The indices marked occupied. */
    ghost var occ: set<nat>
    /** What the levels hold, kept beside them. */
    ghost var view: seq<LevelView>

    ghost predicate Shape()
      reads this`view, levels
    {
      && config.Sound() && |levels| == |view| == config.levelCount
      && Priced(config, view)
      && forall i | 0 <= i < |levels| :: levels[i].self == Level(side, i) && levels[i].View() == view[i]
    }

    ghost predicate Occupancy()
      reads this`words, this`bestIndex, this`occupied, this`occ
    {
      Marks(words, config.levelCount, occ) && occupied == |occ| && IsBest(bestIndex, occ)
    }

    ghost predicate Valid()
      reads this, levels
    {
      Shape() && Occupancy()
    }

    constructor (side: Side, config: Config)
      requires config.Sound()
      ensures Valid() && fresh(levels) && this.side == side && this.config == config
      ensures occ == {} && forall i | 0 <= i < |view| :: view[i] == EmptyLevel(config, i)
    {
      var built, seen := BuildLevels(side, config);
      this.side, this.config, levels, view := side, config, built, seen;
      words := seq((config.levelCount + 63) / 64, _ => 0);
      bestIndex, occupied, occ := NPOS, 0, {};
      new;
      NoMarks(words, config.levelCount);
    }

    /**
     * Marks a level whose first order has just arrived. The bits and the cached best are right again in
     * any case; the count is right again exactly when the level was not marked before.
     */
    method MarkOccupied(price: u64) returns (r: Result<()>)
      requires Valid()
      modifies this`words, this`bestIndex, this`occupied, this`occ
      ensures Shape() && Marks(words, config.levelCount, occ) && IsBest(bestIndex, occ)
      ensures r == match config.IndexOf(price) case Ok(_) => Ok(()) case Err(e) => Err(e)
      ensures Valid() <==> r.Err? || config.IndexOf(price).value !in old(occ)
      ensures occupied == if r.Ok? then old(occupied) + 1 else old(occupied)
      ensures occ == if r.Ok? then old(occ) + {config.IndexOf(price).value} else old(occ)
    {
      var at := config.IndexOf(price);
      if at.Err? {
        return Err(at.error);
      }
      var index := at.value;
      PriceAtIndexOf(config, price);
      SetMarks(words, config.levelCount, occ, index);
      words := SetMark(words, index);
      if occupied == 0 || index < bestIndex {
        bestIndex := index;
      }
      occupied := occupied + 1;
      occ := occ + {index};
      return Ok(());
    }

    /**
     * Unmarks a level whose last order has just left, and finds the next best when it was the best. The
     * bits and the cached best are right again in any case; the count, which wraps below zero, is right
     * again exactly when the level was marked before.
     */
    method MarkEmpty(price: u64) returns (r: Result<()>)
      requires Valid()
      modifies this`words, this`bestIndex, this`occupied, this`occ
      ensures Shape() && Marks(words, config.levelCount, occ) && IsBest(bestIndex, occ)
      ensures r == match config.IndexOf(price) case Ok(_) => Ok(()) case Err(e) => Err(e)
      ensures Valid() <==> r.Err? || config.IndexOf(price).value in old(occ)
      ensures occupied == if r.Err? then old(occupied) else if old(occupied) == 0 then U64_MAX else old(occupied) - 1
      ensures occ == if r.Ok? then old(occ) - {config.IndexOf(price).value} else old(occ)
    {
      hide Marks, Priced, ClearMark, Config.Sound, Config.IndexOf;
      var at := config.IndexOf(price);
      if at.Err? {
        return Err(at.error);
      }
      var index := at.value;
      PriceAtIndexOf(config, price);
      ClearMarks(words, config.levelCount, occ, index);
      ghost var left := occ - {index};
      assert index == bestIndex ==> index in occ;
      assert index in occ ==> |left| == |occ| - 1;
      assert index !in occ ==> left == occ;
      words := ClearMark(words, index);
      occupied := if occupied == 0 then U64_MAX else occupied - 1;
      occ := left;
      if index == bestIndex {
        if occupied == 0 {
          bestIndex := NPOS;
        } else {
          bestIndex := NextSetBit(words, config.levelCount, index + 1, occ);
        }
      }
      return Ok(());
    }

    /** The best level is the lowest occupied index; there is none exactly when nothing is occupied. */
    method Best() returns (i: Result<nat>)
      requires Valid()
      ensures i.Ok? <==> occ != {}
      ensures i.Ok? ==> i.value in occ && i.value < |levels| && forall k | k in occ :: i.value <= k
    {
      i := if bestIndex == NPOS then Err(LogicError) else Ok(bestIndex);
    }

    /** Walks outward from the best level and stops after maxLevels. */
    method FirstLevels(maxLevels: nat) returns (out: seq<SnapshotLevel>)
      requires Valid()
      ensures var all := Indices(occ, 0, config.levelCount);
        && |out| == (if maxLevels < |all| then maxLevels else |all|)
        && forall k | 0 <= k < |out| :: all[k] < |view| && out[k] == Shown(view[all[k]])
    {
      out := [];
      ghost var visited: seq<nat>, from := [], 0;
      var index := bestIndex;
      var seen := 0;
      while seen < maxLevels && index != NPOS
        invariant |out| == |visited| == seen <= maxLevels && Walked(visited, occ, config.levelCount, from)
        invariant forall k | 0 <= k < seen :: visited[k] < |view| && out[k] == Shown(view[visited[k]])
        invariant if index == NPOS then Gap(occ, from, config.levelCount)
                  else index in occ && from <= index && Gap(occ, from, index)
      {
        WalkStep(visited, occ, config.levelCount, from, index);
        var level := levels[index];
        assert level.View() == view[index];
        out := out + [SnapshotLevel(level.price, level.total, level.count)];
        visited, from := visited + [index], index + 1;
        index := NextSetBit(words, config.levelCount, index + 1, occ);
        seen := seen + 1;
      }
      WalkEnd(visited, occ, config.levelCount, from);
    }
  }
}
