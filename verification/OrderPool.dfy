/**
 * The slab allocator of orders: pages of fixed slots, a free chain inside each page, and a doubly
 * linked list of the pages that still have a free slot. Page k stands at base address k.
 */
module OrderPool {
  import opened Types

  /** A 64 KiB page divided by the size of an order. */
  const ORDER_SIZE := 80
  const SLOTS_PER_PAGE := 819

  datatype PagePtr = NoPage | PageAt(n: nat)

  datatype Page = Page(
    nextFree: seq<nat>, occupied: seq<bool>, firstFree: nat, freeCount: nat,
    prev: PagePtr, next: PagePtr, onList: bool)
  {
    /** The page without its place in the free-page list. */
    function Slots(): Page { this.(prev := NoPage, next := NoPage, onList := false) }
  }

  function SlotAddress(page: nat, index: nat): Ptr {
    At(page, index * ORDER_SIZE)
  }

  // ---- one page ---------------------------------------------------------------------------

  ghost predicate Distinct(s: seq<nat>) {
    forall i, j | 0 <= i < j < |s| :: s[i] != s[j]
  }

  /** Position k of a chain; a full page's chain ends in the slot count. */
  ghost function ChainElem(chain: seq<nat>, k: nat): nat {
    if k < |chain| then chain[k] else SLOTS_PER_PAGE
  }

  ghost predicate ChainedAt(nextFree: seq<nat>, chain: seq<nat>, k: nat)
    requires k < |chain|
  {
    chain[k] < |nextFree| && nextFree[chain[k]] == ChainElem(chain, k + 1)
  }

  /** The free chain starts at firstFree, follows nextFree, and lists exactly the unoccupied slots. */
  ghost predicate PageOk(g: Page, chain: seq<nat>) {
    && |g.nextFree| == |g.occupied| == SLOTS_PER_PAGE && g.freeCount == |chain|
    && Distinct(chain) && g.firstFree == ChainElem(chain, 0)
    && (forall k | 0 <= k < |chain| :: ChainedAt(g.nextFree, chain, k))
    && (forall i | 0 <= i < SLOTS_PER_PAGE :: g.occupied[i] <==> i !in chain)
  }

  /** Taking the first free slot. */
  function Take(g: Page): Page
    requires g.firstFree < |g.nextFree| && g.firstFree < |g.occupied| && g.freeCount > 0
  {
    g.(firstFree := g.nextFree[g.firstFree], freeCount := g.freeCount - 1,
       occupied := g.occupied[g.firstFree := true])
  }

  lemma TakeOk(g: Page, chain: seq<nat>)
    requires PageOk(g, chain) && chain != []
    ensures g.firstFree < SLOTS_PER_PAGE && PageOk(Take(g), chain[1..])
  {
    assert ChainedAt(g.nextFree, chain, 0);
    assert chain == [chain[0]] + chain[1..];
    forall k | 0 <= k < |chain[1..]|
      ensures ChainedAt(g.nextFree, chain[1..], k)
    {
      assert ChainedAt(g.nextFree, chain, k + 1);
    }
  }

  /** Pushing a slot back on the chain. */
  function Give(g: Page, index: nat): Page
    requires index < |g.nextFree| && index < |g.occupied|
  {
    g.(occupied := g.occupied[index := false], nextFree := g.nextFree[index := g.firstFree],
       firstFree := index, freeCount := g.freeCount + 1)
  }

  lemma GiveOk(g: Page, chain: seq<nat>, index: nat)
    requires PageOk(g, chain) && index < SLOTS_PER_PAGE && g.occupied[index]
    ensures PageOk(Give(g, index), [index] + chain)
  {
    var after := [index] + chain;
    forall k | 0 <= k < |after|
      ensures ChainedAt(Give(g, index).nextFree, after, k)
    {
      if k > 0 {
        assert after[k] == chain[k - 1] && chain[k - 1] in chain;
        assert ChainedAt(g.nextFree, chain, k - 1);
      }
    }
  }

  method NewPage() returns (g: Page, ghost chain: seq<nat>)
    ensures PageOk(g, chain) && |chain| == SLOTS_PER_PAGE && !g.onList
    ensures forall i | 0 <= i < SLOTS_PER_PAGE :: !g.occupied[i]
  {
    var nextFree := [];
    for index := 0 to SLOTS_PER_PAGE - 1
      invariant |nextFree| == index && forall k | 0 <= k < index :: nextFree[k] == k + 1
    {
      nextFree := nextFree + [index + 1];
    }
    nextFree := nextFree + [SLOTS_PER_PAGE];
    g := Page(nextFree, seq(SLOTS_PER_PAGE, _ => false), 0, SLOTS_PER_PAGE, NoPage, NoPage, false);
    chain := seq(SLOTS_PER_PAGE, i => i);
    forall k | 0 <= k < SLOTS_PER_PAGE
      ensures ChainedAt(nextFree, chain, k) && k in chain
    {
      assert chain[k] == k;
    }
  }

  // ---- the list of pages with a free slot -------------------------------------------------

  ghost function Elem(s: seq<nat>, k: int): PagePtr {
    if 0 <= k < |s| then PageAt(s[k]) else NoPage
  }

  ghost predicate ListedAt(pages: seq<Page>, free: seq<nat>, k: nat)
    requires k < |free|
  {
    && free[k] < |pages|
    && pages[free[k]].next == Elem(free, k + 1) && pages[free[k]].prev == Elem(free, k - 1)
  }

  ghost predicate Listed(pages: seq<Page>, free: seq<nat>, first: PagePtr) {
    && Distinct(free) && first == Elem(free, 0)
    && (forall k | 0 <= k < |free| :: ListedAt(pages, free, k))
    && (forall i | 0 <= i < |pages| :: pages[i].onList <==> i in free)
  }

  /** Only list fields changed. */
  ghost predicate SameSlots(a: seq<Page>, b: seq<Page>) {
    |a| == |b| && forall i | 0 <= i < |a| :: a[i].Slots() == b[i].Slots()
  }

  method AddToFreeList(pages: seq<Page>, first: PagePtr, page: nat, ghost free: seq<nat>)
    returns (after: seq<Page>, first': PagePtr)
    requires Listed(pages, free, first) && page < |pages|
    ensures SameSlots(pages, after)
    ensures Listed(after, if page in free then free else [page] + free, first')
  {
    if pages[page].onList {
      return pages, first;
    }
    assert free != [] ==> ListedAt(pages, free, 0);
    after := pages[page := pages[page].(prev := NoPage, next := first, onList := true)];
    if first != NoPage {
      after := after[first.n := after[first.n].(prev := PageAt(page))];
    }
    first' := PageAt(page);
    ghost var list := [page] + free;
    forall k | 0 <= k < |list|
      ensures ListedAt(after, list, k)
    {
      if k > 0 {
        assert list[k] == free[k - 1];
        assert ListedAt(pages, free, k - 1);
      }
    }
  }

  ghost function Without(s: seq<nat>, m: nat): seq<nat>
    requires m < |s|
  {
    s[..m] + s[m + 1..]
  }

  /** What bypassing page number m of the list does to every page. */
  ghost predicate Unlisted(pages: seq<Page>, after: seq<Page>, page: nat)
    requires page < |pages|
  {
    && |after| == |pages|
    && after[page] == pages[page].Slots()
    && forall i | 0 <= i < |pages| && i != page ::
         after[i] == pages[i].(next := if PageAt(i) == pages[page].prev then pages[page].next else pages[i].next,
                               prev := if PageAt(i) == pages[page].next then pages[page].prev else pages[i].prev)
  }

  /** The neighbours of an element after another one was taken out. */
  lemma ElemWithout(free: seq<nat>, m: nat, k: nat)
    requires m < |free| && k + 1 < |free|
    ensures var list, j := Without(free, m), if k < m then k else k + 1;
      && k < |list| && list[k] == free[j]
      && Elem(list, k + 1) == (if j + 1 == m then Elem(free, m + 1) else Elem(free, j + 1))
      && Elem(list, k - 1) == (if j - 1 == m then Elem(free, m - 1) else Elem(free, j - 1))
  {
  }

  lemma UnlistedOk(pages: seq<Page>, after: seq<Page>, free: seq<nat>, first: PagePtr, m: nat)
    requires Listed(pages, free, first) && m < |free| && free[m] < |pages| && Unlisted(pages, after, free[m])
    ensures Listed(after, Without(free, m), Elem(Without(free, m), 0))
  {
    var list := Without(free, m);
    assert ListedAt(pages, free, m);
    forall k | 0 <= k < |list|
      ensures ListedAt(after, list, k)
    {
      var j := if k < m then k else k + 1;
      assert list[k] == free[j];
      assert ListedAt(pages, free, j);
      ElemWithout(free, m, k);
    }
    forall i | 0 <= i < |after| && i in free && i != free[m]
      ensures i in list
    {
      var k :| 0 <= k < |free| && free[k] == i;
      assert list[if k < m then k else k - 1] == i;
    }
  }

  method RemoveFromFreeList(pages: seq<Page>, first: PagePtr, page: nat, ghost free: seq<nat>, ghost m: nat)
    returns (after: seq<Page>, first': PagePtr)
    requires Listed(pages, free, first) && page < |pages| && (page in free ==> m < |free| && free[m] == page)
    ensures SameSlots(pages, after)
    ensures Listed(after, if page in free then Without(free, m) else free, first')
  {
    if !pages[page].onList {
      return pages, first;
    }
    assert ListedAt(pages, free, m);
    assert m > 0 ==> ListedAt(pages, free, m - 1);
    assert m + 1 < |free| ==> ListedAt(pages, free, m + 1);
    after, first' := pages, first;
    var prev, next := pages[page].prev, pages[page].next;
    if prev != NoPage {
      after := after[prev.n := after[prev.n].(next := next)];
    } else {
      first' := next;
    }
    if next != NoPage {
      after := after[next.n := after[next.n].(prev := prev)];
    }
    after := after[page := after[page].(prev := NoPage, next := NoPage, onList := false)];
    UnlistedOk(pages, after, free, first, m);
  }

  // ---- the pool ---------------------------------------------------------------------------

  /** An address of an occupied slot. */
  ghost predicate IsLive(pages: seq<Page>, p: Ptr) {
    && p.At? && p.page < |pages| && p.offset % ORDER_SIZE == 0
    && p.offset / ORDER_SIZE < |pages[p.page].occupied| && p.offset / ORDER_SIZE < SLOTS_PER_PAGE
    && pages[p.page].occupied[p.offset / ORDER_SIZE]
  }

  ghost function FreeSlots(chains: seq<seq<nat>>): nat {
    if chains == [] then 0 else |chains[0]| + FreeSlots(chains[1..])
  }

  lemma {:induction false} FreeSlotsUpdate(chains: seq<seq<nat>>, i: nat, chain: seq<nat>)
    requires i < |chains|
    ensures FreeSlots(chains[i := chain]) == FreeSlots(chains) - |chains[i]| + |chain|
  {
    if i == 0 {
      assert chains[i := chain][1..] == chains[1..];
    } else {
      assert chains[i := chain][1..] == chains[1..][i - 1 := chain];
      FreeSlotsUpdate(chains[1..], i - 1, chain);
    }
  }

  lemma {:induction false} FreeSlotsAppend(chains: seq<seq<nat>>, chain: seq<nat>)
    ensures FreeSlots(chains + [chain]) == FreeSlots(chains) + |chain|
  {
    if chains == [] {
      assert ([chain])[1..] == [];
    } else {
      assert (chains + [chain])[1..] == chains[1..] + [chain];
      FreeSlotsAppend(chains[1..], chain);
    }
  }

  lemma {:induction false} NoFreeSlots(chains: seq<seq<nat>>)
    requires forall i | 0 <= i < |chains| :: chains[i] == []
    ensures FreeSlots(chains) == 0
  {
    if chains != [] {
      NoFreeSlots(chains[1..]);
    }
  }

  lemma {:induction false} SomeFreeSlot(chains: seq<seq<nat>>, i: nat)
    requires i < |chains| && chains[i] != []
    ensures FreeSlots(chains) > 0
  {
    if i > 0 {
      SomeFreeSlot(chains[1..], i - 1);
    }
  }

  /** Everything the pool keeps, for the set of addresses of live orders. */
  ghost predicate PoolOk(pages: seq<Page>, chains: seq<seq<nat>>, free: seq<nat>, first: PagePtr, live: set<Ptr>) {
    && |chains| == |pages| && Listed(pages, free, first)
    && (forall i | 0 <= i < |pages| :: PageOk(pages[i], chains[i]))
    && (forall i | 0 <= i < |pages| :: i in free <==> chains[i] != [])
    && (forall p :: p in live <==> IsLive(pages, p))
  }

  lemma SlotRoundTrip(page: nat, index: nat)
    ensures SlotAddress(page, index).offset % ORDER_SIZE == 0
    ensures SlotAddress(page, index).offset / ORDER_SIZE == index
  {
  }

  /** A new page enlarges the pool without touching a live slot. */
  lemma GrowListed(pages: seq<Page>, g: Page, free: seq<nat>, first: PagePtr)
    requires Listed(pages, free, first) && !g.onList
    ensures Listed(pages + [g], free, first) && |pages| !in free
  {
    forall k | 0 <= k < |free|
      ensures ListedAt(pages + [g], free, k) && free[k] < |pages|
    {
      assert ListedAt(pages, free, k);
    }
  }

  lemma GrowOk(pages: seq<Page>, g: Page, after: seq<Page>, chains: seq<seq<nat>>, chain: seq<nat>, free: seq<nat>,
               first: PagePtr, first': PagePtr, live: set<Ptr>)
    requires PoolOk(pages, chains, free, first, live) && SameSlots(pages + [g], after)
    requires PageOk(g, chain) && chain != [] && forall i | 0 <= i < SLOTS_PER_PAGE :: !g.occupied[i]
    requires Listed(after, [|pages|] + free, first')
    ensures PoolOk(after, chains + [chain], [|pages|] + free, first', live)
  {
    var grown := pages + [g];
    forall i | 0 <= i < |after|
      ensures PageOk(after[i], (chains + [chain])[i])
      ensures i in [|pages|] + free <==> (chains + [chain])[i] != []
    {
      assert grown[i].Slots() == after[i].Slots();
    }
    forall p
      ensures IsLive(pages, p) <==> IsLive(after, p)
    {
      if p.At? && p.page < |after| {
        assert grown[p.page].Slots() == after[p.page].Slots();
      }
    }
  }

  /** Rewriting the slots of one page leaves the page list alone. */
  lemma PutPage(pages: seq<Page>, chains: seq<seq<nat>>, free: seq<nat>, first: PagePtr, live: set<Ptr>,
                k: nat, after: seq<Page>, chains': seq<seq<nat>>)
    requires PoolOk(pages, chains, free, first, live) && k < |pages| == |after| == |chains'|
    requires after == pages[k := after[k]] && chains' == chains[k := chains'[k]] && PageOk(after[k], chains'[k])
    requires after[k].prev == pages[k].prev && after[k].next == pages[k].next && after[k].onList == pages[k].onList
    ensures Listed(after, free, first)
    ensures forall i | 0 <= i < |pages| :: PageOk(after[i], chains'[i])
  {
    forall j | 0 <= j < |free|
      ensures ListedAt(after, free, j)
    {
      assert ListedAt(pages, free, j);
    }
  }

  lemma DropFirst(free: seq<nat>)
    requires Distinct(free) && free != []
    ensures forall i :: i in Without(free, 0) <==> i in free && i != free[0]
  {
    assert free == [free[0]] + Without(free, 0);
  }

  /** Relinking the page list leaves the slots alone. */
  lemma RelistOk(mid: seq<Page>, after: seq<Page>, chains: seq<seq<nat>>)
    requires SameSlots(mid, after) && |chains| == |mid|
    requires forall i | 0 <= i < |mid| :: PageOk(mid[i], chains[i])
    ensures forall i | 0 <= i < |mid| :: PageOk(after[i], chains[i])
    ensures forall p :: IsLive(after, p) <==> IsLive(mid, p)
  {
    forall i | 0 <= i < |mid|
      ensures PageOk(after[i], chains[i])
    {
      assert mid[i].Slots() == after[i].Slots();
    }
    forall p
      ensures IsLive(mid, p) <==> IsLive(after, p)
    {
      if p.At? && p.page < |after| {
        assert mid[p.page].Slots() == after[p.page].Slots();
      }
    }
  }

  /** Changing one occupied flag changes the liveness of exactly that address. */
  lemma FlagLive(pages: seq<Page>, k: nat, g: Page, index: nat, flag: bool)
    requires k < |pages| && |pages[k].occupied| == SLOTS_PER_PAGE && index < SLOTS_PER_PAGE
    requires g.occupied == pages[k].occupied[index := flag]
    ensures IsLive(pages, SlotAddress(k, index)) <==> pages[k].occupied[index]
    ensures forall p | p != SlotAddress(k, index) :: IsLive(pages[k := g], p) <==> IsLive(pages, p)
    ensures IsLive(pages[k := g], SlotAddress(k, index)) <==> flag
  {
    SlotRoundTrip(k, index);
  }

  /** The bookkeeping of an allocation from page k, the first with a free slot. */
  method TakeSlot(pages: seq<Page>, first: PagePtr, k: nat, ghost chains: seq<seq<nat>>, ghost free: seq<nat>,
                  ghost live: set<Ptr>)
    returns (p: Ptr, after: seq<Page>, first': PagePtr, ghost chains': seq<seq<nat>>, ghost free': seq<nat>)
    requires PoolOk(pages, chains, free, first, live) && free != [] && k == free[0]
    ensures p != Null && p !in live
    ensures PoolOk(after, chains', free', first', live + {p})
    ensures |after| == |pages| && FreeSlots(chains') == FreeSlots(chains) - 1
  {
    assert ListedAt(pages, free, 0) && k in free;
    var g := pages[k];
    TakeOk(g, chains[k]);
    p := SlotAddress(k, g.firstFree);
    after, first', free' := pages[k := Take(g)], first, free;
    chains' := chains[k := chains[k][1..]];
    FreeSlotsUpdate(chains, k, chains[k][1..]);
    PutPage(pages, chains, free, first, live, k, after, chains');
    FlagLive(pages, k, Take(g), g.firstFree, true);
    if after[k].freeCount == 0 {
      ghost var mid := after;
      after, first' := RemoveFromFreeList(after, first, k, free, 0);
      RelistOk(mid, after, chains');
      free' := Without(free, 0);
      DropFirst(free);
    }
  }

  /** The bookkeeping of a release. */
  method GiveSlot(pages: seq<Page>, first: PagePtr, p: Ptr, index: nat, ghost chains: seq<seq<nat>>,
                  ghost free: seq<nat>, ghost live: set<Ptr>)
    returns (after: seq<Page>, first': PagePtr, ghost chains': seq<seq<nat>>, ghost free': seq<nat>)
    requires PoolOk(pages, chains, free, first, live) && p in live && p == SlotAddress(p.page, index)
    ensures PoolOk(after, chains', free', first', live - {p})
    ensures |after| == |pages| && FreeSlots(chains') == FreeSlots(chains) + 1
  {
    assert IsLive(pages, p);
    var k := p.page;
    SlotRoundTrip(k, index);
    var g := pages[k];
    GiveOk(g, chains[k], index);
    after, first', free' := pages[k := Give(g, index)], first, free;
    chains' := chains[k := [index] + chains[k]];
    FreeSlotsUpdate(chains, k, [index] + chains[k]);
    PutPage(pages, chains, free, first, live, k, after, chains');
    FlagLive(pages, k, Give(g, index), index, false);
    if g.freeCount == 0 {
      ghost var mid := after;
      after, first' := AddToFreeList(after, first, k, free);
      RelistOk(mid, after, chains');
      free' := [k] + free;
    }
  }

  lemma RemoveSize(cells: map<Ptr, Order>, p: Ptr)
    requires p in cells
    ensures (cells - {p}).Keys == cells.Keys - {p} && |cells - {p}| == |cells| - 1
  {
    assert (cells - {p}).Keys == cells.Keys - {p};
  }

  class OrderPool {
    const mem: OrderMemory
    var pages: seq<Page>
    var first: PagePtr
    var liveCount: nat
    ghost var chains: seq<seq<nat>>
    ghost var free: seq<nat>

    /** The bookkeeping describes exactly the given live addresses. */
    ghost predicate Tracks(live: set<Ptr>)
      reads this
    {
      && PoolOk(pages, chains, free, first, live)
      && liveCount == |live| && liveCount + FreeSlots(chains) == SLOTS_PER_PAGE * |pages|
    }

    ghost predicate Valid()
      reads this, mem
    {
      Tracks(mem.cells.Keys)
    }

    constructor ()
      ensures Valid() && fresh(mem) && mem.cells == map[] && pages == []
    {
      mem := new OrderMemory();
      pages, first, liveCount := [], NoPage, 0;
      chains, free := [], [];
    }

    /** Adds an empty page in front of the free-page list; no live order moves. */
    method CreatePage()
      requires Valid()
      modifies this
      ensures Valid() && liveCount == old(liveCount) && |pages| == old(|pages|) + 1
      ensures free != [] && first == PageAt(free[0])
    {
      var g, chain := NewPage();
      ghost var n := |pages|;
      assert liveCount + FreeSlots(chains + [chain]) == SLOTS_PER_PAGE * (|pages| + 1) by {
        FreeSlotsAppend(chains, chain);
      }
      GrowListed(pages, g, free, first);
      var after, first' := AddToFreeList(pages + [g], first, |pages|, free);
      GrowOk(pages, g, after, chains, chain, free, first, first', mem.cells.Keys);
      pages, first := after, first';
      chains, free := chains + [chain], [n] + free;
    }

    /** Creates pages until n orders fit; afterwards no page is created while fewer than n are alive. */
    method Reserve(n: nat)
      requires Valid()
      modifies this
      ensures Valid() && liveCount == old(liveCount)
      ensures n <= SLOTS_PER_PAGE * |pages| && old(|pages|) <= |pages|
      ensures |pages| == old(|pages|) || SLOTS_PER_PAGE * (|pages| - 1) < n
    {
      var needed := (n + SLOTS_PER_PAGE - 1) / SLOTS_PER_PAGE;
      while |pages| < needed
        invariant Valid() && liveCount == old(liveCount) && old(|pages|) <= |pages|
        invariant |pages| == old(|pages|) || |pages| <= needed
      {
        CreatePage();
      }
    }

    /** Constructs an order in the first free slot of the first page that has one. */
    method Occupy(o: Order) returns (p: Ptr)
      requires Valid() && first != NoPage
      modifies this, mem
      ensures Valid() && p != Null && p !in old(mem.cells) && |pages| == old(|pages|)
      ensures mem.cells == old(mem.cells)[p := o] && liveCount == old(liveCount) + 1
    {
      var at, after, first', chains', free' := TakeSlot(pages, first, first.n, chains, free, mem.cells.Keys);
      assert liveCount + 1 + FreeSlots(chains') == SLOTS_PER_PAGE * |after|;
      assert mem.cells[at := o].Keys == mem.cells.Keys + {at};
      p := at;
      Store(after, first', liveCount + 1, mem.cells[p := o], chains', free');
    }

    /** Constructs an order in a slot that held none; a page is created only when every slot is live. */
    method Allocate(o: Order) returns (p: Ptr)
      requires Valid()
      modifies this, mem
      ensures Valid() && p != Null && p !in old(mem.cells)
      ensures mem.cells == old(mem.cells)[p := o] && liveCount == old(liveCount) + 1
      ensures |pages| == if old(liveCount) == SLOTS_PER_PAGE * old(|pages|) then old(|pages|) + 1 else old(|pages|)
    {
      AllFull();
      if first == NoPage {
        CreatePage();
      }
      p := Occupy(o);
    }

    /** The free-page list is empty exactly when every slot of every page is live. */
    lemma AllFull()
      requires Valid()
      ensures first == NoPage <==> liveCount == SLOTS_PER_PAGE * |pages|
    {
      if first == NoPage {
        NoFreeSlots(chains);
      } else {
        assert ListedAt(pages, free, 0) && free[0] in free;
        SomeFreeSlot(chains, free[0]);
      }
    }

    /** The checks of a release recognise exactly the live addresses. */
    lemma LiveIff(p: Ptr)
      requires Valid()
      ensures p in mem.cells <==> IsLive(pages, p)
      ensures forall i | 0 <= i < |pages| :: |pages[i].occupied| == SLOTS_PER_PAGE
      ensures p.At? && p.offset % ORDER_SIZE == 0 ==> p == SlotAddress(p.page, p.offset / ORDER_SIZE)
    {
      forall i | 0 <= i < |pages|
        ensures |pages[i].occupied| == SLOTS_PER_PAGE
      {
        assert PageOk(pages[i], chains[i]);
      }
    }

    /** Destroys a live order and recycles its slot; any other pointer is refused. */
    method Release(p: Ptr) returns (r: Result<()>)
      requires Valid()
      modifies this, mem
      ensures Valid() && |pages| == old(|pages|)
      ensures r == if p in old(mem.cells) then Ok(()) else Err(InvalidArgument)
      ensures mem.cells == old(mem.cells) - {p}
    {
      hide Tracks;
      LiveIff(p);
      if p == Null {
        return Err(InvalidArgument);
      }
      if p.page >= |pages| {
        return Err(InvalidArgument);
      }
      if p.offset % ORDER_SIZE != 0 {
        return Err(InvalidArgument);
      }
      var index := p.offset / ORDER_SIZE;
      if index >= SLOTS_PER_PAGE || !pages[p.page].occupied[index] {
        return Err(InvalidArgument);
      }
      Recycle(p, index);
      return Ok(());
    }

    /** Writes new bookkeeping back. */
    method Store(pages: seq<Page>, first: PagePtr, liveCount: nat, cells: map<Ptr, Order>,
                 ghost chains: seq<seq<nat>>, ghost free: seq<nat>)
      requires PoolOk(pages, chains, free, first, cells.Keys) && liveCount == |cells|
      requires liveCount + FreeSlots(chains) == SLOTS_PER_PAGE * |pages|
      modifies this, mem
      ensures Valid() && this.pages == pages && this.liveCount == liveCount && mem.cells == cells
    {
      this.pages, this.first, this.liveCount := pages, first, liveCount;
      this.chains, this.free := chains, free;
      mem.cells := cells;
    }

    /** Takes an order out of its slot and puts the slot at the head of its page's chain. */
    method Recycle(p: Ptr, index: nat)
      requires Valid() && p in mem.cells && p == SlotAddress(p.page, index)
      modifies this, mem
      ensures Valid() && |pages| == old(|pages|) && mem.cells == old(mem.cells) - {p}
    {
      var after, first', chains', free' := GiveSlot(pages, first, p, index, chains, free, mem.cells.Keys);
      RemoveSize(mem.cells, p);
      var left, n := mem.cells - {p}, liveCount - 1;
      assert n == |left| && n + FreeSlots(chains') == SLOTS_PER_PAGE * |after|;
      assert PoolOk(after, chains', free', first', left.Keys);
      Store(after, first', n, left, chains', free');
    }
  }
}
