/**
 * The single-producer single-consumer event queue as interleaved atomic steps. An atomic cursor is
 * its modification order, the list of all values ever stored; an acquire load may return any value
 * from the last one that thread has seen up to the newest. Cursors are 64-bit and wrap.
 *
 * Sections 6.9.2.1 and 31.4 of ISO C++20: an acquire load that reads the k-th store of a cursor
 * happens after everything its writer did before that store. A slot access that is not ordered in
 * this way after the other thread's last access of the slot is a data race and counts as a fault.
 */
module SpscQueue {
  import opened Bits

  const WRAP: int := 0x1_0000_0000_0000_0000

  datatype Option<T> = None | Some(value: T)

  datatype Cell<E> = Dead | Live(event: E)

  /** Where tryPush stands, with its local copy of tail. */
  datatype Pushing<E> =
    | NotPushing
    | Testing(event: E, tail: nat)
    | Reloading(event: E, tail: nat)
    | Building(event: E, tail: nat)
    | Publishing(event: E, tail: nat)

  /** Where tryPop stands, with its local copy of head. */
  datatype Popping =
    | NotPopping
    | Checking(head: nat)
    | Refreshing(head: nat)
    | Taking(head: nat)
    | Destroying(head: nat)
    | Releasing(head: nat)

  datatype Queue<E> = Queue(
    heads: seq<nat>, tails: seq<nat>,
    cachedHead: nat, cachedTail: nat, seenHead: nat, seenTail: nat,
    slots: seq<Cell<E>>, push: Pushing<E>, pop: Popping,
    pushed: seq<E>, popped: seq<E>, fault: bool)

  /** One atomic step of one thread; a load names the store it reads from. */
  datatype Action<E> =
    | StartPush(event: E) | TestFull | LoadHead(k: nat) | Construct | StoreTail
    | StartPop | TestEmpty | LoadTail(k: nat) | Take | Destroy | StoreHead

  ghost predicate Capacity(cap: nat) {
    2 <= cap < WRAP && IsPow2(cap)
  }

  function Init<E>(cap: nat): Queue<E> {
    Queue([0], [0], 0, 0, 0, 0, seq(cap, _ => Dead), NotPushing, NotPopping, [], [], false)
  }

  /** A counter as a 64-bit cursor holds it. */
  function Wrapped(n: nat): nat { n % WRAP }

  /** 64-bit subtraction. */
  function Sub(a: nat, b: nat): int { (a - b) % WRAP }

  /** The slot of a cursor value: `index & mask_`. */
  function Slot(cursor: nat, cap: nat): (i: nat)
    requires Capacity(cap)
    ensures i < cap
  {
    Mask(cursor, cap)
  }

  predicate Enabled<E>(q: Queue<E>, a: Action<E>) {
    q.heads != [] && q.tails != [] &&
    match a
    case StartPush(_) => q.push.NotPushing?
    case TestFull => q.push.Testing?
    case LoadHead(k) => q.push.Reloading? && q.seenHead <= k < |q.heads|
    case Construct => q.push.Building?
    case StoreTail => q.push.Publishing?
    case StartPop => q.pop.NotPopping?
    case TestEmpty => q.pop.Checking?
    case LoadTail(k) => q.pop.Refreshing? && q.seenTail <= k < |q.tails|
    case Take => q.pop.Taking?
    case Destroy => q.pop.Destroying?
    case StoreHead => q.pop.Releasing?
  }

  function Last(s: seq<nat>): nat
    requires s != []
  {
    s[|s| - 1]
  }

  /** The steps of tryPush. */
  function PushStep<E>(cap: nat, q: Queue<E>, a: Action<E>): Queue<E>
    requires Capacity(cap) && |q.slots| == cap && Enabled(q, a)
  {
    match a
    case StartPush(e) => q.(push := Testing(e, Last(q.tails)))
    case TestFull =>
      var Testing(e, tail) := q.push;
      q.(push := if Sub(tail, q.cachedHead) >= cap then Reloading(e, tail) else Building(e, tail))
    case LoadHead(k) =>
      var Reloading(e, tail) := q.push;
      q.(seenHead := k, cachedHead := q.heads[k],
         push := if Sub(tail, q.heads[k]) >= cap then NotPushing else Building(e, tail))
    case Construct =>
      var Building(e, tail) := q.push;
      var i := Slot(tail, cap);
      q.(slots := q.slots[i := Live(e)], push := Publishing(e, tail),
         fault := q.fault || q.slots[i].Live? || q.seenHead + cap <= |q.tails| - 1)
    case StoreTail =>
      var Publishing(e, tail) := q.push;
      q.(tails := q.tails + [Wrapped(tail + 1)], push := NotPushing, pushed := q.pushed + [e])
    case _ => q
  }

  /** The steps of tryPop. */
  function PopStep<E>(cap: nat, q: Queue<E>, a: Action<E>): Queue<E>
    requires Capacity(cap) && |q.slots| == cap && Enabled(q, a)
  {
    match a
    case StartPop => q.(pop := Checking(Last(q.heads)))
    case TestEmpty =>
      q.(pop := if q.pop.head == q.cachedTail then Refreshing(q.pop.head) else Taking(q.pop.head))
    case LoadTail(k) =>
      q.(seenTail := k, cachedTail := q.tails[k],
         pop := if q.pop.head == q.tails[k] then NotPopping else Taking(q.pop.head))
    case Take =>
      var i := Slot(q.pop.head, cap);
      q.(pop := Destroying(q.pop.head), popped := if q.slots[i].Live? then q.popped + [q.slots[i].event] else q.popped,
         fault := q.fault || q.slots[i].Dead? || q.seenTail <= |q.heads| - 1)
    case Destroy =>
      var i := Slot(q.pop.head, cap);
      q.(pop := Releasing(q.pop.head), slots := q.slots[i := Dead],
         fault := q.fault || q.slots[i].Dead? || q.seenTail <= |q.heads| - 1)
    case StoreHead => q.(heads := q.heads + [Wrapped(q.pop.head + 1)], pop := NotPopping)
    case _ => q
  }

  predicate IsPush<E>(a: Action<E>) {
    a.StartPush? || a.TestFull? || a.LoadHead? || a.Construct? || a.StoreTail?
  }

  function Next<E>(cap: nat, q: Queue<E>, a: Action<E>): Queue<E>
    requires Capacity(cap) && |q.slots| == cap && Enabled(q, a)
  {
    if IsPush(a) then PushStep(cap, q, a) else PopStep(cap, q, a)
  }

  // ---- unbounded cursors ------------------------------------------------------------------

  /** The number of completed pushes and pops: the cursors as they would be without wrap-around. */
  function Tail<E>(q: Queue<E>): int { |q.tails| - 1 }

  function Head<E>(q: Queue<E>): int { |q.heads| - 1 }

  /** The end of the constructed region, which runs ahead of tail while a push is being published. */
  function Built<E>(q: Queue<E>): int { Tail(q) + if q.push.Publishing? then 1 else 0 }

  /** The start of the constructed region, which runs ahead of head while a pop is being published. */
  function Freed<E>(q: Queue<E>): int { Head(q) + if q.pop.Releasing? then 1 else 0 }

  ghost function Items<E>(q: Queue<E>): seq<E> {
    if q.push.Publishing? then q.pushed + [q.push.event] else q.pushed
  }

  function At(n: nat, cap: nat): nat
    requires cap > 0
  {
    n % cap
  }

  ghost predicate Counts(s: seq<nat>) {
    s != [] && forall k | 0 <= k < |s| :: s[k] == Wrapped(k)
  }

  ghost predicate Cursors<E>(cap: nat, q: Queue<E>) {
    && Counts(q.heads) && Counts(q.tails)
    && q.seenHead <= Head(q) && q.cachedHead == Wrapped(q.seenHead)
    && q.seenTail <= Tail(q) && q.cachedTail == Wrapped(q.seenTail)
    && Head(q) <= q.seenTail && Tail(q) <= q.seenHead + cap
  }

  /** The local copies are the thread's own cursor, and past the tests there is room or there is an item. */
  ghost predicate Locals<E>(cap: nat, q: Queue<E>) {
    && 0 <= Tail(q) && 0 <= Head(q)
    && (!q.push.NotPushing? ==> q.push.tail == Wrapped(Tail(q)))
    && (q.push.Building? || q.push.Publishing? ==> Tail(q) < q.seenHead + cap)
    && (!q.pop.NotPopping? ==> q.pop.head == Wrapped(Head(q)))
    && (q.pop.Taking? || q.pop.Destroying? || q.pop.Releasing? ==> Head(q) < q.seenTail)
  }

  /** Exactly the cells between Freed and Built are alive, each with its own item. */
  ghost predicate Cells<E>(cap: nat, q: Queue<E>)
    requires cap > 0
  {
    && |q.slots| == cap && |q.pushed| == Tail(q) && 0 <= Freed(q)
    && (forall n: nat {:trigger At(n, cap)} | Freed(q) <= n < Built(q) && n < |Items(q)| ::
        q.slots[At(n, cap)] == Live(Items(q)[n]))
    && (forall n: nat {:trigger At(n, cap)} | Built(q) <= n < Freed(q) + cap :: q.slots[At(n, cap)] == Dead)
  }

  ghost predicate History<E>(q: Queue<E>) {
    var n := Head(q) + if q.pop.Destroying? || q.pop.Releasing? then 1 else 0;
    0 <= n <= |q.pushed| && q.popped == q.pushed[..n]
  }

  ghost predicate Inv<E>(cap: nat, q: Queue<E>) {
    Capacity(cap) && Cursors(cap, q) && Locals(cap, q) && Cells(cap, q) && History(q) && !q.fault
  }

  // ---- arithmetic -------------------------------------------------------------------------

  /** 64-bit values of counters less than a wrap apart tell the counters apart. */
  lemma WrapDistinct(a: nat, b: nat, n: nat)
    requires n > 0 && a <= b < a + n
    ensures (b - a) == (b % n - a % n) % n
    ensures a % n == b % n <==> a == b
  {
    var qa, ra, qb, rb := a / n, a % n, b / n, b % n;
    assert a == qa * n + ra && b == qb * n + rb;
    assert rb - ra == (qa - qb) * n + (b - a) by {
      assert (qa - qb) * n == qa * n - qb * n;
    }
    ModUnique(rb - ra, n, qa - qb, b - a);
    if ra == rb {
      ModUnique(0, n, 0, 0);
    }
  }

  /** The modular full test decides what unbounded cursors would. */
  lemma FullTest(tail: nat, head: nat, cap: nat)
    requires head <= tail <= head + cap && cap < WRAP
    ensures Sub(Wrapped(tail), Wrapped(head)) == tail - head
  {
    WrapDistinct(head, tail, WRAP);
  }

  /** The modular empty test decides what unbounded cursors would. */
  lemma EmptyTest(head: nat, tail: nat, cap: nat)
    requires head <= tail <= head + cap && cap < WRAP
    ensures Wrapped(head) == Wrapped(tail) <==> head == tail
  {
    WrapDistinct(head, tail, WRAP);
  }

  lemma {:induction false} Pow2Divides(j: nat, k: nat) returns (d: nat)
    requires j <= k
    ensures Pow2(k) == d * Pow2(j)
  {
    Pow2Sum(k - j, j);
    d := Pow2(k - j);
  }

  lemma {:induction false} Pow2Order(j: nat, k: nat)
    requires Pow2(j) < Pow2(k)
    ensures j <= k
  {
    if k < j { Pow2Grows(k, j); }
  }

  lemma ModMod(n: nat, d: nat, c: nat)
    requires d > 0 && c > 0
    ensures (n % (d * c)) % c == n % c
  {
    var w := d * c;
    var q, r := n / w, n % w;
    assert n == q * w + r;
    assert r == (r / c) * c + r % c;
    assert q * w == (q * d) * c;
    assert n == (q * d + r / c) * c + r % c by {
      assert (q * d + r / c) * c == (q * d) * c + (r / c) * c;
    }
    ModUnique(n, c, q * d + r / c, r % c);
  }

  /** Wrap-around never moves an item: the masked 64-bit cursor selects the slot of the unbounded one. */
  lemma SlotIsAt(n: nat, cap: nat)
    requires Capacity(cap)
    ensures Slot(Wrapped(n), cap) == At(n, cap)
  {
    var j: nat :| Pow2(j) == cap;
    WordSize();
    Pow2Order(j, 64);
    var d := Pow2Divides(j, 64);
    ModMod(n, d, cap);
  }

  /** Distinct positions of one window use distinct slots. */
  lemma SlotsDistinct(a: nat, b: nat, cap: nat)
    requires cap > 0 && a < b < a + cap
    ensures At(a, cap) != At(b, cap)
  {
    WrapDistinct(a, b, cap);
  }

  lemma SlotRecurs(a: nat, cap: nat)
    requires cap > 0
    ensures At(a + cap, cap) == At(a, cap)
  {
    ModUnique(a + cap, cap, a / cap + 1, a % cap);
  }

  // ---- every step keeps the invariant ------------------------------------------------------

  lemma InitInv<E>(cap: nat)
    requires Capacity(cap)
    ensures Inv(cap, Init<E>(cap))
  {
    var q := Init<E>(cap);
    assert Counts(q.heads) && Counts(q.tails);
    forall n: nat | Built(q) <= n < Freed(q) + cap
      ensures q.slots[At(n, cap)] == Dead
    {
    }
  }

  lemma StartPushKeeps<E>(cap: nat, q: Queue<E>, e: E)
    requires Inv(cap, q) && Enabled(q, StartPush(e))
    ensures Inv(cap, Next(cap, q, StartPush(e)))
  {
    hide Wrapped, Capacity, Slot, At;
  }

  lemma TestFullKeeps<E>(cap: nat, q: Queue<E>)
    requires Inv(cap, q) && Enabled(q, TestFull)
    ensures Inv(cap, Next(cap, q, TestFull))
    ensures Next(cap, q, TestFull).push.Reloading? <==> Tail(q) - q.seenHead >= cap
  {
    hide Wrapped, IsPow2, Sub, Slot, At, Counts;
    FullTest(Tail(q), q.seenHead, cap);
  }

  /** A refreshed full test: refused exactly when the head it read is a whole capacity behind. */
  lemma LoadHeadKeeps<E>(cap: nat, q: Queue<E>, k: nat)
    requires Inv(cap, q) && Enabled(q, LoadHead(k))
    ensures Inv(cap, Next(cap, q, LoadHead(k)))
    ensures Next(cap, q, LoadHead(k)).push.NotPushing? <==> Tail(q) - k >= cap
  {
    hide Wrapped, IsPow2, Sub, Slot, At;
    FullTest(Tail(q), k, cap);
  }

  lemma ConstructKeeps<E>(cap: nat, q: Queue<E>)
    requires Inv(cap, q) && Enabled(q, Construct)
    ensures Inv(cap, Next(cap, q, Construct))
  {
    hide Wrapped, Capacity, Counts;
    var r := Next(cap, q, Construct);
    var t := Tail(q);
    SlotIsAt(t, cap);
    assert q.slots[At(t, cap)] == Dead;
    forall n: nat | Freed(r) <= n < Built(r) && n < |Items(r)|
      ensures r.slots[At(n, cap)] == Live(Items(r)[n])
    {
      if n < t {
        SlotsDistinct(n, t, cap);
        assert q.slots[At(n, cap)] == Live(Items(q)[n]);
      }
    }
    forall n: nat | Built(r) <= n < Freed(r) + cap
      ensures r.slots[At(n, cap)] == Dead
    {
      SlotsDistinct(t, n, cap);
      assert q.slots[At(n, cap)] == Dead;
    }
  }

  /** Incrementing the wrapped value is wrapping the incremented one. */
  lemma NextMod(n: nat, w: nat)
    requires w > 0
    ensures (n % w + 1) % w == (n + 1) % w
  {
    var m := n % w + 1;
    var d, r := m / w, m % w;
    assert n == n / w * w + n % w && m == d * w + r;
    assert (n / w + d) * w == n / w * w + d * w;
    ModUnique(n + 1, w, n / w + d, r);
  }

  lemma NextWrapped(n: nat)
    ensures Wrapped(Wrapped(n) + 1) == Wrapped(n + 1)
  {
    NextMod(n, WRAP);
  }

  lemma NextCount(s: seq<nat>, n: nat)
    requires Counts(s) && |s| == n + 1
    ensures Counts(s + [Wrapped(Wrapped(n) + 1)])
  {
    hide Wrapped;
    NextWrapped(n);
  }

  lemma StoreTailKeeps<E>(cap: nat, q: Queue<E>)
    requires Inv(cap, q) && Enabled(q, StoreTail)
    ensures Inv(cap, Next(cap, q, StoreTail))
  {
    hide Wrapped, Capacity, Slot, At, Counts;
    NextCount(q.tails, Tail(q));
    var r := Next(cap, q, StoreTail);
    assert Items(r) == Items(q) && Built(r) == Built(q) && Freed(r) == Freed(q);
  }

  lemma StartPopKeeps<E>(cap: nat, q: Queue<E>)
    requires Inv(cap, q) && Enabled(q, StartPop)
    ensures Inv(cap, Next(cap, q, StartPop))
  {
    hide Wrapped, Capacity, Slot, At;
  }

  lemma TestEmptyKeeps<E>(cap: nat, q: Queue<E>)
    requires Inv(cap, q) && Enabled(q, TestEmpty)
    ensures Inv(cap, Next(cap, q, TestEmpty))
    ensures Next(cap, q, TestEmpty).pop.Refreshing? <==> Head(q) == q.seenTail
  {
    hide Wrapped, IsPow2, Slot, At, Counts;
    EmptyTest(Head(q), q.seenTail, cap);
  }

  /** A refreshed empty test: refused exactly when the tail it read is the head. */
  lemma LoadTailKeeps<E>(cap: nat, q: Queue<E>, k: nat)
    requires Inv(cap, q) && Enabled(q, LoadTail(k))
    ensures Inv(cap, Next(cap, q, LoadTail(k)))
    ensures Next(cap, q, LoadTail(k)).pop.NotPopping? <==> Head(q) == k
  {
    hide Wrapped, IsPow2, Slot, At;
    EmptyTest(Head(q), k, cap);
  }

  /** Past its tests a pop looks at a live slot with the oldest event not yet popped. */
  lemma OldestLive<E>(cap: nat, q: Queue<E>)
    requires Inv(cap, q) && (q.pop.Taking? || q.pop.Destroying?)
    ensures Head(q) < q.seenTail <= |q.pushed| && q.slots[Slot(q.pop.head, cap)] == Live(q.pushed[Head(q)])
  {
    var h := Head(q);
    SlotIsAt(h, cap);
    assert q.slots[At(h, cap)] == Live(Items(q)[h]);
  }

  /** The event taken is the oldest one not yet popped. */
  lemma TakeKeeps<E>(cap: nat, q: Queue<E>)
    requires Inv(cap, q) && Enabled(q, Take)
    ensures Inv(cap, Next(cap, q, Take))
    ensures Next(cap, q, Take).popped == q.popped + [q.pushed[Head(q)]]
  {
    hide Wrapped, Slot, Counts, Capacity, At;
    OldestLive(cap, q);
    var h := Head(q);
    assert q.pushed[..h] + [q.pushed[h]] == q.pushed[..h + 1];
  }

  lemma DestroyKeeps<E>(cap: nat, q: Queue<E>)
    requires Inv(cap, q) && Enabled(q, Destroy)
    ensures Inv(cap, Next(cap, q, Destroy))
  {
    hide Wrapped, Capacity, Counts;
    var r := Next(cap, q, Destroy);
    var h := Head(q);
    SlotIsAt(h, cap);
    assert q.slots[At(h, cap)] == Live(Items(q)[h]);
    DestroyCells(cap, q, h);
  }

  /** Destroying the oldest cell leaves the window one shorter at the front and free by one more at the end. */
  lemma DestroyCells<E>(cap: nat, q: Queue<E>, h: nat)
    requires cap > 0 && Cells(cap, q) && q.pop.Destroying? && h == Head(q) < Tail(q) <= Built(q) <= h + cap
    ensures Cells(cap, q.(pop := Releasing(q.pop.head), slots := q.slots[At(h, cap) := Dead]))
  {
    var r := q.(pop := Releasing(q.pop.head), slots := q.slots[At(h, cap) := Dead]);
    forall n: nat | Freed(r) <= n < Built(r) && n < |Items(r)|
      ensures r.slots[At(n, cap)] == Live(Items(r)[n])
    {
      SlotsDistinct(h, n, cap);
      assert q.slots[At(n, cap)] == Live(Items(q)[n]);
    }
    forall n: nat | Built(r) <= n < Freed(r) + cap
      ensures r.slots[At(n, cap)] == Dead
    {
      if n == h + cap {
        SlotRecurs(h, cap);
      } else {
        SlotsDistinct(h, n, cap);
        assert q.slots[At(n, cap)] == Dead;
      }
    }
  }

  lemma StoreHeadKeeps<E>(cap: nat, q: Queue<E>)
    requires Inv(cap, q) && Enabled(q, StoreHead)
    ensures Inv(cap, Next(cap, q, StoreHead))
  {
    hide Wrapped, Capacity, Slot, At, Counts;
    NextCount(q.heads, Head(q));
    var r := Next(cap, q, StoreHead);
    assert Items(r) == Items(q) && Built(r) == Built(q) && Freed(r) == Freed(q);
  }

  lemma StepKeeps<E>(cap: nat, q: Queue<E>, a: Action<E>)
    requires Inv(cap, q) && Enabled(q, a)
    ensures Inv(cap, Next(cap, q, a))
  {
    hide Inv, Next, Enabled;
    match a
    case StartPush(e) => StartPushKeeps(cap, q, e);
    case TestFull => TestFullKeeps(cap, q);
    case LoadHead(k) => LoadHeadKeeps(cap, q, k);
    case Construct => ConstructKeeps(cap, q);
    case StoreTail => StoreTailKeeps(cap, q);
    case StartPop => StartPopKeeps(cap, q);
    case TestEmpty => TestEmptyKeeps(cap, q);
    case LoadTail(k) => LoadTailKeeps(cap, q, k);
    case Take => TakeKeeps(cap, q);
    case Destroy => DestroyKeeps(cap, q);
    case StoreHead => StoreHeadKeeps(cap, q);
  }

  // ---- the queue the ring implements -------------------------------------------------------

  /** The same protocol with unbounded cursors over the list of all events, without ring or slots. */
  datatype Ideal<E> = Ideal(
    pushed: seq<E>, head: nat, seenHead: nat, seenTail: nat,
    push: Pushing<E>, pop: Popping, popped: seq<E>)

  predicate IdealEnabled<E>(i: Ideal<E>, a: Action<E>) {
    match a
    case StartPush(_) => i.push.NotPushing?
    case TestFull => i.push.Testing?
    case LoadHead(k) => i.push.Reloading? && i.seenHead <= k <= i.head
    case Construct => i.push.Building?
    case StoreTail => i.push.Publishing?
    case StartPop => i.pop.NotPopping?
    case TestEmpty => i.pop.Checking?
    case LoadTail(k) => i.pop.Refreshing? && i.seenTail <= k <= |i.pushed|
    case Take => i.pop.Taking? && i.pop.head < |i.pushed|
    case Destroy => i.pop.Destroying?
    case StoreHead => i.pop.Releasing?
  }

  function IdealNext<E>(cap: nat, i: Ideal<E>, a: Action<E>): Ideal<E>
    requires IdealEnabled(i, a)
  {
    match a
    case StartPush(e) => i.(push := Testing(e, |i.pushed|))
    case TestFull =>
      var Testing(e, tail) := i.push;
      i.(push := if tail - i.seenHead >= cap then Reloading(e, tail) else Building(e, tail))
    case LoadHead(k) =>
      var Reloading(e, tail) := i.push;
      i.(seenHead := k, push := if tail - k >= cap then NotPushing else Building(e, tail))
    case Construct => i.(push := Publishing(i.push.event, i.push.tail))
    case StoreTail => i.(pushed := i.pushed + [i.push.event], push := NotPushing)
    case StartPop => i.(pop := Checking(i.head))
    case TestEmpty => i.(pop := if i.pop.head == i.seenTail then Refreshing(i.pop.head) else Taking(i.pop.head))
    case LoadTail(k) => i.(seenTail := k, pop := if i.pop.head == k then NotPopping else Taking(i.pop.head))
    case Take => i.(popped := i.popped + [i.pushed[i.pop.head]], pop := Destroying(i.pop.head))
    case Destroy => i.(pop := Releasing(i.pop.head))
    case StoreHead => i.(head := i.head + 1, pop := NotPopping)
  }

  function IdealInit<E>(): Ideal<E> {
    Ideal([], 0, 0, 0, NotPushing, NotPopping, [])
  }

  function Unwrapped<E>(p: Pushing<E>, tail: nat): Pushing<E> {
    if p.NotPushing? then p else p.(tail := tail)
  }

  function UnwrappedPop(p: Popping, head: nat): Popping {
    if p.NotPopping? then p else p.(head := head)
  }

  function IdealOf<E>(q: Queue<E>): Ideal<E>
    requires q.heads != [] && q.tails != []
  {
    Ideal(q.pushed, Head(q), q.seenHead, q.seenTail, Unwrapped(q.push, Tail(q)), UnwrappedPop(q.pop, Head(q)), q.popped)
  }

  /** The list of pushed events is as long as the unbounded tail, and a taken position lies in it. */
  lemma Lengths<E>(cap: nat, q: Queue<E>)
    requires Inv(cap, q)
    ensures q.heads != [] && q.tails != [] && |q.pushed| == Tail(q) && |q.slots| == cap && Capacity(cap)
    ensures q.pop.Taking? ==> Head(q) < |q.pushed|
  {
    hide Counts, Capacity;
  }

  lemma EnabledIff<E>(cap: nat, q: Queue<E>, a: Action<E>)
    requires Inv(cap, q)
    ensures q.heads != [] && q.tails != [] && (Enabled(q, a) <==> IdealEnabled(IdealOf(q), a))
  {
    hide Inv;
    Lengths(cap, q);
  }

  lemma PushRefines<E>(cap: nat, q: Queue<E>, a: Action<E>)
    requires Inv(cap, q) && IsPush(a) && Enabled(q, a) && IdealEnabled(IdealOf(q), a)
    ensures Next(cap, q, a).heads != [] && Next(cap, q, a).tails != []
    ensures IdealOf(Next(cap, q, a)) == IdealNext(cap, IdealOf(q), a)
  {
    hide Inv, Sub, Slot;
    Lengths(cap, q);
    match a
    case TestFull => TestFullKeeps(cap, q);
    case LoadHead(k) => LoadHeadKeeps(cap, q, k);
    case _ =>
  }

  lemma PopRefines<E>(cap: nat, q: Queue<E>, a: Action<E>)
    requires Inv(cap, q) && !IsPush(a) && Enabled(q, a) && IdealEnabled(IdealOf(q), a)
    ensures Next(cap, q, a).heads != [] && Next(cap, q, a).tails != []
    ensures IdealOf(Next(cap, q, a)) == IdealNext(cap, IdealOf(q), a)
  {
    hide Inv, Slot;
    Lengths(cap, q);
    match a
    case TestEmpty => TestEmptyKeeps(cap, q);
    case LoadTail(k) => LoadTailKeeps(cap, q, k);
    case Take => TakeKeeps(cap, q);
    case _ =>
  }

  // ---- every interleaving ------------------------------------------------------------------

  /** The state after the actions, or nothing when one of them was not possible where it stands. */
  function Run<E>(cap: nat, acts: seq<Action<E>>): (r: Option<Queue<E>>)
    requires Capacity(cap)
    ensures r.Some? ==> |r.value.slots| == cap
  {
    if acts == [] then Some(Init(cap))
    else
      var q := Run(cap, acts[..|acts| - 1]);
      var a := acts[|acts| - 1];
      if q.Some? && Enabled(q.value, a) then Some(Next(cap, q.value, a)) else None
  }

  function IdealRun<E>(cap: nat, acts: seq<Action<E>>): Option<Ideal<E>> {
    if acts == [] then Some(IdealInit())
    else
      var q := IdealRun(cap, acts[..|acts| - 1]);
      var a := acts[|acts| - 1];
      if q.Some? && IdealEnabled(q.value, a) then Some(IdealNext(cap, q.value, a)) else None
  }

  /** For runs of any length and every choice of loads, the ring with wrapping cursors is the ideal queue. */
  lemma {:induction false} RunRefines<E>(cap: nat, acts: seq<Action<E>>)
    requires Capacity(cap)
    ensures var r := Run(cap, acts);
      if r.Some? then Inv(cap, r.value) && IdealRun(cap, acts) == Some(IdealOf(r.value))
      else IdealRun(cap, acts).None?
    decreases |acts|
  {
    hide Inv, Next, Enabled, IdealNext, IdealEnabled;
    if acts == [] {
      InitInv<E>(cap);
    } else {
      var before, a := acts[..|acts| - 1], acts[|acts| - 1];
      RunRefines(cap, before);
      var r := Run(cap, before);
      if r.Some? {
        EnabledIff(cap, r.value, a);
        if Enabled(r.value, a) {
          if IsPush(a) { PushRefines(cap, r.value, a); } else { PopRefines(cap, r.value, a); }
          StepKeeps(cap, r.value, a);
        }
      }
    }
  }

  /** Safety of every interleaving: no fault, first in first out, and never more than `cap` events inside. */
  lemma RunSafe<E>(cap: nat, acts: seq<Action<E>>)
    requires Capacity(cap) && Run(cap, acts).Some?
    ensures var q := Run(cap, acts).value;
      && !q.fault
      && |q.popped| <= |q.pushed| <= |q.popped| + cap
      && q.popped == q.pushed[..|q.popped|]
      && forall n: nat {:trigger At(n, cap)} | |q.popped| <= n < |q.pushed| :: q.slots[At(n, cap)] == Live(q.pushed[n])
  {
    RunRefines(cap, acts);
  }

  /**
   * Every slot access of every interleaving, without the fault flag: an event is constructed in a dead
   * slot whose last destruction the producer has seen published, and is moved out of and destroyed in a
   * live slot whose construction the consumer has seen published.
   */
  lemma AccessesOrdered<E>(cap: nat, acts: seq<Action<E>>)
    requires Capacity(cap) && Run(cap, acts).Some?
    ensures var q := Run(cap, acts).value;
      && q.heads != [] && q.tails != [] && |q.slots| == cap && |q.pushed| == |q.tails| - 1
      && (q.push.Building? ==> q.slots[Slot(q.push.tail, cap)] == Dead && |q.tails| <= q.seenHead + cap)
      && (q.pop.Taking? || q.pop.Destroying? ==>
            && |q.heads| <= q.seenTail <= |q.pushed|
            && q.slots[Slot(q.pop.head, cap)] == Live(q.pushed[|q.heads| - 1]))
  {
    RunRefines(cap, acts);
    var q := Run(cap, acts).value;
    if q.push.Building? { FreeSlot(cap, q); }
    if q.pop.Taking? || q.pop.Destroying? { OldestLive(cap, q); }
    hide Inv, Slot, Run;
    Lengths(cap, q);
  }

  /** Past its tests a push looks at a dead slot. */
  lemma FreeSlot<E>(cap: nat, q: Queue<E>)
    requires Inv(cap, q) && q.push.Building?
    ensures Tail(q) < q.seenHead + cap && q.slots[Slot(q.push.tail, cap)] == Dead
  {
    hide Capacity, Wrapped, Slot;
    var t := Tail(q);
    SlotIsAt(t, cap);
    assert q.slots[At(t, cap)] == Dead;
  }

  // ---- which events go in ------------------------------------------------------------------

  /** The events that tryPush was called with, in order. */
  function Calls<E>(acts: seq<Action<E>>): seq<E> {
    if acts == [] then []
    else
      var last := acts[|acts| - 1];
      Calls(acts[..|acts| - 1]) + if last.StartPush? then [last.event] else []
  }

  /** A push under way carries the event of the latest call. */
  lemma {:induction false} CarriesLatest<E>(cap: nat, acts: seq<Action<E>>)
    requires Capacity(cap) && Run(cap, acts).Some?
    ensures var q, calls := Run(cap, acts).value, Calls(acts);
      !q.push.NotPushing? ==> calls != [] && q.push.event == calls[|calls| - 1]
    decreases |acts|
  {
    hide Capacity, Wrapped, Slot, Sub;
    if acts != [] { CarriesLatest(cap, acts[..|acts| - 1]); }
  }

  /** Only the publication of a tail adds to what was pushed, and it adds exactly the event of the latest call. */
  lemma PushesLatest<E>(cap: nat, acts: seq<Action<E>>)
    requires Capacity(cap) && acts != [] && Run(cap, acts).Some?
    ensures var before, calls := Run(cap, acts[..|acts| - 1]), Calls(acts);
      && before.Some? && (acts[|acts| - 1].StoreTail? ==> calls != [])
      && Run(cap, acts).value.pushed ==
         before.value.pushed + if acts[|acts| - 1].StoreTail? then [calls[|calls| - 1]] else []
  {
    hide Capacity, Next, Calls;
    var before, a := acts[..|acts| - 1], acts[|acts| - 1];
    CarriesLatest(cap, before);
    StepPushes(cap, Run(cap, before).value, a);
    if a.StoreTail? { SameCalls(acts); }
  }

  lemma StepPushes<E>(cap: nat, q: Queue<E>, a: Action<E>)
    requires Capacity(cap) && |q.slots| == cap && Enabled(q, a)
    ensures a.StoreTail? ==> !q.push.NotPushing?
    ensures Next(cap, q, a).pushed == q.pushed + if a.StoreTail? then [q.push.event] else []
  {
    hide Capacity, Wrapped, Slot, Sub;
    assert q.pushed + [] == q.pushed;
  }

  lemma SameCalls<E>(acts: seq<Action<E>>)
    requires acts != [] && !acts[|acts| - 1].StartPush?
    ensures Calls(acts) == Calls(acts[..|acts| - 1])
  {
    assert Calls(acts[..|acts| - 1]) + [] == Calls(acts[..|acts| - 1]);
  }

  // ---- refusals ----------------------------------------------------------------------------

  /** A push is refused on a queue that is not full exactly when the load missed a pop and saw a full queue. */
  lemma PushRefusal<E>(cap: nat, q: Queue<E>, k: nat)
    requires Inv(cap, q) && Enabled(q, LoadHead(k))
    ensures var refused := Next(cap, q, LoadHead(k)).push.NotPushing?;
      && (refused <==> Tail(q) == k + cap)
      && (k == Head(q) ==> (refused <==> Tail(q) - Head(q) == cap))
      && (refused && Tail(q) - Head(q) < cap <==> Tail(q) == k + cap && k < Head(q))
  {
    LoadHeadKeeps(cap, q, k);
  }

  /** A pop is refused on a queue that is not empty exactly when the load missed a push and saw an empty queue. */
  lemma PopRefusal<E>(cap: nat, q: Queue<E>, k: nat)
    requires Inv(cap, q) && Enabled(q, LoadTail(k))
    ensures var refused := Next(cap, q, LoadTail(k)).pop.NotPopping?;
      && (refused <==> k == Head(q))
      && (k == Tail(q) ==> (refused <==> Tail(q) == Head(q)))
      && (refused && Tail(q) > Head(q) <==> k == Head(q) && k < Tail(q))
  {
    LoadTailKeeps(cap, q, k);
  }

  lemma Extend<E>(cap: nat, acts: seq<Action<E>>, i: Ideal<E>, a: Action<E>) returns (more: seq<Action<E>>, j: Ideal<E>)
    requires IdealRun(cap, acts) == Some(i) && IdealEnabled(i, a)
    ensures j == IdealNext(cap, i, a) && IdealRun(cap, more) == Some(j) && more == acts + [a]
  {
    more, j := acts + [a], IdealNext(cap, i, a);
    assert more[..|more| - 1] == acts;
  }

  /** n pushes with no pop in between. */
  lemma {:induction false} Pushes<E>(cap: nat, e: E, n: nat) returns (acts: seq<Action<E>>, i: Ideal<E>)
    requires n <= cap
    ensures IdealRun(cap, acts) == Some(i)
    ensures |i.pushed| == n && i == IdealInit<E>().(pushed := i.pushed)
  {
    if n == 0 {
      acts, i := [], IdealInit();
    } else {
      acts, i := Pushes(cap, e, n - 1);
      acts, i := Extend(cap, acts, i, StartPush(e));
      acts, i := Extend(cap, acts, i, TestFull);
      acts, i := Extend(cap, acts, i, Construct);
      acts, i := Extend(cap, acts, i, StoreTail);
    }
  }

  /** For every capacity some run refuses a push while a slot is free and nobody is in the middle of a pop. */
  lemma RefusedWithRoom<E>(cap: nat, e: E) returns (acts: seq<Action<E>>)
    requires Capacity(cap)
    ensures Run(cap, acts).Some? && |acts| > 0
    ensures acts[|acts| - 1] == LoadHead(0)
    ensures var q := Run(cap, acts).value;
      q.push.NotPushing? && q.pop.NotPopping? && |q.pushed| == cap && |q.popped| == 1
  {
    var i: Ideal<E>;
    acts, i := Pushes(cap, e, cap);
    acts, i := Extend(cap, acts, i, StartPop);
    acts, i := Extend(cap, acts, i, TestEmpty);
    acts, i := Extend(cap, acts, i, LoadTail(cap));
    acts, i := Extend(cap, acts, i, Take);
    acts, i := Extend(cap, acts, i, Destroy);
    acts, i := Extend(cap, acts, i, StoreHead);
    acts, i := Extend(cap, acts, i, StartPush(e));
    acts, i := Extend(cap, acts, i, TestFull);
    acts, i := Extend(cap, acts, i, LoadHead(0));
    RunRefines(cap, acts);
  }

  /** For every capacity some run refuses a pop while an event is waiting and nobody is in the middle of a push. */
  lemma RefusedWithEvent<E>(cap: nat, e: E) returns (acts: seq<Action<E>>)
    requires Capacity(cap)
    ensures Run(cap, acts).Some? && |acts| > 0
    ensures acts[|acts| - 1] == LoadTail(0)
    ensures var q := Run(cap, acts).value;
      q.push.NotPushing? && q.pop.NotPopping? && |q.pushed| == 1 && |q.popped| == 0
  {
    var i: Ideal<E>;
    acts, i := Pushes(cap, e, 1);
    acts, i := Extend(cap, acts, i, StartPop);
    acts, i := Extend(cap, acts, i, TestEmpty);
    acts, i := Extend(cap, acts, i, LoadTail(0));
    RunRefines(cap, acts);
  }

  // ---- progress ----------------------------------------------------------------------------

  /** How many steps of its own tryPush still takes at most. */
  function PushSteps<E>(p: Pushing<E>): nat {
    match p
    case NotPushing => 0
    case Testing(_, _) => 4
    case Reloading(_, _) => 3
    case Building(_, _) => 2
    case Publishing(_, _) => 1
  }

  /** How many steps of its own tryPop still takes at most. */
  function PopSteps(p: Popping): nat {
    match p
    case NotPopping => 0
    case Checking(_) => 5
    case Refreshing(_) => 4
    case Taking(_) => 3
    case Destroying(_) => 2
    case Releasing(_) => 1
  }

  /** A step some call under way can make, whatever the other thread does. */
  function PushDue<E>(q: Queue<E>): Action<E> {
    match q.push
    case Reloading(_, _) => LoadHead(q.seenHead)
    case Building(_, _) => Construct
    case Publishing(_, _) => StoreTail
    case _ => TestFull
  }

  function PopDue<E>(q: Queue<E>): Action<E> {
    match q.pop
    case Refreshing(_) => LoadTail(q.seenTail)
    case Taking(_) => Take
    case Destroying(_) => Destroy
    case Releasing(_) => StoreHead
    case _ => TestEmpty
  }

  /** Wait-free: a call under way is never blocked, and only its own steps move it, each closer to its return. */
  lemma WaitFree<E>(cap: nat, q: Queue<E>, a: Action<E>)
    requires Inv(cap, q) && Enabled(q, a)
    ensures !q.push.NotPushing? ==> Enabled(q, PushDue(q))
    ensures !q.pop.NotPopping? ==> Enabled(q, PopDue(q))
    ensures var r := Next(cap, q, a);
      if IsPush(a) then
        r.pop == q.pop && (if a.StartPush? then PushSteps(r.push) == 4 else PushSteps(r.push) < PushSteps(q.push))
      else
        r.push == q.push && (if a.StartPop? then PopSteps(r.pop) == 5 else PopSteps(r.pop) < PopSteps(q.pop))
  {
    hide Wrapped, Cells, Locals, History, Capacity, Slot, Sub;
  }

  // ---- destruction -------------------------------------------------------------------------

  /** The destructor: between calls it destroys exactly the events not yet popped, in order, and nothing else. */
  method DestroyAll<E>(cap: nat, q: Queue<E>) returns (slots: seq<Cell<E>>, destroyed: seq<E>)
    requires Inv(cap, q) && q.push.NotPushing? && q.pop.NotPopping?
    ensures destroyed == q.pushed[|q.popped|..]
    ensures |slots| == cap && forall i | 0 <= i < cap :: slots[i] == Dead
  {
    hide Inv, Emptied, Slot, At, Capacity, Wrapped;
    Settled(cap, q);
    slots, destroyed := q.slots, [];
    var head, tail := Last(q.heads), Last(q.tails);
    ghost var n: nat := Head(q);
    EmptyTest(n, Tail(q), cap);
    while head != tail
      invariant Head(q) <= n <= Tail(q) && head == Wrapped(n) && tail == Wrapped(Tail(q))
      invariant head == tail <==> n == Tail(q)
      invariant |slots| == cap && destroyed == q.pushed[Head(q)..n]
      invariant Emptied(cap, q, slots, n)
      decreases Tail(q) - n
    {
      SlotIsAt(n, cap);
      EmptiedStep(cap, q, slots, n);
      var i := Slot(head, cap);
      destroyed := destroyed + [slots[i].event];
      slots := slots[i := Dead];
      NextWrapped(n);
      head := Wrapped(head + 1);
      n := n + 1;
      EmptyTest(n, Tail(q), cap);
    }
    AllEmptied(cap, q, slots);
  }

  ghost predicate Emptied<E>(cap: nat, q: Queue<E>, slots: seq<Cell<E>>, n: nat) {
    && cap > 0 && |slots| == cap && q.heads != [] && n <= |q.pushed|
    && (forall m: nat {:trigger At(m, cap)} | n <= m < |q.pushed| :: slots[At(m, cap)] == Live(q.pushed[m]))
    && (forall m: nat {:trigger At(m, cap)} | |q.pushed| <= m < n + cap :: slots[At(m, cap)] == Dead)
  }

  /** Between calls the cells from head to tail are alive and the others are not. */
  lemma Settled<E>(cap: nat, q: Queue<E>)
    requires Inv(cap, q) && q.push.NotPushing? && q.pop.NotPopping?
    ensures Capacity(cap) && 0 < cap < WRAP && |q.slots| == cap && q.heads != [] && q.tails != []
    ensures |q.popped| == Head(q) <= Tail(q) == |q.pushed| <= Head(q) + cap
    ensures Last(q.heads) == Wrapped(Head(q)) && Last(q.tails) == Wrapped(Tail(q))
    ensures Emptied(cap, q, q.slots, Head(q))
  {
  }

  lemma EmptiedStep<E>(cap: nat, q: Queue<E>, slots: seq<Cell<E>>, n: nat)
    requires Emptied(cap, q, slots, n) && n < |q.pushed| <= n + cap
    ensures slots[At(n, cap)] == Live(q.pushed[n])
    ensures Emptied(cap, q, slots[At(n, cap) := Dead], n + 1)
  {
    forall m: nat | n < m < n + cap
      ensures At(m, cap) != At(n, cap)
    {
      SlotsDistinct(n, m, cap);
    }
    SlotRecurs(n, cap);
  }

  lemma AllEmptied<E>(cap: nat, q: Queue<E>, slots: seq<Cell<E>>)
    requires Emptied(cap, q, slots, |q.pushed|)
    ensures forall i | 0 <= i < cap :: slots[i] == Dead
  {
    var t := |q.pushed|;
    forall i | 0 <= i < cap
      ensures slots[i] == Dead
    {
      var b := t / cap * cap;
      var m := if b + i < t then b + cap + i else b + i;
      assert t == b + t % cap;
      ModUnique(m, cap, if b + i < t then t / cap + 1 else t / cap, i);
      assert At(m, cap) == i;
    }
  }
}
