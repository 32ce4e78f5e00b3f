/**
 * The open-addressed table from order ids to orders: linear probing, doubling growth and
 * backward-shift deletion. Every result holds for every hash function.
 */
module OrderIndex {
  import opened Types
  import opened Bits

  /** A slot is empty exactly when its value is null; the key of an empty slot is irrelevant. */
  datatype Slot = Slot(key: u64, value: Ptr)

  const EMPTY := Slot(0, Null)
  const INITIAL_CAPACITY := 16

  // ---- cyclic positions -------------------------------------------------------------------

  /** The number of forward steps from a to b in a ring of n positions. */
  function Dist(a: nat, b: nat, n: nat): int {
    if a <= b then b - a else b - a + n
  }

  function Next(i: nat, n: nat): nat {
    if i + 1 == n then 0 else i + 1
  }

  /** The code's `(i + 1) & (n - 1)`. */
  function Step(i: nat, n: nat): (r: nat)
    requires IsPow2(n) && i < n
    ensures r == Next(i, n)
  {
    ModUnique(i + 1, n, if i + 1 == n then 1 else 0, Next(i, n));
    Mask(i + 1, n)
  }

  /** Whether k lies in the circular range (i, j], as the deletion loop tests it. */
  predicate InCyclicRange(k: nat, i: nat, j: nat) {
    if i <= j then i < k <= j else k > i || k <= j
  }

  // ---- the table as a value ---------------------------------------------------------------

  /** The natural index of every key in a table of n slots. */
  ghost function Homes(hash: u64 -> nat, n: nat): u64 -> nat
    requires n > 0
  {
    key => hash(key) % n
  }

  predicate Taken(slots: seq<Slot>, i: nat)
    requires i < |slots|
  {
    slots[i].value != Null
  }

  /** A scan that starts at h meets position i before it meets position j. */
  ghost predicate Before(h: nat, n: nat, i: nat, j: nat) {
    Dist(h, i, n) < Dist(h, j, n)
  }

  /** No entry has an empty slot on its probe run. */
  ghost predicate Probed(home: u64 -> nat, slots: seq<Slot>) {
    && (forall key :: home(key) < |slots|)
    && forall i, j | 0 <= i < |slots| && 0 <= j < |slots| && Taken(slots, j) ::
         Before(home(slots[j].key), |slots|, i, j) ==> Taken(slots, i)
  }

  ghost predicate Stored(slots: seq<Slot>, key: u64, value: Ptr) {
    exists i :: 0 <= i < |slots| && slots[i] == Slot(key, value)
  }

  ghost predicate Unique(slots: seq<Slot>) {
    forall i, j | 0 <= i < j < |slots| && Taken(slots, i) && Taken(slots, j) :: slots[i].key != slots[j].key
  }

  /** The entries are exactly the given map, each once. */
  ghost predicate Holds(slots: seq<Slot>, contents: map<u64, Ptr>) {
    && Unique(slots)
    && (forall i | 0 <= i < |slots| && Taken(slots, i) ::
          slots[i].key in contents && contents[slots[i].key] == slots[i].value)
    && (forall key | key in contents :: contents[key] != Null)
    && (forall key {:trigger Stored(slots, key, contents[key])} | key in contents :: Stored(slots, key, contents[key]))
  }

  // ---- counting ---------------------------------------------------------------------------

  ghost function Keys(slots: seq<Slot>): set<u64> {
    set i | 0 <= i < |slots| :: slots[i].key
  }

  lemma {:induction false} DistinctKeys(slots: seq<Slot>)
    requires forall i, j :: 0 <= i < j < |slots| ==> slots[i].key != slots[j].key
    ensures |Keys(slots)| == |slots|
  {
    if slots == [] {
      assert Keys(slots) == {};
    } else {
      var n := |slots| - 1;
      DistinctKeys(slots[..n]);
      assert Keys(slots) == Keys(slots[..n]) + {slots[n].key};
      assert slots[n].key !in Keys(slots[..n]);
    }
  }

  lemma {:induction false} SubsetSize<T>(a: set<T>, b: set<T>)
    requires a <= b
    ensures |a| <= |b|
  {
    if a != {} {
      var x :| x in a;
      SubsetSize(a - {x}, b - {x});
    }
  }

  /** A table with more slots than entries has an empty slot, so every probe loop ends. */
  lemma {:induction false} HasEmpty(slots: seq<Slot>, contents: map<u64, Ptr>) returns (e: nat)
    requires Holds(slots, contents) && |contents| < |slots|
    ensures e < |slots| && !Taken(slots, e)
  {
    if forall i :: 0 <= i < |slots| ==> Taken(slots, i) {
      DistinctKeys(slots);
      SubsetSize(Keys(slots), contents.Keys);
      assert false;
    }
    e :| 0 <= e < |slots| && !Taken(slots, e);
  }

  // ---- probing ----------------------------------------------------------------------------

  /** Every position a scan for key meets before i is taken, by another key. */
  ghost predicate Passed(h: nat, slots: seq<Slot>, key: u64, i: nat) {
    forall j | 0 <= j < |slots| && Before(h, |slots|, j, i) :: Taken(slots, j) && slots[j].key != key
  }

  /** One step of a scan meets the next position, closer to a given empty slot. */
  lemma ScanStep(h: nat, slots: seq<Slot>, key: u64, i: nat, e: nat)
    requires h < |slots| && i < |slots| && e < |slots| && !Taken(slots, e)
    requires Passed(h, slots, key, i) && Taken(slots, i) && slots[i].key != key
    ensures Passed(h, slots, key, Next(i, |slots|))
    ensures 0 <= Dist(Next(i, |slots|), e, |slots|) < Dist(i, e, |slots|)
  {
    assert !Before(h, |slots|, e, i);
  }

  /** Where the scan of key stops decides whether the table holds it. */
  lemma ScanEnd(home: u64 -> nat, slots: seq<Slot>, contents: map<u64, Ptr>, key: u64, i: nat)
    requires i < |slots| && Probed(home, slots) && Holds(slots, contents) && Passed(home(key), slots, key, i)
    requires Taken(slots, i) ==> slots[i].key == key
    ensures Taken(slots, i) <==> key in contents
    ensures Taken(slots, i) ==> contents[key] == slots[i].value
  {
    if key in contents {
      assert Stored(slots, key, contents[key]);
      var j :| 0 <= j < |slots| && slots[j] == Slot(key, contents[key]);
      assert Taken(slots, j);
      assert !Before(home(key), |slots|, j, i);
      if !Taken(slots, i) {
        assert false;
      }
    }
  }

  lemma InsertProbed(home: u64 -> nat, slots: seq<Slot>, key: u64, value: Ptr, i: nat)
    requires i < |slots| && Probed(home, slots) && value != Null
    requires !Taken(slots, i) && Passed(home(key), slots, key, i)
    ensures Probed(home, slots[i := Slot(key, value)])
  {
    var after := slots[i := Slot(key, value)];
    assert forall j | 0 <= j < |slots| :: Taken(slots, j) ==> Taken(after, j);
    assert forall j | 0 <= j < |slots| && j != i :: after[j] == slots[j];
  }

  lemma StoredHere(slots: seq<Slot>, key: u64, value: Ptr, i: nat)
    requires i < |slots|
    ensures Stored(slots[i := Slot(key, value)], key, value)
  {
    assert slots[i := Slot(key, value)][i] == Slot(key, value);
  }

  lemma StoredStays(slots: seq<Slot>, key: u64, value: Ptr, i: nat, slot: Slot)
    requires i < |slots| && !Taken(slots, i) && Stored(slots, key, value) && value != Null
    ensures Stored(slots[i := slot], key, value)
  {
    var j :| 0 <= j < |slots| && slots[j] == Slot(key, value);
    assert slots[i := slot][j] == Slot(key, value);
  }

  lemma InsertHolds(slots: seq<Slot>, contents: map<u64, Ptr>, key: u64, value: Ptr, i: nat)
    requires i < |slots| && Holds(slots, contents) && value != Null
    requires key !in contents && !Taken(slots, i)
    ensures Holds(slots[i := Slot(key, value)], contents[key := value])
    ensures |contents[key := value]| == |contents| + 1
  {
    hide Stored;
    var after, grown := slots[i := Slot(key, value)], contents[key := value];
    StoredHere(slots, key, value, i);
    assert grown.Keys == contents.Keys + {key};
    assert after[i] == Slot(key, value);
    forall k | k in grown
      ensures Stored(after, k, grown[k])
    {
      if k != key {
        StoredStays(slots, k, contents[k], i, Slot(key, value));
      }
    }
  }

  /** The scan of findSlot and of addOrder: stop at the key or at the first empty slot. */
  method Probe(hash: u64 -> nat, slots: seq<Slot>, ghost contents: map<u64, Ptr>, key: u64) returns (i: nat)
    requires IsPow2(|slots|) && |contents| < |slots|
    requires Probed(Homes(hash, |slots|), slots) && Holds(slots, contents)
    ensures i < |slots| && Passed(Homes(hash, |slots|)(key), slots, key, i)
    ensures Taken(slots, i) ==> slots[i].key == key
    ensures Taken(slots, i) <==> key in contents
    ensures Taken(slots, i) ==> contents[key] == slots[i].value
  {
    ghost var e := HasEmpty(slots, contents);
    ghost var home := Homes(hash, |slots|);
    i := Mask(hash(key), |slots|);
    while slots[i].value != Null
      invariant i < |slots| && Passed(home(key), slots, key, i)
      decreases Dist(i, e, |slots|)
    {
      if slots[i].key == key {
        break;
      }
      ScanStep(home(key), slots, key, i, e);
      i := Step(i, |slots|);
    }
    ScanEnd(home, slots, contents, key, i);
  }

  /** The scan of the rehashing loops: stop at the first empty slot, comparing no keys. */
  method FirstEmpty(hash: u64 -> nat, slots: seq<Slot>, ghost contents: map<u64, Ptr>, key: u64) returns (i: nat)
    requires IsPow2(|slots|) && |contents| < |slots| && key !in contents
    requires Probed(Homes(hash, |slots|), slots) && Holds(slots, contents)
    ensures i < |slots| && Passed(Homes(hash, |slots|)(key), slots, key, i) && !Taken(slots, i)
  {
    ghost var e := HasEmpty(slots, contents);
    ghost var home := Homes(hash, |slots|);
    i := Mask(hash(key), |slots|);
    while slots[i].value != Null
      invariant i < |slots| && Passed(home(key), slots, key, i)
      decreases Dist(i, e, |slots|)
    {
      ScanStep(home(key), slots, key, i, e);
      i := Step(i, |slots|);
    }
  }

  /** Part is the map that the first k slots store. */
  ghost predicate Copied(slots: seq<Slot>, k: nat, contents: map<u64, Ptr>, part: map<u64, Ptr>)
    requires k <= |slots|
  {
    && (forall key | key in part :: key in contents && part[key] == contents[key])
    && (forall j | 0 <= j < |slots| && Taken(slots, j) :: slots[j].key in part <==> j < k)
  }

  lemma CopiedStep(slots: seq<Slot>, k: nat, contents: map<u64, Ptr>, part: map<u64, Ptr>)
    requires k < |slots| && Holds(slots, contents) && Copied(slots, k, contents, part) && Taken(slots, k)
    ensures Copied(slots, k + 1, contents, part[slots[k].key := slots[k].value])
  {
  }

  lemma AllCopied(slots: seq<Slot>, contents: map<u64, Ptr>, part: map<u64, Ptr>)
    requires Holds(slots, contents) && Copied(slots, |slots|, contents, part)
    ensures part == contents
  {
    forall key | key in contents
      ensures key in part
    {
      assert Stored(slots, key, contents[key]);
      var j :| 0 <= j < |slots| && slots[j] == Slot(key, contents[key]);
      assert Taken(slots, j);
    }
  }

  /** Re-inserts every entry into a fresh table; the map it holds is the same. */
  method Rehash(hash: u64 -> nat, slots: seq<Slot>, capacity: nat, ghost contents: map<u64, Ptr>)
    returns (grown: seq<Slot>)
    requires IsPow2(capacity) && Holds(slots, contents) && |contents| < capacity
    ensures |grown| == capacity && Probed(Homes(hash, capacity), grown) && Holds(grown, contents)
  {
    ghost var home := Homes(hash, capacity);
    grown := seq(capacity, _ => EMPTY);
    ghost var part: map<u64, Ptr> := map[];
    for k := 0 to |slots|
      invariant |grown| == capacity && Probed(home, grown) && Holds(grown, part)
      invariant Copied(slots, k, contents, part)
    {
      if slots[k].value == Null {
        continue;
      }
      SubsetSize(part.Keys, contents.Keys);
      var i := FirstEmpty(hash, grown, part, slots[k].key);
      InsertProbed(home, grown, slots[k].key, slots[k].value, i);
      InsertHolds(grown, part, slots[k].key, slots[k].value, i);
      grown := grown[i := slots[k]];
      CopiedStep(slots, k, contents, part);
      part := part[slots[k].key := slots[k].value];
    }
    AllCopied(slots, contents, part);
  }

  // ---- backward-shift deletion ------------------------------------------------------------

  /** The circular range test says what its comment says: k is met after i and no later than j. */
  lemma CyclicRangeIsDistance(k: nat, i: nat, j: nat, n: nat)
    requires k < n && i < n && j < n && i != j
    ensures InCyclicRange(k, i, j) <==> 0 < Dist(i, k, n) <= Dist(i, j, n)
  {
  }

  /** An entry at scan whose home is outside (hole, scan] has the hole on its probe run. */
  lemma HoleBefore(h: nat, hole: nat, scan: nat, n: nat)
    requires h < n && hole < n && scan < n && hole != scan && !InCyclicRange(h, hole, scan)
    ensures Before(h, n, hole, scan)
  {
  }

  /** Everything strictly between hole and scan is taken. */
  ghost predicate RunTaken(slots: seq<Slot>, hole: nat, scan: nat) {
    forall i | 0 <= i < |slots| && 0 < Dist(hole, i, |slots|) < Dist(hole, scan, |slots|) :: Taken(slots, i)
  }

  /** Only the hole may be missing from a probe run. */
  ghost predicate ProbedBut(home: u64 -> nat, slots: seq<Slot>, hole: nat) {
    && (forall key :: home(key) < |slots|)
    && forall i, j | 0 <= i < |slots| && 0 <= j < |slots| && i != hole && Taken(slots, j) ::
         Before(home(slots[j].key), |slots|, i, j) ==> Taken(slots, i)
  }

  /** Only entries at or after scan have the hole on their probe run. */
  ghost predicate Dependents(home: u64 -> nat, slots: seq<Slot>, hole: nat, scan: nat) {
    forall j | 0 <= j < |slots| && Taken(slots, j) && Before(home(slots[j].key), |slots|, hole, j) ::
      Dist(hole, scan, |slots|) <= Dist(hole, j, |slots|)
  }

  /** The state of the deletion loop between two iterations. */
  ghost predicate Shifting(home: u64 -> nat, slots: seq<Slot>, hole: nat, scan: nat) {
    && hole < |slots| && scan < |slots| && hole != scan && !Taken(slots, hole)
    && RunTaken(slots, hole, scan) && ProbedBut(home, slots, hole) && Dependents(home, slots, hole, scan)
  }

  /** Erasing one entry of a sound table leaves a hole that only later entries can depend on. */
  lemma ShiftStart(home: u64 -> nat, slots: seq<Slot>, hole: nat, e: nat)
    requires hole < |slots| && e < |slots| && Probed(home, slots) && Taken(slots, hole) && !Taken(slots, e)
    ensures Shifting(home, slots[hole := EMPTY], hole, Next(hole, |slots|))
  {
    var after := slots[hole := EMPTY];
    forall i, j | 0 <= i < |slots| && 0 <= j < |slots| && i != hole && Taken(after, j) &&
                  Before(home(after[j].key), |slots|, i, j)
      ensures Taken(after, i)
    {
      assert Taken(slots, j) && Taken(slots, i);
    }
  }

  /** An entry whose natural index lies in (hole, scan] stays where it is. */
  lemma ShiftSkip(home: u64 -> nat, slots: seq<Slot>, hole: nat, scan: nat, e: nat)
    requires Shifting(home, slots, hole, scan) && Taken(slots, scan)
    requires e < |slots| && e != hole && !Taken(slots, e)
    requires InCyclicRange(home(slots[scan].key), hole, scan)
    ensures Shifting(home, slots, hole, Next(scan, |slots|))
    ensures 0 <= Dist(Next(scan, |slots|), e, |slots|) < Dist(scan, e, |slots|)
  {
    assert !(0 < Dist(hole, e, |slots|) < Dist(hole, scan, |slots|));
  }

  /** Any other entry may be pulled back into the hole, which moves to where it was. */
  lemma ShiftMove(home: u64 -> nat, slots: seq<Slot>, hole: nat, scan: nat, e: nat)
    requires Shifting(home, slots, hole, scan) && Taken(slots, scan)
    requires e < |slots| && e != hole && !Taken(slots, e)
    requires !InCyclicRange(home(slots[scan].key), hole, scan)
    ensures Shifting(home, slots[hole := slots[scan]][scan := EMPTY], scan, Next(scan, |slots|))
    ensures 0 <= Dist(Next(scan, |slots|), e, |slots|) < Dist(scan, e, |slots|)
  {
    assert !(0 < Dist(hole, e, |slots|) < Dist(hole, scan, |slots|));
    var after := slots[hole := slots[scan]][scan := EMPTY];
    assert after[hole] == slots[scan] && after[scan] == EMPTY;
    assert forall i | 0 <= i < |slots| && i != hole && i != scan :: after[i] == slots[i];
    forall i, j | 0 <= i < |slots| && 0 <= j < |slots| && i != scan && Taken(after, j) &&
                  Before(home(after[j].key), |slots|, i, j)
      ensures Taken(after, i)
    {
      if i == hole {
        assert Taken(after, hole);
      } else if j == hole {
        HoleBefore(home(slots[scan].key), hole, scan, |slots|);
        assert Before(home(slots[scan].key), |slots|, i, scan) && Taken(slots, i);
      } else {
        assert after[j] == slots[j] && Taken(slots, j) && Taken(slots, i);
      }
    }
  }

  /** When the scan meets an empty slot the hole is harmless. */
  lemma ShiftEnd(home: u64 -> nat, slots: seq<Slot>, hole: nat, scan: nat)
    requires Shifting(home, slots, hole, scan) && !Taken(slots, scan)
    ensures Probed(home, slots)
  {
    forall j | 0 <= j < |slots| && Taken(slots, j)
      ensures !Before(home(slots[j].key), |slots|, hole, j)
    {
      if Before(home(slots[j].key), |slots|, hole, j) {
        assert Before(home(slots[j].key), |slots|, scan, j);
        assert false;
      }
    }
  }

  lemma MoveHolds(slots: seq<Slot>, contents: map<u64, Ptr>, hole: nat, scan: nat)
    requires hole < |slots| && scan < |slots| && Holds(slots, contents) && !Taken(slots, hole) && Taken(slots, scan)
    ensures Holds(slots[hole := slots[scan]][scan := EMPTY], contents)
  {
    var after := slots[hole := slots[scan]][scan := EMPTY];
    forall key | key in contents
      ensures Stored(after, key, contents[key])
    {
      assert Stored(slots, key, contents[key]);
      var i :| 0 <= i < |slots| && slots[i] == Slot(key, contents[key]);
      assert after[if i == scan then hole else i] == Slot(key, contents[key]);
    }
  }

  lemma EraseHolds(slots: seq<Slot>, contents: map<u64, Ptr>, hole: nat)
    requires hole < |slots| && Holds(slots, contents) && Taken(slots, hole)
    ensures Holds(slots[hole := EMPTY], contents - {slots[hole].key})
    ensures |contents - {slots[hole].key}| == |contents| - 1
  {
    var after := slots[hole := EMPTY];
    var left := contents - {slots[hole].key};
    assert left.Keys == contents.Keys - {slots[hole].key};
    forall key | key in left
      ensures Stored(after, key, left[key])
    {
      assert Stored(slots, key, contents[key]);
      var i :| 0 <= i < |slots| && slots[i] == Slot(key, contents[key]);
      assert after[i] == Slot(key, contents[key]);
    }
  }

  /**
   * The deletion loop: pulls following entries back until the scan meets an empty slot. No entry
   * is lost or duplicated and no probe run is left with a gap.
   */
  method BackwardShift(hash: u64 -> nat, table: seq<Slot>, hole: nat, ghost contents: map<u64, Ptr>, ghost e: nat)
    returns (slots: seq<Slot>)
    requires IsPow2(|table|) && hole < |table| && Shifting(Homes(hash, |table|), table, hole, Next(hole, |table|))
    requires Holds(table, contents) && e < |table| && e != hole && !Taken(table, e)
    ensures |slots| == |table| && Probed(Homes(hash, |table|), slots) && Holds(slots, contents)
  {
    ghost var home := Homes(hash, |table|);
    slots := table;
    var vacated := hole;
    var scan := Step(vacated, |slots|);
    while slots[scan].value != Null
      invariant |slots| == |table| && Shifting(home, slots, vacated, scan) && Holds(slots, contents)
      invariant e != vacated && !Taken(slots, e)
      decreases Dist(scan, e, |slots|)
    {
      var natural := Mask(hash(slots[scan].key), |slots|);
      if !InCyclicRange(natural, vacated, scan) {
        ShiftMove(home, slots, vacated, scan, e);
        MoveHolds(slots, contents, vacated, scan);
        slots := slots[vacated := slots[scan]][scan := EMPTY];
        vacated := scan;
      } else {
        ShiftSkip(home, slots, vacated, scan, e);
      }
      scan := Step(scan, |slots|);
    }
    ShiftEnd(home, slots, vacated, scan);
  }

  /** Erasing one entry and shifting back is exactly map removal. */
  method Erase(hash: u64 -> nat, slots: seq<Slot>, hole: nat, ghost contents: map<u64, Ptr>)
    returns (shifted: seq<Slot>)
    requires IsPow2(|slots|) && hole < |slots| && Taken(slots, hole) && |contents| < |slots|
    requires Probed(Homes(hash, |slots|), slots) && Holds(slots, contents)
    ensures |shifted| == |slots| && Probed(Homes(hash, |slots|), shifted)
    ensures Holds(shifted, contents - {slots[hole].key})
    ensures |contents - {slots[hole].key}| == |contents| - 1
  {
    ghost var e := HasEmpty(slots, contents);
    ShiftStart(Homes(hash, |slots|), slots, hole, e);
    EraseHolds(slots, contents, hole);
    shifted := BackwardShift(hash, slots[hole := EMPTY], hole, contents - {slots[hole].key}, e);
  }

  // ---- the index --------------------------------------------------------------------------

  class OrderIndex {
    const hash: u64 -> nat
    var slots: seq<Slot>
    var count: nat
    /** The map this table stands for. */
    ghost var contents: map<u64, Ptr>

    ghost predicate Valid()
      reads this
    {
      && Holds(slots, contents) && count == |contents|
      && (slots != [] ==> IsPow2(|slots|) && |slots| >= INITIAL_CAPACITY && Probed(Homes(hash, |slots|), slots))
      && 2 * count <= |slots|
    }

    constructor (hash: u64 -> nat)
      ensures Valid() && contents == map[] && slots == [] && this.hash == hash
    {
      this.hash := hash;
      slots := [];
      count := 0;
      contents := map[];
    }

    /** Lookup is the lookup of the map. */
    method FindOrder(id: u64) returns (p: Ptr)
      requires Valid()
      ensures p == if id in contents then contents[id] else Null
    {
      if slots == [] {
        return Null;
      }
      var i := Probe(hash, slots, contents, id);
      p := slots[i].value;
    }

    /** Grows so that n entries fit without a later doubling; the map is untouched and nothing shrinks. */
    method Reserve(n: nat)
      requires Valid()
      modifies this
      ensures Valid() && contents == old(contents) && count == old(count)
      ensures slots != [] && 2 * n <= |slots| && |slots| >= old(|slots|)
      ensures |slots| == (if old(slots) == [] then INITIAL_CAPACITY else old(|slots|)) || |slots| < 4 * n
      ensures old(slots) != [] && 2 * n <= old(|slots|) ==> slots == old(slots)
    {
      var capacity := if slots == [] then INITIAL_CAPACITY else |slots|;
      Sixteen();
      while 2 * n > capacity
        invariant IsPow2(capacity) && capacity >= INITIAL_CAPACITY && capacity >= |slots|
        invariant slots != [] && 2 * n <= |slots| ==> capacity == |slots|
        invariant capacity == (if slots == [] then INITIAL_CAPACITY else |slots|) || capacity < 4 * n
        decreases 2 * n - capacity
        modifies {}
      {
        Doubling(capacity);
        capacity := 2 * capacity;
      }
      if slots != [] && capacity <= |slots| {
        return;
      }
      slots := Rehash(hash, slots, capacity, contents);
    }

    /** Makes room for one more entry at a load of at most one half. */
    method GrowIfNeeded()
      requires Valid()
      modifies this
      ensures Valid() && contents == old(contents) && count == old(count)
      ensures slots != [] && 2 * (count + 1) <= |slots|
      ensures old(slots) != [] && 2 * (count + 1) <= old(|slots|) ==> slots == old(slots)
      ensures |slots| == if old(slots) == [] then INITIAL_CAPACITY
                         else if 2 * (count + 1) <= old(|slots|) then old(|slots|) else 2 * old(|slots|)
    {
      Sixteen();
      if slots == [] {
        slots := seq(INITIAL_CAPACITY, _ => EMPTY);
        return;
      }
      if 2 * (count + 1) <= |slots| {
        return;
      }
      Doubling(|slots|);
      slots := Rehash(hash, slots, |slots| * 2, contents);
    }

    /** Insertion is map update; a duplicate id changes nothing but spare capacity, which grows before the probe. */
    method AddOrder(mem: OrderMemory, p: Ptr) returns (r: Result<()>)
      requires Valid() && (p != Null ==> p in mem.cells)
      modifies this
      ensures Valid()
      ensures r == if p == Null then Err(InvalidArgument)
                   else if mem.cells[p].id in old(contents) then Err(LogicError) else Ok(())
      ensures contents == if r.Err? then old(contents) else old(contents)[mem.cells[p].id := p]
      ensures count == if r.Err? then old(count) else old(count) + 1
      ensures |slots| == if p == Null then old(|slots|)
                         else if old(slots) == [] then INITIAL_CAPACITY
                         else if 2 * (old(count) + 1) <= old(|slots|) then old(|slots|) else 2 * old(|slots|)
    {
      if p == Null {
        return Err(InvalidArgument);
      }
      GrowIfNeeded();
      var key := mem.cells[p].id;
      var i := Probe(hash, slots, contents, key);
      if slots[i].value != Null {
        return Err(LogicError);
      }
      InsertProbed(Homes(hash, |slots|), slots, key, p, i);
      InsertHolds(slots, contents, key, p, i);
      slots := slots[i := Slot(key, p)];
      count := count + 1;
      contents := contents[key := p];
      return Ok(());
    }

    /** Empties one occupied slot and closes the gap it leaves. */
    method RemoveAt(hole: nat)
      requires Valid() && hole < |slots| && Taken(slots, hole)
      modifies this
      ensures Valid() && |slots| == old(|slots|) && contents == old(contents - {slots[hole].key})
    {
      ghost var left := contents - {slots[hole].key};
      var shifted := Erase(hash, slots, hole, contents);
      count := count - 1;
      slots := shifted;
      contents := left;
    }

    /** Removal is exactly map removal, after the pointer has been checked. */
    method RemoveOrder(mem: OrderMemory, p: Ptr) returns (r: Result<()>)
      requires Valid() && (p != Null ==> p in mem.cells)
      modifies this
      ensures Valid() && |slots| == old(|slots|)
      ensures r == if p == Null then Err(InvalidArgument)
                   else if mem.cells[p].id !in old(contents) then Err(LogicError)
                   else if old(contents)[mem.cells[p].id] != p then Err(LogicError) else Ok(())
      ensures contents == if r.Err? then old(contents) else old(contents) - {mem.cells[p].id}
    {
      if p == Null {
        return Err(InvalidArgument);
      }
      if slots == [] {
        return Err(LogicError);
      }
      var hole := Probe(hash, slots, contents, mem.cells[p].id);
      if slots[hole].value == Null {
        return Err(LogicError);
      }
      if slots[hole].value != p {
        return Err(LogicError);
      }
      RemoveAt(hole);
      return Ok(());
    }
  }

  // ---- reserved tables --------------------------------------------------------------------

  /** A table sized for n entries is full to one half with n entries exactly when n is a power of two from 8 on. */
  lemma FullAtHalf(n: nat, c: nat)
    requires IsPow2(c) && c >= INITIAL_CAPACITY && 2 * n <= c && (c == INITIAL_CAPACITY || c < 4 * n)
    ensures 2 * (n + 1) > c <==> IsPow2(n) && 2 * n >= INITIAL_CAPACITY
  {
    var j: nat :| Pow2(j) == c;
    if j > 0 && 2 * (n + 1) > c {
      assert Pow2(j) == 2 * Pow2(j - 1);
      assert Pow2(j - 1) == n;
    }
    if IsPow2(n) && 2 * n >= INITIAL_CAPACITY && c != INITIAL_CAPACITY {
      var i: nat :| Pow2(i) == n;
      assert Pow2(i + 1) == 2 * n && Pow2(i + 2) == 4 * n;
      if j <= i {
        if j < i { Pow2Grows(j, i); }
        assert false;
      } else if j > i + 1 {
        if i + 2 < j { Pow2Grows(i + 2, j); }
        assert false;
      }
    }
  }

  function Sample(id: u64): Order {
    Order(id, 1, 1, 1, 1, Buy, Limit, id, Null, Null, NoLevel)
  }

  /**
   * A new table reserved for n entries takes n entries without growing. A further insertion of an id it
   * already holds fails, and yet doubles the table exactly when n is a power of two from 8 on.
   */
  method ReservedThenDuplicate(hash: u64 -> nat, n: u64)
    returns (reserved: nat, filled: nat, duplicate: Result<()>, after: nat)
    requires n > 0
    ensures reserved == filled && 2 * n <= reserved && duplicate == Err(LogicError)
    ensures after == if IsPow2(n) && 2 * n >= INITIAL_CAPACITY then 2 * reserved else reserved
  {
    hide Holds, Probed;
    var index := new OrderIndex(hash);
    var mem := new OrderMemory();
    index.Reserve(n);
    reserved := |index.slots|;
    for k := 1 to n + 1
      invariant index.Valid() && index.count == k - 1 && |index.slots| == reserved
      invariant forall id :: id in index.contents ==> 1 <= id < k
      invariant k > 1 ==> 1 in index.contents && At(1, 0) in mem.cells && mem.cells[At(1, 0)].id == 1
    {
      mem.cells := mem.cells[At(k, 0) := Sample(k)];
      var added := index.AddOrder(mem, At(k, 0));
    }
    filled := |index.slots|;
    duplicate := index.AddOrder(mem, At(1, 0));
    after := |index.slots|;
    FullAtHalf(n, reserved);
  }
}
