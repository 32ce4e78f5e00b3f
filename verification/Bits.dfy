/** Powers of two and the `x & (n - 1)` idiom that the hash table and the event queue index with. */
module Bits {

  function Pow2(k: nat): (r: nat)
    ensures r > 0
  {
    if k == 0 then 1 else 2 * Pow2(k - 1)
  }

  ghost predicate IsPow2(n: nat) {
    exists k: nat :: Pow2(k) == n
  }

  /** Bitwise conjunction of two unbounded naturals, bit by bit. */
  function BitAnd(x: nat, y: nat): nat {
    if x == 0 || y == 0 then 0
    else 2 * BitAnd(x / 2, y / 2) + (if x % 2 == 1 && y % 2 == 1 then 1 else 0)
  }

  lemma {:induction false} ModDouble(x: nat, m: nat)
    requires m > 0
    ensures x % (2 * m) == 2 * ((x / 2) % m) + x % 2
  {
    var q, r := x / 2 / m, x / 2 % m;
    assert x == 2 * (q * m + r) + x % 2;
    assert x == q * (2 * m) + (2 * r + x % 2);
    ModUnique(x, 2 * m, q, 2 * r + x % 2);
  }

  lemma {:induction false} ModUnique(x: int, n: int, q: int, r: int)
    requires 0 <= r < n && x == q * n + r
    ensures x % n == r && x / n == q
  {
    var d := x / n - q;
    assert d * n == r - x % n;
    assert d >= 1 ==> d * n >= n;
    assert d <= -1 ==> d * n <= -n;
  }

  /** Masking with one less than a power of two is the remainder by that power. */
  lemma {:induction false} MaskIsMod(x: nat, k: nat)
    ensures BitAnd(x, Pow2(k) - 1) == x % Pow2(k)
  {
    if k == 0 {
    } else if x == 0 {
    } else {
      var m := Pow2(k - 1);
      assert (Pow2(k) - 1) / 2 == m - 1 && (Pow2(k) - 1) % 2 == 1;
      MaskIsMod(x / 2, k - 1);
      ModDouble(x, m);
    }
  }

  /** The code's `x & (n - 1)`; it stays inside the table because n is a power of two. */
  function Mask(x: nat, n: nat): (r: nat)
    requires IsPow2(n)
    ensures r == x % n && r < n
  {
    assert BitAnd(x, n - 1) == x % n by {
      var k: nat :| Pow2(k) == n;
      MaskIsMod(x, k);
    }
    BitAnd(x, n - 1)
  }

  lemma Doubling(n: nat)
    requires IsPow2(n)
    ensures IsPow2(2 * n)
  {
    var k: nat :| Pow2(k) == n;
    assert Pow2(k + 1) == 2 * n;
  }

  lemma {:induction false} Pow2Sum(a: nat, b: nat)
    ensures Pow2(a + b) == Pow2(a) * Pow2(b)
  {
    if a > 0 {
      Pow2Sum(a - 1, b);
      assert 2 * (Pow2(a - 1) * Pow2(b)) == Pow2(a) * Pow2(b);
    }
  }

  lemma WordSize()
    ensures Pow2(64) == 0x1_0000_0000_0000_0000
  {
    assert Pow2(8) == 256;
    Pow2Sum(8, 8);
    Pow2Sum(16, 16);
    Pow2Sum(32, 32);
  }

  lemma Sixteen()
    ensures IsPow2(16)
  {
    assert Pow2(4) == 16;
  }

  // ---- machine words, bit by bit ----------------------------------------------------------

  function BitOr(x: nat, y: nat): nat
    decreases x + y
  {
    if x == 0 then y else if y == 0 then x
    else 2 * BitOr(x / 2, y / 2) + (if x % 2 == 1 || y % 2 == 1 then 1 else 0)
  }

  function ShiftRight(w: nat, k: nat): nat {
    if k == 0 then w else ShiftRight(w / 2, k - 1)
  }

  predicate Bit(w: nat, k: nat) {
    if k == 0 then w % 2 == 1 else Bit(w / 2, k - 1)
  }

  /** The number of low zero bits of a nonzero word. */
  function TrailingZeros(w: nat): nat
    requires w > 0
  {
    if w % 2 == 1 then 0 else 1 + TrailingZeros(w / 2)
  }

  lemma {:induction false} ZeroBit(k: nat)
    ensures !Bit(0, k)
  {
    if k > 0 { ZeroBit(k - 1); }
  }

  lemma {:induction false} OrBit(x: nat, y: nat, k: nat)
    ensures Bit(BitOr(x, y), k) <==> Bit(x, k) || Bit(y, k)
    decreases k
  {
    ZeroBit(k);
    if k > 0 && x > 0 && y > 0 {
      OrBit(x / 2, y / 2, k - 1);
      assert BitOr(x, y) / 2 == BitOr(x / 2, y / 2);
    }
  }

  lemma {:induction false} AndBit(x: nat, y: nat, k: nat)
    ensures Bit(BitAnd(x, y), k) <==> Bit(x, k) && Bit(y, k)
    decreases k
  {
    ZeroBit(k);
    if k > 0 && x > 0 && y > 0 {
      AndBit(x / 2, y / 2, k - 1);
      assert BitAnd(x, y) / 2 == BitAnd(x / 2, y / 2);
    }
  }

  /** `1 << k` has exactly bit k set. */
  lemma {:induction false} OneBit(k: nat, j: nat)
    ensures Bit(Pow2(k), j) <==> j == k
  {
    if k == 0 {
      if j > 0 { ZeroBit(j - 1); }
    } else if j > 0 {
      OneBit(k - 1, j - 1);
    }
  }

  /** `~y` in a word of n bits flips every bit. */
  lemma {:induction false} NotBit(y: nat, n: nat, k: nat)
    requires y < Pow2(n) && k < n
    ensures Bit(Pow2(n) - 1 - y, k) <==> !Bit(y, k)
  {
    if k > 0 {
      NotBit(y / 2, n - 1, k - 1);
      assert (Pow2(n) - 1 - y) / 2 == Pow2(n - 1) - 1 - y / 2;
    }
  }

  lemma {:induction false} ShiftBit(w: nat, s: nat, k: nat)
    ensures Bit(ShiftRight(w, s), k) <==> Bit(w, s + k)
  {
    if s > 0 { ShiftBit(w / 2, s - 1, k); }
  }

  lemma {:induction false} Pow2Grows(a: nat, b: nat)
    requires a < b
    ensures 2 * Pow2(a) <= Pow2(b)
    decreases b
  {
    if a < b - 1 { Pow2Grows(a, b - 1); }
  }

  lemma {:induction false} OrFits(x: nat, y: nat, n: nat)
    requires x < Pow2(n) && y < Pow2(n)
    ensures BitOr(x, y) < Pow2(n)
    decreases n
  {
    if x > 0 && y > 0 { OrFits(x / 2, y / 2, n - 1); }
  }

  lemma {:induction false} AndFits(x: nat, y: nat)
    ensures BitAnd(x, y) <= x
  {
    if x > 0 && y > 0 { AndFits(x / 2, y / 2); }
  }

  lemma {:induction false} HighBits(w: nat, n: nat, k: nat)
    requires w < Pow2(n) && n <= k
    ensures !Bit(w, k)
    decreases n
  {
    if n == 0 { ZeroBit(k); } else { HighBits(w / 2, n - 1, k - 1); }
  }

  /** The trailing zeros count the lowest set bit. */
  lemma {:induction false} LowestBit(w: nat)
    requires w > 0
    ensures Bit(w, TrailingZeros(w))
    ensures forall k: nat | k < TrailingZeros(w) :: !Bit(w, k)
  {
    if w % 2 == 0 {
      LowestBit(w / 2);
      forall k: nat | k < TrailingZeros(w)
        ensures !Bit(w, k)
      {
        if k > 0 { assert !Bit(w / 2, k - 1); }
      }
    }
  }

  /** A word is determined by its bits. */
  lemma {:induction false} SameBits(x: nat, y: nat)
    requires forall k: nat :: Bit(x, k) == Bit(y, k)
    ensures x == y
    decreases x + y
  {
    assert Bit(x, 0) == Bit(y, 0);
    if x > 0 || y > 0 {
      forall k: nat
        ensures Bit(x / 2, k) == Bit(y / 2, k)
      {
        assert Bit(x, k + 1) == Bit(y, k + 1);
      }
      SameBits(x / 2, y / 2);
    }
  }
}
