/**
 * Arithmetic view of Python's shift and bitwise-or on non-negative integers.
 *
 * Python integers are unbounded, so `x << k` on a non-negative `x` is exactly
 * `x * 2^k`, and `x | y` is the bitwise union of two infinite bit strings.
 * BitOr below defines that union bit by bit; the lemmas say when it is plain
 * addition (the operands occupy disjoint bit ranges), which is how the UUID
 * packing of the generator is reasoned about.
 */
module Bits {

  /** 2^n. */
  function Pow2(n: nat): (r: nat)
    ensures r >= 1
  {
    if n == 0 then 1 else 2 * Pow2(n - 1)
  }

  lemma {:induction false} Pow2Add(m: nat, n: nat)
    ensures Pow2(m + n) == Pow2(m) * Pow2(n)
  {
    if m > 0 {
      Pow2Add(m - 1, n);
    }
  }

  // The powers of two that the UUID layout uses, written out.
  const TWO_12: nat := 0x1000
  const TWO_62: nat := 0x4000_0000_0000_0000
  const TWO_63: nat := 0x8000_0000_0000_0000
  const TWO_48: nat := 0x1_0000_0000_0000
  const TWO_64: nat := 0x1_0000_0000_0000_0000
  const TWO_76: nat := 0x1000_0000_0000_0000_0000
  const TWO_80: nat := 0x1_0000_0000_0000_0000_0000
  const TWO_128: nat := 0x1_0000_0000_0000_0000_0000_0000_0000_0000

  lemma Pow2Literals()
    ensures Pow2(12) == TWO_12 && Pow2(62) == TWO_62 && Pow2(63) == TWO_63
    ensures Pow2(64) == TWO_64 && Pow2(76) == TWO_76 && Pow2(80) == TWO_80
  {
    assert Pow2(2) == 4;
    assert Pow2(4) == 16;
    Pow2Add(4, 4);
    assert Pow2(8) == 0x100;
    Pow2Add(8, 4);
    Pow2Add(8, 8);
    assert Pow2(16) == 0x1_0000;
    Pow2Add(16, 16);
    assert Pow2(32) == 0x1_0000_0000;
    Pow2Add(32, 32);
    assert Pow2(64) == TWO_64;
    Pow2Add(64, 12);
    Pow2Add(64, 16);
    Pow2Add(32, 16);
    assert Pow2(48) == 0x1_0000_0000_0000;
    Pow2Add(48, 8);
    assert Pow2(56) == 0x100_0000_0000_0000;
    Pow2Add(56, 4);
    assert Pow2(60) == 0x1000_0000_0000_0000;
    Pow2Add(60, 2);
    assert Pow2(62) == TWO_62;
  }

  /** Python's `x | y` on non-negative integers, one bit at a time from the least significant end. */
  function BitOr(x: nat, y: nat): nat
    decreases x + y
  {
    if x == 0 then y
    else if y == 0 then x
    else 2 * BitOr(x / 2, y / 2) + (if x % 2 == 1 || y % 2 == 1 then 1 else 0)
  }

  /**
   * The union has every bit of either operand, so it is at least each of
   * them, and at most their sum (the sum exactly when no bit is shared).
   */
  lemma {:induction false} BitOrBounds(x: nat, y: nat)
    ensures x <= BitOr(x, y) && y <= BitOr(x, y)
    ensures BitOr(x, y) <= x + y
    decreases x + y
  {
    if x != 0 && y != 0 {
      BitOrBounds(x / 2, y / 2);
    }
  }

  /** The recursive step of BitOr holds for zero operands too. */
  lemma BitOrStep(x: nat, y: nat)
    ensures BitOr(x, y) == 2 * BitOr(x / 2, y / 2) + (if x % 2 == 1 || y % 2 == 1 then 1 else 0)
  {
    if x == 0 {
      assert BitOr(x / 2, y / 2) == y / 2;
    } else if y == 0 {
      assert BitOr(x / 2, y / 2) == x / 2;
    }
  }

  /**
   * Or-ing two values that are each split at bit k into a high part and a
   * low part below 2^k or-s the high parts and the low parts separately; the
   * low result stays below 2^k.
   */
  lemma {:induction false} OrSplit(x: nat, u: nat, z: nat, y: nat, k: nat)
    requires u < Pow2(k) && y < Pow2(k)
    ensures BitOr(x * Pow2(k) + u, z * Pow2(k) + y) == BitOr(x, z) * Pow2(k) + BitOr(u, y)
    ensures BitOr(u, y) < Pow2(k)
  {
    if k == 0 {
      assert u == 0 && y == 0;
    } else {
      var p := Pow2(k - 1);
      assert Pow2(k) == 2 * p;
      MulTwice(x, p);
      MulTwice(z, p);
      MulTwice(BitOr(x, z), p);
      var hx: nat, hz: nat, ho: nat := x * p, z * p, BitOr(x, z) * p;
      var left: nat, right: nat := 2 * hx + u, 2 * hz + y;
      assert left == 2 * (hx + u / 2) + u % 2;
      assert right == 2 * (hz + y / 2) + y % 2;
      assert left / 2 == hx + u / 2 && left % 2 == u % 2;
      assert right / 2 == hz + y / 2 && right % 2 == y % 2;
      OrSplit(x, u / 2, z, y / 2, k - 1);
      var bit := if u % 2 == 1 || y % 2 == 1 then 1 else 0;
      BitOrStep(left, right);
      assert BitOr(left, right) == 2 * BitOr(hx + u / 2, hz + y / 2) + bit;
      assert BitOr(hx + u / 2, hz + y / 2) == ho + BitOr(u / 2, y / 2);
      BitOrStep(u, y);
      assert BitOr(u, y) == 2 * BitOr(u / 2, y / 2) + bit;
    }
  }

  lemma MulTwice(x: nat, p: nat)
    ensures x * p >= 0
    ensures x * (2 * p) == 2 * (x * p)
  {
  }

  /** Or-ing values that occupy disjoint bit ranges is addition. */
  lemma OrDisjoint(x: nat, y: nat, k: nat)
    requires y < Pow2(k)
    ensures BitOr(x * Pow2(k), y) == x * Pow2(k) + y
  {
    var p := Pow2(k);
    OrSplit(x, 0, 0, y, k);
    assert x * p + 0 == x * p && 0 * p + y == y;
    assert BitOr(x, 0) == x && BitOr(0, y) == y;
  }
}
