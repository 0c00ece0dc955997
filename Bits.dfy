/** Arithmetic view of the bit manipulations used on strategy floors.
    Natural numbers stand for Python's unbounded non-negative integers;
    a shift left by k is a multiplication by Pow2(k), a shift right a division. */
module Bits {

  function Pow2(k: nat): (r: nat)
    ensures r >= 1
  {
    if k == 0 then 1 else 2 * Pow2(k - 1)
  }

  function Pow4(k: nat): (r: nat)
    ensures r >= 1
  {
    if k == 0 then 1 else 4 * Pow4(k - 1)
  }

  /** Bit j of x, i.e. (x >> j) & 1. */
  function Bit(x: nat, j: nat): (b: nat)
    ensures b <= 1
  {
    if j == 0 then x % 2 else Bit(x / 2, j - 1)
  }

  /** Bitwise OR of two naturals, i.e. x | y. */
  function Or(x: nat, y: nat): nat
    decreases x + y
  {
    if x == 0 then y
    else if y == 0 then x
    else 2 * Or(x / 2, y / 2) + (if x % 2 == 1 || y % 2 == 1 then 1 else 0)
  }

  /** x << k. */
  function Shl(x: nat, k: nat): nat
  {
    if k == 0 then x else 2 * Shl(x, k - 1)
  }

  lemma {:induction false} ShlIsMul(x: nat, k: nat)
    ensures Shl(x, k) == x * Pow2(k)
  {
    if k > 0 {
      ShlIsMul(x, k - 1);
      MulTwice(x, Pow2(k - 1));
    }
  }

  lemma MulTwice(x: nat, p: nat)
    ensures x * (2 * p) == 2 * (x * p)
  {
  }

  /** Number of binary digits of x, i.e. Python's x.bit_length(). */
  function BitLength(x: nat): nat
  {
    if x == 0 then 0 else 1 + BitLength(x / 2)
  }

  lemma {:induction false} Pow4IsPow2(k: nat)
    ensures Pow4(k) == Pow2(2 * k)
  {
    if k > 0 {
      Pow4IsPow2(k - 1);
      assert Pow2(2 * k) == 4 * Pow2(2 * (k - 1));
    }
  }

  lemma {:induction false} Pow4Add(a: nat, b: nat)
    ensures Pow4(a + b) == Pow4(a) * Pow4(b)
  {
    if a > 0 {
      Pow4Add(a - 1, b);
      assert Pow4(a + b) == 4 * Pow4(a - 1 + b);
    }
  }

  lemma {:induction false} Pow2Mono(a: nat, b: nat)
    requires a <= b
    ensures Pow2(a) <= Pow2(b)
  {
    if a < b { Pow2Mono(a, b - 1); }
  }

  lemma Pow4Mono(a: nat, b: nat)
    requires a <= b
    ensures Pow4(a) <= Pow4(b)
  {
    Pow4IsPow2(a);
    Pow4IsPow2(b);
    Pow2Mono(2 * a, 2 * b);
  }

  /** An OR of two values whose set bits lie in disjoint ranges is their sum. */
  lemma {:induction false} OrDisjoint(x: nat, y: nat, k: nat)
    requires x < Pow2(k)
    ensures Or(x, y * Pow2(k)) == x + y * Pow2(k)
  {
    var z := y * Pow2(k);
    if x == 0 || z == 0 {
    } else {
      assert k > 0;
      var p := Pow2(k - 1);
      assert z == 2 * (y * p);
      assert z / 2 == y * p && z % 2 == 0;
      OrDisjoint(x / 2, y, k - 1);
      assert Or(x / 2, z / 2) == x / 2 + y * p;
    }
  }

  lemma Mod4Bits(x: nat)
    ensures x % 4 == Bit(x, 0) + 2 * Bit(x, 1)
  {
    var h := x / 2;
    var q := h / 2;
    assert Bit(x, 1) == h % 2;
    assert x == 2 * h + x % 2;
    assert h == 2 * q + h % 2;
    DivMod4(x, q, 2 * (h % 2) + x % 2);
  }

  /** The remainder by 4 is the unique s below 4 with x == 4q + s. */
  lemma DivMod4(x: nat, q: nat, s: nat)
    requires x == 4 * q + s && s < 4
    ensures x % 4 == s
  {
  }

  lemma BitDiv4(x: nat, j: nat)
    ensures Bit(x / 4, j) == Bit(x, j + 2)
  {
    assert x / 2 / 2 == x / 4;
    assert Bit(x, j + 2) == Bit(x / 2, j + 1) == Bit(x / 2 / 2, j);
  }

  lemma {:induction false} BitOr(x: nat, y: nat, j: nat)
    ensures Bit(Or(x, y), j) == if Bit(x, j) == 1 || Bit(y, j) == 1 then 1 else 0
    decreases j
  {
    if x == 0 {
      ZeroBits(j);
    } else if y == 0 {
      ZeroBits(j);
    } else {
      var o := Or(x / 2, y / 2);
      var b := if x % 2 == 1 || y % 2 == 1 then 1 else 0;
      assert (2 * o + b) / 2 == o && (2 * o + b) % 2 == b;
      if j > 0 { BitOr(x / 2, y / 2, j - 1); }
    }
  }

  lemma {:induction false} ZeroBits(j: nat)
    ensures Bit(0, j) == 0
  {
    if j > 0 { ZeroBits(j - 1); }
  }

  lemma {:induction false} BitPow2(k: nat, j: nat)
    ensures Bit(Pow2(k), j) == if j == k then 1 else 0
  {
    if k == 0 {
      if j > 0 { ZeroBits(j - 1); }
    } else if j > 0 {
      assert Pow2(k) / 2 == Pow2(k - 1);
      BitPow2(k - 1, j - 1);
    }
  }

  lemma {:induction false} BitsAbove(x: nat, k: nat, j: nat)
    requires x < Pow2(k) && k <= j
    ensures Bit(x, j) == 0
  {
    if k == 0 {
      ZeroBits(j);
    } else {
      BitsAbove(x / 2, k - 1, j - 1);
    }
  }

  /** Setting a clear bit k adds Pow2(k) and changes no other bit. */
  lemma {:induction false} BitAddPow2(x: nat, k: nat, j: nat)
    requires Bit(x, k) == 0
    ensures Bit(x + Pow2(k), j) == if j == k then 1 else Bit(x, j)
  {
    if k == 0 {
      assert (x + 1) / 2 == x / 2;
    } else {
      var p := Pow2(k - 1);
      assert (x + 2 * p) / 2 == x / 2 + p && (x + 2 * p) % 2 == x % 2;
      if j > 0 { BitAddPow2(x / 2, k - 1, j - 1); }
    }
  }

  /** Clearing a set bit k subtracts Pow2(k) and changes no other bit. */
  lemma {:induction false} BitSubPow2(x: nat, k: nat, j: nat)
    requires Bit(x, k) == 1
    ensures x >= Pow2(k)
    ensures Bit(x - Pow2(k), j) == if j == k then 0 else Bit(x, j)
  {
    if k == 0 {
      assert (x - 1) / 2 == x / 2;
    } else {
      var p := Pow2(k - 1);
      BitSubPow2(x / 2, k - 1, if j > 0 then j - 1 else 0);
      assert x >= 2 * p;
      assert (x - 2 * p) / 2 == x / 2 - p && (x - 2 * p) % 2 == x % 2;
    }
  }

  lemma {:induction false} BitLengthBounds(x: nat)
    requires x > 0
    ensures BitLength(x) >= 1
    ensures Pow2(BitLength(x) - 1) <= x < Pow2(BitLength(x))
  {
    if x / 2 > 0 { BitLengthBounds(x / 2); }
  }

  lemma {:induction false} BitLengthOf(x: nat, m: nat)
    requires Pow2(m) <= x < Pow2(m + 1)
    ensures BitLength(x) == m + 1
  {
    if m > 0 { BitLengthOf(x / 2, m - 1); }
  }

  lemma {:induction false} TopBit(x: nat)
    requires x > 0
    ensures Bit(x, BitLength(x) - 1) == 1
  {
    if x / 2 > 0 { TopBit(x / 2); }
  }

  /** Two naturals with the same bits are equal. */
  lemma {:induction false} BitsEqual(x: nat, y: nat)
    requires forall j: nat :: Bit(x, j) == Bit(y, j)
    ensures x == y
    decreases x + y
  {
    if x == 0 && y == 0 {
    } else if x == 0 || y == 0 {
      var z := if x == 0 then y else x;
      TopBit(z);
      ZeroBits(BitLength(z) - 1);
    } else {
      assert Bit(x, 0) == Bit(y, 0);
      forall j: nat ensures Bit(x / 2, j) == Bit(y / 2, j) {
        assert Bit(x, j + 1) == Bit(y, j + 1);
      }
      BitsEqual(x / 2, y / 2);
    }
  }

  lemma NoBitsIsZero(x: nat)
    requires forall j: nat :: Bit(x, j) == 0
    ensures x == 0
  {
    forall j: nat ensures Bit(x, j) == Bit(0, j) { ZeroBits(j); }
    BitsEqual(x, 0);
  }
}
