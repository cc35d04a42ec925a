/** Bitwise arithmetic on unsigned machine words, defined on naturals by recursion on the
    binary digits.  A word of w bits is a natural below Pow2(w); bit 0 is the least
    significant one. */
module Bits {

  type byte = x: int | 0 <= x < 256

  function Pow2(n: nat): (p: nat)
    ensures p >= 1
  {
    if n == 0 then 1 else 2 * Pow2(n - 1)
  }

  predicate Bit(x: nat, i: nat)
  {
    if i == 0 then x % 2 == 1 else Bit(x / 2, i - 1)
  }

  function And(x: nat, y: nat): (r: nat)
    ensures r <= x && r <= y
  {
    if x == 0 || y == 0 then 0
    else 2 * And(x / 2, y / 2) + (if x % 2 == 1 && y % 2 == 1 then 1 else 0)
  }

  function Or(x: nat, y: nat): (r: nat)
    ensures r >= x && r >= y
  {
    if x == 0 then y else if y == 0 then x
    else 2 * Or(x / 2, y / 2) + (if x % 2 == 1 || y % 2 == 1 then 1 else 0)
  }

  /** x & ~y, for a complement taken in a word at least as wide as x. */
  function AndNot(x: nat, y: nat): (r: nat)
    ensures r <= x
  {
    if x == 0 then 0
    else 2 * AndNot(x / 2, y / 2) + (if x % 2 == 1 && y % 2 == 0 then 1 else 0)
  }

  function Xor(x: nat, y: nat): nat
  {
    if x == 0 then y else if y == 0 then x
    else 2 * Xor(x / 2, y / 2) + (if x % 2 != y % 2 then 1 else 0)
  }

  /** x >> n */
  function Shr(x: nat, n: nat): (r: nat)
    ensures r <= x
  {
    if n == 0 then x else Shr(x / 2, n - 1)
  }

  /** x << n, before truncation to a word. */
  function Shl(x: nat, n: nat): nat
  {
    if n == 0 then x else 2 * Shl(x, n - 1)
  }

  /** Truncation to a w-bit word. */
  function Low(x: nat, w: nat): (r: nat)
    ensures r < Pow2(w)
  {
    if w == 0 then 0 else x % 2 + 2 * Low(x / 2, w - 1)
  }

  // ----- how each operation acts on a single bit -----

  lemma {:induction false} BitZero(i: nat)
    ensures !Bit(0, i)
  {
    if i > 0 { BitZero(i - 1); }
  }

  lemma {:induction false} LowDigit(h: nat, d: nat, i: nat)
    requires d <= 1
    ensures Bit(2 * h + d, i) == if i == 0 then d == 1 else Bit(h, i - 1)
  {
    assert (2 * h + d) / 2 == h;
  }

  lemma {:induction false} BitAnd(x: nat, y: nat, i: nat)
    ensures Bit(And(x, y), i) == (Bit(x, i) && Bit(y, i))
  {
    if x == 0 || y == 0 {
      BitZero(i);
    } else {
      LowDigit(And(x / 2, y / 2), if x % 2 == 1 && y % 2 == 1 then 1 else 0, i);
      if i > 0 { BitAnd(x / 2, y / 2, i - 1); }
    }
  }

  lemma {:induction false} BitOr(x: nat, y: nat, i: nat)
    ensures Bit(Or(x, y), i) == (Bit(x, i) || Bit(y, i))
  {
    if x == 0 || y == 0 {
      BitZero(i);
    } else {
      LowDigit(Or(x / 2, y / 2), if x % 2 == 1 || y % 2 == 1 then 1 else 0, i);
      if i > 0 { BitOr(x / 2, y / 2, i - 1); }
    }
  }

  lemma {:induction false} BitAndNot(x: nat, y: nat, i: nat)
    ensures Bit(AndNot(x, y), i) == (Bit(x, i) && !Bit(y, i))
  {
    if x == 0 {
      BitZero(i);
    } else {
      LowDigit(AndNot(x / 2, y / 2), if x % 2 == 1 && y % 2 == 0 then 1 else 0, i);
      if i > 0 { BitAndNot(x / 2, y / 2, i - 1); }
    }
  }

  lemma {:induction false} BitXor(x: nat, y: nat, i: nat)
    ensures Bit(Xor(x, y), i) == (Bit(x, i) != Bit(y, i))
  {
    if x == 0 || y == 0 {
      BitZero(i);
    } else {
      LowDigit(Xor(x / 2, y / 2), if x % 2 != y % 2 then 1 else 0, i);
      if i > 0 { BitXor(x / 2, y / 2, i - 1); }
    }
  }

  lemma {:induction false} BitShr(x: nat, n: nat, i: nat)
    ensures Bit(Shr(x, n), i) == Bit(x, n + i)
  {
    if n > 0 { BitShr(x / 2, n - 1, i); }
  }

  lemma {:induction false} BitShl(x: nat, n: nat, i: nat)
    ensures Bit(Shl(x, n), i) == (i >= n && Bit(x, i - n))
  {
    if n > 0 && i > 0 { BitShl(x, n - 1, i - 1); }
  }

  lemma {:induction false} BitLow(x: nat, w: nat, i: nat)
    ensures Bit(Low(x, w), i) == (i < w && Bit(x, i))
  {
    if w == 0 {
      BitZero(i);
    } else if i > 0 {
      BitLow(x / 2, w - 1, i - 1);
      assert Low(x, w) / 2 == Low(x / 2, w - 1);
    }
  }

  lemma {:induction false} BitPow2(n: nat, i: nat)
    ensures Bit(Pow2(n), i) == (i == n)
  {
    if n == 0 {
      if i > 0 { BitZero(i - 1); }
    } else if i > 0 {
      BitPow2(n - 1, i - 1);
    }
  }

  lemma {:induction false} BitBeyond(x: nat, w: nat, i: nat)
    requires x < Pow2(w) && i >= w
    ensures !Bit(x, i)
  {
    if w == 0 { BitZero(i); } else { BitBeyond(x / 2, w - 1, i - 1); }
  }

  // ----- a word is its bits -----

  lemma {:induction false} SameBits(x: nat, y: nat, w: nat)
    requires x < Pow2(w) && y < Pow2(w)
    requires forall i: nat | i < w :: Bit(x, i) == Bit(y, i)
    ensures x == y
  {
    if w > 0 {
      forall i: nat | i < w - 1 ensures Bit(x / 2, i) == Bit(y / 2, i) {
        assert Bit(x, i + 1) == Bit(y, i + 1);
      }
      SameBits(x / 2, y / 2, w - 1);
      assert Bit(x, 0) == Bit(y, 0);
    }
  }

  lemma {:induction false} SomeBit(x: nat, w: nat) returns (i: nat)
    requires 0 < x < Pow2(w)
    ensures i < w && Bit(x, i)
  {
    if x % 2 == 1 { i := 0; } else { i := SomeBit(x / 2, w - 1); i := i + 1; }
  }

  // ----- ranges -----

  lemma {:induction false} OrRange(x: nat, y: nat, w: nat)
    requires x < Pow2(w) && y < Pow2(w)
    ensures Or(x, y) < Pow2(w)
  {
    if x != 0 && y != 0 { OrRange(x / 2, y / 2, w - 1); }
  }

  lemma {:induction false} XorRange(x: nat, y: nat, w: nat)
    requires x < Pow2(w) && y < Pow2(w)
    ensures Xor(x, y) < Pow2(w)
  {
    if x != 0 && y != 0 { XorRange(x / 2, y / 2, w - 1); }
  }

  lemma {:induction false} Pow2Eight()
    ensures Pow2(8) == 256
  {
  }

  lemma {:induction false} ShrHalf(x: nat, i: nat)
    ensures Shr(x, i) / 2 == Shr(x, i + 1)
    ensures x < Pow2(i) ==> Shr(x, i) == 0
  {
    if i > 0 { ShrHalf(x / 2, i - 1); }
  }

  lemma {:induction false} Pow2Monotone(m: nat, n: nat)
    requires m <= n
    ensures Pow2(m) <= Pow2(n)
    ensures m < n ==> Pow2(m) < Pow2(n)
  {
    if m < n { Pow2Monotone(m, n - 1); }
  }

  /** Setting a bit above everything set so far is an addition. */
  lemma {:induction false} OrFresh(x: nat, i: nat)
    requires x < Pow2(i)
    ensures Or(x, Pow2(i)) == x + Pow2(i)
  {
    if x != 0 { OrFresh(x / 2, i - 1); }
  }
}
