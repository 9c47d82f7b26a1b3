/** Bitwise exclusive-or of natural numbers, defined by its binary digits, and
    the facts about it that the cache key and the mixing function rest on. */
module Bits {

  function Pow2(k: nat): (p: nat)
    ensures p >= 1
  {
    if k == 0 then 1 else 2 * Pow2(k - 1)
  }

  function Xor(x: nat, y: nat): nat
    decreases x + y
  {
    if x == 0 && y == 0 then 0
    else 2 * Xor(x / 2, y / 2) + (if x % 2 == y % 2 then 0 else 1)
  }

  /** The binary digit of weight 2^i. */
  function Bit(x: nat, i: nat): bool {
    if i == 0 then x % 2 == 1 else Bit(x / 2, i - 1)
  }

  /** Xor is the bitwise operator: digit by digit, it tells whether the digits differ. */
  lemma {:induction false} XorIsBitwise(x: nat, y: nat, i: nat)
    ensures Bit(Xor(x, y), i) == (Bit(x, i) != Bit(y, i))
    decreases i
  {
    XorDigits(x, y);
    if i > 0 {
      XorIsBitwise(x / 2, y / 2, i - 1);
    }
  }

  lemma XorDigits(x: nat, y: nat)
    ensures Xor(x, y) / 2 == Xor(x / 2, y / 2)
    ensures Xor(x, y) % 2 == if x % 2 == y % 2 then 0 else 1
  {
  }

  lemma {:induction false} XorComm(x: nat, y: nat)
    ensures Xor(x, y) == Xor(y, x)
    decreases x + y
  {
    if x != 0 || y != 0 {
      XorComm(x / 2, y / 2);
    }
  }

  lemma {:induction false} XorZero(x: nat)
    ensures Xor(x, 0) == x && Xor(0, x) == x
  {
    if x != 0 {
      XorZero(x / 2);
    }
  }

  lemma {:induction false} XorSelf(x: nat)
    ensures Xor(x, x) == 0
  {
    if x != 0 {
      XorSelf(x / 2);
    }
  }

  lemma {:induction false} XorAssoc(x: nat, y: nat, z: nat)
    ensures Xor(Xor(x, y), z) == Xor(x, Xor(y, z))
    decreases x + y + z
  {
    if x != 0 || y != 0 || z != 0 {
      var l, r := Xor(Xor(x, y), z), Xor(x, Xor(y, z));
      assert l / 2 == r / 2 by {
        XorDigits(x, y);
        XorDigits(y, z);
        XorDigits(Xor(x, y), z);
        XorDigits(x, Xor(y, z));
        XorAssoc(x / 2, y / 2, z / 2);
      }
      XorAssocParity(x, y, z);
      DigitsDecide(l, r);
    }
  }

  lemma XorAssocParity(x: nat, y: nat, z: nat)
    ensures Xor(Xor(x, y), z) % 2 == Xor(x, Xor(y, z)) % 2
  {
    XorDigits(x, y);
    XorDigits(y, z);
    XorDigits(Xor(x, y), z);
    XorDigits(x, Xor(y, z));
  }

  lemma DigitsDecide(a: nat, b: nat)
    requires a / 2 == b / 2 && a % 2 == b % 2
    ensures a == b
  {
    assert a == 2 * (a / 2) + a % 2;
  }

  lemma XorCancel(x: nat, y: nat)
    ensures Xor(Xor(x, y), y) == x
    ensures Xor(y, Xor(y, x)) == x
  {
    XorAssoc(x, y, y);
    XorAssoc(y, y, x);
    XorSelf(y);
    XorZero(x);
  }

  /** Two numbers below 2^k have an exclusive-or below 2^k. */
  lemma {:induction false} XorBound(x: nat, y: nat, k: nat)
    requires x < Pow2(k) && y < Pow2(k)
    ensures Xor(x, y) < Pow2(k)
  {
    if k > 0 {
      XorBound(x / 2, y / 2, k - 1);
      XorDigits(x, y);
    }
  }

  /** The distance of two numbers never exceeds their exclusive-or. */
  lemma {:induction false} DistanceBound(x: nat, y: nat)
    ensures x - y <= Xor(x, y) && y - x <= Xor(x, y)
    decreases x + y
  {
    if x != 0 || y != 0 {
      DistanceBound(x / 2, y / 2);
      XorDigits(x, y);
    }
  }

  /** Numbers of the same bit length have their leading digits cancelled. */
  lemma {:induction false} SameBracketXor(x: nat, y: nat, k: nat)
    requires Pow2(k) <= x < Pow2(k + 1) && Pow2(k) <= y < Pow2(k + 1)
    ensures Xor(x, y) < Pow2(k)
  {
    XorDigits(x, y);
    if k > 0 {
      assert Pow2(k + 1) == 2 * Pow2(k) && Pow2(k) == 2 * Pow2(k - 1);
      SameBracketXor(x / 2, y / 2, k - 1);
    } else {
      assert x == 1 && y == 1;
      XorSelf(1);
    }
  }

  /** Right shift by k places. */
  function Shr(x: nat, k: nat): nat {
    if k == 0 then x else Shr(x / 2, k - 1)
  }

  /** A right shift commutes with exclusive-or. */
  lemma {:induction false} XorShr(x: nat, y: nat, k: nat)
    ensures Shr(Xor(x, y), k) == Xor(Shr(x, k), Shr(y, k))
  {
    if k > 0 {
      XorDigits(x, y);
      XorShr(x / 2, y / 2, k - 1);
    }
  }

  /** It is the quotient by a power of two, as the right shift of an unsigned word is. */
  lemma {:induction false} ShrIsDivision(x: nat, k: nat)
    ensures Shr(x, k) == x / Pow2(k)
  {
    if k > 0 {
      ShrIsDivision(x / 2, k - 1);
      DivTwice(x, k);
    }
  }

  lemma DivTwice(x: nat, k: nat)
    requires k > 0
    ensures x / Pow2(k) == (x / 2) / Pow2(k - 1)
  {
    var p := Pow2(k - 1);
    var q := (x / 2) / p;
    var r := (x / 2) % p;
    assert x == 2 * (q * p + r) + x % 2;
    assert x == q * (2 * p) + (2 * r + x % 2);
    DivUnique(x, 2 * p, q, 2 * r + x % 2);
  }

  lemma DivUnique(x: nat, d: nat, q: nat, r: nat)
    requires d > 0 && x == q * d + r && r < d
    ensures x / d == q && x % d == r
  {
    MulStep(x / d, q, d);
    MulStep(q, x / d, d);
    assert x == x / d * d + x % d;
  }

  lemma {:induction false} MulStep(a: nat, b: nat, d: nat)
    ensures a < b ==> a * d + d <= b * d
  {
    if a + 1 < b {
      MulStep(a, b - 1, d);
      assert b * d == (b - 1) * d + d;
    } else if a + 1 == b {
      assert b * d == a * d + d;
    }
  }

  lemma Pow2Values()
    ensures Pow2(32) == 0x1_0000_0000
    ensures Pow2(64) == 0x1_0000_0000_0000_0000
  {
    assert Pow2(8) == 0x100;
    Pow2Add(8, 8);
    assert Pow2(16) == 0x1_0000;
    Pow2Add(16, 16);
    assert Pow2(32) == 0x1_0000_0000;
    Pow2Add(32, 32);
  }

  lemma {:induction false} Pow2Add(j: nat, k: nat)
    ensures Pow2(j + k) == Pow2(j) * Pow2(k)
  {
    if k > 0 {
      Pow2Add(j, k - 1);
    }
  }
}
