/** The 32-bit mixing function of the hash table (app/HashTable.h) is a bijection
    and spreads the keys evenly over the buckets. */
module MixHash {
  import opened Defs
  import opened Bits

  const BUCKETS := 64
  const MULTIPLIER := 0x27d4eb2d

  // The inverses of 9 and of MULTIPLIER modulo 2^32.
  const NINE_INVERSE := 954437177
  const MULTIPLIER_INVERSE := 4218002597

  function XorShiftRight(x: nat, k: nat): nat {
    Xor(x, Shr(x, k))
  }

  lemma XorShiftFits(x: nat, k: nat)
    requires x < TWO_TO_THE_32
    ensures XorShiftRight(x, k) < TWO_TO_THE_32
  {
    Pow2Values();
    ShrShrinks(x, k);
    XorBound(x, Shr(x, k), 32);
  }

  lemma {:induction false} ShrShrinks(x: nat, k: nat)
    ensures Shr(x, k) <= x
    ensures k > 0 && x > 0 ==> Shr(x, k) < x
  {
    if k > 0 {
      ShrShrinks(x / 2, k - 1);
    }
  }

  function Seeded(key: uint32): uint32 {
    SeededFits(key);
    Xor(Xor(key, 61), Shr(key, 16))
  }

  lemma SeededFits(key: uint32)
    ensures Xor(Xor(key, 61), Shr(key, 16)) < TWO_TO_THE_32
    ensures Xor(Xor(key, 61), Shr(key, 16)) == Xor(XorShiftRight(key, 16), 61)
  {
    Pow2Values();
    ShrShrinks(key, 16);
    XorBound(key, 61, 32);
    XorBound(Xor(key, 61), Shr(key, 16), 32);
    XorAssoc(key, 61, Shr(key, 16));
    XorComm(61, Shr(key, 16));
    XorAssoc(key, Shr(key, 16), 61);
  }

  function Spread(k3: uint32): uint32 {
    var k4: uint32 := k3 * MULTIPLIER % TWO_TO_THE_32;
    XorShiftFits(k4, 15);
    XorShiftRight(k4, 15)
  }

  function TimesNine(k1: uint32): uint32 {
    (k1 + k1 * 8 % TWO_TO_THE_32) % TWO_TO_THE_32
  }

  function Folded(k2: uint32): uint32 {
    XorShiftFits(k2, 4);
    XorShiftRight(k2, 4)
  }

  /** The mixing function: its five statements, in 32-bit arithmetic. */
  function Hash(key: uint32): uint32 {
    Spread(Folded(TimesNine(Seeded(key))))
  }

  function HashBucket(key: uint32): (b: nat)
    ensures b < BUCKETS
  {
    Hash(key) % BUCKETS
  }

  /** The five statements with their literals, on numbers: a right shift is a quotient,
      and sums and products are taken modulo the 32-bit word. */
  lemma HashInFull(key: uint32)
    ensures var k1 := Xor(Xor(key, 61), key / 0x1_0000);
      var k2 := 9 * k1 % 0x1_0000_0000;
      var k3 := Xor(k2, k2 / 0x10);
      var k4 := k3 * 0x27d4eb2d % 0x1_0000_0000;
      Hash(key) == Xor(k4, k4 / 0x8000)
  {
    var k1 := Seeded(key);
    var k2 := TimesNine(k1);
    var k3 := Folded(k2);
    SmallPowers();
    ShrIsDivision(key, 16);
    TimesNineIsMultiplication(k1);
    ShrIsDivision(k2, 4);
    ShrIsDivision(k3 * MULTIPLIER % TWO_TO_THE_32, 15);
  }

  lemma SmallPowers()
    ensures Pow2(4) == 0x10 && Pow2(15) == 0x8000 && Pow2(16) == 0x1_0000
  {
    assert Pow2(8) == 0x100;
    Pow2Add(8, 8);
  }

  /** Undoes an xor-shift by unshifting the high part first. */
  function Unshift(y: nat, k: nat): nat
    requires k > 0
  {
    ShrShrinks(y, k);
    if y == 0 then 0 else Xor(y, Unshift(Shr(y, k), k))
  }

  lemma {:induction false} UnshiftShift(x: nat, k: nat)
    requires k > 0
    ensures Unshift(XorShiftRight(x, k), k) == x
  {
    ShrShrinks(x, k);
    if x == 0 {
      XorSelf(0);
    } else {
      var y := XorShiftRight(x, k);
      UnshiftShift(Shr(x, k), k);
      XorShr(x, Shr(x, k), k);
      XorCancel(x, Shr(x, k));
      DistanceBound(x, Shr(x, k));
    }
  }

  lemma {:induction false} ShiftUnshift(y: nat, k: nat)
    requires k > 0
    ensures XorShiftRight(Unshift(y, k), k) == y
  {
    ShrShrinks(y, k);
    if y == 0 {
      ShrShrinks(0, k);
    } else {
      var u := Unshift(Shr(y, k), k);
      ShiftUnshift(Shr(y, k), k);
      XorShr(y, u, k);
      XorCancel(u, Shr(u, k));
      assert Xor(Shr(y, k), Shr(u, k)) == u;
      XorCancel(y, u);
    }
  }

  lemma {:induction false} UnshiftFits(y: nat, k: nat)
    requires k > 0 && y < TWO_TO_THE_32
    ensures Unshift(y, k) < TWO_TO_THE_32
  {
    ShrShrinks(y, k);
    if y > 0 {
      UnshiftFits(Shr(y, k), k);
      Pow2Values();
      XorBound(y, Unshift(Shr(y, k), k), 32);
    }
  }

  lemma TimesNineIsMultiplication(x: uint32)
    ensures TimesNine(x) == x * 9 % TWO_TO_THE_32
  {
    var q := x * 8 / TWO_TO_THE_32;
    assert x + x * 8 % TWO_TO_THE_32 == x * 9 - q * TWO_TO_THE_32;
    ModuloShift(x * 9, q);
  }

  lemma ModuloShift(a: int, q: int)
    ensures (a - q * TWO_TO_THE_32) % TWO_TO_THE_32 == a % TWO_TO_THE_32
  {
  }

  /** Multiplying by c and then by its inverse d modulo 2^32 changes nothing. */
  lemma InverseMultiply(x: uint32, c: nat, d: nat)
    requires (c == 9 && d == NINE_INVERSE) || (c == NINE_INVERSE && d == 9)
          || (c == MULTIPLIER && d == MULTIPLIER_INVERSE) || (c == MULTIPLIER_INVERSE && d == MULTIPLIER)
    ensures (x * c % TWO_TO_THE_32) * d % TWO_TO_THE_32 == x
  {
    var q := x * c / TWO_TO_THE_32;
    var t := if c == 9 || d == 9 then 2 else 656290121;
    assert c * d == t * TWO_TO_THE_32 + 1;
    assert (x * c % TWO_TO_THE_32) * d == x + (x * t - q * d) * TWO_TO_THE_32;
    ModuloShift(x, q * d - x * t);
  }

  function Unspread(h: uint32): uint32 {
    UnshiftFits(h, 15);
    Unshift(h, 15) * MULTIPLIER_INVERSE % TWO_TO_THE_32
  }

  lemma SpreadInverses(k3: uint32, h: uint32)
    ensures Unspread(Spread(k3)) == k3
    ensures Spread(Unspread(h)) == h
  {
    UnshiftShift(k3 * MULTIPLIER % TWO_TO_THE_32, 15);
    InverseMultiply(k3, MULTIPLIER, MULTIPLIER_INVERSE);
    UnshiftFits(h, 15);
    InverseMultiply(Unshift(h, 15), MULTIPLIER_INVERSE, MULTIPLIER);
    ShiftUnshift(h, 15);
  }

  function Unfolded(k3: uint32): uint32 {
    UnshiftFits(k3, 4);
    Unshift(k3, 4)
  }

  lemma FoldInverses(k2: uint32, k3: uint32)
    ensures Unfolded(Folded(k2)) == k2
    ensures Folded(Unfolded(k3)) == k3
  {
    UnshiftShift(k2, 4);
    ShiftUnshift(k3, 4);
  }

  function DividedByNine(k2: uint32): uint32 {
    k2 * NINE_INVERSE % TWO_TO_THE_32
  }

  lemma NineInverses(k1: uint32, k2: uint32)
    ensures DividedByNine(TimesNine(k1)) == k1
    ensures TimesNine(DividedByNine(k2)) == k2
  {
    TimesNineIsMultiplication(k1);
    InverseMultiply(k1, 9, NINE_INVERSE);
    TimesNineIsMultiplication(DividedByNine(k2));
    InverseMultiply(k2, NINE_INVERSE, 9);
  }

  function Unseeded(k1: uint32): uint32 {
    UnseededFits(k1);
    Unshift(Xor(k1, 61), 16)
  }

  lemma UnseededFits(k1: uint32)
    ensures Unshift(Xor(k1, 61), 16) < TWO_TO_THE_32
  {
    Pow2Values();
    XorBound(k1, 61, 32);
    UnshiftFits(Xor(k1, 61), 16);
  }

  lemma SeedInverses(key: uint32, k1: uint32)
    ensures Unseeded(Seeded(key)) == key
    ensures Seeded(Unseeded(k1)) == k1
  {
    SeededFits(key);
    XorCancel(XorShiftRight(key, 16), 61);
    UnshiftShift(key, 16);
    ShiftUnshift(Xor(k1, 61), 16);
    SeededFits(Unseeded(k1));
    XorCancel(k1, 61);
  }

  /** The mixing function run backwards. */
  function Unhash(h: uint32): uint32 {
    Unseeded(DividedByNine(Unfolded(Unspread(h))))
  }

  /** The mixing function is a bijection on the 32-bit words. */
  lemma HashIsBijection(key: uint32, h: uint32)
    ensures Unhash(Hash(key)) == key
    ensures Hash(Unhash(h)) == h
  {
    SeedInverses(key, DividedByNine(Unfolded(Unspread(h))));
    NineInverses(Seeded(key), Unfolded(Unspread(h)));
    FoldInverses(TimesNine(Seeded(key)), Unspread(h));
    SpreadInverses(Folded(TimesNine(Seeded(key))), h);
  }

  /** The keys that the table files in bucket b. */
  ghost function KeysOfBucket(b: nat): set<uint32> {
    set key: uint32 | 0 <= key < TWO_TO_THE_32 && HashBucket(key) == b
  }

  /** Every bucket is the image of exactly 2^26 of the 2^32 keys. */
  lemma BucketsAreEven(b: nat)
    requires b < BUCKETS
    ensures |KeysOfBucket(b)| == 0x400_0000
  {
    var keys := KeysOfBucket(b);
    var hashes := Residues(0x400_0000, b);
    assert hashes == Images(keys) by {
      forall h | h in hashes
        ensures h in Images(keys)
      {
        HashIsBijection(0, h);
        assert Unhash(h) in keys;
      }
    }
    ImagesCount(keys);
    ResidueCount(0x400_0000, b);
  }

  ghost function Images(keys: set<uint32>): set<uint32> {
    set key | key in keys :: Hash(key)
  }

  lemma {:induction false} ImagesCount(keys: set<uint32>)
    ensures |Images(keys)| == |keys|
  {
    if keys != {} {
      var key :| key in keys;
      ImagesCount(keys - {key});
      forall other | other in keys - {key}
        ensures Hash(other) != Hash(key)
      {
        HashIsBijection(key, 0);
        HashIsBijection(other, 0);
      }
      assert Images(keys) == Images(keys - {key}) + {Hash(key)};
    } else {
      assert Images(keys) == {};
    }
  }

  ghost function Residues(n: nat, b: nat): set<uint32> {
    set h: uint32 | 0 <= h < n * BUCKETS && h % BUCKETS == b
  }

  lemma OneMoreResidue(n: nat, b: nat)
    requires b < BUCKETS && (n + 1) * BUCKETS <= TWO_TO_THE_32
    ensures n * BUCKETS + b !in Residues(n, b)
    ensures Residues(n + 1, b) == Residues(n, b) + {n * BUCKETS + b}
  {
    forall h: uint32
      ensures h in Residues(n + 1, b) <==> h in Residues(n, b) || h == n * BUCKETS + b
    {
      assert h == h / BUCKETS * BUCKETS + h % BUCKETS;
    }
  }

  lemma {:induction false} ResidueCount(n: nat, b: nat)
    requires b < BUCKETS && n * BUCKETS <= TWO_TO_THE_32
    ensures |Residues(n, b)| == n
  {
    if n == 0 {
      assert Residues(0, b) == {};
    } else {
      ResidueCount(n - 1, b);
      OneMoreResidue(n - 1, b);
    }
  }
}
