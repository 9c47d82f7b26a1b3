/** The key under which a cache files an address (util/GlobalAddressHash.h), and
    when two blocks on the home are kept apart by it. */
module AddressKey {
  import opened Defs
  import opened Bits

  /** `std::hash` of an integer is taken to be the integer itself. */
  function KeyOf(sga: SendGlobalAddr): nat {
    Xor(sga.size, Xor(sga.ptr, sga.id * 2 % TWO_TO_THE_64))
  }

  /** Bit by bit the key is the exclusive-or of the size, the pointer, and the node id
      moved up by one place. */
  lemma KeyBits(sga: SendGlobalAddr, i: nat)
    ensures Bit(KeyOf(sga), i) <==>
      ((Bit(sga.size, i) != Bit(sga.ptr, i)) != (i > 0 && Bit(sga.id, i - 1)))
  {
    var moved := sga.id * 2 % TWO_TO_THE_64;
    assert moved == 2 * sga.id;
    BitOfDouble(sga.id, i);
    XorIsBitwise(sga.ptr, moved, i);
    XorIsBitwise(sga.size, Xor(sga.ptr, moved), i);
  }

  lemma BitOfDouble(x: nat, i: nat)
    ensures Bit(2 * x, i) <==> i > 0 && Bit(x, i - 1)
  {
    assert 2 * x / 2 == x;
  }

  /** The key a cache uses: it always sends with source id 0. */
  function Key(ga: GlobalAddress): nat {
    KeyOf(ga.Sendable(0))
  }

  /** The key fits the 64-bit word that holds it. */
  lemma KeyFits(sga: SendGlobalAddr)
    ensures KeyOf(sga) < TWO_TO_THE_64
  {
    Pow2Values();
    XorBound(sga.ptr, sga.id * 2 % TWO_TO_THE_64, 64);
    XorBound(sga.size, Xor(sga.ptr, sga.id * 2 % TWO_TO_THE_64), 64);
  }

  /** Whoever sends an address, and through however many conversions it goes, the
      receiver files and drops it under the key the sender uses. */
  lemma KeySurvivesTheWire(ga: GlobalAddress, src: uint16, d: Data)
    ensures ga.Sendable(src) == SendGlobalAddr(ga.size, ga.ptr, ga.id, src)
    ensures d.Sendable(src) == SendingData(d.size, d.data, SendGlobalAddr(d.ga.size, d.ga.ptr, d.ga.id, src))
    ensures ga.Sendable(src).Received() == ga
    ensures KeyOf(ga.Sendable(src)) == Key(ga)
    ensures d.Sendable(src).Received() == d
    ensures Key(d.Sendable(src).Received().ga) == Key(d.ga)
  {
  }

  /** Blocks of one home collide exactly when their pointers differ in the same
      digits as their sizes. */
  lemma KeyCollision(x: GlobalAddress, y: GlobalAddress)
    requires x.id == y.id
    ensures Key(x) == Key(y) <==> Xor(x.size, y.size) == Xor(x.ptr, y.ptr)
  {
    var h := x.id * 2 % TWO_TO_THE_64;
    XorRegroup(x.size, x.ptr, h);
    XorRegroup(y.size, y.ptr, h);
    if Key(x) == Key(y) {
      XorCancel(Xor(x.size, x.ptr), h);
      XorCancel(Xor(y.size, y.ptr), h);
      XorMove(x.size, x.ptr, y.size, y.ptr);
    }
    if Xor(x.size, y.size) == Xor(x.ptr, y.ptr) {
      XorMove(x.size, y.size, x.ptr, y.ptr);
    }
  }

  lemma XorRegroup(s: nat, p: nat, h: nat)
    ensures Xor(s, Xor(p, h)) == Xor(Xor(s, p), h)
  {
    XorAssoc(s, p, h);
  }

  /** In an equation of exclusive-ors the inner terms change sides. */
  lemma XorMove(a: nat, b: nat, c: nat, d: nat)
    requires Xor(a, b) == Xor(c, d)
    ensures Xor(a, c) == Xor(b, d)
  {
    calc {
      Xor(a, c);
      { XorCancel(a, b); }
      Xor(Xor(Xor(a, b), b), c);
      Xor(Xor(Xor(c, d), b), c);
      { XorComm(Xor(Xor(c, d), b), c); }
      Xor(c, Xor(Xor(c, d), b));
      { XorAssoc(c, d, b); }
      Xor(c, Xor(c, Xor(d, b)));
      { XorCancel(Xor(d, b), c); }
      Xor(d, b);
      { XorComm(d, b); }
      Xor(b, d);
    }
  }

  /** `Malloc` reserves the requested size and a directory cell. */
  predicate Disjoint(x: GlobalAddress, y: GlobalAddress) {
    x.ptr + x.size + SAVE_DATA_SIZE <= y.ptr || y.ptr + y.size + SAVE_DATA_SIZE <= x.ptr
  }

  predicate SameBracket(s: nat, t: nat, k: nat) {
    Pow2(k) <= s < Pow2(k + 1) && Pow2(k) <= t < Pow2(k + 1)
  }

  /** Disjoint blocks whose sizes lie in one power-of-two bracket, and disjoint
      blocks smaller than 32 bytes (which the cell in front of each block keeps
      apart), never share a key. */
  lemma KeySeparation(x: GlobalAddress, y: GlobalAddress, k: nat)
    requires x.id == y.id && Disjoint(x, y)
    requires SameBracket(x.size, y.size, k) || (x.size < 32 && y.size < 32)
    ensures Key(x) != Key(y)
  {
    KeyCollision(x, y);
    DistanceBound(x.ptr, y.ptr);
    if SameBracket(x.size, y.size, k) {
      SameBracketXor(x.size, y.size, k);
    } else {
      assert Pow2(5) == 32;
      XorBound(x.size, y.size, 5);
    }
  }

  /** Across brackets the key does not separate: two disjoint, 16-byte aligned
      blocks of 16 and 64 bytes under one key. */
  lemma CrossBracketCollision(x: GlobalAddress, y: GlobalAddress)
    requires x == GlobalAddress(16, 0x1000, PORT) && y == GlobalAddress(64, 0x1050, PORT)
    ensures Disjoint(x, y) && Key(x) == Key(y)
  {
    KeyCollision(x, y);
    SizesDiffer();
    PointersDiffer();
  }

  lemma SizesDiffer()
    ensures Xor(16, 64) == 80
  {
    XorZero(2);
    XorOfDoubles(1, 4, 5);
    XorOfDoubles(2, 8, 10);
    XorOfDoubles(4, 16, 20);
    XorOfDoubles(8, 32, 40);
  }

  lemma PointersDiffer()
    ensures Xor(0x1000, 0x1050) == 80
  {
    XorSelf(0x20);
    XorDigits(0x40, 0x41);
    XorOfDoubles(0x40, 0x41, 1);
    XorDigits(0x100, 0x105);
    XorOfDoubles(0x100, 0x105, 5);
    XorOfDoubles(0x200, 0x20A, 10);
    XorOfDoubles(0x400, 0x414, 20);
    XorOfDoubles(0x800, 0x828, 40);
  }

  lemma XorOfDoubles(x: nat, y: nat, z: nat)
    requires Xor(x, y) == z
    ensures Xor(2 * x, 2 * y) == 2 * z
  {
    DoubledDigits(2 * x, 2 * y, x, y);
  }

  lemma DoubledDigits(u: nat, v: nat, x: nat, y: nat)
    requires u / 2 == x && v / 2 == y && u % 2 == 0 && v % 2 == 0
    ensures Xor(u, v) == 2 * Xor(x, y)
  {
    if u != 0 || v != 0 {
      assert Xor(u, v) == 2 * Xor(u / 2, v / 2);
    }
  }

  /** No two addresses of the set share a cache key. */
  ghost predicate CollisionFree(addrs: set<GlobalAddress>) {
    forall x, y {:trigger Key(x), Key(y)} :: x in addrs && y in addrs && Key(x) == Key(y) ==> x == y
  }

  /** Live blocks of one home in one size bracket form a collision-free set. */
  lemma BracketIsCollisionFree(addrs: set<GlobalAddress>, k: nat)
    requires forall x, y :: x in addrs && y in addrs ==> x.id == y.id && SameBracket(x.size, y.size, k)
    requires forall x, y :: x in addrs && y in addrs && x != y ==> Disjoint(x, y)
    ensures CollisionFree(addrs)
  {
    forall x, y | x in addrs && y in addrs && x != y
      ensures Key(x) != Key(y)
    {
      KeySeparation(x, y, k);
    }
  }
}
