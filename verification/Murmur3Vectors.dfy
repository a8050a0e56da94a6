/** Known answers of the hash and of the buckets. Every step is checked on literal words: rotations and shifts
    as quotients and remainders, exclusive or on bit-vectors. */
module Murmur3Vectors {
  import opened Bits
  import opened Murmur3
  import opened Murmur3Collisions

  // ----------------------------------------------- exclusive or on bit-vectors

  function Nat(x: bv8): nat {
    x as nat
  }

  lemma HalfByte(x: bv8)
    ensures Nat(x) / 2 == Nat(x >> 1) && (Nat(x) % 2 == 0 <==> x & 1 == 0)
    ensures Nat(x) < 256 && (x == 0 <==> Nat(x) == 0)
  {}

  lemma LowBit(x: bv8)
    ensures x & 1 == 0 || x & 1 == 1
  {}

  lemma XorHalves(x: bv8, y: bv8)
    ensures (x ^ y) >> 1 == (x >> 1) ^ (y >> 1)
    ensures (x ^ y) & 1 == 0 <==> x & 1 == y & 1
  {}

  lemma XorUnfolds(a: nat, b: nat)
    ensures Xor(a, b) == 2 * Xor(a / 2, b / 2) + if a % 2 == b % 2 then 0 else 1
  {}

  lemma {:induction false} XorOfBytes(x: bv8, y: bv8)
    ensures Xor(Nat(x), Nat(y)) == Nat(x ^ y)
    decreases Nat(x) + Nat(y)
  {
    hide Xor, Nat;
    HalfByte(x);
    HalfByte(y);
    HalfByte(x ^ y);
    if x == 0 && y == 0 {
      XorZero(0);
    } else {
      LowBit(x);
      LowBit(y);
      XorHalves(x, y);
      XorOfBytes(x >> 1, y >> 1);
      XorUnfolds(Nat(x), Nat(y));
    }
  }

  /** Exclusive or works on the high and the low part by themselves. */
  lemma {:induction false} XorJoin(a: nat, x: nat, b: nat, y: nat, k: nat)
    requires x < Shl(1, k) && y < Shl(1, k)
    ensures Xor(Shl(a, k) + x, Shl(b, k) + y) == Shl(Xor(a, b), k) + Xor(x, y)
    decreases k
  {
    hide Xor;
    if k == 0 {
      XorZero(0);
    } else {
      XorJoin(a, x / 2, b, y / 2, k - 1);
      XorUnfolds(Shl(a, k) + x, Shl(b, k) + y);
      XorUnfolds(x, y);
    }
  }

  function ByteOf(b: bv32, i: bv6): bv8
    requires i <= 24
  {
    ((b >> i) & 0xff) as bv8
  }

  /** The number a bit-vector stands for, from its four bytes. */
  function Value(b: bv32): Word {
    var d3, d2, d1, d0 := Nat(ByteOf(b, 24)), Nat(ByteOf(b, 16)), Nat(ByteOf(b, 8)), Nat(ByteOf(b, 0));
    256 * (256 * (256 * d3 + d2) + d1) + d0
  }

  lemma ByteOfXor(a: bv32, b: bv32, i: bv6)
    requires i <= 24
    ensures ByteOf(a ^ b, i) == ByteOf(a, i) ^ ByteOf(b, i)
  {}

  lemma XorByte(a: bv32, b: bv32, i: bv6)
    requires i <= 24
    ensures Xor(Nat(ByteOf(a, i)), Nat(ByteOf(b, i))) == Nat(ByteOf(a ^ b, i))
    ensures Nat(ByteOf(a, i)) < 256 && Nat(ByteOf(b, i)) < 256
  {
    hide *;
    var x, y := ByteOf(a, i), ByteOf(b, i);
    ByteOfXor(a, b, i);
    HalfByte(x);
    HalfByte(y);
    XorOfBytes(x, y);
  }

  lemma AppendByte(a: nat, x: nat, b: nat, y: nat)
    requires x < 256 && y < 256
    ensures Xor(256 * a + x, 256 * b + y) == 256 * Xor(a, b) + Xor(x, y)
  {
    hide Xor, Shl;
    ShlEight(1);
    ShlEight(a);
    ShlEight(b);
    ShlEight(Xor(a, b));
    XorJoin(a, x, b, y, 8);
  }

  lemma XorOfValues(a: bv32, b: bv32)
    ensures Xor(Value(a), Value(b)) == Value(a ^ b)
  {
    hide Xor, Nat, ByteOf;
    XorByte(a, b, 24);
    XorByte(a, b, 16);
    XorByte(a, b, 8);
    XorByte(a, b, 0);
    var a1 := 256 * Nat(ByteOf(a, 24)) + Nat(ByteOf(a, 16));
    var b1 := 256 * Nat(ByteOf(b, 24)) + Nat(ByteOf(b, 16));
    AppendByte(Nat(ByteOf(a, 24)), Nat(ByteOf(a, 16)), Nat(ByteOf(b, 24)), Nat(ByteOf(b, 16)));
    AppendByte(a1, Nat(ByteOf(a, 8)), b1, Nat(ByteOf(b, 8)));
    AppendByte(256 * a1 + Nat(ByteOf(a, 8)), Nat(ByteOf(a, 0)), 256 * b1 + Nat(ByteOf(b, 8)), Nat(ByteOf(b, 0)));
  }

  /** The exclusive or of two numbers, read off bit-vectors that stand for them. */
  lemma XorIs(x: bv32, y: bv32, a: Word, b: Word, c: Word)
    requires Value(x) == a && Value(y) == b && Value(x ^ y) == c
    ensures XorW(a, b) == c
  {
    hide Xor, Value;
    XorOfValues(x, y);
  }

  // --------------------------------------------------- shifts and rotations as quotients

  lemma AtLeastOnce(k: int, d: nat, p: int)
    requires k >= 1 && p == k * d
    ensures p >= d
  {
    assert p == (k - 1) * d + d;
  }

  lemma QuotientIs(a: nat, d: nat, q: nat, r: nat)
    requires d > 0 && a == q * d + r && r < d
    ensures a / d == q && a % d == r
  {
    var q', r' := a / d, a % d;
    assert a == q' * d + r';
    var gap := (q - q') * d;
    assert gap == r' - r;
    if q > q' {
      AtLeastOnce(q - q', d, gap);
    } else if q < q' {
      AtLeastOnce(q' - q, d, -gap);
    }
  }

  lemma {:induction false} ShlIsProduct(a: nat, k: nat)
    ensures Shl(a, k) == a * Shl(1, k)
  {
    if k != 0 {
      ShlIsProduct(a, k - 1);
      assert 2 * (a * Shl(1, k - 1)) == a * (2 * Shl(1, k - 1));
    }
  }

  /** The high part and the low k bits, for d = 2^k. */
  lemma PartsAre(a: nat, k: nat, d: nat)
    requires d == Shl(1, k)
    ensures d > 0 && Shr(a, k) == a / d && Low(a, k) == a % d
  {
    hide Shl, Shr, Low;
    Split(a, k);
    ShlPositive(k);
    ShlIsProduct(Shr(a, k), k);
    QuotientIs(a, d, Shr(a, k), Low(a, k));
  }

  lemma Powers()
    ensures Shl(1, 13) == 8192 && Shl(1, 15) == 32768 && Shl(1, 16) == 65536
    ensures Shl(1, 17) == 131072 && Shl(1, 19) == 524288
  {
    ShlBytes(1);
    assert Shl(1, 13) == 2 * Shl(1, 12) == 4 * Shl(1, 11) == 8 * Shl(1, 10) == 16 * Shl(1, 9) == 32 * Shl(1, 8);
    assert Shl(1, 15) == 2 * Shl(1, 14) == 4 * Shl(1, 13);
    assert Shl(1, 19) == 2 * Shl(1, 18) == 4 * Shl(1, 17) == 8 * Shl(1, 16);
  }

  lemma Rotations(x: Word)
    ensures Rotl(x, 15) == x % 131072 * 32768 + x / 131072
    ensures Rotl(x, 13) == x % 524288 * 8192 + x / 524288
    ensures Shr(x, 16) == x / 65536 && Shr(x, 13) == x / 8192
  {
    hide Shl, Shr, Low;
    Powers();
    PartsAre(x, 17, 131072);
    PartsAre(x, 19, 524288);
    PartsAre(x, 16, 65536);
    PartsAre(x, 13, 8192);
    ShlIsProduct(Low(x, 17), 15);
    ShlIsProduct(Low(x, 19), 13);
  }

  // -------------------------------------------------------------- checking whole steps

  /** k, through the product m and its rotation r, mixes to y. */
  lemma MixedIs(k: Word, m: Word, r: Word, y: Word)
    requires m == k * 0xcc9e2d51 % 0x100000000 && y == r * 0x1b873593 % 0x100000000
    requires r == m % 131072 * 32768 + m / 131072
    ensures MixBlock(k) == y
  {
    hide Rotl;
    Rotations(m);
  }

  /** The state h and the mixed block y give, through x and its rotation r, the state h'. */
  lemma BodyIs(data: seq<Byte>, seed: Word, i: nat, h: Word, k: Word, y: Word, x: Word, r: Word, h': Word)
    requires 4 * i + 4 <= |data| && Body(data, seed, i) == h && Block(data, i) == k
    requires MixBlock(k) == y && XorW(h, y) == x
    requires r == x % 524288 * 8192 + x / 524288 && h' == (r * 5 + 0xe6546b64) % 0x100000000
    ensures Body(data, seed, i + 1) == h'
  {
    hide Rotl, XorW, MixBlock, Block;
    Rotations(x);
  }

  lemma TailIs(data: seq<Byte>, h: Word, k: Word, y: Word, t: Word)
    requires |data| % 4 > 0 && TailWord(Tail(data)) == k && MixBlock(k) == y && XorW(h, y) == t
    ensures WithTail(h, Tail(data)) == t
  {
    hide XorW, MixBlock, TailWord;
  }

  /** The finaliser takes h, through s, m, s' and m', to y; q, q' and q'' are the shifted words. */
  lemma FinishedIs(h: Word, q: Word, s: Word, m: Word, q': Word, s': Word, m': Word, q'': Word, y: Word)
    requires q == h / 65536 && q' == m / 8192 && q'' == m' / 65536
    requires XorW(h, q) == s && XorW(m, q') == s' && XorW(m', q'') == y
    requires m == s * 0x85ebca6b % 0x100000000 && m' == s' * 0xc2b2ae35 % 0x100000000
    ensures Fmix32(h) == y
  {
    hide XorW, Shr, Rotl;
    Rotations(h);
    Rotations(m);
    Rotations(m');
  }

  /** The hash from the state after the body, the state after the tail, and the length. */
  lemma HashIs(data: seq<Byte>, seed: Word, h: Word, t: Word, n: Word, f: Word, y: Word)
    requires Body(data, seed, |data| / 4) == h && WithTail(h, Tail(data)) == t
    requires n == |data| && XorW(t, n) == f && Fmix32(f) == y
    ensures Hash(data, seed) == y
  {
    hide XorW, Fmix32, Body, Tail, WithTail;
  }


  /** The bytes of a text of one-byte characters. */
  function Ascii(s: string): (b: seq<Byte>)
    requires forall i :: 0 <= i < |s| ==> s[i] as nat < 128
    ensures |b| == |s| && forall i :: 0 <= i < |s| ==> b[i] == s[i] as nat
  {
    seq(|s|, i requires 0 <= i < |s| => s[i] as nat)
  }

  // ------------------------------------------------------------------ known answers

  lemma EmptyWords()
    ensures XorW(0x00000000, 0x00000000) == 0x00000000 && XorW(0x00000001, 0x00000000) == 0x00000001
    ensures XorW(0x85ebca6b, 0x00042f5e) == 0x85efe535 && XorW(0x514e79f9, 0x0000514e) == 0x514e28b7
  {
    hide XorW, MixBlock;
    XorIs(0x00000000, 0x00000000, 0x00000000, 0x00000000, 0x00000000);
    XorIs(0x00000001, 0x00000000, 0x00000001, 0x00000000, 0x00000001);
    XorIs(0x85ebca6b, 0x00042f5e, 0x85ebca6b, 0x00042f5e, 0x85efe535);
    XorIs(0x514e79f9, 0x0000514e, 0x514e79f9, 0x0000514e, 0x514e28b7);
  }

  lemma NoTail(data: seq<Byte>, h: Word)
    requires |data| % 4 == 0
    ensures WithTail(h, Tail(data)) == h
  {}

  lemma EmptyParts(data: seq<Byte>, seed: Word)
    requires data == []
    ensures Body(data, seed, |data| / 4) == seed
  {}

  /** No bytes at all: the finaliser alone. */
  lemma EmptyInput()
    ensures Hash([], 0) == 0 && Hash([], 1) == 0x514e28b7
  {
    hide Hash, Fmix32, MixBlock, MixState, XorW, WithTail, Shr, Body, Tail, TailWord, Block;
    EmptyWords();
    EmptyParts([], 0);
    EmptyParts([], 1);
    NoTail([], 0);
    NoTail([], 1);
    FinishedIs(0x00000000, 0x00000000, 0x00000000, 0x00000000, 0x00000000,
      0x00000000, 0x00000000, 0x00000000, 0x00000000);
    HashIs([], 0, 0x00000000, 0x00000000, 0x00000000, 0x00000000, 0x00000000);
    FinishedIs(0x00000001, 0x00000000, 0x00000001, 0x85ebca6b, 0x00042f5e,
      0x85efe535, 0x514e79f9, 0x0000514e, 0x514e28b7);
    HashIs([], 1, 0x00000001, 0x00000001, 0x00000000, 0x00000001, 0x514e28b7);
  }

  lemma ZeroWords()
    ensures XorW(0x00000000, 0x00000000) == 0x00000000 && XorW(0xe6546b64, 0x00000004) == 0xe6546b60
    ensures XorW(0xe6546b60, 0x0000e654) == 0xe6548d34 && XorW(0x9f7e0cbc, 0x0004fbf0) == 0x9f7af74c
    ensures XorW(0x2362dabc, 0x00002362) == 0x2362f9de
    ensures MixBlock(0x00000000) == 0x00000000
  {
    hide XorW, MixBlock;
    XorIs(0x00000000, 0x00000000, 0x00000000, 0x00000000, 0x00000000);
    XorIs(0xe6546b64, 0x00000004, 0xe6546b64, 0x00000004, 0xe6546b60);
    XorIs(0xe6546b60, 0x0000e654, 0xe6546b60, 0x0000e654, 0xe6548d34);
    XorIs(0x9f7e0cbc, 0x0004fbf0, 0x9f7e0cbc, 0x0004fbf0, 0x9f7af74c);
    XorIs(0x2362dabc, 0x00002362, 0x2362dabc, 0x00002362, 0x2362f9de);
    MixedIs(0x00000000, 0x00000000, 0x00000000, 0x00000000);
  }

  lemma ZeroParts(data: seq<Byte>)
    requires |data| == 4 && forall i :: 0 <= i < 4 ==> data[i] == 0
    ensures Block(data, 0) == 0 && Body(data, 0, 0) == 0
  {}

  /** One zero block, which leaves only the constant of the step. */
  lemma ZeroBlock()
    ensures Hash([0, 0, 0, 0], 0) == 0x2362f9de
  {
    hide Hash, Fmix32, MixBlock, MixState, XorW, WithTail, Shr, Body, Tail, TailWord, Block;
    var data: seq<Byte> := [0, 0, 0, 0];
    ZeroWords();
    ZeroParts(data);
    NoTail(data, 0xe6546b64);
    BodyIs(data, 0, 0, 0x00000000, 0x00000000, 0x00000000, 0x00000000, 0x00000000, 0xe6546b64);
    FinishedIs(0xe6546b60, 0x0000e654, 0xe6548d34, 0x9f7e0cbc, 0x0004fbf0,
      0x9f7af74c, 0x2362dabc, 0x00002362, 0x2362f9de);
    HashIs(data, 0, 0xe6546b64, 0xe6546b64, 0x00000004, 0xe6546b60, 0x2362f9de);
  }

  lemma HelloWords()
    ensures XorW(0x00000000, 0xa0ae7465) == 0xa0ae7465 && XorW(0xef13efcd, 0x73bcd07e) == 0x9caf3fb3
    ensures XorW(0x9caf3fb3, 0x00000005) == 0x9caf3fb6 && XorW(0x9caf3fb6, 0x00009caf) == 0x9cafa319
    ensures XorW(0xc90de573, 0x0006486f) == 0xc90bad1c && XorW(0x248bdecc, 0x0000248b) == 0x248bfa47
    ensures XorW(0x00000001, 0xa0ae7465) == 0xa0ae7464 && XorW(0xef134fcd, 0x73bcd07e) == 0x9caf9fb3
    ensures XorW(0x9caf9fb3, 0x00000005) == 0x9caf9fb6 && XorW(0x9caf9fb6, 0x00009caf) == 0x9caf0319
    ensures XorW(0x6a8b0573, 0x00035458) == 0x6a88512b && XorW(0xbb4a07e7, 0x0000bb4a) == 0xbb4abcad
    ensures MixBlock(0x6c6c6568) == 0xa0ae7465 && MixBlock(0x0000006f) == 0x73bcd07e
  {
    hide XorW, MixBlock;
    XorIs(0x00000000, 0xa0ae7465, 0x00000000, 0xa0ae7465, 0xa0ae7465);
    XorIs(0xef13efcd, 0x73bcd07e, 0xef13efcd, 0x73bcd07e, 0x9caf3fb3);
    XorIs(0x9caf3fb3, 0x00000005, 0x9caf3fb3, 0x00000005, 0x9caf3fb6);
    XorIs(0x9caf3fb6, 0x00009caf, 0x9caf3fb6, 0x00009caf, 0x9cafa319);
    XorIs(0xc90de573, 0x0006486f, 0xc90de573, 0x0006486f, 0xc90bad1c);
    XorIs(0x248bdecc, 0x0000248b, 0x248bdecc, 0x0000248b, 0x248bfa47);
    XorIs(0x00000001, 0xa0ae7465, 0x00000001, 0xa0ae7465, 0xa0ae7464);
    XorIs(0xef134fcd, 0x73bcd07e, 0xef134fcd, 0x73bcd07e, 0x9caf9fb3);
    XorIs(0x9caf9fb3, 0x00000005, 0x9caf9fb3, 0x00000005, 0x9caf9fb6);
    XorIs(0x9caf9fb6, 0x00009caf, 0x9caf9fb6, 0x00009caf, 0x9caf0319);
    XorIs(0x6a8b0573, 0x00035458, 0x6a8b0573, 0x00035458, 0x6a88512b);
    XorIs(0xbb4a07e7, 0x0000bb4a, 0xbb4a07e7, 0x0000bb4a, 0xbb4abcad);
    MixedIs(0x6c6c6568, 0xd24f5de8, 0xaef46927, 0xa0ae7465);
    MixedIs(0x0000006f, 0xb895a61f, 0xd30fdc4a, 0x73bcd07e);
  }

  lemma HelloParts(data: seq<Byte>, seed: Word)
    requires data == Ascii("hello")
    ensures |data| == 5 && Block(data, 0) == 0x6c6c6568 && TailWord(Tail(data)) == 0x0000006f
    ensures Body(data, seed, 0) == seed
  {}

  /** A block and a tail of one byte, under both seeds. */
  lemma Hello()
    ensures Hash(Ascii("hello"), 0) == 0x248bfa47 && Hash(Ascii("hello"), 1) == 0xbb4abcad
  {
    hide Hash, Fmix32, MixBlock, MixState, XorW, WithTail, Shr, Body, Tail, TailWord, Block;
    var data := Ascii("hello");
    HelloWords();
    HelloParts(data, 0);
    HelloParts(data, 1);
    BodyIs(data, 0, 0, 0x00000000, 0x6c6c6568, 0xa0ae7465, 0xa0ae7465, 0xce8cb415, 0xef13efcd);
    TailIs(data, 0xef13efcd, 0x0000006f, 0x73bcd07e, 0x9caf3fb3);
    FinishedIs(0x9caf3fb6, 0x00009caf, 0x9cafa319, 0xc90de573, 0x0006486f,
      0xc90bad1c, 0x248bdecc, 0x0000248b, 0x248bfa47);
    HashIs(data, 0, 0xef13efcd, 0x9caf3fb3, 0x00000005, 0x9caf3fb6, 0x248bfa47);
    BodyIs(data, 1, 0, 0x00000001, 0x6c6c6568, 0xa0ae7465, 0xa0ae7464, 0xce8c9415, 0xef134fcd);
    TailIs(data, 0xef134fcd, 0x0000006f, 0x73bcd07e, 0x9caf9fb3);
    FinishedIs(0x9caf9fb6, 0x00009caf, 0x9caf0319, 0x6a8b0573, 0x00035458,
      0x6a88512b, 0xbb4a07e7, 0x0000bb4a, 0xbb4abcad);
    HashIs(data, 1, 0xef134fcd, 0x9caf9fb3, 0x00000005, 0x9caf9fb6, 0xbb4abcad);
  }

  const FIRST_KEY: seq<Byte> := [
      117, 115, 101, 114, 95, 48, 48, 48, 48, 48, 48, 0, 101, 120, 112, 101, 114, 105, 109, 101, 110, 116, 95,
      100, 101, 102, 97, 117, 108, 116, 95, 115, 97, 108, 116]

  lemma FirstVectorParts()
    ensures Block(FIRST_KEY, 0) == 0x72657375 && Block(FIRST_KEY, 1) == 0x3030305f
    ensures Block(FIRST_KEY, 2) == 0x00303030
  {}

  lemma MiddleVectorParts()
    ensures Block(FIRST_KEY, 3) == 0x65707865 && Block(FIRST_KEY, 4) == 0x656d6972
    ensures Block(FIRST_KEY, 5) == 0x645f746e
  {}

  lemma LastVectorParts()
    ensures Block(FIRST_KEY, 6) == 0x75616665 && Block(FIRST_KEY, 7) == 0x735f746c
  {}

  lemma FirstVectorTail()
    ensures |FIRST_KEY| == 35 && TailWord(Tail(FIRST_KEY)) == 0x00746c61 && Body(FIRST_KEY, 0, 0) == 0
  {
    var tail := Tail(FIRST_KEY);
    assert tail[0] == 97 && tail[1] == 108 && tail[2] == 116;
  }

  lemma FirstVectorFirstWords()
    ensures XorW(0x00000000, 0x1a854cb7) == 0x1a854cb7 && XorW(0x3646dbf4, 0x9c82da23) == 0xaac401d7
    ensures XorW(0x677b361c, 0x8368af31) == 0xe413992d && XorW(0x261119ee, 0x17b3d3be) == 0x31a2ca50
    ensures MixBlock(0x72657375) == 0x1a854cb7 && MixBlock(0x3030305f) == 0x9c82da23
    ensures MixBlock(0x00303030) == 0x8368af31 && MixBlock(0x65707865) == 0x17b3d3be
  {
    hide XorW, MixBlock;
    XorIs(0x00000000, 0x1a854cb7, 0x00000000, 0x1a854cb7, 0x1a854cb7);
    XorIs(0x3646dbf4, 0x9c82da23, 0x3646dbf4, 0x9c82da23, 0xaac401d7);
    XorIs(0x677b361c, 0x8368af31, 0x677b361c, 0x8368af31, 0xe413992d);
    XorIs(0x261119ee, 0x17b3d3be, 0x261119ee, 0x17b3d3be, 0x31a2ca50);
    MixedIs(0x72657375, 0x859b1905, 0x8c82c2cd, 0x1a854cb7);
    MixedIs(0x3030305f, 0x4662010f, 0x0087a331, 0x9c82da23);
    MixedIs(0x00303030, 0x8557af30, 0xd79842ab, 0x8368af31);
    MixedIs(0x65707865, 0xa815d8f5, 0xec7ad40a, 0x17b3d3be);
  }

  lemma FirstVectorLastWords()
    ensures XorW(0xa4c68a68, 0x951730d3) == 0x31d1babb && XorW(0xfb096a86, 0x41811745) == 0xba887dc3
    ensures XorW(0x34eebff9, 0xbb982b69) == 0x8f769490 && XorW(0x032ec50a, 0x461fb90b) == 0x45317c01
    ensures MixBlock(0x656d6972) == 0x951730d3 && MixBlock(0x645f746e) == 0x41811745
    ensures MixBlock(0x75616665) == 0xbb982b69 && MixBlock(0x735f746c) == 0x461fb90b
  {
    hide XorW, MixBlock;
    XorIs(0xa4c68a68, 0x951730d3, 0xa4c68a68, 0x951730d3, 0x31d1babb);
    XorIs(0xfb096a86, 0x41811745, 0xfb096a86, 0x41811745, 0xba887dc3);
    XorIs(0x34eebff9, 0xbb982b69, 0x34eebff9, 0xbb982b69, 0x8f769490);
    XorIs(0x032ec50a, 0x461fb90b, 0x032ec50a, 0x461fb90b, 0x45317c01);
    MixedIs(0x656d6972, 0x3f836712, 0xb3891fc1, 0x951730d3);
    MixedIs(0x645f746e, 0x0d8f2cce, 0x966706c7, 0x41811745);
    MixedIs(0x75616665, 0xf12726f5, 0x937af893, 0xbb982b69);
    MixedIs(0x735f746c, 0x3352d22c, 0x691619a9, 0x461fb90b);
  }

  lemma FirstVectorBody()
    ensures Body(FIRST_KEY, 0, 8) == 0xd3d536a2
  {
    hide Hash, MixBlock, MixState, XorW, Block, Body, Tail;
    FirstVectorParts();
    MiddleVectorParts();
    LastVectorParts();
    FirstVectorFirstWords();
    FirstVectorLastWords();
    FirstVectorTail();
    BodyIs(FIRST_KEY, 0, 0, 0x00000000, 0x72657375, 0x1a854cb7, 0x1a854cb7, 0xa996e350, 0x3646dbf4);
    BodyIs(FIRST_KEY, 0, 1, 0x3646dbf4, 0x3030305f, 0x9c82da23, 0xaac401d7, 0x803af558, 0x677b361c);
    BodyIs(FIRST_KEY, 0, 2, 0x677b361c, 0x00303030, 0x8368af31, 0xe413992d, 0x7325bc82, 0x261119ee);
    BodyIs(FIRST_KEY, 0, 3, 0x261119ee, 0x65707865, 0x17b3d3be, 0x31a2ca50, 0x594a0634, 0xa4c68a68);
    BodyIs(FIRST_KEY, 0, 4, 0xa4c68a68, 0x656d6972, 0x951730d3, 0x31d1babb, 0x3757663a, 0xfb096a86);
    BodyIs(FIRST_KEY, 0, 5, 0xfb096a86, 0x645f746e, 0x41811745, 0xba887dc3, 0x0fb87751, 0x34eebff9);
    BodyIs(FIRST_KEY, 0, 6, 0x34eebff9, 0x75616665, 0xbb982b69, 0x8f769490, 0xd29211ee, 0x032ec50a);
    BodyIs(FIRST_KEY, 0, 7, 0x032ec50a, 0x735f746c, 0x461fb90b, 0x45317c01, 0x2f8028a6, 0xd3d536a2);
  }

  lemma FirstVectorHash()
    ensures Hash(FIRST_KEY, 0) == 0xd5121c59
  {
    hide Hash, Fmix32, MixBlock, MixState, XorW, WithTail, Shr, Body, Tail, TailWord, Block;
    FirstVectorBody();
    FirstVectorTail();
    FirstVectorEndWords();
    TailIs(FIRST_KEY, 0xd3d536a2, 0x00746c61, 0x6e435fa0, 0xbd966902);
    FinishedIs(0xbd966921, 0x0000bd96, 0xbd96d4b7, 0x98e04e7d, 0x0004c702,
      0x98e4897f, 0xd512c94b, 0x0000d512, 0xd5121c59);
    HashIs(FIRST_KEY, 0, 0xd3d536a2, 0xbd966902, 0x00000023, 0xbd966921, 0xd5121c59);
  }

  lemma FirstVectorEndWords()
    ensures XorW(0xd3d536a2, 0x6e435fa0) == 0xbd966902 && XorW(0xbd966902, 0x00000023) == 0xbd966921
    ensures XorW(0xbd966921, 0x0000bd96) == 0xbd96d4b7 && XorW(0x98e04e7d, 0x0004c702) == 0x98e4897f
    ensures XorW(0xd512c94b, 0x0000d512) == 0xd5121c59 && MixBlock(0x00746c61) == 0x6e435fa0
  {
    hide XorW, MixBlock;
    XorIs(0xd3d536a2, 0x6e435fa0, 0xd3d536a2, 0x6e435fa0, 0xbd966902);
    XorIs(0xbd966902, 0x00000023, 0xbd966902, 0x00000023, 0xbd966921);
    XorIs(0xbd966921, 0x0000bd96, 0xbd966921, 0x0000bd96, 0xbd96d4b7);
    XorIs(0x98e04e7d, 0x0004c702, 0x98e04e7d, 0x0004c702, 0x98e4897f);
    XorIs(0xd512c94b, 0x0000d512, 0xd512c94b, 0x0000d512, 0xd5121c59);
    MixedIs(0x00746c61, 0xcbc157b1, 0xabd8e5e0, 0x6e435fa0);
  }

  lemma UserBytes()
    ensures Ascii("user_000000") == [117, 115, 101, 114, 95, 48, 48, 48, 48, 48, 48]
  {}

  lemma SaltBytes()
    ensures Ascii("experiment_default_salt") == [
      101, 120, 112, 101, 114, 105, 109, 101, 110, 116, 95, 100, 101, 102, 97, 117, 108, 116, 95, 115, 97, 108, 116]
  {}

  lemma JoinedBytes()
    ensures [117, 115, 101, 114, 95, 48, 48, 48, 48, 48, 48] + [0] + [
      101, 120, 112, 101, 114, 105, 109, 101, 110, 116, 95, 100, 101, 102, 97, 117, 108, 116, 95, 115, 97, 108, 116]
      == FIRST_KEY
  {}

  /** Eight blocks and a tail of three bytes: the first entry of the shared vector file. */
  lemma FirstVector()
    ensures Bucket(Ascii("user_000000"), Ascii("experiment_default_salt"), 10000) == 3913
  {
    hide Hash, Ascii, FIRST_KEY;
    UserBytes();
    SaltBytes();
    JoinedBytes();
    FirstVectorHash();
  }
}
