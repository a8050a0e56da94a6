/** Every building block of the hash has an inverse, so inputs that differ in one place only cannot
    collide. */
module Murmur3Collisions {
  import opened Bits
  import opened Murmur3

  const C1_INVERSE: nat := 0xdee13bb1
  const C2_INVERSE: nat := 0x56ed309b
  const FIVE_INVERSE: nat := 0xcccccccd
  const F1_INVERSE: nat := 0xa5cb9243
  const F2_INVERSE: nat := 0x7ed1b41d

  // ------------------------------------------------------------ inverse pieces

  /** Multiplying by c and then by its inverse modulo 2^32 gives the word back. */
  lemma MulUndone(x: Word, c: nat, i: nat, k: nat)
    requires c * i == k * WORD + 1
    ensures Mul(Mul(x, c), i) == x
  {
    var q, r := x * c / WORD, x * c % WORD;
    assert x * c == q * WORD + r;
    assert r * i == x * c * i - q * WORD * i;
    assert x * c * i == x * (c * i) == x * (k * WORD + 1);
    assert x * (k * WORD + 1) == x * k * WORD + x;
    assert q * WORD * i == q * i * WORD;
    MultiplesVanish(r * i, x * k - q * i, x);
  }

  lemma MultiplesVanish(a: nat, k: int, x: Word)
    requires a == k * WORD + x
    ensures a % WORD == x
  {
  }

  lemma InverseProducts()
    ensures C1 * C1_INVERSE == C1 * C1_INVERSE / WORD * WORD + 1
    ensures C2 * C2_INVERSE == C2 * C2_INVERSE / WORD * WORD + 1
    ensures 5 * FIVE_INVERSE == 5 * FIVE_INVERSE / WORD * WORD + 1
    ensures F1 * F1_INVERSE == F1 * F1_INVERSE / WORD * WORD + 1
    ensures F2 * F2_INVERSE == F2 * F2_INVERSE / WORD * WORD + 1
  {
  }

  lemma MulInverses(x: Word)
    ensures Mul(Mul(x, C1), C1_INVERSE) == x && Mul(Mul(x, C1_INVERSE), C1) == x
    ensures Mul(Mul(x, C2), C2_INVERSE) == x && Mul(Mul(x, C2_INVERSE), C2) == x
    ensures Mul(Mul(x, F1), F1_INVERSE) == x && Mul(Mul(x, F1_INVERSE), F1) == x
    ensures Mul(Mul(x, F2), F2_INVERSE) == x && Mul(Mul(x, F2_INVERSE), F2) == x
  {
    hide Mul;
    InverseProducts();
    MulUndone(x, C1, C1_INVERSE, C1 * C1_INVERSE / WORD);
    MulUndone(x, C1_INVERSE, C1, C1 * C1_INVERSE / WORD);
    MulUndone(x, C2, C2_INVERSE, C2 * C2_INVERSE / WORD);
    MulUndone(x, C2_INVERSE, C2, C2 * C2_INVERSE / WORD);
    MulUndone(x, F1, F1_INVERSE, F1 * F1_INVERSE / WORD);
    MulUndone(x, F1_INVERSE, F1, F1 * F1_INVERSE / WORD);
    MulUndone(x, F2, F2_INVERSE, F2 * F2_INVERSE / WORD);
    MulUndone(x, F2_INVERSE, F2, F2 * F2_INVERSE / WORD);
  }

  lemma RotlUndone(x: Word, r: nat)
    requires 0 < r < 32
    ensures Rotl(Rotl(x, r), 32 - r) == x
  {
    RotlBound(x, r);
    var low, high := Low(x, 32 - r), Shr(x, 32 - r);
    Join(low, high, 0, r);
    Split(x, 32 - r);
    assert 32 - (32 - r) == r;
  }

  lemma XorWUndone(h: Word, k: Word)
    ensures XorW(XorW(h, k), k) == h && XorW(h, XorW(h, k)) == k
  {
    XorUndoes(h, k);
    XorUndoes(k, h);
    XorCommutes(h, k);
    XorCommutes(h, Xor(h, k));
  }

  /** h ^ (h >> 16) is its own inverse. */
  lemma XorShift16Undone(h: Word)
    ensures XorShifted(XorShifted(h, 16), 16) == h
  {
    WordSize();
    ShrShr(h, 16, 16);
    ShrZero(h, 32);
    XorShr(h, Shr(h, 16), 16);
    XorZero(Shr(h, 16));
    XorUndoes(h, Shr(h, 16));
  }

  function UnXorShift13(y: Word): Word {
    ShrSmaller(y, 13);
    ShrSmaller(y, 26);
    XorW(y, XorW(Shr(y, 13), Shr(y, 26)))
  }

  /** y ^ (y >> 13) ^ (y >> 26) undoes h ^ (h >> 13). */
  lemma XorShift13Undone(h: Word)
    ensures UnXorShift13(XorShifted(h, 13)) == h
  {
    hide Xor, Shr;
    WordSize();
    ShrSmaller(h, 13);
    ShrSmaller(h, 26);
    var a, b := Shr(h, 13), Shr(h, 26);
    var y := XorShifted(h, 13);
    ShrShr(h, 13, 13);
    XorShr(h, a, 13);
    assert Shr(y, 13) == Xor(a, b);
    ShrShr(h, 13, 26);
    ShrShr(h, 26, 13);
    ShrShr(h, 32, 7);
    ShrZero(h, 32);
    ShrOfZero(7);
    XorShr(h, a, 26);
    XorZero(b);
    assert Shr(y, 26) == b;
    XorUndoes(a, b);
    XorUndoes(h, a);
  }

  /** The same two maps in the other order. */
  lemma UnXorShift13Undone(y: Word)
    ensures XorShifted(UnXorShift13(y), 13) == y
  {
    hide Xor, Shr;
    WordSize();
    ShrSmaller(y, 13);
    ShrSmaller(y, 26);
    var a, b := Shr(y, 13), Shr(y, 26);
    var k := Xor(a, b);
    var h := UnXorShift13(y);
    assert h == Xor(y, k);
    XorShr(y, k, 13);
    XorShr(a, b, 13);
    ShrShr(y, 13, 13);
    ShrShr(y, 26, 13);
    ShrShr(y, 32, 7);
    ShrZero(y, 32);
    ShrOfZero(7);
    XorZero(b);
    assert Shr(k, 13) == b;
    assert Shr(h, 13) == Xor(a, b);
    XorUndoes(y, k);
  }

  lemma {:induction false} ShrOfZero(k: nat)
    ensures Shr(0, k) == 0
  {
    if k != 0 {
      ShrOfZero(k - 1);
    }
  }

  lemma TimesFiveInjective(x: Word, y: Word)
    requires TimesFivePlus(x) == TimesFivePlus(y)
    ensures x == y
  {
  }

  function UnTimesFive(y: Word): (x: Word)
    ensures TimesFivePlus(x) == y
  {
    UnTimesFiveExists(y);
    Mul((y + WORD - STEP) % WORD, FIVE_INVERSE)
  }

  lemma UnTimesFiveExists(y: Word)
    ensures TimesFivePlus(Mul((y + WORD - STEP) % WORD, FIVE_INVERSE)) == y
  {
    var z: Word := (y + WORD - STEP) % WORD;
    var x := Mul(z, FIVE_INVERSE);
    InverseProducts();
    MulUndone(z, FIVE_INVERSE, 5, 5 * FIVE_INVERSE / WORD);
    assert x * 5 % WORD == z by {
      assert Mul(x, 5) == z;
    }
    hide Mul;
    AddStep(x, y, z);
  }

  lemma AddStep(x: Word, y: Word, z: Word)
    requires z == (y + WORD - STEP) % WORD && x * 5 % WORD == z
    ensures (x * 5 + STEP) % WORD == y
  {
  }

  // ---------------------------------------------------- mixing is a bijection

  function UnMixBlock(y: Word): Word {
    Mul(Rotl(Mul(y, C2_INVERSE), 17), C1_INVERSE)
  }

  lemma MixBlockBijective(k: Word)
    ensures UnMixBlock(MixBlock(k)) == k && MixBlock(UnMixBlock(k)) == k
  {
    hide Mul, Rotl;
    MulInverses(k);
    RotlUndone(Mul(k, C1), 15);
    MulInverses(Rotl(Mul(k, C1), 15));
    RotlUndone(Mul(k, C2_INVERSE), 17);
    MulInverses(Rotl(Mul(k, C2_INVERSE), 17));
  }

  function UnFmix32(y: Word): Word {
    XorShifted(Mul(UnXorShift13(Mul(XorShifted(y, 16), F2_INVERSE)), F1_INVERSE), 16)
  }

  lemma Fmix32Bijective(h: Word)
    ensures UnFmix32(Fmix32(h)) == h && Fmix32(UnFmix32(h)) == h
  {
    hide Mul, XorShifted, UnXorShift13;
    XorShift16Undone(h);
    var a := XorShifted(h, 16);
    MulInverses(a);
    XorShift13Undone(Mul(a, F1));
    var b := XorShifted(Mul(a, F1), 13);
    MulInverses(b);
    XorShift16Undone(Mul(b, F2));
    var c := Mul(a, F2_INVERSE);
    UnXorShift13Undone(c);
    MulInverses(UnXorShift13(c));
    XorShift16Undone(Mul(UnXorShift13(c), F1_INVERSE));
  }

  /** A block step loses neither the state nor the block. */
  lemma MixStateInjective(h: Word, k: Word, h': Word, k': Word)
    requires MixState(h, k) == MixState(h', k')
    ensures h == h' <==> k == k'
  {
    hide Rotl, XorW, MixBlock, TimesFivePlus;
    var x, x' := XorW(h, MixBlock(k)), XorW(h', MixBlock(k'));
    TimesFiveInjective(Rotl(x, 13), Rotl(x', 13));
    RotlUndone(x, 13);
    RotlUndone(x', 13);
    XorWUndone(h, MixBlock(k));
    XorWUndone(h', MixBlock(k'));
    MixBlockBijective(k);
    MixBlockBijective(k');
  }

  // --------------------------------------------------------------- collisions

  lemma {:induction false} BodyAgrees(d: seq<Byte>, d': seq<Byte>, seed: Word, n: nat)
    requires 4 * n <= |d| == |d'| && forall i :: 0 <= i < n ==> Block(d, i) == Block(d', i)
    ensures Body(d, seed, n) == Body(d', seed, n)
  {
    if n != 0 {
      BodyAgrees(d, d', seed, n - 1);
    }
  }

  /** Once the states differ, agreeing blocks keep them different. */
  lemma {:induction false} BodyStaysDifferent(d: seq<Byte>, d': seq<Byte>, seed: Word, seed': Word, m: nat, n: nat)
    requires m <= n && 4 * n <= |d| == |d'| && forall i :: m <= i < n ==> Block(d, i) == Block(d', i)
    requires Body(d, seed, m) != Body(d', seed', m)
    ensures Body(d, seed, n) != Body(d', seed', n)
  {
    hide Block, MixState;
    if m < n {
      BodyStaysDifferent(d, d', seed, seed', m, n - 1);
      var h, h', k := Body(d, seed, n - 1), Body(d', seed', n - 1), Block(d, n - 1);
      if MixState(h, k) == MixState(h', k) {
        MixStateInjective(h, k, h', k);
      }
    }
  }

  lemma WithTailInjective(h: Word, t: seq<Byte>, h': Word, t': seq<Byte>)
    requires |t| == |t'| < 4 && WithTail(h, t) == WithTail(h', t')
    ensures h == h' <==> t == t'
  {
    hide XorW, MixBlock, TailWord;
    if t != [] {
      XorWUndone(h, MixBlock(TailWord(t)));
      XorWUndone(h', MixBlock(TailWord(t')));
      MixBlockBijective(TailWord(t));
      MixBlockBijective(TailWord(t'));
      if TailWord(t) == TailWord(t') {
        TailWordInjective(t, t');
      }
    }
  }

  lemma LittleEndianInjective(a0: Byte, a1: Byte, a2: Byte, a3: Byte, b0: Byte, b1: Byte, b2: Byte, b3: Byte)
    requires LittleEndian(a0, a1, a2, a3) == LittleEndian(b0, b1, b2, b3)
    ensures a0 == b0 && a1 == b1 && a2 == b2 && a3 == b3
  {
    LastDigit(a0, a1 as nat + 256 * a2 as nat + 65536 * a3 as nat, b0, b1 as nat + 256 * b2 as nat + 65536 * b3 as nat);
    LastDigit(a1, a2 as nat + 256 * a3 as nat, b1, b2 as nat + 256 * b3 as nat);
    LastDigit(a2, a3, b2, b3);
  }

  lemma LastDigit(a: Byte, p: nat, b: Byte, q: nat)
    requires a as nat + 256 * p == b as nat + 256 * q
    ensures a == b && p == q
  {
  }

  lemma TailWordInjective(t: seq<Byte>, t': seq<Byte>)
    requires |t| == |t'| < 4 && TailWord(t) == TailWord(t')
    ensures t == t'
  {
    hide LittleEndian;
    LittleEndianInjective(
      if |t| > 0 then t[0] else 0, if |t| > 1 then t[1] else 0, if |t| > 2 then t[2] else 0, 0,
      if |t| > 0 then t'[0] else 0, if |t| > 1 then t'[1] else 0, if |t| > 2 then t'[2] else 0, 0);
  }

  lemma FinishInjective(d: seq<Byte>, d': seq<Byte>, seed: Word, seed': Word)
    requires |d| == |d'| && Hash(d, seed) == Hash(d', seed')
    ensures WithTail(Body(d, seed, |d| / 4), Tail(d)) == WithTail(Body(d', seed', |d| / 4), Tail(d'))
  {
    hide Fmix32, XorW, WithTail, Body;
    var n: Word := |d| % WORD;
    var x, x' := WithTail(Body(d, seed, |d| / 4), Tail(d)), WithTail(Body(d', seed', |d| / 4), Tail(d'));
    Fmix32Bijective(XorW(x, n));
    Fmix32Bijective(XorW(x', n));
    XorWUndone(x, n);
    XorWUndone(x', n);
  }

  /** The inputs have one length and differ inside aligned block b and nowhere else. */
  ghost predicate DifferInBlock(d: seq<Byte>, d': seq<Byte>, b: nat) {
    && |d| == |d'| && 4 * b + 4 <= |d| && d != d'
    && forall i :: 0 <= i < |d| && d[i] != d'[i] ==> 4 * b <= i < 4 * b + 4
  }

  /** The inputs have one length and differ only in the bytes after the last full block. */
  ghost predicate DifferInTail(d: seq<Byte>, d': seq<Byte>) {
    && |d| == |d'| && d != d'
    && forall i :: 0 <= i < |d| && d[i] != d'[i] ==> |d| / 4 * 4 <= i
  }

  lemma BlockWordsDiffer(d: seq<Byte>, d': seq<Byte>, b: nat)
    requires DifferInBlock(d, d', b)
    ensures Block(d, b) != Block(d', b)
    ensures forall i :: 0 <= i < |d| / 4 && i != b ==> Block(d, i) == Block(d', i)
    ensures Tail(d) == Tail(d')
  {
    hide LittleEndian;
    if Block(d, b) == Block(d', b) {
      LittleEndianInjective(d[4 * b], d[4 * b + 1], d[4 * b + 2], d[4 * b + 3],
                            d'[4 * b], d'[4 * b + 1], d'[4 * b + 2], d'[4 * b + 3]);
    }
  }

  /** MAIN RESULT. For one seed, inputs of equal length that differ only inside one aligned 4-byte
      block, or only in the tail, never have the same hash. */
  lemma LocalChangesNeverCollide(d: seq<Byte>, d': seq<Byte>, seed: Word, b: nat)
    requires DifferInBlock(d, d', b) || DifferInTail(d, d')
    ensures Hash(d, seed) != Hash(d', seed)
  {
    hide Hash, WithTail, Block, Tail, MixState;
    var n := |d| / 4;
    if DifferInBlock(d, d', b) {
      BlockWordsDiffer(d, d', b);
      BodyAgrees(d, d', seed, b);
      StatesDiffer(d, d', seed, b);
      BodyStaysDifferent(d, d', seed, seed, b + 1, n);
      if Hash(d, seed) == Hash(d', seed) {
        FinishInjective(d, d', seed, seed);
        WithTailInjective(Body(d, seed, n), Tail(d), Body(d', seed, n), Tail(d'));
      }
    } else {
      TailsDiffer(d, d');
      BodyAgrees(d, d', seed, n);
      if Hash(d, seed) == Hash(d', seed) {
        FinishInjective(d, d', seed, seed);
        WithTailInjective(Body(d, seed, n), Tail(d), Body(d', seed, n), Tail(d'));
      }
    }
  }

  lemma StatesDiffer(d: seq<Byte>, d': seq<Byte>, seed: Word, b: nat)
    requires 4 * b + 4 <= |d| == |d'| && Block(d, b) != Block(d', b) && Body(d, seed, b) == Body(d', seed, b)
    ensures Body(d, seed, b + 1) != Body(d', seed, b + 1)
  {
    hide Block, MixState;
    if Body(d, seed, b + 1) == Body(d', seed, b + 1) {
      MixStateInjective(Body(d, seed, b), Block(d, b), Body(d', seed, b), Block(d', b));
    }
  }

  lemma TailsDiffer(d: seq<Byte>, d': seq<Byte>)
    requires DifferInTail(d, d')
    ensures Tail(d) != Tail(d')
    ensures forall i :: 0 <= i < |d| / 4 ==> Block(d, i) == Block(d', i)
  {
    var i :| 0 <= i < |d| && d[i] != d'[i];
    var m := |d| / 4 * 4;
    assert Tail(d)[i - m] == d[i] && Tail(d')[i - m] == d'[i];
  }

  /** MAIN RESULT. For one input, different seeds always give different hashes. */
  lemma SeedsNeverCollide(d: seq<Byte>, seed: Word, seed': Word)
    requires seed != seed'
    ensures Hash(d, seed) != Hash(d, seed')
  {
    hide Hash, WithTail, Block, Tail, MixState;
    var n := |d| / 4;
    BodyStaysDifferent(d, d, seed, seed', 0, n);
    if Hash(d, seed) == Hash(d, seed') {
      FinishInjective(d, d, seed, seed');
      WithTailInjective(Body(d, seed, n), Tail(d), Body(d, seed', n), Tail(d));
    }
  }

  // ------------------------------------------------- four bytes cover every hash

  function Bytes(k: Word): (d: seq<Byte>)
    ensures |d| == 4
  {
    [k % 256, k / 256 % 256, k / 256 / 256 % 256, k / 256 / 256 / 256]
  }

  lemma BytesOfWord(k: Word)
    ensures Block(Bytes(k), 0) == k
  {
    var k1, k2, k3 := k / 256, k / 256 / 256, k / 256 / 256 / 256;
    assert k == 256 * k1 + k % 256 && k1 == 256 * k2 + k1 % 256 && k2 == 256 * k3 + k2 % 256;
  }

  function UnMixState(h: Word, y: Word): Word {
    UnMixBlock(XorW(h, Rotl(UnTimesFive(y), 19)))
  }

  lemma MixStateReaches(h: Word, y: Word)
    ensures MixState(h, UnMixState(h, y)) == y
  {
    hide Rotl, XorW, MixBlock, UnMixBlock, TimesFivePlus, UnTimesFive;
    var x := UnTimesFive(y);
    MixBlockBijective(XorW(h, Rotl(x, 19)));
    XorWUndone(h, Rotl(x, 19));
    RotlUndone(x, 19);
  }

  /** MAIN RESULT. For every seed each 32-bit value is the hash of exactly one 4-byte input. */
  lemma FourBytesCoverEveryHash(y: Word, seed: Word) returns (d: seq<Byte>)
    ensures |d| == 4 && Hash(d, seed) == y
    ensures forall d': seq<Byte> :: |d'| == 4 && Hash(d', seed) == y ==> d' == d
  {
    hide Fmix32, UnFmix32, XorW, MixState, UnMixState, Bytes, LittleEndian;
    var h := XorW(UnFmix32(y), 4);
    var k := UnMixState(seed, h);
    d := Bytes(k);
    BytesOfWord(k);
    MixStateReaches(seed, h);
    XorWUndone(UnFmix32(y), 4);
    Fmix32Bijective(y);
    FourByteHash(d, seed);
    forall d': seq<Byte> | |d'| == 4 && Hash(d', seed) == y ensures d' == d {
      if d' != d {
        LocalChangesNeverCollide(d, d', seed, 0);
      }
    }
  }

  lemma FourByteHash(d: seq<Byte>, seed: Word)
    requires |d| == 4
    ensures Hash(d, seed) == Fmix32(XorW(MixState(seed, Block(d, 0)), 4))
  {
    assert Tail(d) == [];
    assert Body(d, seed, 1) == MixState(Body(d, seed, 0), Block(d, 0));
  }

  // ------------------------------------------------------------------ buckets

  /** The key the buckets are computed from: the user id, a zero byte, the salt. */
  function BucketKey(userId: seq<Byte>, salt: seq<Byte>): seq<Byte> {
    userId + [0] + salt
  }

  function Bucket(userId: seq<Byte>, salt: seq<Byte>, totalBuckets: nat): (b: nat)
    requires totalBuckets > 0
    ensures b < totalBuckets
  {
    Hash(BucketKey(userId, salt), 0) % totalBuckets
  }

  method GoComputeBucket(userId: seq<Byte>, salt: seq<Byte>, totalBuckets: Word) returns (b: nat)
    requires totalBuckets > 0
    ensures b == Bucket(userId, salt, totalBuckets)
  {
    var h := GoMurmurhash3(BucketKey(userId, salt), 0);
    b := h % totalBuckets;
  }

  method PyBucket(userId: seq<Byte>, salt: seq<Byte>, totalBuckets: nat) returns (b: nat)
    requires totalBuckets > 0
    ensures |userId| + |salt| + 1 < WORD ==> b == Bucket(userId, salt, totalBuckets)
  {
    var h := PyMurmurhash3(BucketKey(userId, salt), 0);
    b := h % totalBuckets;
  }
}
