/** MurmurHash3 x86 32-bit, twice: wrapping 32-bit words as the Go SDK computes it, and unbounded
    integers with explicit masks as the reference script does. Both equal one specification, whose
    building blocks are bijections. */
module Murmur3 {
  import opened Bits

  const WORD: nat := 0x1_0000_0000
  const MASK32: nat := 0xFFFF_FFFF
  const C1: nat := 0xcc9e2d51
  const C2: nat := 0x1b873593
  const STEP: nat := 0xe6546b64
  const F1: nat := 0x85ebca6b
  const F2: nat := 0xc2b2ae35

  type Word = x: nat | x < WORD

  type Byte = x: nat | x < 256

  // ------------------------------------------------------------ specification

  function Mul(x: Word, c: nat): Word {
    x * c % WORD
  }

  /** Rotation by r: the low 32 - r bits move up, the high r bits come in below. */
  function Rotl(x: Word, r: nat): (y: Word)
    requires 0 < r < 32
  {
    RotlBound(x, r);
    Shl(Low(x, 32 - r), r) + Shr(x, 32 - r)
  }

  function XorW(x: Word, y: Word): Word {
    WordSize();
    XorBound(x, y, 32);
    Xor(x, y)
  }

  function MixBlock(k: Word): Word {
    Mul(Rotl(Mul(k, C1), 15), C2)
  }

  function TimesFivePlus(h: Word): Word {
    (h * 5 + STEP) % WORD
  }

  function MixState(h: Word, k: Word): Word {
    TimesFivePlus(Rotl(XorW(h, MixBlock(k)), 13))
  }

  function XorShifted(h: Word, s: nat): Word {
    ShrSmaller(h, s);
    XorW(h, Shr(h, s))
  }

  function Fmix32(h: Word): Word {
    XorShifted(Mul(XorShifted(Mul(XorShifted(h, 16), F1), 13), F2), 16)
  }

  function LittleEndian(b0: Byte, b1: Byte, b2: Byte, b3: Byte): Word {
    b0 as nat + 256 * b1 as nat + 65536 * b2 as nat + 16777216 * b3 as nat
  }

  function Block(data: seq<Byte>, i: nat): Word
    requires 4 * i + 4 <= |data|
  {
    LittleEndian(data[4 * i], data[4 * i + 1], data[4 * i + 2], data[4 * i + 3])
  }

  /** The state after the first n blocks. */
  function Body(data: seq<Byte>, seed: Word, n: nat): Word
    requires 4 * n <= |data|
  {
    if n == 0 then seed else MixState(Body(data, seed, n - 1), Block(data, n - 1))
  }

  /** The tail bytes as a word, missing ones 0. */
  function TailWord(t: seq<Byte>): Word
    requires |t| < 4
  {
    LittleEndian(if |t| > 0 then t[0] else 0, if |t| > 1 then t[1] else 0, if |t| > 2 then t[2] else 0, 0)
  }

  function Tail(data: seq<Byte>): (t: seq<Byte>)
    ensures |t| == |data| % 4
  {
    data[|data| / 4 * 4..]
  }

  function WithTail(h: Word, t: seq<Byte>): Word
    requires |t| < 4
  {
    if t == [] then h else XorW(h, MixBlock(TailWord(t)))
  }

  function Hash(data: seq<Byte>, seed: Word): Word {
    Fmix32(XorW(WithTail(Body(data, seed, |data| / 4), Tail(data)), |data| % WORD))
  }

  // ------------------------------------------------------------ numeric facts

  lemma ShlEight(a: nat)
    ensures Shl(a, 8) == 256 * a
  {
    assert Shl(a, 2) == 2 * Shl(a, 1) == 4 * Shl(a, 0);
    ShlShl(a, 2, 2);
    assert Shl(Shl(a, 2), 2) == 2 * Shl(Shl(a, 2), 1) == 4 * Shl(Shl(a, 2), 0);
    ShlShl(a, 4, 2);
    assert Shl(Shl(a, 4), 2) == 2 * Shl(Shl(a, 4), 1) == 4 * Shl(Shl(a, 4), 0);
    ShlShl(a, 6, 2);
    assert Shl(Shl(a, 6), 2) == 2 * Shl(Shl(a, 6), 1) == 4 * Shl(Shl(a, 6), 0);
  }

  lemma ShlBytes(a: nat)
    ensures Shl(a, 8) == 256 * a && Shl(a, 16) == 65536 * a && Shl(a, 24) == 16777216 * a && Shl(a, 32) == WORD * a
  {
    ShlEight(a);
    ShlEight(Shl(a, 8));
    ShlEight(Shl(a, 16));
    ShlEight(Shl(a, 24));
    ShlShl(a, 8, 8);
    ShlShl(a, 16, 8);
    ShlShl(a, 24, 8);
  }

  lemma WordSize()
    ensures Shl(1, 32) == WORD
  {
    ShlBytes(1);
  }

  lemma LowIsModulo(a: nat)
    ensures Low(a, 32) == a % WORD
  {
    hide Shl, Shr, Low;
    Split(a, 32);
    ShlBytes(Shr(a, 32));
    WordSize();
    ModuloIs(a, Shr(a, 32), Low(a, 32));
  }

  lemma ModuloIs(a: nat, q: nat, r: nat)
    requires a == WORD * q + r && r < WORD
    ensures a % WORD == r
  {
  }

  lemma MaskIsModulo(a: nat)
    ensures And(a, MASK32) == a % WORD
  {
    WordSize();
    AndMask(a, MASK32, 32);
    LowIsModulo(a);
  }

  lemma RotlBound(x: Word, r: nat)
    requires 0 < r < 32
    ensures Shr(x, 32 - r) < Shl(1, r)
    ensures Shl(Low(x, 32 - r), r) + Shr(x, 32 - r) < WORD
  {
    WordSize();
    ShrBound(x, r, 32 - r);
    Split(x, 32 - r);
    JoinBound(Low(x, 32 - r), Shr(x, 32 - r), 32 - r, r);
  }

  // ----------------------------------------------------- the Go implementation

  /** (x << r) | (x >> (32 - r)) on a 32-bit word, where << drops what leaves the word. */
  method GoRotl(x: Word, r: nat) returns (y: Word)
    requires 0 < r < 32
    ensures y == Rotl(x, r)
  {
    hide Shl, Shr, Or, Low;
    var high, low := Shl(x, r) % WORD, Shr(x, 32 - r);
    RotlBound(x, r);
    LowIsModulo(Shl(x, r));
    ShlPositive(r);
    Join(x, 0, 32 - r, r);
    OrDisjoint(Low(x, 32 - r), r, low);
    y := Or(high, low);
  }

  method GoFmix32(h0: Word) returns (h: Word)
    ensures h == Fmix32(h0)
  {
    h := h0;
    h := XorW(h, ShrWord(h, 16));
    h := h * F1 % WORD;
    h := XorW(h, ShrWord(h, 13));
    h := h * F2 % WORD;
    h := XorW(h, ShrWord(h, 16));
  }

  function ShrWord(x: Word, k: nat): Word {
    ShrSmaller(x, k);
    Shr(x, k)
  }

  /** k1 *= c1, rotate by 15, k1 *= c2. */
  method GoMix(k: Word) returns (k1: Word)
    ensures k1 == MixBlock(k)
  {
    k1 := k * C1 % WORD;
    k1 := GoRotl(k1, 15);
    k1 := k1 * C2 % WORD;
  }

  method GoBlock(b0: Byte, b1: Byte, b2: Byte, b3: Byte) returns (k1: Word)
    ensures k1 == LittleEndian(b0, b1, b2, b3)
  {
    OrAssembles(b0, b1, b2, b3);
    k1 := Or(Or(Or(b0, Shl(b1, 8)), Shl(b2, 16)), Shl(b3, 24));
  }

  method GoMurmurhash3(data: seq<Byte>, seed: Word) returns (h: Word)
    ensures h == Hash(data, seed)
  {
    hide Rotl, XorW, Xor, Or, Fmix32, MixBlock, LittleEndian, Shl, TailWord;
    var nBlocks := |data| / 4;
    var h1 := seed;
    for i := 0 to nBlocks
      invariant h1 == Body(data, seed, i)
    {
      var off := 4 * i;
      var k1 := GoBlock(data[off], data[off + 1], data[off + 2], data[off + 3]);
      k1 := GoMix(k1);
      h1 := XorW(h1, k1);
      h1 := GoRotl(h1, 13);
      h1 := (h1 * 5 + STEP) % WORD;
    }
    var tail := data[nBlocks * 4..];
    assert tail == Tail(data);
    if |tail| > 0 {
      var k1 := GoTailWord(tail);
      k1 := GoMix(k1);
      h1 := XorW(h1, k1);
    }
    h1 := XorW(h1, |data| % WORD);
    h := GoFmix32(h1);
  }

  /** The fall-through cases that gather the tail bytes. */
  method GoTailWord(tail: seq<Byte>) returns (k1: Word)
    requires 0 < |tail| < 4
    ensures k1 == TailWord(tail)
  {
    hide Xor, Shl;
    TailXor(tail);
    k1 := 0;
    if |tail| >= 3 {
      k1 := Xor(k1, Shl(tail[2], 16));
    }
    if |tail| >= 2 {
      k1 := Xor(k1, Shl(tail[1], 8));
    }
    k1 := Xor(k1, tail[0]);
  }

  lemma TailXor(tail: seq<Byte>)
    requires 0 < |tail| < 4
    ensures |tail| == 1 ==> Xor(0, tail[0]) == TailWord(tail)
    ensures |tail| == 2 ==> Xor(0, Shl(tail[1], 8)) < WORD && Xor(Xor(0, Shl(tail[1], 8)), tail[0]) == TailWord(tail)
    ensures |tail| == 3 ==>
      && Xor(0, Shl(tail[2], 16)) < WORD && Xor(Xor(0, Shl(tail[2], 16)), Shl(tail[1], 8)) < WORD
      && Xor(Xor(Xor(0, Shl(tail[2], 16)), Shl(tail[1], 8)), tail[0]) == TailWord(tail)
  {
    hide Xor, Shl;
    XorZero(tail[0]);
    if |tail| == 2 {
      XorTwo(tail[0], tail[1]);
    } else if |tail| == 3 {
      XorThree(tail[0], tail[1], tail[2]);
    }
  }

  /** Or-ing shifted bytes assembles the little-endian word. */
  lemma OrAssembles(b0: Byte, b1: Byte, b2: Byte, b3: Byte)
    ensures Or(Or(Or(b0, Shl(b1, 8)), Shl(b2, 16)), Shl(b3, 24)) == LittleEndian(b0, b1, b2, b3)
  {
    hide Or, Shl;
    ShlBytes(1);
    ShlBytes(b1);
    ShlBytes(b2);
    ShlBytes(b3);
    OrDisjoint(b1, 8, b0);
    OrCommutes(b0, Shl(b1, 8));
    var two := Shl(b1, 8) + b0;
    OrDisjoint(b2, 16, two);
    OrCommutes(two, Shl(b2, 16));
    var three := Shl(b2, 16) + two;
    OrDisjoint(b3, 24, three);
    OrCommutes(three, Shl(b3, 24));
  }

  lemma XorTwo(b0: Byte, b1: Byte)
    ensures Xor(0, Shl(b1, 8)) == 256 * b1 as nat
    ensures Xor(Xor(0, Shl(b1, 8)), b0) == LittleEndian(b0, b1, 0, 0)
  {
    hide Xor, Shl;
    ShlBytes(1);
    ShlBytes(b1);
    XorZero(Shl(b1, 8));
    XorDisjoint(b1, 8, b0);
  }

  /** Xor-ing shifted bytes from the highest down, starting from 0, assembles the tail word. */
  lemma XorThree(b0: Byte, b1: Byte, b2: Byte)
    ensures Xor(0, Shl(b2, 16)) == 65536 * b2 as nat
    ensures Xor(Xor(0, Shl(b2, 16)), Shl(b1, 8)) == 65536 * b2 as nat + 256 * b1 as nat
    ensures Xor(Xor(Xor(0, Shl(b2, 16)), Shl(b1, 8)), b0) == LittleEndian(b0, b1, b2, 0)
  {
    hide Xor, Shl;
    ShlBytes(1);
    ShlBytes(b1);
    ShlBytes(b2);
    XorZero(Shl(b2, 16));
    XorDisjoint(b2, 16, Shl(b1, 8));
    var high := b2 as nat * 256 + b1 as nat;
    ShlBytes(high);
    XorDisjoint(high, 8, b0);
  }

  // -------------------------------------------------- the reference implementation

  /** ((x << r) | (x >> (32 - r))) & MASK32 on unbounded integers. */
  method PyRotl(x: nat, r: nat) returns (y: nat)
    requires 0 < r < 32
    ensures x < WORD ==> y == Rotl(x, r)
  {
    y := And(Or(Shl(x, r), Shr(x, 32 - r)), MASK32);
    if x < WORD {
      MaskedRotation(x, r);
    }
  }

  lemma MaskedRotation(x: Word, r: nat)
    requires 0 < r < 32
    ensures And(Or(Shl(x, r), Shr(x, 32 - r)), MASK32) == Rotl(x, r)
  {
    hide Shl, Shr, Or, And, Low;
    var high, low := Shl(x, r), Shr(x, 32 - r);
    RotlBound(x, r);
    OrDisjoint(x, r, low);
    MaskIsModulo(high + low);
    LowIsModulo(high + low);
    Join(x, low, 32 - r, r);
  }

  method PyFmix32(h0: nat) returns (h: nat)
    ensures h0 < WORD ==> h == Fmix32(h0)
  {
    h := Xor(h0, Shr(h0, 16));
    MaskIsModulo(h * F1);
    h := And(h * F1, MASK32);
    h := Xor(h, Shr(h, 13));
    MaskIsModulo(h * F2);
    h := And(h * F2, MASK32);
    h := Xor(h, Shr(h, 16));
  }

  method PyMix(k: nat) returns (k1: nat)
    ensures k < WORD ==> k1 == MixBlock(k)
  {
    MaskIsModulo(k * C1);
    k1 := And(k * C1, MASK32);
    k1 := PyRotl(k1, 15);
    MaskIsModulo(k1 * C2);
    k1 := And(k1 * C2, MASK32);
  }

  /** The reference reads any seed through its low 32 bits; it agrees on all lengths below 2^32. */
  method PyMurmurhash3(data: seq<Byte>, seed: nat) returns (h: nat)
    ensures |data| < WORD ==> h == Hash(data, seed % WORD)
  {
    hide Rotl, Xor, Fmix32, MixBlock, And, LittleEndian, TailWord;
    var nblocks := |data| / 4;
    MaskIsModulo(seed);
    var h1: nat := And(seed, MASK32);
    for i := 0 to nblocks
      invariant h1 == Body(data, seed % WORD, i)
    {
      var offset := 4 * i;
      var k1: nat := LittleEndian(data[offset], data[offset + 1], data[offset + 2], data[offset + 3]);
      k1 := PyMix(k1);
      h1 := Xor(h1, k1);
      h1 := PyRotl(h1, 13);
      MaskIsModulo(h1 * 5 + STEP);
      h1 := And(h1 * 5 + STEP, MASK32);
    }
    var tail := data[nblocks * 4..];
    assert tail == Tail(data);
    if |tail| > 0 {
      var k1 := PyTailWord(tail);
      k1 := PyMix(k1);
      h1 := Xor(h1, k1);
    }
    assert h1 == WithTail(Body(data, seed % WORD, nblocks), tail);
    h1 := Xor(h1, |data|);
    var mixed := PyFmix32(h1);
    MaskIsModulo(mixed);
    h := And(mixed, MASK32);
  }

  method PyTailWord(tail: seq<Byte>) returns (k1: nat)
    requires 0 < |tail| < 4
    ensures k1 == TailWord(tail)
  {
    hide Xor, Shl;
    TailXor(tail);
    k1 := 0;
    if |tail| >= 3 {
      k1 := Xor(k1, Shl(tail[2], 16));
    }
    if |tail| >= 2 {
      k1 := Xor(k1, Shl(tail[1], 8));
    }
    k1 := Xor(k1, tail[0]);
  }
}
