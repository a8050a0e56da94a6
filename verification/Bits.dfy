/** Bitwise operations on unbounded non-negative integers, bit by bit, and their laws. */
module Bits {

  function Shl(a: nat, k: nat): nat {
    if k == 0 then a else 2 * Shl(a, k - 1)
  }

  function Shr(a: nat, k: nat): nat {
    if k == 0 then a else Shr(a / 2, k - 1)
  }

  /** The low k bits. */
  function Low(a: nat, k: nat): nat
    decreases k
  {
    if k == 0 then 0 else 2 * Low(a / 2, k - 1) + a % 2
  }

  function Xor(a: nat, b: nat): nat
    decreases a + b
  {
    if a == 0 && b == 0 then 0
    else 2 * Xor(a / 2, b / 2) + (if a % 2 == b % 2 then 0 else 1)
  }

  function Or(a: nat, b: nat): nat
    decreases a + b
  {
    if a == 0 && b == 0 then 0
    else 2 * Or(a / 2, b / 2) + (if a % 2 == 0 && b % 2 == 0 then 0 else 1)
  }

  function And(a: nat, b: nat): nat
    decreases a + b
  {
    if a == 0 && b == 0 then 0
    else 2 * And(a / 2, b / 2) + (if a % 2 == 1 && b % 2 == 1 then 1 else 0)
  }

  // ------------------------------------------------------------------ shifts

  lemma {:induction false} ShlPositive(k: nat)
    ensures Shl(1, k) > 0
  {
    if k != 0 {
      ShlPositive(k - 1);
    }
  }

  lemma {:induction false} ShlShl(a: nat, j: nat, k: nat)
    ensures Shl(Shl(a, j), k) == Shl(a, j + k)
  {
    if k != 0 {
      ShlShl(a, j, k - 1);
    }
  }

  lemma {:induction false} ShrShr(a: nat, j: nat, k: nat)
    ensures Shr(Shr(a, j), k) == Shr(a, j + k)
    decreases j
  {
    if j != 0 {
      ShrShr(a / 2, j - 1, k);
    }
  }

  /** A number is its high part shifted back plus its low part. */
  lemma {:induction false} Split(a: nat, k: nat)
    ensures a == Shl(Shr(a, k), k) + Low(a, k) && Low(a, k) < Shl(1, k)
    decreases k
  {
    if k != 0 {
      Split(a / 2, k - 1);
    }
  }

  /** High and low part of a number put together from them; cutting at k + r instead of r cuts the
      shifted part at k. */
  lemma {:induction false} Join(a: nat, b: nat, k: nat, r: nat)
    requires b < Shl(1, r)
    ensures Shr(Shl(a, r) + b, r) == a && Low(Shl(a, r) + b, r) == b
    ensures Low(Shl(a, r) + b, k + r) == Shl(Low(a, k), r) + b
    decreases r
  {
    if r != 0 {
      Join(a, b / 2, k, r - 1);
      assert (Shl(a, r) + b) / 2 == Shl(a, r - 1) + b / 2;
    }
  }

  lemma {:induction false} ShrBound(a: nat, j: nat, k: nat)
    requires a < Shl(1, j + k)
    ensures Shr(a, k) < Shl(1, j)
    decreases k
  {
    if k != 0 {
      ShrBound(a / 2, j, k - 1);
    }
  }

  lemma {:induction false} JoinBound(a: nat, b: nat, j: nat, k: nat)
    requires a < Shl(1, j) && b < Shl(1, k)
    ensures Shl(a, k) + b < Shl(1, j + k)
    decreases k
  {
    if k != 0 {
      JoinBound(a, b / 2, j, k - 1);
    }
  }

  lemma {:induction false} ShrZero(a: nat, k: nat)
    requires a < Shl(1, k)
    ensures Shr(a, k) == 0
    decreases k
  {
    if k != 0 {
      ShrZero(a / 2, k - 1);
    }
  }

  lemma {:induction false} ShrSmaller(a: nat, k: nat)
    ensures Shr(a, k) <= a
    decreases k
  {
    if k != 0 {
      ShrSmaller(a / 2, k - 1);
    }
  }

  // --------------------------------------------------------- bitwise operations

  lemma {:induction false} XorUndoes(a: nat, b: nat)
    ensures Xor(Xor(a, b), b) == a
    decreases a + b
  {
    if a != 0 || b != 0 {
      XorUndoes(a / 2, b / 2);
      assert Xor(a, b) / 2 == Xor(a / 2, b / 2);
    }
  }

  lemma {:induction false} XorCommutes(a: nat, b: nat)
    ensures Xor(a, b) == Xor(b, a)
    decreases a + b
  {
    if a != 0 || b != 0 {
      XorCommutes(a / 2, b / 2);
    }
  }

  lemma {:induction false} XorZero(a: nat)
    ensures Xor(a, 0) == a && Xor(0, a) == a
  {
    if a != 0 {
      XorZero(a / 2);
    }
  }

  lemma {:induction false} XorBound(a: nat, b: nat, k: nat)
    requires a < Shl(1, k) && b < Shl(1, k)
    ensures Xor(a, b) < Shl(1, k)
    decreases k
  {
    if k != 0 && (a != 0 || b != 0) {
      XorBound(a / 2, b / 2, k - 1);
    }
  }

  /** Shifting right distributes over exclusive or. */
  lemma {:induction false} XorShr(a: nat, b: nat, k: nat)
    ensures Shr(Xor(a, b), k) == Xor(Shr(a, k), Shr(b, k))
    decreases k
  {
    if k != 0 {
      assert Xor(a, b) / 2 == Xor(a / 2, b / 2);
      XorShr(a / 2, b / 2, k - 1);
    }
  }

  lemma {:induction false} XorDisjoint(a: nat, k: nat, b: nat)
    requires b < Shl(1, k)
    ensures Xor(Shl(a, k), b) == Shl(a, k) + b
    decreases k
  {
    if k == 0 {
      XorZero(a);
    } else {
      XorDisjoint(a, k - 1, b / 2);
    }
  }

  lemma {:induction false} OrZero(a: nat)
    ensures Or(a, 0) == a
  {
    if a != 0 {
      OrZero(a / 2);
    }
  }

  lemma {:induction false} OrCommutes(a: nat, b: nat)
    ensures Or(a, b) == Or(b, a)
    decreases a + b
  {
    if a != 0 || b != 0 {
      OrCommutes(a / 2, b / 2);
    }
  }

  lemma {:induction false} OrDisjoint(a: nat, k: nat, b: nat)
    requires b < Shl(1, k)
    ensures Or(Shl(a, k), b) == Shl(a, k) + b
    decreases k
  {
    if k == 0 {
      OrZero(a);
    } else {
      OrDisjoint(a, k - 1, b / 2);
    }
  }

  lemma {:induction false} AndZero(a: nat)
    ensures And(a, 0) == 0
  {
    if a != 0 {
      AndZero(a / 2);
    }
  }

  /** Masking with 2^k - 1 keeps the low k bits. */
  lemma {:induction false} AndMask(a: nat, mask: nat, k: nat)
    requires mask == Shl(1, k) - 1
    ensures And(a, mask) == Low(a, k)
    decreases k
  {
    if k == 0 {
      AndZero(a);
    } else {
      ShlPositive(k - 1);
      AndMask(a / 2, mask / 2, k - 1);
    }
  }
}
