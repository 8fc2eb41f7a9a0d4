/** Exclusive or on naturals, one bit at a time. */
module Xors {
  import opened Bits

  function Xor(x: nat, y: nat): (r: nat)
  {
    if x == 0 && y == 0 then 0
    else (if x % 2 != y % 2 then 1 else 0) + 2 * Xor(x / 2, y / 2)
  }

  lemma {:induction false} XorComm(x: nat, y: nat)
    ensures Xor(x, y) == Xor(y, x)
  {
    if x != 0 || y != 0 { XorComm(x / 2, y / 2); }
  }

  lemma {:induction false} XorAssoc(x: nat, y: nat, z: nat)
    ensures Xor(Xor(x, y), z) == Xor(x, Xor(y, z))
    decreases x + y + z
  {
    if x != 0 || y != 0 || z != 0 {
      XorAssoc(x / 2, y / 2, z / 2);
      XorHalf(x, y);
      XorHalf(y, z);
      XorHalf(Xor(x, y), z);
      XorHalf(x, Xor(y, z));
    }
  }

  lemma XorHalf(x: nat, y: nat)
    ensures Xor(x, y) / 2 == Xor(x / 2, y / 2)
    ensures Xor(x, y) % 2 == if x % 2 != y % 2 then 1 else 0
  {
  }

  /** Bit i of the result is set when bit i of exactly one of the two is. */
  lemma {:induction false} XorBits(x: nat, y: nat, i: nat)
    ensures Hi(Xor(x, y), i) % 2 == 1 <==> Hi(x, i) % 2 != Hi(y, i) % 2
  {
    XorHalf(x, y);
    if i > 0 { XorBits(x / 2, y / 2, i - 1); }
  }

  lemma {:induction false} XorSelf(x: nat)
    ensures Xor(x, x) == 0
  {
    if x != 0 { XorSelf(x / 2); }
  }

  lemma {:induction false} XorZero(x: nat)
    ensures Xor(x, 0) == x && Xor(0, x) == x
  {
    if x != 0 { XorZero(x / 2); }
  }

  /** Xoring the same number twice changes nothing. */
  lemma XorTwice(x: nat, y: nat)
    ensures Xor(x, Xor(x, y)) == y
  {
    XorAssoc(x, x, y);
    XorSelf(x);
    XorZero(y);
  }

  lemma XorCancel(x: nat, y: nat, z: nat)
    requires Xor(x, y) == Xor(x, z)
    ensures y == z
  {
    XorTwice(x, y);
    XorTwice(x, z);
  }

  lemma {:induction false} XorLo(x: nat, y: nat, n: nat)
    ensures Lo(Xor(x, y), n) == Xor(Lo(x, n), Lo(y, n))
  {
    if n > 0 {
      XorLo(x / 2, y / 2, n - 1);
      XorHalf(x, y);
      LoStep(x, n);
      LoStep(y, n);
      LoStep(Xor(x, y), n);
      XorHalf(Lo(x, n), Lo(y, n));
      hide Xor, Lo;
      SameHalves(Lo(Xor(x, y), n), Xor(Lo(x, n), Lo(y, n)));
    }
  }

  lemma SameHalves(x: nat, y: nat)
    requires x / 2 == y / 2 && x % 2 == y % 2
    ensures x == y
  {
  }

  lemma {:induction false} XorHi(x: nat, y: nat, n: nat)
    ensures Hi(Xor(x, y), n) == Xor(Hi(x, n), Hi(y, n))
  {
    if n > 0 {
      XorHalf(x, y);
      XorHi(x / 2, y / 2, n - 1);
    }
  }

  lemma {:induction false} XorShl(x: nat, y: nat, n: nat)
    ensures Shl(Xor(x, y), n) == Xor(Shl(x, n), Shl(y, n))
  {
    if n > 0 {
      XorShl(x, y, n - 1);
      XorDouble(Shl(x, n - 1), Shl(y, n - 1));
    }
  }

  lemma XorDouble(x: nat, y: nat)
    ensures Xor(2 * x, 2 * y) == 2 * Xor(x, y)
  {
    assert 2 * x / 2 == x && 2 * y / 2 == y;
  }

  lemma {:induction false} XorBound(x: nat, y: nat, n: nat)
    requires x < Pow2(n) && y < Pow2(n)
    ensures Xor(x, y) < Pow2(n)
  {
    if n > 0 { XorBound(x / 2, y / 2, n - 1); }
  }
}
