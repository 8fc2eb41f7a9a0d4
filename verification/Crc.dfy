/**
  The CRC-32 of section 8 of RFC 1952, bit by bit, and the algebra behind the table and
  matrix methods: feeding zeros is linear, so registers can be taken apart and put together.
 */
module Crc {
  import opened Bits
  import opened Xors
  import opened Bytes

  const POLY: nat := 0xedb88320
  const ONES: nat := 0xffffffff

  /** Shift one zero bit in: multiply the register by x modulo the polynomial. */
  function Zero(c: nat): nat {
    if c % 2 == 1 then Xor(POLY, c / 2) else c / 2
  }

  function ZeroBits(c: nat, n: nat): nat
    decreases n
  {
    if n == 0 then c else ZeroBits(Zero(c), n - 1)
  }

  /** Feed the low n bits of x, least significant first. */
  function FeedBits(c: nat, x: nat, n: nat): nat
    decreases n
  {
    if n == 0 then c else FeedBits(Zero(Xor(c, x % 2)), x / 2, n - 1)
  }

  /** Feed bytes. */
  function Register(c: nat, s: seq<Byte>): nat {
    if s == [] then c else FeedBits(Register(c, s[..|s| - 1]), s[|s| - 1], 8)
  }

  /** The CRC of a message, continuing from the CRC of what came before (0 at the start). */
  function Crc32(before: nat, s: seq<Byte>): nat {
    Xor(Register(Xor(before, ONES), s), ONES)
  }

  // ----- linearity -----

  lemma ZeroXor(x: nat, y: nat)
    ensures Zero(Xor(x, y)) == Xor(Zero(x), Zero(y))
  {
    hide Xor;
    XorHalf(x, y);
    var a, b := x / 2, y / 2;
    XorAssoc(POLY, a, b);
    XorAssoc(a, POLY, b);
    XorComm(a, POLY);
    XorSwap(POLY, a, b);
  }

  lemma XorSwap(p: nat, a: nat, b: nat)
    ensures Xor(Xor(p, a), Xor(p, b)) == Xor(a, b)
  {
    hide Xor;
    XorComm(p, a);
    XorAssoc(a, p, Xor(p, b));
    XorTwice(p, b);
  }

  lemma {:induction false} ZerosXor(x: nat, y: nat, n: nat)
    ensures ZeroBits(Xor(x, y), n) == Xor(ZeroBits(x, n), ZeroBits(y, n))
    decreases n
  {
    hide Xor, Zero;
    if n > 0 {
      ZeroXor(x, y);
      ZerosXor(Zero(x), Zero(y), n - 1);
    }
  }

  lemma {:induction false} ZerosAdd(c: nat, m: nat, n: nat)
    ensures ZeroBits(ZeroBits(c, m), n) == ZeroBits(c, m + n)
    decreases m
  {
    hide Zero;
    if m > 0 { ZerosAdd(Zero(c), m - 1, n); }
  }

  lemma {:induction false} ZerosOfZero(n: nat)
    ensures ZeroBits(0, n) == 0
  {
    if n > 0 { ZerosOfZero(n - 1); }
  }

  /** Zeros shifted out were never mixed in. */
  lemma {:induction false} ZerosShl(x: nat, m: nat, n: nat)
    ensures ZeroBits(Shl(x, m), m + n) == ZeroBits(x, n)
  {
    if m > 0 {
      assert Shl(x, m) % 2 == 0 && Shl(x, m) / 2 == Shl(x, m - 1);
      ZerosShl(x, m - 1, n);
    }
  }

  lemma ZeroBound(c: nat)
    requires c < Pow2(32)
    ensures Zero(c) < Pow2(32)
  {
    hide Xor;
    assert Pow2(32) == 0x1_0000_0000 by { Pow2Word(); }
    hide Pow2;
    XorBound(POLY, c / 2, 32);
  }

  lemma Pow2Word()
    ensures Pow2(32) == 0x1_0000_0000 && Pow2(8) == 256 && Pow2(16) == 65536 && Pow2(24) == 0x100_0000
  {
    assert Pow2(4) == 16;
    assert Pow2(8) == 256;
    assert Pow2(12) == 4096;
    assert Pow2(16) == 65536;
    assert Pow2(20) == 1048576;
    assert Pow2(24) == 0x100_0000;
    assert Pow2(28) == 0x1000_0000;
  }

  lemma {:induction false} ZerosBound(c: nat, n: nat)
    requires c < Pow2(32)
    ensures ZeroBits(c, n) < Pow2(32)
    decreases n
  {
    hide Zero, Pow2;
    if n > 0 {
      ZeroBound(c);
      ZerosBound(Zero(c), n - 1);
    }
  }

  // ----- bits, bytes and words -----

  /** Feeding bits is adding them below the register and feeding zeros. */
  lemma {:induction false} FeedIsZeros(c: nat, x: nat, n: nat)
    requires x < Pow2(n)
    ensures FeedBits(c, x, n) == ZeroBits(Xor(c, x), n)
    decreases n
  {
    if n > 0 {
      hide ZeroBits, Xor;
      FeedIsZeros(Zero(Xor(c, x % 2)), x / 2, n - 1);
      ZeroOfRest(c, x);
      assert ZeroBits(Xor(c, x), n) == ZeroBits(Zero(Xor(c, x)), n - 1) by { ZerosStep(Xor(c, x), n); }
    } else {
      XorZero(c);
    }
  }

  lemma ZerosStep(c: nat, n: nat)
    requires n > 0
    ensures ZeroBits(c, n) == ZeroBits(Zero(c), n - 1)
  {
  }

  /** The low bit of x decides the feedback, the rest only moves. */
  lemma ZeroOfRest(c: nat, x: nat)
    ensures Xor(Zero(Xor(c, x % 2)), x / 2) == Zero(Xor(c, x))
  {
    hide Xor, Zero;
    LowAndRest(x);
    XorAssoc(c, x % 2, 2 * (x / 2));
    ZeroXor(Xor(c, x % 2), 2 * (x / 2));
    assert Zero(2 * (x / 2)) == x / 2 by { ZeroEven(x / 2); }
  }

  lemma ZeroEven(x: nat)
    ensures Zero(2 * x) == x
  {
  }

  lemma LowAndRest(x: nat)
    ensures Xor(x % 2, 2 * (x / 2)) == x
  {
    XorZero(x / 2);
  }

  /** A number is its low bits xored with its high bits. */
  lemma {:induction false} SplitXor(x: nat, n: nat)
    ensures x == Xor(Shl(Hi(x, n), n), Lo(x, n))
  {
    hide Xor;
    Split(x, n);
    AddIsXor(Hi(x, n), Lo(x, n), n);
  }

  lemma {:induction false} AddIsXor(h: nat, l: nat, n: nat)
    requires l < Pow2(n)
    ensures Xor(Shl(h, n), l) == Shl(h, n) + l
  {
    if n == 0 {
      XorZero(h);
    } else {
      AddIsXor(h, l / 2, n - 1);
      assert Shl(h, n) % 2 == 0 && Shl(h, n) / 2 == Shl(h, n - 1);
      XorHalf(Shl(h, n), l);
    }
  }

  /** Feeding zeros, the low byte apart: what table 0 is for. */
  lemma ZerosByLow(c: nat, m: nat, n: nat)
    ensures ZeroBits(c, m + n) == Xor(ZeroBits(Hi(c, m), n), ZeroBits(Lo(c, m), m + n))
  {
    hide Xor, ZeroBits, Hi, Lo, Shl;
    SplitXor(c, m);
    ZerosXor(Shl(Hi(c, m), m), Lo(c, m), m + n);
    ZerosShl(Hi(c, m), m, n);
  }

  lemma {:induction false} RegisterAppend(c: nat, a: seq<Byte>, b: seq<Byte>)
    ensures Register(c, a + b) == Register(Register(c, a), b)
    decreases |b|
  {
    hide FeedBits;
    if b == [] {
      assert a + b == a;
    } else {
      assert (a + b)[..|a + b| - 1] == a + b[..|b| - 1];
      RegisterAppend(c, a, b[..|b| - 1]);
    }
  }

  lemma ByteIsZeros(c: nat, b: Byte)
    ensures FeedBits(c, b, 8) == ZeroBits(Xor(c, b), 8)
  {
    hide FeedBits, ZeroBits, Xor;
    Pow2Word();
    FeedIsZeros(c, b, 8);
  }
}
