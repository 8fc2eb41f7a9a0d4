/** make_crc_table() and crc32_little(): four bytes at a time by four tables. */
module CrcTable {
  import opened Bits
  import opened Xors
  import opened Bytes
  import opened Crc

  /** Table k maps a byte to its CRC followed by k zero bytes. */
  ghost predicate IsTable(t: array2<nat>, k: nat, n: nat)
    reads t
    requires k < t.Length0 && n <= t.Length1
  {
    forall i: nat {:trigger t[k, i]} :: i < n ==> t[k, i] == ZeroBits(i, 8 * k + 8)
  }

  ghost predicate Tables(t: array2<nat>)
    reads t
  {
    t.Length0 == 4 && t.Length1 == 256 && IsTable(t, 0, 256) && IsTable(t, 1, 256) && IsTable(t, 2, 256)
      && IsTable(t, 3, 256)
  }

  const TERMS: seq<nat> := [0, 1, 2, 4, 5, 7, 8, 10, 11, 12, 16, 22, 23, 26]

  /** x | (1 << i) */
  function SetBit(x: nat, i: nat): nat {
    if Hi(x, i) % 2 == 1 then x else x + Pow2(i)
  }

  /** The pattern of the first n terms, bit 31 - t for a term x^t. */
  function Pattern(n: nat): nat
    requires n <= |TERMS|
  {
    if n == 0 then 0 else SetBit(Pattern(n - 1), 31 - TERMS[n - 1])
  }

  /** The exclusive-or pattern of the polynomial. */
  method MakePoly() returns (poly: nat)
    ensures poly == Pattern(|TERMS|)
  {
    poly := 0;
    for n := 0 to |TERMS|
      invariant poly == Pattern(n)
    {
      poly := SetBit(poly, 31 - TERMS[n]);
    }
  }

  function Scaled(y: nat, g: nat): nat {
    if g == 1 then 2 * y else if g == 2 then 4 * y else if g == 3 then 8 * y else if g == 4 then 16 * y else 64 * y
  }

  lemma ShlSmall(y: nat)
    ensures Shl(y, 1) == 2 * y && Shl(y, 2) == 4 * y && Shl(y, 3) == 8 * y
    ensures Shl(y, 4) == 16 * y && Shl(y, 5) == 32 * y && Shl(y, 6) == 64 * y
  {
    assert Shl(y, 1) == 2 * y;
    assert Shl(y, 3) == 8 * y;
    assert Shl(y, 5) == 32 * y;
  }

  /** Setting a bit below all others. */
  lemma SetBelow(y: nat, g: nat, i: nat)
    requires g > 0
    ensures SetBit(Shl(y, g + i), i) == Shl(Shl(y, g) + 1, i)
  {
    assert Shl(y, g) % 2 == 0;
    hide Shl, Pow2, Hi;
    ShlShl(y, g, i);
    Join(Shl(y, g), 0, i);
    ShlAdd(Shl(y, g), 1, i);
    ShlOne(i);
  }

  lemma PatternStep(n: nat)
    requires n < |TERMS|
    ensures Pattern(n + 1) == SetBit(Pattern(n), 31 - TERMS[n])
  {
    hide SetBit;
  }

  lemma PatternNext(n: nat, y: nat, y': nat, t: nat, u: nat)
    requires 0 < n < |TERMS| && t == TERMS[n - 1] < u == TERMS[n] <= 31
    requires Pattern(n) == Shl(y, 31 - t) && y' == Scaled(y, u - t) + 1 && u - t in {1, 2, 3, 4, 6}
    ensures Pattern(n + 1) == Shl(y', 31 - u)
  {
    hide Shl, SetBit, Pattern;
    PatternStep(n);
    ShlSmall(y);
    SetBelow(y, u - t, 31 - u);
  }

  lemma FirstBit()
    ensures Pattern(1) == Shl(1, 31)
  {
    hide Pow2, Hi, Shl, Pattern;
    PatternStep(0);
    NoTerms();
    LoSmall(0, 31);
    ShlOne(31);
  }

  lemma NoTerms()
    ensures Pattern(0) == 0
  {
  }

  lemma UpperTerms()
    ensures Pattern(7) == Shl(475, 23)
  {
    hide Pattern, Shl;
    FirstBit();
    PatternNext(1, 1, 3, 0, 1);
    PatternNext(2, 3, 7, 1, 2);
    PatternNext(3, 7, 29, 2, 4);
    PatternNext(4, 29, 59, 4, 5);
    PatternNext(5, 59, 237, 5, 7);
    PatternNext(6, 237, 475, 7, 8);
  }

  lemma PatternIsPoly()
    ensures Pattern(14) == POLY
  {
    hide Pattern, Shl;
    UpperTerms();
    PatternNext(7, 475, 1901, 8, 10);
    PatternNext(8, 1901, 3803, 10, 11);
    PatternNext(9, 3803, 7607, 11, 12);
    PatternNext(10, 7607, 121713, 12, 16);
    PatternNext(11, 121713, 7789633, 16, 22);
    PatternNext(12, 7789633, 15579267, 22, 23);
    PatternNext(13, 15579267, 124634137, 23, 26);
    ShlSmall(124634137);
  }

  // ----- the tables -----

  lemma ByteStep(c: nat)
    ensures ZeroBits(c, 8) == Xor(Hi(c, 8), ZeroBits(Lo(c, 8), 8))
  {
    hide ZeroBits, Xor, Hi, Lo;
    ZerosByLow(c, 8, 0);
    assert ZeroBits(Hi(c, 8), 0) == Hi(c, 8) by { NoZeros(Hi(c, 8)); }
  }

  lemma NoZeros(c: nat)
    ensures ZeroBits(c, 0) == c
  {
  }

  lemma LowByte(c: nat)
    ensures Lo(c, 8) < 256
  {
    hide Lo, Pow2;
    Pow2Word();
    LoBelow(c, 8);
  }

  lemma LoBelow(c: nat, n: nat)
    ensures Lo(c, n) < Pow2(n)
  {
  }

  /** The CRC of one byte, by eight conditional shifts. */
  method OneEntry(poly: nat, n: nat) returns (c: nat)
    requires poly == POLY
    ensures c == ZeroBits(n, 8)
  {
    hide Xor, ZeroBits;
    c := n;
    NoZeros(n);
    for k := 0 to 8
      invariant c == ZeroBits(n, k)
    {
      ZerosAdd(n, k, 1);
      ZerosStep(c, 1);
      NoZeros(Zero(c));
      c := if c % 2 == 1 then Xor(poly, c / 2) else c / 2;
    }
  }

  /** make_crc_table() */
  method MakeTables() returns (t: array2<nat>)
    ensures Tables(t) && fresh(t)
  {
    hide ZeroBits, Xor, Hi, Lo, Pattern;
    t := new nat[4, 256];
    var poly := MakePoly();
    PatternIsPoly();
    for n := 0 to 256
      invariant IsTable(t, 0, n)
    {
      t[0, n] := OneEntry(poly, n);
    }
    for n := 0 to 256
      invariant IsTable(t, 0, 256) && IsTable(t, 1, n) && IsTable(t, 2, n) && IsTable(t, 3, n)
    {
      var c := t[0, n];
      for k := 1 to 4
        invariant IsTable(t, 0, 256) && IsTable(t, 1, n) && IsTable(t, 2, n) && IsTable(t, 3, n)
        invariant c == ZeroBits(n, 8 * k)
        invariant k > 1 ==> t[1, n] == ZeroBits(n, 16)
        invariant k > 2 ==> t[2, n] == ZeroBits(n, 24)
        invariant k > 3 ==> t[3, n] == ZeroBits(n, 32)
      {
        LowByte(c);
        ByteStep(c);
        ZerosAdd(n, 8 * k, 8);
        XorComm(t[0, Lo(c, 8)], Hi(c, 8));
        c := Xor(t[0, Lo(c, 8)], Hi(c, 8));
        t[k, n] := c;
      }
    }
  }

  // ----- a word at a time -----

  function Word(a: Byte, b: Byte, c: Byte, d: Byte): nat {
    a + 256 * (b + 256 * (c + 256 * d))
  }

  lemma Reorder(a: nat, b: nat, c: nat, d: nat)
    ensures Xor(Xor(Xor(d, c), b), a) == Xor(Xor(Xor(a, b), c), d)
  {
    hide Xor;
    XorComm(d, c);
    XorComm(Xor(c, d), b);
    XorAssoc(b, c, d);
    XorComm(Xor(Xor(b, c), d), a);
    XorAssoc(a, Xor(b, c), d);
    XorAssoc(a, b, c);
  }

  /** The four table lookups of DOLIT4. */
  lemma WordStep(c: nat)
    ensures ZeroBits(c, 32) ==
      Xor(Xor(Xor(ZeroBits(Lo(c, 8), 32), ZeroBits(Lo(Hi(c, 8), 8), 24)), ZeroBits(Lo(Hi(c, 16), 8), 16)),
        ZeroBits(Hi(c, 24), 8))
  {
    hide ZeroBits, Xor, Hi, Lo;
    HiHi(c, 8, 8);
    HiHi(c, 16, 8);
    ZerosByLow(c, 8, 24);
    ZerosByLow(Hi(c, 8), 8, 16);
    ZerosByLow(Hi(c, 16), 8, 8);
    Reorder(ZeroBits(Lo(c, 8), 32), ZeroBits(Lo(Hi(c, 8), 8), 24), ZeroBits(Lo(Hi(c, 16), 8), 16),
      ZeroBits(Hi(c, 24), 8));
  }

  /** The first byte of a word may be fed before the others. */
  lemma FeedLow(c: nat, b: Byte, rest: nat, n: nat)
    ensures ZeroBits(Xor(c, b + 256 * rest), 8 + n) == ZeroBits(Xor(ZeroBits(Xor(c, b), 8), rest), n)
  {
    hide ZeroBits, Xor, Shl, Pow2;
    Pow2Word();
    ShlEight(rest);
    AddIsXor(rest, b, 8);
    XorComm(Shl(rest, 8), b);
    XorAssoc(c, b, Shl(rest, 8));
    ZerosXor(Xor(c, b), Shl(rest, 8), 8 + n);
    ZerosShl(rest, 8, n);
    ZerosAdd(Xor(c, b), 8, n);
    ZerosXor(ZeroBits(Xor(c, b), 8), rest, n);
  }

  lemma RegisterOne(c: nat, s: seq<Byte>, b: Byte)
    ensures Register(c, s + [b]) == ZeroBits(Xor(Register(c, s), b), 8)
  {
    hide ZeroBits, Xor, FeedBits;
    assert (s + [b])[..|s|] == s;
    ByteIsZeros(Register(c, s), b);
  }

  /** Four bytes are one word. */
  lemma RegisterWord(c: nat, s: seq<Byte>, a: Byte, b: Byte, x: Byte, d: Byte)
    ensures Register(c, s + [a, b, x, d]) == ZeroBits(Xor(Register(c, s), Word(a, b, x, d)), 32)
  {
    hide ZeroBits, Xor, Register;
    var r := Register(c, s);
    assert s + [a, b, x, d] == s + [a] + [b] + [x] + [d];
    RegisterOne(c, s, a);
    RegisterOne(c, s + [a], b);
    RegisterOne(c, s + [a] + [b], x);
    RegisterOne(c, s + [a] + [b] + [x], d);
    var r1 := ZeroBits(Xor(r, a), 8);
    var r2 := ZeroBits(Xor(r1, b), 8);
    var r3 := ZeroBits(Xor(r2, x), 8);
    FeedLow(r, a, b + 256 * (x + 256 * d), 24);
    FeedLow(r1, b, x + 256 * d, 16);
    FeedLow(r2, x, d, 8);
  }

  /** What t holds is what crc32_little needs of it. */
  lemma WordEntries(t: array2<nat>, c: nat)
    requires Tables(t) && c < Pow2(32)
    ensures Lo(c, 8) < 256 && Lo(Hi(c, 8), 8) < 256 && Lo(Hi(c, 16), 8) < 256 && Hi(c, 24) < 256
    ensures ZeroBits(c, 32) ==
      Xor(Xor(Xor(t[3, Lo(c, 8)], t[2, Lo(Hi(c, 8), 8)]), t[1, Lo(Hi(c, 16), 8)]), t[0, Hi(c, 24)])
  {
    hide ZeroBits, Xor, Hi, Lo, Pow2;
    Pow2Word();
    WordStep(c);
    LowByte(c);
    LowByte(Hi(c, 8));
    LowByte(Hi(c, 16));
    HiBound(c, 24, 8);
  }

  lemma WordBound(a: Byte, b: Byte, x: Byte, d: Byte)
    ensures Word(a, b, x, d) < Pow2(32)
  {
    Pow2Word();
  }

  lemma RegisterBound(c: nat, s: seq<Byte>)
    requires c < Pow2(32)
    ensures Register(c, s) < Pow2(32)
  {
    hide Pow2, ZeroBits, Xor, FeedBits;
    if s != [] {
      var b := s[|s| - 1];
      RegisterBound(c, s[..|s| - 1]);
      ByteIsZeros(Register(c, s[..|s| - 1]), b);
      ByteBound(b);
      XorBound(Register(c, s[..|s| - 1]), b, 32);
      ZerosBound(Xor(Register(c, s[..|s| - 1]), b), 8);
    }
  }

  lemma ByteBound(b: Byte)
    ensures b < Pow2(32)
  {
    Pow2Word();
  }

  /** c = crc_table[0][(c ^ *buf++) & 0xff] ^ (c >> 8) */
  method OneByte(t: array2<nat>, c: nat, b: Byte, ghost start: nat, ghost s: seq<Byte>) returns (c': nat)
    requires Tables(t) && c == Register(start, s)
    ensures c' == Register(start, s + [b])
  {
    hide ZeroBits, Xor, Register, Hi, Lo, Pow2;
    RegisterOne(start, s, b);
    ByteStep(Xor(c, b));
    LowByte(Xor(c, b));
    HighOfXor(c, b);
    XorComm(Hi(c, 8), t[0, Lo(Xor(c, b), 8)]);
    c' := Xor(t[0, Lo(Xor(c, b), 8)], Hi(c, 8));
  }

  lemma HighOfXor(c: nat, b: Byte)
    ensures Hi(Xor(c, b), 8) == Hi(c, 8)
  {
    hide Xor, Hi, Pow2;
    Pow2Word();
    XorHi(c, b, 8);
    LoSmall(b, 8);
    XorZero(Hi(c, 8));
  }

  /** DOLIT4 */
  method FourBytes(t: array2<nat>, c: nat, a: Byte, b: Byte, x: Byte, d: Byte, ghost start: nat, ghost s: seq<Byte>)
    returns (c': nat)
    requires Tables(t) && start < Pow2(32) && c == Register(start, s)
    ensures c' == Register(start, s + [a, b, x, d])
  {
    hide ZeroBits, Xor, Register, Hi, Lo, Pow2, Word;
    RegisterWord(start, s, a, b, x, d);
    RegisterBound(start, s);
    WordBound(a, b, x, d);
    XorBound(c, Word(a, b, x, d), 32);
    var w := Xor(c, Word(a, b, x, d));
    WordEntries(t, w);
    c' := Xor(Xor(Xor(t[3, Lo(w, 8)], t[2, Lo(Hi(w, 8), 8)]), t[1, Lo(Hi(w, 16), 8)]), t[0, Hi(w, 24)]);
  }

  /** crc32_little() of a buffer at address addr: the CRC of what came before, continued. */
  method Crc32Little(t: array2<nat>, crc: nat, buf: array<Byte>, addr: nat) returns (r: nat)
    requires Tables(t) && crc < Pow2(32)
    ensures r == Crc32(crc, buf[..])
  {
    hide Xor, Register, Pow2;
    ghost var start := Xor(crc, ONES);
    OnesBound(crc);
    var c, i := Xor(crc, ONES), 0;
    assert buf[..0] == [] && Register(start, []) == start by { RegisterNone(start); }
    while i < buf.Length && (addr + i) % 4 != 0
      invariant 0 <= i <= buf.Length && c == Register(start, buf[..i])
    {
      assert buf[..i + 1] == buf[..i] + [buf[i]];
      c := OneByte(t, c, buf[i], start, buf[..i]);
      i := i + 1;
    }
    while buf.Length - i >= 32
      invariant 0 <= i <= buf.Length && c == Register(start, buf[..i])
      decreases buf.Length - i
    {
      ghost var i0 := i;
      for k := 0 to 8
        invariant i == i0 + 4 * k && c == Register(start, buf[..i])
      {
        assert buf[..i + 4] == buf[..i] + [buf[i], buf[i + 1], buf[i + 2], buf[i + 3]];
        c := FourBytes(t, c, buf[i], buf[i + 1], buf[i + 2], buf[i + 3], start, buf[..i]);
        i := i + 4;
      }
    }
    while buf.Length - i >= 4
      invariant 0 <= i <= buf.Length && c == Register(start, buf[..i])
      decreases buf.Length - i
    {
      assert buf[..i + 4] == buf[..i] + [buf[i], buf[i + 1], buf[i + 2], buf[i + 3]];
      c := FourBytes(t, c, buf[i], buf[i + 1], buf[i + 2], buf[i + 3], start, buf[..i]);
      i := i + 4;
    }
    while i < buf.Length
      invariant 0 <= i <= buf.Length && c == Register(start, buf[..i])
    {
      assert buf[..i + 1] == buf[..i] + [buf[i]];
      c := OneByte(t, c, buf[i], start, buf[..i]);
      i := i + 1;
    }
    assert buf[..i] == buf[..];
    r := Xor(c, ONES);
  }

  lemma RegisterNone(c: nat)
    ensures Register(c, []) == c
  {
  }

  lemma OnesBound(c: nat)
    requires c < Pow2(32)
    ensures Xor(c, ONES) < Pow2(32)
  {
    hide Xor, Pow2;
    Pow2Word();
    XorBound(c, ONES, 32);
  }
}
