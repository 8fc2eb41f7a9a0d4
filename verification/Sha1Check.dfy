/** What SHA-1's functions and constants are, and the digest of "abc", the first test in section 7.3 of RFC 3174. */
module Sha1Check {
  import opened Bytes
  import opened Sha1

  // ----- the functions, bit by bit -----

  function BitOf(x: Word, i: Word): bool
    requires i < 32
  {
    (x >> i) & 1 == 1
  }

  /** The choice by the first, the majority, or the parity of three bits. */
  function Vote(t: nat, b: bool, c: bool, d: bool): bool {
    if t < 20 then (if b then c else d)
    else if 40 <= t < 60 then (if c == d then c else b)
    else (b != c) != d
  }

  lemma FByBits(t: nat, b: Word, c: Word, d: Word, i: Word)
    requires i < 32
    ensures BitOf(F(t, b, c, d), i) == Vote(t, BitOf(b, i), BitOf(c, i), BitOf(d, i))
  {
    hide BitOf;
    if t < 20 {
      ChoiceBit(b, c, d, i);
    } else if 40 <= t < 60 {
      MajorityBit(b, c, d, i);
    } else {
      ParityBit(b, c, d, i);
    }
  }

  lemma ChoiceBit(b: Word, c: Word, d: Word, i: Word)
    requires i < 32
    ensures BitOf((b & c) | (!b & d), i) == if BitOf(b, i) then BitOf(c, i) else BitOf(d, i)
  {
  }

  lemma MajorityBit(b: Word, c: Word, d: Word, i: Word)
    requires i < 32
    ensures BitOf((b & c) | (b & d) | (c & d), i) == if BitOf(c, i) == BitOf(d, i) then BitOf(c, i) else BitOf(b, i)
  {
  }

  lemma ParityBit(b: Word, c: Word, d: Word, i: Word)
    requires i < 32
    ensures BitOf(b ^ c ^ d, i) == ((BitOf(b, i) != BitOf(c, i)) != BitOf(d, i))
  {
  }

  /** The three rotations in use. */
  lemma RotatesBits(x: Word, i: Word)
    requires i < 32
    ensures BitOf(Rotate(1, x), (i + 1) & 31) == BitOf(Rotate(5, x), (i + 5) & 31) == BitOf(x, i)
    ensures BitOf(Rotate(30, x), (i + 30) & 31) == BitOf(x, i)
  {
  }

  // ----- the constants -----

  /** The constants of the rounds are 2^30 times the square roots of 2, 3, 5 and 10, rounded down. */
  lemma RootsInRounds(t: nat)
    requires t < 80
    ensures var n, k := if t < 20 then 2 else if t < 40 then 3 else if t < 60 then 5 else 10, K(t) as nat;
      k * k <= n * 0x1000_0000_0000_0000 < (k + 1) * (k + 1)
  {
  }

  /** The initial state is the sixteen bytes 01, 23 to ef, fe, dc to 10, least significant first, and f0, e1 to c3. */
  lemma StartPattern()
    ensures START.a == BigEndian(0x67, 0x45, 0x23, 0x01) && START.b == BigEndian(0xef, 0xcd, 0xab, 0x89)
    ensures START.c == !START.a && START.d == !START.b && START.e == BigEndian(0xc3, 0xd2, 0xe1, 0xf0)
  {
  }

  // ----- the digest of "abc" -----

  const ABC: seq<Octet> := [0x61, 0x62, 0x63]

  /** The one block that "abc" is padded to. */
  const BLOCK: seq<Octet> := ABC + [0x80] + Repeat<Octet>(0, 52) + [0, 0, 0, 0, 0, 0, 0, 24]

  lemma Padded()
    ensures |BLOCK| == 64 && ABC + Padding(ABC) == BLOCK
  {
    assert LengthBytes(24) == [0, 0, 0, 0, 0, 0, 0, 24] by { LengthOf(); }
    assert Padding(ABC) == [0x80] + Repeat<Octet>(0, 52) + LengthBytes(24);
  }

  lemma LengthOf()
    ensures LengthBytes(24) == [0, 0, 0, 0, 0, 0, 0, 24]
  {
    forall i: nat | i > 0 ensures ByteOf(24, i) == 0 { SmallNumber(24, i); }
    assert ByteOf(24, 0) == 24;
  }

  lemma {:induction false} SmallNumber(x: nat, i: nat)
    requires x < 256 && i > 0
    ensures ByteOf(x, i) == 0
  {
    if i > 1 { SmallNumber(0, i - 1); }
  }

  ghost predicate WordIs(t: nat, w: Word) {
    |BLOCK| == 64 && Schedule(BLOCK, t) == w
  }

  lemma FirstWords()
    ensures WordIs(0, 0x61626380) && WordIs(15, 24)
    ensures forall t: nat :: 0 < t < 15 ==> WordIs(t, 0)
  {
    Padded();
    forall t: nat | t < 16
      ensures Schedule(BLOCK, t) == BlockWord(BLOCK, t)
    {
    }
    assert forall i :: 4 <= i < 63 ==> BLOCK[i] == 0;
    assert BLOCK[63] == 24;
    assert BigEndian(0x61, 0x62, 0x63, 0x80) == 0x61626380 && BigEndian(0, 0, 0, 24) == 24
      && BigEndian(0, 0, 0, 0) == 0;
  }

  lemma NextWordIs(t: nat, p: Word, q: Word, r: Word, s: Word, w: Word)
    requires t >= 16 && WordIs(t - 3, p) && WordIs(t - 8, q) && WordIs(t - 14, r) && WordIs(t - 16, s)
    requires Rotate(1, p ^ q ^ r ^ s) == w
    ensures WordIs(t, w)
  {
  }

  ghost predicate StateIs(t: nat, v: Chain) {
    |BLOCK| == 64 && Rounds(START, BLOCK, t) == v
  }

  lemma NextStateIs(t: nat, v: Chain, w: Word, v': Chain)
    requires StateIs(t, v) && WordIs(t, w) && Round(v, t, w) == v'
    ensures StateIs(t + 1, v')
  {
  }

  lemma Words16()
    ensures WordIs(16, 0xc2c4c700)
    ensures WordIs(17, 0x00000000)
    ensures WordIs(18, 0x00000030)
    ensures WordIs(19, 0x85898e01)
    ensures WordIs(20, 0x00000000)
    ensures WordIs(21, 0x00000060)
    ensures WordIs(22, 0x0b131c03)
    ensures WordIs(23, 0x00000030)
    ensures WordIs(24, 0x85898ec1)
    ensures WordIs(25, 0x16263806)
    ensures WordIs(26, 0x00000000)
    ensures WordIs(27, 0x00000180)
    ensures WordIs(28, 0x2c4c700c)
    ensures WordIs(29, 0x000000f0)
    ensures WordIs(30, 0x93afb507)
    ensures WordIs(31, 0x5898e048)
  {
    hide WordIs;
    FirstWords();
    NextWordIs(16, 0x00000000, 0x00000000, 0x00000000, 0x61626380, 0xc2c4c700);
    NextWordIs(17, 0x00000000, 0x00000000, 0x00000000, 0x00000000, 0x00000000);
    NextWordIs(18, 0x00000018, 0x00000000, 0x00000000, 0x00000000, 0x00000030);
    NextWordIs(19, 0xc2c4c700, 0x00000000, 0x00000000, 0x00000000, 0x85898e01);
    NextWordIs(20, 0x00000000, 0x00000000, 0x00000000, 0x00000000, 0x00000000);
    NextWordIs(21, 0x00000030, 0x00000000, 0x00000000, 0x00000000, 0x00000060);
    NextWordIs(22, 0x85898e01, 0x00000000, 0x00000000, 0x00000000, 0x0b131c03);
    NextWordIs(23, 0x00000000, 0x00000018, 0x00000000, 0x00000000, 0x00000030);
    NextWordIs(24, 0x00000060, 0xc2c4c700, 0x00000000, 0x00000000, 0x85898ec1);
    NextWordIs(25, 0x0b131c03, 0x00000000, 0x00000000, 0x00000000, 0x16263806);
    NextWordIs(26, 0x00000030, 0x00000030, 0x00000000, 0x00000000, 0x00000000);
    NextWordIs(27, 0x85898ec1, 0x85898e01, 0x00000000, 0x00000000, 0x00000180);
    NextWordIs(28, 0x16263806, 0x00000000, 0x00000000, 0x00000000, 0x2c4c700c);
    NextWordIs(29, 0x00000000, 0x00000060, 0x00000018, 0x00000000, 0x000000f0);
    NextWordIs(30, 0x00000180, 0x0b131c03, 0xc2c4c700, 0x00000000, 0x93afb507);
    NextWordIs(31, 0x2c4c700c, 0x00000030, 0x00000000, 0x00000018, 0x5898e048);
  }

  lemma Words32()
    ensures WordIs(32, 0x8e9a9202)
    ensures WordIs(33, 0x00000600)
    ensures WordIs(34, 0xb131c0f0)
    ensures WordIs(35, 0x16263bc6)
    ensures WordIs(36, 0x4ebed41e)
    ensures WordIs(37, 0x626380a1)
    ensures WordIs(38, 0x16263806)
    ensures WordIs(39, 0x000018c0)
    ensures WordIs(40, 0xd2e138c4)
    ensures WordIs(41, 0x00000f00)
    ensures WordIs(42, 0x3afb5079)
    ensures WordIs(43, 0x898e04e5)
    ensures WordIs(44, 0xe2ba3c2b)
    ensures WordIs(45, 0x000060c0)
    ensures WordIs(46, 0x053a37cd)
    ensures WordIs(47, 0x74458547)
  {
    hide WordIs;
    Words16();
    NextWordIs(32, 0x000000f0, 0x85898ec1, 0x00000030, 0xc2c4c700, 0x8e9a9202);
    NextWordIs(33, 0x93afb507, 0x16263806, 0x85898e01, 0x00000000, 0x00000600);
    NextWordIs(34, 0x5898e048, 0x00000000, 0x00000000, 0x00000030, 0xb131c0f0);
    NextWordIs(35, 0x8e9a9202, 0x00000180, 0x00000060, 0x85898e01, 0x16263bc6);
    NextWordIs(36, 0x00000600, 0x2c4c700c, 0x0b131c03, 0x00000000, 0x4ebed41e);
    NextWordIs(37, 0xb131c0f0, 0x000000f0, 0x00000030, 0x00000060, 0x626380a1);
    NextWordIs(38, 0x16263bc6, 0x93afb507, 0x85898ec1, 0x0b131c03, 0x16263806);
    NextWordIs(39, 0x4ebed41e, 0x5898e048, 0x16263806, 0x00000030, 0x000018c0);
    NextWordIs(40, 0x626380a1, 0x8e9a9202, 0x00000000, 0x85898ec1, 0xd2e138c4);
    NextWordIs(41, 0x16263806, 0x00000600, 0x00000180, 0x16263806, 0x00000f00);
    NextWordIs(42, 0x000018c0, 0xb131c0f0, 0x2c4c700c, 0x00000000, 0x3afb5079);
    NextWordIs(43, 0xd2e138c4, 0x16263bc6, 0x000000f0, 0x00000180, 0x898e04e5);
    NextWordIs(44, 0x00000f00, 0x4ebed41e, 0x93afb507, 0x2c4c700c, 0xe2ba3c2b);
    NextWordIs(45, 0x3afb5079, 0x626380a1, 0x5898e048, 0x000000f0, 0x000060c0);
    NextWordIs(46, 0x898e04e5, 0x16263806, 0x8e9a9202, 0x93afb507, 0x053a37cd);
    NextWordIs(47, 0xe2ba3c2b, 0x000018c0, 0x00000600, 0x5898e048, 0x74458547);
  }

  lemma Words48()
    ensures WordIs(48, 0xda9415ed)
    ensures WordIs(49, 0x26380a16)
    ensures WordIs(50, 0x626383a1)
    ensures WordIs(51, 0x4ebf54de)
    ensures WordIs(52, 0x3835b44b)
    ensures WordIs(53, 0x0000f600)
    ensures WordIs(54, 0x1e84c7a3)
    ensures WordIs(55, 0x98e04d98)
    ensures WordIs(56, 0x651d16a0)
    ensures WordIs(57, 0x62658ca1)
    ensures WordIs(58, 0x458544d6)
    ensures WordIs(59, 0x44584cb7)
    ensures WordIs(60, 0x7ba06619)
    ensures WordIs(61, 0x6380aea2)
    ensures WordIs(62, 0x0ae55269)
    ensures WordIs(63, 0x627b49a1)
  {
    hide WordIs;
    Words32();
    NextWordIs(48, 0x000060c0, 0xd2e138c4, 0xb131c0f0, 0x8e9a9202, 0xda9415ed);
    NextWordIs(49, 0x053a37cd, 0x00000f00, 0x16263bc6, 0x00000600, 0x26380a16);
    NextWordIs(50, 0x74458547, 0x3afb5079, 0x4ebed41e, 0xb131c0f0, 0x626383a1);
    NextWordIs(51, 0xda9415ed, 0x898e04e5, 0x626380a1, 0x16263bc6, 0x4ebf54de);
    NextWordIs(52, 0x26380a16, 0xe2ba3c2b, 0x16263806, 0x4ebed41e, 0x3835b44b);
    NextWordIs(53, 0x626383a1, 0x000060c0, 0x000018c0, 0x626380a1, 0x0000f600);
    NextWordIs(54, 0x4ebf54de, 0x053a37cd, 0xd2e138c4, 0x16263806, 0x1e84c7a3);
    NextWordIs(55, 0x3835b44b, 0x74458547, 0x00000f00, 0x000018c0, 0x98e04d98);
    NextWordIs(56, 0x0000f600, 0xda9415ed, 0x3afb5079, 0xd2e138c4, 0x651d16a0);
    NextWordIs(57, 0x1e84c7a3, 0x26380a16, 0x898e04e5, 0x00000f00, 0x62658ca1);
    NextWordIs(58, 0x98e04d98, 0x626383a1, 0xe2ba3c2b, 0x3afb5079, 0x458544d6);
    NextWordIs(59, 0x651d16a0, 0x4ebf54de, 0x000060c0, 0x898e04e5, 0x44584cb7);
    NextWordIs(60, 0x62658ca1, 0x3835b44b, 0x053a37cd, 0xe2ba3c2b, 0x7ba06619);
    NextWordIs(61, 0x458544d6, 0x0000f600, 0x74458547, 0x000060c0, 0x6380aea2);
    NextWordIs(62, 0x44584cb7, 0x1e84c7a3, 0xda9415ed, 0x053a37cd, 0x0ae55269);
    NextWordIs(63, 0x7ba06619, 0x98e04d98, 0x26380a16, 0x74458547, 0x627b49a1);
  }

  lemma Words64()
    ensures WordIs(64, 0x7cd45c9d)
    ensures WordIs(65, 0x000f0000)
    ensures WordIs(66, 0xfb50753a)
    ensures WordIs(67, 0xec6765e8)
    ensures WordIs(68, 0xba3c2be2)
    ensures WordIs(69, 0x0060c000)
    ensures WordIs(70, 0x3a37cd05)
    ensures WordIs(71, 0x458546f4)
    ensures WordIs(72, 0xb8599dd6)
    ensures WordIs(73, 0x380a1a26)
    ensures WordIs(74, 0x01e02203)
    ensures WordIs(75, 0xe7cc3456)
    ensures WordIs(76, 0xe6e60b69)
    ensures WordIs(77, 0x00f60a00)
    ensures WordIs(78, 0x5795ef4f)
    ensures WordIs(79, 0x822e0879)
  {
    hide WordIs;
    Words48();
    NextWordIs(64, 0x6380aea2, 0x651d16a0, 0x626383a1, 0xda9415ed, 0x7cd45c9d);
    NextWordIs(65, 0x0ae55269, 0x62658ca1, 0x4ebf54de, 0x26380a16, 0x000f0000);
    NextWordIs(66, 0x627b49a1, 0x458544d6, 0x3835b44b, 0x626383a1, 0xfb50753a);
    NextWordIs(67, 0x7cd45c9d, 0x44584cb7, 0x0000f600, 0x4ebf54de, 0xec6765e8);
    NextWordIs(68, 0x000f0000, 0x7ba06619, 0x1e84c7a3, 0x3835b44b, 0xba3c2be2);
    NextWordIs(69, 0xfb50753a, 0x6380aea2, 0x98e04d98, 0x0000f600, 0x0060c000);
    NextWordIs(70, 0xec6765e8, 0x0ae55269, 0x651d16a0, 0x1e84c7a3, 0x3a37cd05);
    NextWordIs(71, 0xba3c2be2, 0x627b49a1, 0x62658ca1, 0x98e04d98, 0x458546f4);
    NextWordIs(72, 0x0060c000, 0x7cd45c9d, 0x458544d6, 0x651d16a0, 0xb8599dd6);
    NextWordIs(73, 0x3a37cd05, 0x000f0000, 0x44584cb7, 0x62658ca1, 0x380a1a26);
    NextWordIs(74, 0x458546f4, 0xfb50753a, 0x7ba06619, 0x458544d6, 0x01e02203);
    NextWordIs(75, 0xb8599dd6, 0xec6765e8, 0x6380aea2, 0x44584cb7, 0xe7cc3456);
    NextWordIs(76, 0x380a1a26, 0xba3c2be2, 0x0ae55269, 0x7ba06619, 0xe6e60b69);
    NextWordIs(77, 0x01e02203, 0x0060c000, 0x627b49a1, 0x6380aea2, 0x00f60a00);
    NextWordIs(78, 0xe7cc3456, 0x3a37cd05, 0x7cd45c9d, 0x0ae55269, 0x5795ef4f);
    NextWordIs(79, 0xe6e60b69, 0x458546f4, 0x000f0000, 0x627b49a1, 0x822e0879);
  }

  lemma States0()
    ensures StateIs(10, Chain(0x8351f929, 0x4b6ae328, 0x27a301f5, 0x664f8c30, 0x0ff1f290))
  {
    hide WordIs, StateIs;
    FirstWords();
    StartState();
    NextStateIs(0, Chain(0x67452301, 0xefcdab89, 0x98badcfe, 0x10325476, 0xc3d2e1f0), 0x61626380,
      Chain(0x0116fc33, 0x67452301, 0x7bf36ae2, 0x98badcfe, 0x10325476));
    NextStateIs(1, Chain(0x0116fc33, 0x67452301, 0x7bf36ae2, 0x98badcfe, 0x10325476), 0x00000000,
      Chain(0x8990536d, 0x0116fc33, 0x59d148c0, 0x7bf36ae2, 0x98badcfe));
    NextStateIs(2, Chain(0x8990536d, 0x0116fc33, 0x59d148c0, 0x7bf36ae2, 0x98badcfe), 0x00000000,
      Chain(0xa1390f08, 0x8990536d, 0xc045bf0c, 0x59d148c0, 0x7bf36ae2));
    NextStateIs(3, Chain(0xa1390f08, 0x8990536d, 0xc045bf0c, 0x59d148c0, 0x7bf36ae2), 0x00000000,
      Chain(0xcdd8e11b, 0xa1390f08, 0x626414db, 0xc045bf0c, 0x59d148c0));
    NextStateIs(4, Chain(0xcdd8e11b, 0xa1390f08, 0x626414db, 0xc045bf0c, 0x59d148c0), 0x00000000,
      Chain(0xcfd499de, 0xcdd8e11b, 0x284e43c2, 0x626414db, 0xc045bf0c));
    NextStateIs(5, Chain(0xcfd499de, 0xcdd8e11b, 0x284e43c2, 0x626414db, 0xc045bf0c), 0x00000000,
      Chain(0x3fc7ca40, 0xcfd499de, 0xf3763846, 0x284e43c2, 0x626414db));
    NextStateIs(6, Chain(0x3fc7ca40, 0xcfd499de, 0xf3763846, 0x284e43c2, 0x626414db), 0x00000000,
      Chain(0x993e30c1, 0x3fc7ca40, 0xb3f52677, 0xf3763846, 0x284e43c2));
    NextStateIs(7, Chain(0x993e30c1, 0x3fc7ca40, 0xb3f52677, 0xf3763846, 0x284e43c2), 0x00000000,
      Chain(0x9e8c07d4, 0x993e30c1, 0x0ff1f290, 0xb3f52677, 0xf3763846));
    NextStateIs(8, Chain(0x9e8c07d4, 0x993e30c1, 0x0ff1f290, 0xb3f52677, 0xf3763846), 0x00000000,
      Chain(0x4b6ae328, 0x9e8c07d4, 0x664f8c30, 0x0ff1f290, 0xb3f52677));
    NextStateIs(9, Chain(0x4b6ae328, 0x9e8c07d4, 0x664f8c30, 0x0ff1f290, 0xb3f52677), 0x00000000,
      Chain(0x8351f929, 0x4b6ae328, 0x27a301f5, 0x664f8c30, 0x0ff1f290));
  }

  lemma States10()
    requires StateIs(10, Chain(0x8351f929, 0x4b6ae328, 0x27a301f5, 0x664f8c30, 0x0ff1f290))
    ensures StateIs(20, Chain(0xfd9e1d7d, 0xdc64901d, 0x20aa99ca, 0xd3a49608, 0xc82f758b))
  {
    hide WordIs, StateIs;
    FirstWords();
    Words16();
    NextStateIs(10, Chain(0x8351f929, 0x4b6ae328, 0x27a301f5, 0x664f8c30, 0x0ff1f290), 0x00000000,
      Chain(0xfbda9e89, 0x8351f929, 0x12dab8ca, 0x27a301f5, 0x664f8c30));
    NextStateIs(11, Chain(0xfbda9e89, 0x8351f929, 0x12dab8ca, 0x27a301f5, 0x664f8c30), 0x00000000,
      Chain(0x63188fe4, 0xfbda9e89, 0x60d47e4a, 0x12dab8ca, 0x27a301f5));
    NextStateIs(12, Chain(0x63188fe4, 0xfbda9e89, 0x60d47e4a, 0x12dab8ca, 0x27a301f5), 0x00000000,
      Chain(0x4607b664, 0x63188fe4, 0x7ef6a7a2, 0x60d47e4a, 0x12dab8ca));
    NextStateIs(13, Chain(0x4607b664, 0x63188fe4, 0x7ef6a7a2, 0x60d47e4a, 0x12dab8ca), 0x00000000,
      Chain(0x9128f695, 0x4607b664, 0x18c623f9, 0x7ef6a7a2, 0x60d47e4a));
    NextStateIs(14, Chain(0x9128f695, 0x4607b664, 0x18c623f9, 0x7ef6a7a2, 0x60d47e4a), 0x00000000,
      Chain(0x196bee77, 0x9128f695, 0x1181ed99, 0x18c623f9, 0x7ef6a7a2));
    NextStateIs(15, Chain(0x196bee77, 0x9128f695, 0x1181ed99, 0x18c623f9, 0x7ef6a7a2), 0x00000018,
      Chain(0x20bdd62f, 0x196bee77, 0x644a3da5, 0x1181ed99, 0x18c623f9));
    NextStateIs(16, Chain(0x20bdd62f, 0x196bee77, 0x644a3da5, 0x1181ed99, 0x18c623f9), 0xc2c4c700,
      Chain(0x4e925823, 0x20bdd62f, 0xc65afb9d, 0x644a3da5, 0x1181ed99));
    NextStateIs(17, Chain(0x4e925823, 0x20bdd62f, 0xc65afb9d, 0x644a3da5, 0x1181ed99), 0x00000000,
      Chain(0x82aa6728, 0x4e925823, 0xc82f758b, 0xc65afb9d, 0x644a3da5));
    NextStateIs(18, Chain(0x82aa6728, 0x4e925823, 0xc82f758b, 0xc65afb9d, 0x644a3da5), 0x00000030,
      Chain(0xdc64901d, 0x82aa6728, 0xd3a49608, 0xc82f758b, 0xc65afb9d));
    NextStateIs(19, Chain(0xdc64901d, 0x82aa6728, 0xd3a49608, 0xc82f758b, 0xc65afb9d), 0x85898e01,
      Chain(0xfd9e1d7d, 0xdc64901d, 0x20aa99ca, 0xd3a49608, 0xc82f758b));
  }

  lemma States20()
    requires StateIs(20, Chain(0xfd9e1d7d, 0xdc64901d, 0x20aa99ca, 0xd3a49608, 0xc82f758b))
    ensures StateIs(30, Chain(0xc5fbaf5d, 0x8370b52e, 0xd2aa1365, 0x6f8d7ef5, 0x12104ee9))
  {
    hide WordIs, StateIs;
    Words16();
    NextStateIs(20, Chain(0xfd9e1d7d, 0xdc64901d, 0x20aa99ca, 0xd3a49608, 0xc82f758b), 0x00000000,
      Chain(0x1a37b0ca, 0xfd9e1d7d, 0x77192407, 0x20aa99ca, 0xd3a49608));
    NextStateIs(21, Chain(0x1a37b0ca, 0xfd9e1d7d, 0x77192407, 0x20aa99ca, 0xd3a49608), 0x00000060,
      Chain(0x33a23bfc, 0x1a37b0ca, 0x7f67875f, 0x77192407, 0x20aa99ca));
    NextStateIs(22, Chain(0x33a23bfc, 0x1a37b0ca, 0x7f67875f, 0x77192407, 0x20aa99ca), 0x0b131c03,
      Chain(0x21283486, 0x33a23bfc, 0x868dec32, 0x7f67875f, 0x77192407));
    NextStateIs(23, Chain(0x21283486, 0x33a23bfc, 0x868dec32, 0x7f67875f, 0x77192407), 0x00000030,
      Chain(0xd541f12d, 0x21283486, 0x0ce88eff, 0x868dec32, 0x7f67875f));
    NextStateIs(24, Chain(0xd541f12d, 0x21283486, 0x0ce88eff, 0x868dec32, 0x7f67875f), 0x85898ec1,
      Chain(0xc7567dc6, 0xd541f12d, 0x884a0d21, 0x0ce88eff, 0x868dec32));
    NextStateIs(25, Chain(0xc7567dc6, 0xd541f12d, 0x884a0d21, 0x0ce88eff, 0x868dec32), 0x16263806,
      Chain(0x48413ba4, 0xc7567dc6, 0x75507c4b, 0x884a0d21, 0x0ce88eff));
    NextStateIs(26, Chain(0x48413ba4, 0xc7567dc6, 0x75507c4b, 0x884a0d21, 0x0ce88eff), 0x00000000,
      Chain(0xbe35fbd5, 0x48413ba4, 0xb1d59f71, 0x75507c4b, 0x884a0d21));
    NextStateIs(27, Chain(0xbe35fbd5, 0x48413ba4, 0xb1d59f71, 0x75507c4b, 0x884a0d21), 0x00000180,
      Chain(0x4aa84d97, 0xbe35fbd5, 0x12104ee9, 0xb1d59f71, 0x75507c4b));
    NextStateIs(28, Chain(0x4aa84d97, 0xbe35fbd5, 0x12104ee9, 0xb1d59f71, 0x75507c4b), 0x2c4c700c,
      Chain(0x8370b52e, 0x4aa84d97, 0x6f8d7ef5, 0x12104ee9, 0xb1d59f71));
    NextStateIs(29, Chain(0x8370b52e, 0x4aa84d97, 0x6f8d7ef5, 0x12104ee9, 0xb1d59f71), 0x000000f0,
      Chain(0xc5fbaf5d, 0x8370b52e, 0xd2aa1365, 0x6f8d7ef5, 0x12104ee9));
  }

  lemma States30()
    requires StateIs(30, Chain(0xc5fbaf5d, 0x8370b52e, 0xd2aa1365, 0x6f8d7ef5, 0x12104ee9))
    ensures StateIs(40, Chain(0x32de1cba, 0x4c986405, 0xf718e5cf, 0x03d447f6, 0xf72eec32))
  {
    hide WordIs, StateIs;
    Words16();
    Words32();
    NextStateIs(30, Chain(0xc5fbaf5d, 0x8370b52e, 0xd2aa1365, 0x6f8d7ef5, 0x12104ee9), 0x93afb507,
      Chain(0x1267b407, 0xc5fbaf5d, 0xa0dc2d4b, 0xd2aa1365, 0x6f8d7ef5));
    NextStateIs(31, Chain(0x1267b407, 0xc5fbaf5d, 0xa0dc2d4b, 0xd2aa1365, 0x6f8d7ef5), 0x5898e048,
      Chain(0x3b845d33, 0x1267b407, 0x717eebd7, 0xa0dc2d4b, 0xd2aa1365));
    NextStateIs(32, Chain(0x3b845d33, 0x1267b407, 0x717eebd7, 0xa0dc2d4b, 0xd2aa1365), 0x8e9a9202,
      Chain(0x046faa0a, 0x3b845d33, 0xc499ed01, 0x717eebd7, 0xa0dc2d4b));
    NextStateIs(33, Chain(0x046faa0a, 0x3b845d33, 0xc499ed01, 0x717eebd7, 0xa0dc2d4b), 0x00000600,
      Chain(0x2c0ebc11, 0x046faa0a, 0xcee1174c, 0xc499ed01, 0x717eebd7));
    NextStateIs(34, Chain(0x2c0ebc11, 0x046faa0a, 0xcee1174c, 0xc499ed01, 0x717eebd7), 0xb131c0f0,
      Chain(0x21796ad4, 0x2c0ebc11, 0x811bea82, 0xcee1174c, 0xc499ed01));
    NextStateIs(35, Chain(0x21796ad4, 0x2c0ebc11, 0x811bea82, 0xcee1174c, 0xc499ed01), 0x16263bc6,
      Chain(0xdcbbb0cb, 0x21796ad4, 0x4b03af04, 0x811bea82, 0xcee1174c));
    NextStateIs(36, Chain(0xdcbbb0cb, 0x21796ad4, 0x4b03af04, 0x811bea82, 0xcee1174c), 0x4ebed41e,
      Chain(0x0f511fd8, 0xdcbbb0cb, 0x085e5ab5, 0x4b03af04, 0x811bea82));
    NextStateIs(37, Chain(0x0f511fd8, 0xdcbbb0cb, 0x085e5ab5, 0x4b03af04, 0x811bea82), 0x626380a1,
      Chain(0xdc63973f, 0x0f511fd8, 0xf72eec32, 0x085e5ab5, 0x4b03af04));
    NextStateIs(38, Chain(0xdc63973f, 0x0f511fd8, 0xf72eec32, 0x085e5ab5, 0x4b03af04), 0x16263806,
      Chain(0x4c986405, 0xdc63973f, 0x03d447f6, 0xf72eec32, 0x085e5ab5));
    NextStateIs(39, Chain(0x4c986405, 0xdc63973f, 0x03d447f6, 0xf72eec32, 0x085e5ab5), 0x000018c0,
      Chain(0x32de1cba, 0x4c986405, 0xf718e5cf, 0x03d447f6, 0xf72eec32));
  }

  lemma States40()
    requires StateIs(40, Chain(0x32de1cba, 0x4c986405, 0xf718e5cf, 0x03d447f6, 0xf72eec32))
    ensures StateIs(50, Chain(0x120731c5, 0xbaf39337, 0xafab40b2, 0x2806e11b, 0x8714787c))
  {
    hide WordIs, StateIs;
    Words32();
    Words48();
    NextStateIs(40, Chain(0x32de1cba, 0x4c986405, 0xf718e5cf, 0x03d447f6, 0xf72eec32), 0xd2e138c4,
      Chain(0xfc87dedf, 0x32de1cba, 0x53261901, 0xf718e5cf, 0x03d447f6));
    NextStateIs(41, Chain(0xfc87dedf, 0x32de1cba, 0x53261901, 0xf718e5cf, 0x03d447f6), 0x00000f00,
      Chain(0x970a0d5c, 0xfc87dedf, 0x8cb7872e, 0x53261901, 0xf718e5cf));
    NextStateIs(42, Chain(0x970a0d5c, 0xfc87dedf, 0x8cb7872e, 0x53261901, 0xf718e5cf), 0x3afb5079,
      Chain(0x7f193dc5, 0x970a0d5c, 0xff21f7b7, 0x8cb7872e, 0x53261901));
    NextStateIs(43, Chain(0x7f193dc5, 0x970a0d5c, 0xff21f7b7, 0x8cb7872e, 0x53261901), 0x898e04e5,
      Chain(0xee1b1aaf, 0x7f193dc5, 0x25c28357, 0xff21f7b7, 0x8cb7872e));
    NextStateIs(44, Chain(0xee1b1aaf, 0x7f193dc5, 0x25c28357, 0xff21f7b7, 0x8cb7872e), 0xe2ba3c2b,
      Chain(0x40f28e09, 0xee1b1aaf, 0x5fc64f71, 0x25c28357, 0xff21f7b7));
    NextStateIs(45, Chain(0x40f28e09, 0xee1b1aaf, 0x5fc64f71, 0x25c28357, 0xff21f7b7), 0x000060c0,
      Chain(0x1c51e1f2, 0x40f28e09, 0xfb86c6ab, 0x5fc64f71, 0x25c28357));
    NextStateIs(46, Chain(0x1c51e1f2, 0x40f28e09, 0xfb86c6ab, 0x5fc64f71, 0x25c28357), 0x053a37cd,
      Chain(0xa01b846c, 0x1c51e1f2, 0x503ca382, 0xfb86c6ab, 0x5fc64f71));
    NextStateIs(47, Chain(0xa01b846c, 0x1c51e1f2, 0x503ca382, 0xfb86c6ab, 0x5fc64f71), 0x74458547,
      Chain(0xbead02ca, 0xa01b846c, 0x8714787c, 0x503ca382, 0xfb86c6ab));
    NextStateIs(48, Chain(0xbead02ca, 0xa01b846c, 0x8714787c, 0x503ca382, 0xfb86c6ab), 0xda9415ed,
      Chain(0xbaf39337, 0xbead02ca, 0x2806e11b, 0x8714787c, 0x503ca382));
    NextStateIs(49, Chain(0xbaf39337, 0xbead02ca, 0x2806e11b, 0x8714787c, 0x503ca382), 0x26380a16,
      Chain(0x120731c5, 0xbaf39337, 0xafab40b2, 0x2806e11b, 0x8714787c));
  }

  lemma States50()
    requires StateIs(50, Chain(0x120731c5, 0xbaf39337, 0xafab40b2, 0x2806e11b, 0x8714787c))
    ensures StateIs(60, Chain(0x3f52de5a, 0x09d785fd, 0x3498bfd4, 0xf211824f, 0xd79915ab))
  {
    hide WordIs, StateIs;
    Words48();
    NextStateIs(50, Chain(0x120731c5, 0xbaf39337, 0xafab40b2, 0x2806e11b, 0x8714787c), 0x626383a1,
      Chain(0x641db2ce, 0x120731c5, 0xeebce4cd, 0xafab40b2, 0x2806e11b));
    NextStateIs(51, Chain(0x641db2ce, 0x120731c5, 0xeebce4cd, 0xafab40b2, 0x2806e11b), 0x4ebf54de,
      Chain(0x3847ad66, 0x641db2ce, 0x4481cc71, 0xeebce4cd, 0xafab40b2));
    NextStateIs(52, Chain(0x3847ad66, 0x641db2ce, 0x4481cc71, 0xeebce4cd, 0xafab40b2), 0x3835b44b,
      Chain(0xe490436d, 0x3847ad66, 0x99076cb3, 0x4481cc71, 0xeebce4cd));
    NextStateIs(53, Chain(0xe490436d, 0x3847ad66, 0x99076cb3, 0x4481cc71, 0xeebce4cd), 0x0000f600,
      Chain(0x27e9f1d8, 0xe490436d, 0x8e11eb59, 0x99076cb3, 0x4481cc71));
    NextStateIs(54, Chain(0x27e9f1d8, 0xe490436d, 0x8e11eb59, 0x99076cb3, 0x4481cc71), 0x1e84c7a3,
      Chain(0x7b71f76d, 0x27e9f1d8, 0x792410db, 0x8e11eb59, 0x99076cb3));
    NextStateIs(55, Chain(0x7b71f76d, 0x27e9f1d8, 0x792410db, 0x8e11eb59, 0x99076cb3), 0x98e04d98,
      Chain(0x5e6456af, 0x7b71f76d, 0x09fa7c76, 0x792410db, 0x8e11eb59));
    NextStateIs(56, Chain(0x5e6456af, 0x7b71f76d, 0x09fa7c76, 0x792410db, 0x8e11eb59), 0x651d16a0,
      Chain(0xc846093f, 0x5e6456af, 0x5edc7ddb, 0x09fa7c76, 0x792410db));
    NextStateIs(57, Chain(0xc846093f, 0x5e6456af, 0x5edc7ddb, 0x09fa7c76, 0x792410db), 0x62658ca1,
      Chain(0xd262ff50, 0xc846093f, 0xd79915ab, 0x5edc7ddb, 0x09fa7c76));
    NextStateIs(58, Chain(0xd262ff50, 0xc846093f, 0xd79915ab, 0x5edc7ddb, 0x09fa7c76), 0x458544d6,
      Chain(0x09d785fd, 0xd262ff50, 0xf211824f, 0xd79915ab, 0x5edc7ddb));
    NextStateIs(59, Chain(0x09d785fd, 0xd262ff50, 0xf211824f, 0xd79915ab, 0x5edc7ddb), 0x44584cb7,
      Chain(0x3f52de5a, 0x09d785fd, 0x3498bfd4, 0xf211824f, 0xd79915ab));
  }

  lemma States60()
    requires StateIs(60, Chain(0x3f52de5a, 0x09d785fd, 0x3498bfd4, 0xf211824f, 0xd79915ab))
    ensures StateIs(70, Chain(0x3f2588c2, 0x497093c0, 0xde37534a, 0x030f7cad, 0x4405957e))
  {
    hide WordIs, StateIs;
    Words48();
    Words64();
    NextStateIs(60, Chain(0x3f52de5a, 0x09d785fd, 0x3498bfd4, 0xf211824f, 0xd79915ab), 0x7ba06619,
      Chain(0xd756c147, 0x3f52de5a, 0x4275e17f, 0x3498bfd4, 0xf211824f));
    NextStateIs(61, Chain(0xd756c147, 0x3f52de5a, 0x4275e17f, 0x3498bfd4, 0xf211824f), 0x6380aea2,
      Chain(0x548c9cb2, 0xd756c147, 0x8fd4b796, 0x4275e17f, 0x3498bfd4));
    NextStateIs(62, Chain(0x548c9cb2, 0xd756c147, 0x8fd4b796, 0x4275e17f, 0x3498bfd4), 0x0ae55269,
      Chain(0xb66c020b, 0x548c9cb2, 0xf5d5b051, 0x8fd4b796, 0x4275e17f));
    NextStateIs(63, Chain(0xb66c020b, 0x548c9cb2, 0xf5d5b051, 0x8fd4b796, 0x4275e17f), 0x627b49a1,
      Chain(0x6b61c9e1, 0xb66c020b, 0x9523272c, 0xf5d5b051, 0x8fd4b796));
    NextStateIs(64, Chain(0x6b61c9e1, 0xb66c020b, 0x9523272c, 0xf5d5b051, 0x8fd4b796), 0x7cd45c9d,
      Chain(0x19dfa7ac, 0x6b61c9e1, 0xed9b0082, 0x9523272c, 0xf5d5b051));
    NextStateIs(65, Chain(0x19dfa7ac, 0x6b61c9e1, 0xed9b0082, 0x9523272c, 0xf5d5b051), 0x000f0000,
      Chain(0x101655f9, 0x19dfa7ac, 0x5ad87278, 0xed9b0082, 0x9523272c));
    NextStateIs(66, Chain(0x101655f9, 0x19dfa7ac, 0x5ad87278, 0xed9b0082, 0x9523272c), 0xfb50753a,
      Chain(0x0c3df2b4, 0x101655f9, 0x0677e9eb, 0x5ad87278, 0xed9b0082));
    NextStateIs(67, Chain(0x0c3df2b4, 0x101655f9, 0x0677e9eb, 0x5ad87278, 0xed9b0082), 0xec6765e8,
      Chain(0x78dd4d2b, 0x0c3df2b4, 0x4405957e, 0x0677e9eb, 0x5ad87278));
    NextStateIs(68, Chain(0x78dd4d2b, 0x0c3df2b4, 0x4405957e, 0x0677e9eb, 0x5ad87278), 0xba3c2be2,
      Chain(0x497093c0, 0x78dd4d2b, 0x030f7cad, 0x4405957e, 0x0677e9eb));
    NextStateIs(69, Chain(0x497093c0, 0x78dd4d2b, 0x030f7cad, 0x4405957e, 0x0677e9eb), 0x0060c000,
      Chain(0x3f2588c2, 0x497093c0, 0xde37534a, 0x030f7cad, 0x4405957e));
  }

  lemma States70()
    requires StateIs(70, Chain(0x3f2588c2, 0x497093c0, 0xde37534a, 0x030f7cad, 0x4405957e))
    ensures StateIs(80, Chain(0x42541b35, 0x5738d5e1, 0x21834873, 0x681e6df6, 0xd8fdf6ad))
  {
    hide WordIs, StateIs;
    Words64();
    NextStateIs(70, Chain(0x3f2588c2, 0x497093c0, 0xde37534a, 0x030f7cad, 0x4405957e), 0x3a37cd05,
      Chain(0xc199f8c7, 0x3f2588c2, 0x125c24f0, 0xde37534a, 0x030f7cad));
    NextStateIs(71, Chain(0xc199f8c7, 0x3f2588c2, 0x125c24f0, 0xde37534a, 0x030f7cad), 0x458546f4,
      Chain(0x39859de7, 0xc199f8c7, 0x8fc96230, 0x125c24f0, 0xde37534a));
    NextStateIs(72, Chain(0x39859de7, 0xc199f8c7, 0x8fc96230, 0x125c24f0, 0xde37534a), 0xb8599dd6,
      Chain(0xedb42de4, 0x39859de7, 0xf0667e31, 0x8fc96230, 0x125c24f0));
    NextStateIs(73, Chain(0xedb42de4, 0x39859de7, 0xf0667e31, 0x8fc96230, 0x125c24f0), 0x380a1a26,
      Chain(0x11793f6f, 0xedb42de4, 0xce616779, 0xf0667e31, 0x8fc96230));
    NextStateIs(74, Chain(0x11793f6f, 0xedb42de4, 0xce616779, 0xf0667e31, 0x8fc96230), 0x01e02203,
      Chain(0x5ee76897, 0x11793f6f, 0x3b6d0b79, 0xce616779, 0xf0667e31));
    NextStateIs(75, Chain(0x5ee76897, 0x11793f6f, 0x3b6d0b79, 0xce616779, 0xf0667e31), 0xe7cc3456,
      Chain(0x63f7dab7, 0x5ee76897, 0xc45e4fdb, 0x3b6d0b79, 0xce616779));
    NextStateIs(76, Chain(0x63f7dab7, 0x5ee76897, 0xc45e4fdb, 0x3b6d0b79, 0xce616779), 0xe6e60b69,
      Chain(0xa079b7d9, 0x63f7dab7, 0xd7b9da25, 0xc45e4fdb, 0x3b6d0b79));
    NextStateIs(77, Chain(0xa079b7d9, 0x63f7dab7, 0xd7b9da25, 0xc45e4fdb, 0x3b6d0b79), 0x00f60a00,
      Chain(0x860d21cc, 0xa079b7d9, 0xd8fdf6ad, 0xd7b9da25, 0xc45e4fdb));
    NextStateIs(78, Chain(0x860d21cc, 0xa079b7d9, 0xd8fdf6ad, 0xd7b9da25, 0xc45e4fdb), 0x5795ef4f,
      Chain(0x5738d5e1, 0x860d21cc, 0x681e6df6, 0xd8fdf6ad, 0xd7b9da25));
    NextStateIs(79, Chain(0x5738d5e1, 0x860d21cc, 0x681e6df6, 0xd8fdf6ad, 0xd7b9da25), 0x822e0879,
      Chain(0x42541b35, 0x5738d5e1, 0x21834873, 0x681e6df6, 0xd8fdf6ad));
  }

  lemma StartState()
    ensures StateIs(0, START)
  {
    Padded();
  }

  /** The state after "abc". */
  lemma AbcState()
    ensures Sha1Of(ABC) == Chain(0xa9993e36, 0x4706816a, 0xba3e2571, 0x7850c26c, 0x9cd0d89d)
  {
    hide StateIs;
    States0();
    States10();
    States20();
    States30();
    States40();
    States50();
    States60();
    States70();
    StateFinal();
  }

  lemma StateFinal()
    requires StateIs(80, Chain(0x42541b35, 0x5738d5e1, 0x21834873, 0x681e6df6, 0xd8fdf6ad))
    ensures Sha1Of(ABC) == Chain(0xa9993e36, 0x4706816a, 0xba3e2571, 0x7850c26c, 0x9cd0d89d)
  {
    hide Rounds;
    Padded();
    assert BLOCK[..0] == [] && BLOCK[0..] == BLOCK;
    assert HashBlocks([]) == START;
  }

  /** The digest of "abc", computed from any cutting of it into pieces. */
  method AbcDigest(pieces: seq<seq<Octet>>) returns (digest: seq<Octet>)
    requires Joined(pieces) == ABC
    ensures digest == [
      0xa9, 0x99, 0x3e, 0x36, 0x47, 0x06, 0x81, 0x6a, 0xba, 0x3e,
      0x25, 0x71, 0x78, 0x50, 0xc2, 0x6c, 0x9c, 0xd0, 0xd8, 0x9d]
  {
    hide Sha1Of, HashBlocks, IsDigest;
    AbcState();
    digest := Digest(pieces);
    AbcIsDigest();
    DigestUnique(digest, [
      0xa9, 0x99, 0x3e, 0x36, 0x47, 0x06, 0x81, 0x6a, 0xba, 0x3e,
      0x25, 0x71, 0x78, 0x50, 0xc2, 0x6c, 0x9c, 0xd0, 0xd8, 0x9d], Chain(0xa9993e36, 0x4706816a, 0xba3e2571, 0x7850c26c,
        0x9cd0d89d));
  }

  lemma AbcIsDigest()
    ensures IsDigest([
      0xa9, 0x99, 0x3e, 0x36, 0x47, 0x06, 0x81, 0x6a, 0xba, 0x3e,
      0x25, 0x71, 0x78, 0x50, 0xc2, 0x6c, 0x9c, 0xd0, 0xd8, 0x9d], Chain(0xa9993e36, 0x4706816a, 0xba3e2571, 0x7850c26c,
        0x9cd0d89d))
  {
  }
}
