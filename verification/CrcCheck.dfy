/** What every message's CRC-32 leaves in the register, and the check value: the CRC of the digits 1 to 9. */
module CrcCheck {
  import opened Bits
  import opened Xors
  import opened Bytes
  import opened Crc
  import CrcTable

  // ----- registers as machine words -----

  type Word = bv32

  function Odd(x: Word): bool {
    x & 1 == 1
  }

  function Half(x: Word): Word {
    x >> 1
  }

  function Mix(x: Word, y: Word): Word {
    x ^ y
  }

  /** The number a word stands for. */
  function Val(x: Word): nat {
    if x == 0 then 0 else (if Odd(x) then 1 else 0) + 2 * Val(Half(x))
  }

  /** One zero bit. */
  function Step(c: Word): Word {
    if Odd(c) then Mix(0xedb88320, Half(c)) else Half(c)
  }

  lemma MixHalf(x: Word, y: Word)
    ensures Half(Mix(x, y)) == Mix(Half(x), Half(y)) && (Odd(Mix(x, y)) <==> Odd(x) != Odd(y))
    ensures Mix(0, 0) == 0
  {
  }

  lemma NoBits(x: Word)
    requires !Odd(x) && Half(x) == 0
    ensures x == 0
  {
  }

  lemma {:induction false} ZeroOnly(x: Word)
    requires Val(x) == 0
    ensures x == 0
  {
    if x != 0 {
      ZeroOnly(Half(x));
      NoBits(x);
    }
  }

  lemma ValHalf(x: Word)
    ensures Val(x) / 2 == Val(Half(x)) && Val(x) % 2 == if Odd(x) then 1 else 0
  {
  }

  lemma {:induction false} XorVal(x: Word, y: Word)
    ensures Xor(Val(x), Val(y)) == Val(Mix(x, y))
    decreases Val(x) + Val(y)
  {
    hide Odd, Half, Mix, Val;
    MixHalf(x, y);
    ValHalf(x);
    ValHalf(y);
    if Val(x) != 0 || Val(y) != 0 {
      XorVal(Half(x), Half(y));
      XorHalf(Val(x), Val(y));
      ValHalf(Mix(x, y));
    } else {
      ZeroOnly(x);
      ZeroOnly(y);
      XorZero(Val(x));
    }
  }

  function Up(h: Word, b: bool): Word {
    (h << 1) | (if b then 1 else 0)
  }

  lemma UpBit(h: Word, b: bool)
    requires h < 0x8000_0000
    ensures Val(Up(h, b)) == 2 * Val(h) + if b then 1 else 0
  {
    hide Val;
    ValHalf(Up(h, b));
  }

  /** Four more bits. */
  lemma Digit(h: Word, a: bool, b: bool, c: bool, d: bool)
    requires h < 0x1000_0000
    ensures Val(Up(Up(Up(Up(h, a), b), c), d)) ==
      16 * Val(h) + (if a then 8 else 0) + (if b then 4 else 0) + (if c then 2 else 0) + if d then 1 else 0
  {
    hide Val;
    UpBit(h, a);
    UpBit(Up(h, a), b);
    UpBit(Up(Up(h, a), b), c);
    UpBit(Up(Up(Up(h, a), b), c), d);
  }

  lemma ValZero()
    ensures Val(0) == 0
  {
  }

  lemma Constants()
    ensures Val(0xedb88320) == 0xedb88320
    ensures Val(0xffffffff) == 0xffffffff
  {
    hide Val;
    ValZero();
    Digit(0x0, true, true, true, false);
    Digit(0xe, true, true, false, true);
    Digit(0xed, true, false, true, true);
    Digit(0xedb, true, false, false, false);
    Digit(0xedb8, true, false, false, false);
    Digit(0xedb88, false, false, true, true);
    Digit(0xedb883, false, false, true, false);
    Digit(0xedb8832, false, false, false, false);
    Digit(0x0, true, true, true, true);
    Digit(0xf, true, true, true, true);
    Digit(0xff, true, true, true, true);
    Digit(0xfff, true, true, true, true);
    Digit(0xffff, true, true, true, true);
    Digit(0xfffff, true, true, true, true);
    Digit(0xffffff, true, true, true, true);
    Digit(0xfffffff, true, true, true, true);
  }

  lemma Results()
    ensures Val(0xdebb20e3) == 0xdebb20e3
    ensures Val(0x340bc6d9) == 0x340bc6d9
  {
    hide Val;
    ValZero();
    Digit(0x0, true, true, false, true);
    Digit(0xd, true, true, true, false);
    Digit(0xde, true, false, true, true);
    Digit(0xdeb, true, false, true, true);
    Digit(0xdebb, false, false, true, false);
    Digit(0xdebb2, false, false, false, false);
    Digit(0xdebb20, true, true, true, false);
    Digit(0xdebb20e, false, false, true, true);
    Digit(0x0, false, false, true, true);
    Digit(0x3, false, true, false, false);
    Digit(0x34, false, false, false, false);
    Digit(0x340, true, false, true, true);
    Digit(0x340b, true, true, false, false);
    Digit(0x340bc, false, true, true, false);
    Digit(0x340bc6, true, true, false, true);
    Digit(0x340bc6d, true, false, false, true);
  }

  lemma Digits()
    ensures Val(0x31) == 0x31
    ensures Val(0x32) == 0x32
    ensures Val(0x33) == 0x33
    ensures Val(0x34) == 0x34
    ensures Val(0x35) == 0x35
    ensures Val(0x36) == 0x36
    ensures Val(0x37) == 0x37
    ensures Val(0x38) == 0x38
    ensures Val(0x39) == 0x39
  {
    hide Val;
    ValZero();
    Digit(0x0, false, false, true, true);
    Digit(0x3, false, false, false, true);
    Digit(0x3, false, false, true, false);
    Digit(0x3, false, false, true, true);
    Digit(0x3, false, true, false, false);
    Digit(0x3, false, true, false, true);
    Digit(0x3, false, true, true, false);
    Digit(0x3, false, true, true, true);
    Digit(0x3, true, false, false, false);
    Digit(0x3, true, false, false, true);
  }

  /** One zero bit, on words. */
  lemma StepVal(c: Word)
    ensures Zero(Val(c)) == Val(Step(c))
  {
    hide Xor, Val, Mix, Half, Odd;
    Constants();
    ValHalf(c);
    XorVal(0xedb88320, Half(c));
  }

  function Steps(c: Word, n: nat): Word
    decreases n
  {
    if n == 0 then c else Steps(Step(c), n - 1)
  }

  lemma {:induction false} StepsVal(c: Word, n: nat)
    ensures ZeroBits(Val(c), n) == Val(Steps(c, n))
    decreases n
  {
    hide Val, Step, Zero;
    if n > 0 {
      StepVal(c);
      StepsVal(Step(c), n - 1);
    }
  }

  lemma EightSteps(c: Word)
    ensures Steps(c, 8) == Step(Step(Step(Step(Step(Step(Step(Step(c))))))))
  {
    hide Step;
  }

  /** One byte, on words. */
  lemma ByteVal(c: Word, d: Word, b: Byte)
    requires Val(d) == b
    ensures FeedBits(Val(c), b, 8) == Val(Steps(Mix(c, d), 8))
  {
    hide FeedBits, Val, Xor, Mix, Steps, ZeroBits;
    ByteIsZeros(Val(c), b);
    XorVal(c, d);
    StepsVal(Mix(c, d), 8);
  }

  // ----- the value every message leaves -----

  /** The value left when a message is followed by its own CRC, least significant byte first. */
  const RESIDUE: nat := 0x2144df1c

  lemma {:induction false} Complement(x: nat, n: nat)
    requires x < Pow2(n)
    ensures Xor(x, Pow2(n) - 1) == Pow2(n) - 1 - x
  {
    if n == 0 {
      assert Xor(0, 0) == 0;
    } else {
      Complement(x / 2, n - 1);
      XorHalf(x, Pow2(n) - 1);
    }
  }

  lemma WordComplement(x: nat)
    requires x < 0x1_0000_0000
    ensures Xor(x, 0xffff_ffff) == 0xffff_ffff - x
  {
    hide Xor, Pow2;
    Pow2Word();
    Complement(x, 32);
  }

  /** The register starts with and ends in the complement. */
  lemma Complemented(before: nat, s: seq<Byte>)
    requires before < 0x1_0000_0000
    ensures var r := Register(0xffff_ffff - before, s); r < 0x1_0000_0000 && Crc32(before, s) == 0xffff_ffff - r
  {
    hide Xor, Pow2, Register;
    Pow2Word();
    WordComplement(before);
    CrcTable.RegisterBound(0xffff_ffff - before, s);
    WordComplement(Register(0xffff_ffff - before, s));
  }

  lemma OnesThroughWord()
    ensures ZeroBits(0xffff_ffff, 32) == 0xdebb20e3
  {
    hide ZeroBits, Val, Step, Steps;
    Constants();
    Results();
    StepsVal(0xffffffff, 8);
    OnesByte1();
    StepsVal(0x2dfd1072, 8);
    OnesByte2();
    StepsVal(0xbe26ed00, 8);
    OnesByte3();
    StepsVal(0xbe26ed, 8);
    OnesByte4();
    ZerosAdd(0xffff_ffff, 8, 8);
    ZerosAdd(0xffff_ffff, 16, 8);
    ZerosAdd(0xffff_ffff, 24, 8);
  }

  lemma OnesByte1()
    ensures Steps(0xffffffff, 8) == 0x2dfd1072
  {
    hide Steps;
    EightSteps(0xffffffff);
  }

  lemma OnesByte2()
    ensures Steps(0x2dfd1072, 8) == 0xbe26ed00
  {
    hide Steps;
    EightSteps(0x2dfd1072);
  }

  lemma OnesByte3()
    ensures Steps(0xbe26ed00, 8) == 0xbe26ed
  {
    hide Steps;
    EightSteps(0xbe26ed00);
  }

  lemma OnesByte4()
    ensures Steps(0xbe26ed, 8) == 0xdebb20e3
  {
    hide Steps;
    EightSteps(0xbe26ed);
  }

  /** A message followed by its CRC leaves the same value whatever the message is. */
  lemma Residue(s: seq<Byte>, a: Byte, b: Byte, x: Byte, d: Byte)
    requires Crc32(0, s) == a + 256 * b + 65536 * x + 16777216 * d
    ensures Crc32(0, s + [a, b, x, d]) == RESIDUE
  {
    hide ZeroBits, Xor, Register;
    Complemented(0, s);
    Complemented(0, s + [a, b, x, d]);
    var r := Register(0xffff_ffff, s);
    CrcTable.RegisterWord(0xffff_ffff, s, a, b, x, d);
    WordComplement(r);
    XorTwice(r, 0xffff_ffff);
    OnesThroughWord();
  }

  // ----- the check value -----

  lemma OneDigit(s: seq<Byte>, c: Word, d: Word, b: Byte, c': Word)
    requires Register(ONES, s) == Val(c) && Val(d) == b && Steps(Mix(c, d), 8) == c'
    ensures forall t {:trigger Register(ONES, t)} :: t == s + [b] ==> Register(ONES, t) == Val(c')
  {
    hide FeedBits, Val, Steps, Mix;
    ByteVal(c, d, b);
    assert (s + [b])[..|s|] == s;
  }

  lemma Digit1()
    ensures Steps(Mix(0xffffffff, 0x31), 8) == 0x7c231048
  {
    hide Steps;
    assert Mix(0xffffffff, 0x31) == 0xffffffce;
    EightSteps(0xffffffce);
  }

  lemma Digit2()
    ensures Steps(Mix(0x7c231048, 0x32), 8) == 0xb0acbb32
  {
    hide Steps;
    assert Mix(0x7c231048, 0x32) == 0x7c23107a;
    EightSteps(0x7c23107a);
  }

  lemma Digit3()
    ensures Steps(Mix(0xb0acbb32, 0x33), 8) == 0x77b79c2d
  {
    hide Steps;
    assert Mix(0xb0acbb32, 0x33) == 0xb0acbb01;
    EightSteps(0xb0acbb01);
  }

  lemma Digit4()
    ensures Steps(Mix(0x77b79c2d, 0x34), 8) == 0x641c1f5c
  {
    hide Steps;
    assert Mix(0x77b79c2d, 0x34) == 0x77b79c19;
    EightSteps(0x77b79c19);
  }

  lemma Digit5()
    ensures Steps(Mix(0x641c1f5c, 0x35), 8) == 0x340ac5e3
  {
    hide Steps;
    assert Mix(0x641c1f5c, 0x35) == 0x641c1f69;
    EightSteps(0x641c1f69);
  }

  lemma Digit6()
    ensures Steps(Mix(0x340ac5e3, 0x36), 8) == 0xf68d2c9e
  {
    hide Steps;
    assert Mix(0x340ac5e3, 0x36) == 0x340ac5d5;
    EightSteps(0x340ac5d5);
  }

  lemma Digit7()
    ensures Steps(Mix(0xf68d2c9e, 0x37), 8) == 0xaffc9660
  {
    hide Steps;
    assert Mix(0xf68d2c9e, 0x37) == 0xf68d2ca9;
    EightSteps(0xf68d2ca9);
  }

  lemma Digit8()
    ensures Steps(Mix(0xaffc9660, 0x38), 8) == 0x651f2550
  {
    hide Steps;
    assert Mix(0xaffc9660, 0x38) == 0xaffc9658;
    EightSteps(0xaffc9658);
  }

  lemma Digit9()
    ensures Steps(Mix(0x651f2550, 0x39), 8) == 0x340bc6d9
  {
    hide Steps;
    assert Mix(0x651f2550, 0x39) == 0x651f2569;
    EightSteps(0x651f2569);
  }

  /** The check value of CRC-32. */
  lemma CheckValue()
    ensures Crc32(0, [0x31, 0x32, 0x33, 0x34, 0x35, 0x36, 0x37, 0x38, 0x39]) == 0xcbf43926
  {
    hide Val, Register, Xor, Steps, Mix;
    Constants();
    Results();
    Digits();
    Nothing();
    Digit1();
    OneDigit([], 0xffffffff, 0x31, 0x31, 0x7c231048);
    Digit2();
    OneDigit([0x31], 0x7c231048, 0x32, 0x32, 0xb0acbb32);
    Digit3();
    OneDigit([0x31, 0x32], 0xb0acbb32, 0x33, 0x33, 0x77b79c2d);
    Digit4();
    OneDigit([0x31, 0x32, 0x33], 0x77b79c2d, 0x34, 0x34, 0x641c1f5c);
    Digit5();
    OneDigit([0x31, 0x32, 0x33, 0x34], 0x641c1f5c, 0x35, 0x35, 0x340ac5e3);
    Digit6();
    OneDigit([0x31, 0x32, 0x33, 0x34, 0x35], 0x340ac5e3, 0x36, 0x36, 0xf68d2c9e);
    Digit7();
    OneDigit([0x31, 0x32, 0x33, 0x34, 0x35, 0x36], 0xf68d2c9e, 0x37, 0x37, 0xaffc9660);
    Digit8();
    OneDigit([0x31, 0x32, 0x33, 0x34, 0x35, 0x36, 0x37], 0xaffc9660, 0x38, 0x38, 0x651f2550);
    Digit9();
    OneDigit([0x31, 0x32, 0x33, 0x34, 0x35, 0x36, 0x37, 0x38], 0x651f2550, 0x39, 0x39, 0x340bc6d9);
    Complemented(0, [0x31, 0x32, 0x33, 0x34, 0x35, 0x36, 0x37, 0x38, 0x39]);
  }

  /** Of nothing the CRC is 0. */
  lemma Nothing()
    ensures Register(0xffff_ffff, []) == 0xffff_ffff && Crc32(0, []) == 0
  {
    hide Xor;
    Complemented(0, []);
  }
}
