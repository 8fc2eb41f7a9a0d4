/** crc32_combine_(): the CRC of a concatenation, by squaring the operator that feeds zeros. */
module CrcCombine {
  import opened Bits
  import opened Xors
  import opened Bytes
  import opened Crc
  import CrcTable

  /** A matrix over GF(2): the images of the 32 unit vectors. Times is its product with a vector. */
  function Times(mat: seq<nat>, vec: nat): nat
    decreases vec
  {
    if vec == 0 || mat == [] then 0
    else if vec % 2 == 1 then Xor(mat[0], Times(mat[1..], vec / 2))
    else Times(mat[1..], vec / 2)
  }

  /** mat feeds n zero bits. */
  ghost predicate Feeds(mat: seq<nat>, n: nat) {
    |mat| == 32 && forall i {:trigger mat[i]} :: 0 <= i < 32 ==> mat[i] == ZeroBits(Pow2(i), n)
  }

  lemma {:induction false} TimesFeeds(mat: seq<nat>, vec: nat, n: nat, i: nat)
    requires Feeds(mat, n) && i <= 32 && vec < Pow2(32 - i)
    ensures Times(mat[i..], vec) == ZeroBits(Shl(vec, i), n)
    decreases 32 - i
  {
    hide ZeroBits, Xor, Pow2, Shl;
    if vec == 0 {
      ShlOne(i);
      ZerosOfZero(n);
    } else {
      Pow2Values(i, vec);
      assert mat[i..][1..] == mat[i + 1..] && mat[i..][0] == mat[i];
      TimesFeeds(mat, vec / 2, n, i + 1);
      OneMoreBit(vec, i, n);
    }
  }

  lemma Pow2Values(i: nat, vec: nat)
    requires i <= 32 && 0 < vec < Pow2(32 - i)
    ensures i < 32 && vec / 2 < Pow2(32 - (i + 1))
  {
    assert Pow2(0) == 1;
  }

  /** The lowest bit of the vector, at position i, and the rest. */
  lemma OneMoreBit(vec: nat, i: nat, n: nat)
    ensures ZeroBits(Shl(vec, i), n) ==
      if vec % 2 == 1 then Xor(ZeroBits(Pow2(i), n), ZeroBits(Shl(vec / 2, i + 1), n))
        else ZeroBits(Shl(vec / 2, i + 1), n)
  {
    hide ZeroBits, Xor;
    ShlShl(vec / 2, 1, i);
    assert Shl(vec / 2, 1) == 2 * (vec / 2);
    hide Shl, Pow2;
    if vec % 2 == 1 {
      ShlAdd(2 * (vec / 2), 1, i);
      ShlOne(i);
      OneBitXor(vec / 2, i);
      ZerosXor(Pow2(i), Shl(vec / 2, i + 1), n);
    }
  }

  lemma OneBitXor(x: nat, i: nat)
    ensures Xor(Pow2(i), Shl(x, i + 1)) == Shl(x, i + 1) + Pow2(i)
  {
    hide Xor, Shl, Pow2;
    Pow2Less(i);
    AddIsXor(x, Pow2(i), i + 1);
    XorComm(Pow2(i), Shl(x, i + 1));
  }

  lemma Pow2Less(i: nat)
    ensures Pow2(i) < Pow2(i + 1)
  {
  }

  /** The product with a register feeds it n zero bits. */
  lemma TimesIsZeros(mat: seq<nat>, vec: nat, n: nat)
    requires Feeds(mat, n) && vec < Pow2(32)
    ensures Times(mat, vec) == ZeroBits(vec, n)
  {
    hide ZeroBits, Pow2, Times, Feeds;
    TimesFeeds(mat, vec, n, 0);
    assert mat[0..] == mat;
    ShlZero(vec);
  }

  /** gf2_matrix_times() */
  method MatrixTimes(mat: array<nat>, vec: nat) returns (sum: nat)
    requires mat.Length == 32 && vec < Pow2(32)
    ensures sum == Times(mat[..], vec)
  {
    hide Xor, Pow2;
    sum := 0;
    var v: nat, i: nat := vec, 0;
    XorZero(Times(mat[..], vec));
    assert mat[0..] == mat[..];
    while v != 0
      invariant 0 <= i <= 32 && v < Pow2(32 - i)
      invariant Xor(sum, Times(mat[i..], v)) == Times(mat[..], vec)
      decreases v
    {
      Pow2Values(i, v);
      assert mat[i..][1..] == mat[i + 1..] && mat[i..][0] == mat[i];
      if v % 2 == 1 {
        XorAssoc(sum, mat[i], Times(mat[i + 1..], v / 2));
        sum := Xor(sum, mat[i]);
      }
      v, i := v / 2, i + 1;
    }
    XorZero(sum);
  }

  /** gf2_matrix_square() */
  method MatrixSquare(square: array<nat>, mat: array<nat>, ghost n: nat)
    requires square.Length == 32 && mat.Length == 32 && square != mat && Feeds(mat[..], n)
    modifies square
    ensures Feeds(square[..], 2 * n) && mat[..] == old(mat[..])
  {
    hide Times, ZeroBits, Pow2;
    ghost var m := mat[..];
    for i := 0 to 32
      invariant mat[..] == m
      invariant forall j {:trigger square[j]} :: 0 <= j < i ==> square[j] == ZeroBits(Pow2(j), 2 * n)
    {
      UnitBound(i);
      ZerosBound(Pow2(i), n);
      assert mat[i] == m[i] == ZeroBits(Pow2(i), n);
      TimesIsZeros(m, m[i], n);
      ZerosAdd(Pow2(i), n, n);
      square[i] := MatrixTimes(mat, mat[i]);
    }
  }

  lemma UnitBound(i: nat)
    requires i < 32
    ensures Pow2(i) < Pow2(32)
  {
    hide Pow2;
    Pow2Mono(i, 31);
    Pow2Less(31);
  }

  // ----- combining -----

  /** The operator for one zero bit. */
  method OneZero(odd: array<nat>)
    requires odd.Length == 32
    modifies odd
    ensures Feeds(odd[..], 1)
  {
    hide ZeroBits, Pow2, Xor;
    odd[0] := 0xedb88320;
    FeedsOne(0);
    var row := 1;
    for n := 1 to 32
      invariant row == Pow2(n - 1)
      invariant forall j {:trigger odd[j]} :: 0 <= j < n ==> odd[j] == ZeroBits(Pow2(j), 1)
    {
      FeedsOne(n);
      odd[n] := row;
      row := 2 * row;
    }
  }

  lemma FeedsOne(i: nat)
    ensures Pow2(0) == 1 && ZeroBits(Pow2(0), 1) == POLY
    ensures i > 0 ==> ZeroBits(Pow2(i), 1) == Pow2(i - 1) && Pow2(i) == 2 * Pow2(i - 1)
  {
    hide Xor;
    XorZero(POLY);
    assert ZeroBits(1, 1) == ZeroBits(Zero(1), 0);
    if i > 0 { assert ZeroBits(Pow2(i), 1) == ZeroBits(Zero(Pow2(i)), 0); }
  }

  /** One bit of the length: feed Pow2(k) zeros if it is set; the rest counts double. */
  method FeedLengthBit(square: array<nat>, mat: array<nat>, crc: nat, len: nat, ghost k: nat)
    returns (crc': nat, len': nat)
    requires square.Length == 32 && mat.Length == 32 && square != mat && Feeds(mat[..], Pow2(k)) && crc < Pow2(32)
      && len > 0
    modifies square
    ensures Feeds(square[..], Pow2(k + 1)) && len' == len / 2 && crc' < Pow2(32)
    ensures ZeroBits(crc', Shl(len', k + 2)) == ZeroBits(crc, Shl(len, k + 1))
  {
    hide ZeroBits, Pow2, Feeds, Times, Shl;
    assert Pow2(k + 1) == 2 * Pow2(k) by { Pow2Next(k); }
    MatrixSquare(square, mat, Pow2(k));
    HalfShl(len, k + 1);
    crc', len' := crc, len / 2;
    if len % 2 == 1 {
      FeedsLength(square[..], Pow2(k + 1));
      crc' := MatrixTimes(square, crc);
      TimesIsZeros(square[..], crc, Pow2(k + 1));
      ZerosBound(crc, Pow2(k + 1));
      ZerosAdd(crc, Pow2(k + 1), Shl(len / 2, k + 2));
    }
  }

  lemma FeedsLength(mat: seq<nat>, n: nat)
    requires Feeds(mat, n)
    ensures |mat| == 32
  {
  }

  lemma Pow2Next(k: nat)
    ensures Pow2(k + 1) == 2 * Pow2(k)
  {
  }

  lemma HalfShl(len: nat, k: nat)
    ensures Shl(len, k) == Shl(len / 2, k + 1) + if len % 2 == 1 then Pow2(k) else 0
  {
    ShlShl(len / 2, 1, k);
    assert Shl(len / 2, 1) == 2 * (len / 2);
    hide Shl, Pow2;
    if len % 2 == 1 {
      ShlAdd(2 * (len / 2), 1, k);
      ShlOne(k);
    }
  }

  /** crc32_combine_(): feeds 8 * len2 zeros to crc1 and adds crc2. */
  method Combine(crc1: nat, crc2: nat, len2: int) returns (r: nat)
    requires crc1 < Pow2(32)
    ensures len2 <= 0 ==> r == crc1
    ensures len2 > 0 ==> r == Xor(ZeroBits(crc1, 8 * len2), crc2)
  {
    hide ZeroBits, Pow2, Feeds, Xor, Shl;
    if len2 <= 0 { return crc1; }
    var even, odd := new nat[32], new nat[32];
    OneZero(odd);
    MatrixSquare(even, odd, 1);
    MatrixSquare(odd, even, 2);
    var crc: nat, len: nat := crc1, len2;
    ghost var k := 2;
    assert Pow2(2) == 4 by { Pow2Four(); }
    ShlThree(len2);
    while true
      invariant even.Length == 32 && odd.Length == 32 && crc < Pow2(32) && len > 0
      invariant Feeds(odd[..], Pow2(k)) && ZeroBits(crc, Shl(len, k + 1)) == ZeroBits(crc1, 8 * len2)
      decreases len
    {
      crc, len := FeedLengthBit(even, odd, crc, len, k);
      NoneLeft(crc, k + 2);
      if len == 0 { break; }
      crc, len := FeedLengthBit(odd, even, crc, len, k + 1);
      NoneLeft(crc, k + 3);
      k := k + 2;
      if len == 0 { break; }
    }
    r := Xor(crc, crc2);
  }

  lemma Pow2Four()
    ensures Pow2(2) == 4
  {
  }

  lemma ShlThree(x: nat)
    ensures Shl(x, 3) == 8 * x
  {
    assert Shl(x, 1) == 2 * x;
  }

  lemma NoneLeft(c: nat, k: nat)
    ensures ZeroBits(c, Shl(0, k)) == c
  {
    ShlOne(k);
  }

  // ----- why that is the CRC of the concatenation -----

  /** A register and a message contribute independently. */
  lemma {:induction false} Superposition(c: nat, d: nat, s: seq<Byte>)
    ensures Register(Xor(c, d), s) == Xor(ZeroBits(c, 8 * |s|), Register(d, s))
  {
    hide ZeroBits, Xor, FeedBits;
    if s == [] {
      assert ZeroBits(c, 0) == c by { NoneLeft(c, 0); ShlOne(0); }
    } else {
      var t, b := s[..|s| - 1], s[|s| - 1];
      Superposition(c, d, t);
      var x, y := ZeroBits(c, 8 * |t|), Register(d, t);
      ByteIsZeros(Xor(x, y), b);
      ByteIsZeros(y, b);
      XorAssoc(x, y, b);
      ZerosXor(x, Xor(y, b), 8);
      ZerosAdd(c, 8 * |t|, 8);
    }
  }

  /** CRCs continue, and crc32_combine's formula gives the CRC of a concatenation. */
  lemma CombineIsConcat(before: nat, a: seq<Byte>, b: seq<Byte>)
    ensures Crc32(before, a + b) == Crc32(Crc32(before, a), b)
    ensures Crc32(before, a + b) == Xor(ZeroBits(Crc32(before, a), 8 * |b|), Crc32(0, b))
  {
    hide ZeroBits, Xor, Register;
    XorZero(ONES);
    var start := Xor(before, ONES);
    var r := Register(start, a);
    RegisterAppend(start, a, b);
    var z := Crc32(before, a);
    XorComm(r, ONES);
    XorTwice(ONES, r);
    XorComm(ONES, z);
    assert Xor(z, ONES) == r;
    Superposition(z, ONES, b);
    XorAssoc(ZeroBits(z, 8 * |b|), Register(ONES, b), ONES);
  }

  /** crc32_combine_ on the CRCs of two messages, the second of any length. */
  method CombineMessages(before: nat, ghost a: seq<Byte>, ghost b: seq<Byte>, crc1: nat, crc2: nat, len2: nat)
    returns (r: nat)
    requires before < Pow2(32) && crc1 == Crc32(before, a) && crc2 == Crc32(0, b) && len2 == |b|
    ensures r == Crc32(before, a + b)
  {
    hide ZeroBits, Pow2, Xor, Register;
    CombineIsConcat(before, a, b);
    CrcBound(before, a);
    r := Combine(crc1, crc2, len2);
    if len2 == 0 { assert a + b == a; }
  }

  lemma CrcBound(before: nat, s: seq<Byte>)
    requires before < Pow2(32)
    ensures Crc32(before, s) < Pow2(32)
  {
    hide Pow2, Xor, Register;
    CrcTable.OnesBound(before);
    CrcTable.RegisterBound(Xor(before, ONES), s);
    CrcTable.OnesBound(Register(Xor(before, ONES), s));
  }
}
