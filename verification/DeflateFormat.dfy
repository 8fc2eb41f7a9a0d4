/**
  The compressed format of section 3.2 of RFC 1951 in the RFC's own arithmetic: which symbol and which extra
  bits denote a length or a distance, and how they agree with the tables of inftrees.c.
 */
module DeflateFormat {
  import opened Bits
  import opened DecodeTable

  /** floor of the logarithm */
  function Log2(x: nat): (k: nat)
    requires x > 0
    ensures Pow2(k) <= x < 2 * Pow2(k)
  {
    if x == 1 then 0 else 1 + Log2(x / 2)
  }

  lemma LogUnique(x: nat, k: nat)
    requires x > 0 && Pow2(k) <= x < 2 * Pow2(k)
    ensures Log2(x) == k
  {
    if k < Log2(x) { Pow2Mono(k, Log2(x)); }
    if Log2(x) < k { Pow2Mono(Log2(x), k); }
  }

  // ----- lengths -----

  /** The number of extra bits of a length: none up to 10, then one more with every power of two; none for 258. */
  function LengthBits(len: nat): nat
    requires 3 <= len <= 258
  {
    if len <= 10 || len == 258 then 0 else Log2((len - 3) / 4)
  }

  /** Four symbols for each number of extra bits, told apart by the two bits below the top one. */
  function LengthSymbol(len: nat): nat
    requires 3 <= len <= 258
  {
    if len == 258 then 285 else 257 + 4 * LengthBits(len) + (len - 3) / Pow2(LengthBits(len))
  }

  /** The value of the extra bits. */
  function LengthRest(len: nat): nat
    requires 3 <= len <= 258
  {
    if len == 258 then 0 else (len - 3) % Pow2(LengthBits(len))
  }

  /** The extra bits of a symbol: (s - 261) / 4 from 265 to 284, and none for the others. */
  function SymbolBits(s: nat): nat {
    if 265 <= s <= 284 then (s - 261) / 4 else 0
  }

  lemma SmallPowers()
    ensures Pow2(0) == 1 && Pow2(1) == 2 && Pow2(2) == 4 && Pow2(3) == 8 && Pow2(4) == 16 && Pow2(5) == 32
    ensures Pow2(6) == 64 && Pow2(7) == 128 && Pow2(8) == 256
  {
  }

  /** The tables' ranges of lengths: each starts where the one before ends, and 285 is 258. */
  lemma LengthRanges(s: nat)
    requires 257 <= s <= 285
    ensures SymOp(Lens, s) == 16 + SymbolBits(s)
    ensures s == 257 ==> SymVal(Lens, s) == 3
    ensures s < 284 ==> SymVal(Lens, s + 1) == SymVal(Lens, s) + Pow2(SymbolBits(s))
    ensures s == 284 ==> SymVal(Lens, s) + Pow2(SymbolBits(s)) == 259
    ensures s == 285 ==> SymVal(Lens, s) == 258
  {
    hide Pow2, SymVal;
    LengthExtras(s);
    if s < 271 { ShortRanges(s); } else if s < 285 { LongRanges(s); }
  }

  lemma LengthExtras(s: nat)
    requires 257 <= s <= 285
    ensures SymOp(Lens, s) == 16 + SymbolBits(s)
    ensures (s == 257 ==> SymVal(Lens, s) == 3) && (s == 285 ==> SymVal(Lens, s) == 258)
  {
  }

  lemma ShortRanges(s: nat)
    requires 257 <= s < 271
    ensures SymVal(Lens, s + 1) == SymVal(Lens, s) + Pow2(SymbolBits(s))
  {
    hide Pow2;
    SmallPowers();
  }

  lemma LongRanges(s: nat)
    requires 271 <= s < 285
    ensures SymVal(Lens, s) + Pow2(SymbolBits(s)) == if s < 284 then SymVal(Lens, s + 1) else 259
  {
    hide Pow2;
    SmallPowers();
  }

  /** What the remaining symbols are: bytes, the end of the block, and two that may not occur. */
  lemma OtherSymbols(s: nat)
    requires s < 288
    ensures s < 256 ==> SymOp(Lens, s) == 0 && SymVal(Lens, s) == s
    ensures s == 256 ==> SymOp(Lens, s) / 32 % 2 == 1
    ensures s >= 286 ==> SymOp(Lens, s) / 32 % 2 == 0 && SymOp(Lens, s) / 64 % 2 == 1
  {
  }

  lemma {:induction false} LengthEntry(e: nat, q: nat)
    requires e <= 5 && q < 8 && (e == 0 || q >= 4)
    ensures SymVal(Lens, 257 + 4 * e + q) == 3 + q * Pow2(e) && SymbolBits(257 + 4 * e + q) == e
    decreases 4 * e + q
  {
    hide Pow2, SymVal, SymOp;
    SmallPowers();
    if q > (if e == 0 then 0 else 4) {
      LengthEntry(e, q - 1);
      LengthRanges(256 + 4 * e + q);
      OneMore(q - 1, Pow2(e));
    } else if e > 0 {
      LengthEntry(e - 1, 7);
      LengthRanges(256 + 4 * e + q);
      Doubled(e);
    } else {
      LengthRanges(257);
    }
  }

  lemma OneMore(q: nat, p: nat)
    ensures (q + 1) * p == q * p + p
  {
  }

  lemma Doubled(e: nat)
    requires e > 0
    ensures Pow2(e) == 2 * Pow2(e - 1) && 4 * Pow2(e) == 7 * Pow2(e - 1) + Pow2(e - 1)
      && 2 * Pow2(e) == 3 * Pow2(e - 1) + Pow2(e - 1)
  {
  }

  /** len - 3 is q * 2^e + x. */
  lemma LengthParts(len: nat)
    requires 3 <= len <= 257
    ensures var e := LengthBits(len);
      && e <= 5 && (e > 0 ==> 4 * Pow2(e) <= len - 3) && len - 3 < 8 * Pow2(e)
      && len - 3 == (len - 3) / Pow2(e) * Pow2(e) + LengthRest(len)
      && (len - 3) / Pow2(e) < 8 && (e > 0 ==> (len - 3) / Pow2(e) >= 4)
  {
    hide Pow2, Log2;
    SmallPowers();
    if len > 10 {
      var e := Log2((len - 3) / 4);
      if e >= 6 { Pow2Mono(6, e); }
      var p := Pow2(e);
      Quarter(len - 3, p);
      Division(len - 3, p, 8);
      Division(len - 3, p, 4);
    } else {
      assert LengthBits(len) == 0;
    }
  }

  lemma Quarter(x: nat, p: nat)
    requires p <= x / 4 < 2 * p
    ensures 4 * p <= x < 8 * p
  {
  }

  /** The symbol and the extra bits of a length, read with the tables, denote it. */
  lemma LengthDenoted(len: nat)
    requires 3 <= len <= 258
    ensures var s, e := LengthSymbol(len), LengthBits(len);
      && 257 <= s <= 285 && e == SymbolBits(s) <= 5 && SymOp(Lens, s) == 16 + e
      && LengthRest(len) < Pow2(e) && SymVal(Lens, s) + LengthRest(len) == len
  {
    hide Pow2, Log2, SymVal, SymOp;
    SmallPowers();
    if len < 258 {
      LengthParts(len);
      var e := LengthBits(len);
      var q := (len - 3) / Pow2(e);
      LengthEntry(e, q);
    }
    LengthRanges(LengthSymbol(len));
  }

  /** No other symbol and extra bits denote it, but for symbol 284 with all extra bits set, which is 258 too. */
  lemma LengthOnly(s: nat, x: nat)
    requires 257 <= s <= 285 && x < Pow2(SymbolBits(s)) && !(s == 284 && x == 31)
    ensures var len := SymVal(Lens, s) + x;
      3 <= len <= 258 && LengthSymbol(len) == s && LengthRest(len) == x
  {
    hide Pow2, Log2, SymVal, SymOp;
    SmallPowers();
    if s < 285 {
      var e := SymbolBits(s);
      var q := s - 257 - 4 * e;
      LengthEntry(e, q);
      LengthWithin(e, q, x);
      Quotient(q, Pow2(e), x);
    } else {
      LengthRanges(s);
    }
  }

  /** The length has these extra bits. */
  lemma LengthWithin(e: nat, q: nat, x: nat)
    requires e <= 5 && q < 8 && (e == 0 || q >= 4) && x < Pow2(e) && !(e == 5 && q == 7 && x == 31)
    ensures var len := 3 + q * Pow2(e) + x; 3 <= len < 258 && LengthBits(len) == e
  {
    hide Pow2, Log2;
    SmallPowers();
    var len := 3 + q * Pow2(e) + x;
    if e > 0 {
      AtLeast(q, 4, Pow2(e));
      AtLeast(7, q, Pow2(e));
      assert 4 * Pow2(e) <= len - 3 < 8 * Pow2(e);
      LogUnique((len - 3) / 4, e);
      assert e == 1 || e == 2 || e == 3 || e == 4 || e == 5;
    }
  }

  lemma Quotient(q: nat, d: nat, x: nat)
    requires d > 0 && x < d
    ensures (q * d + x) / d == q && (q * d + x) % d == x
  {
    var y := q * d + x;
    var q', x' := y / d, y % d;
    assert y == q' * d + x';
    assert (q' - q) * d == x - x';
    Fewer(q' - q, d);
  }

  lemma Fewer(k: int, d: nat)
    ensures k * d >= d || k * d + d <= 0 || k == 0
  {
    if k >= 1 {
      assert k * d == (k - 1) * d + d;
      assert (k - 1) * d >= 0;
    } else if k <= -1 {
      assert k * d == (k + 1) * d - d;
      assert -(k + 1) * d >= 0;
    }
  }

  // ----- distances -----

  /** The number of extra bits of a distance. */
  function DistBits(d: nat): nat
    requires 1 <= d <= 32768
  {
    if d <= 4 then 0 else Log2((d - 1) / 2)
  }

  /** Two symbols for each number of extra bits, told apart by the bit below the top one. */
  function DistSymbol(d: nat): nat
    requires 1 <= d <= 32768
  {
    2 * DistBits(d) + (d - 1) / Pow2(DistBits(d))
  }

  function DistRest(d: nat): nat
    requires 1 <= d <= 32768
  {
    (d - 1) % Pow2(DistBits(d))
  }

  /** The extra bits of a distance symbol: s/2 - 1 from 4 on. */
  function DistSymbolBits(s: nat): nat {
    if s < 4 then 0 else s / 2 - 1
  }

  lemma MorePowers()
    ensures Pow2(9) == 512 && Pow2(10) == 1024 && Pow2(11) == 2048 && Pow2(12) == 4096 && Pow2(13) == 8192
    ensures Pow2(14) == 16384 && Pow2(15) == 32768
  {
    assert Pow2(7) == 128;
    assert Pow2(11) == 2048;
  }

  /** The tables' ranges of distances: each starts where the one before ends; 30 and 31 may not occur. */
  lemma DistRanges(s: nat)
    requires s < 32
    ensures s < 30 ==> SymOp(Dists, s) == 16 + DistSymbolBits(s)
    ensures s == 0 ==> SymVal(Dists, s) == 1
    ensures s < 29 ==> SymVal(Dists, s + 1) == SymVal(Dists, s) + Pow2(DistSymbolBits(s))
    ensures s == 29 ==> SymVal(Dists, s) + Pow2(DistSymbolBits(s)) == 32769
    ensures s >= 30 ==> SymOp(Dists, s) / 64 % 2 == 1
  {
    hide Pow2, SymVal;
    DistExtras(s);
    if s < 15 { LowRanges(s); } else if s < 30 { HighRanges(s); }
  }

  lemma DistExtras(s: nat)
    requires s < 32
    ensures s < 30 ==> SymOp(Dists, s) == 16 + DistSymbolBits(s)
    ensures s == 0 ==> SymVal(Dists, s) == 1
    ensures s >= 30 ==> SymOp(Dists, s) / 64 % 2 == 1
  {
  }

  lemma LowRanges(s: nat)
    requires s < 15
    ensures SymVal(Dists, s + 1) == SymVal(Dists, s) + Pow2(DistSymbolBits(s))
  {
    hide Pow2;
    SmallPowers();
  }

  lemma HighRanges(s: nat)
    requires 15 <= s < 30
    ensures SymVal(Dists, s) + Pow2(DistSymbolBits(s)) == if s < 29 then SymVal(Dists, s + 1) else 32769
  {
    hide Pow2;
    SmallPowers();
    MorePowers();
  }

  lemma {:induction false} DistEntry(e: nat, q: nat)
    requires e <= 13 && q < 4 && (e == 0 || q >= 2)
    ensures SymVal(Dists, 2 * e + q) == 1 + q * Pow2(e) && DistSymbolBits(2 * e + q) == e
    decreases 2 * e + q
  {
    hide Pow2, SymVal, SymOp;
    SmallPowers();
    if q > (if e == 0 then 0 else 2) {
      DistEntry(e, q - 1);
      DistRanges(2 * e + q - 1);
      OneMore(q - 1, Pow2(e));
    } else if e > 0 {
      DistEntry(e - 1, 3);
      DistRanges(2 * e + q - 1);
      Doubled(e);
    } else {
      DistRanges(0);
    }
  }

  lemma DistParts(d: nat)
    requires 1 <= d <= 32768
    ensures var e := DistBits(d);
      && e <= 13 && d - 1 < 4 * Pow2(e)
      && d - 1 == (d - 1) / Pow2(e) * Pow2(e) + DistRest(d)
      && (d - 1) / Pow2(e) < 4 && (e > 0 ==> (d - 1) / Pow2(e) >= 2)
  {
    hide Pow2, Log2;
    SmallPowers();
    MorePowers();
    if d > 4 {
      var e := Log2((d - 1) / 2);
      if e >= 14 { Pow2Mono(14, e); }
      var p := Pow2(e);
      Halved(d - 1, p);
      Division(d - 1, p, 4);
      Division(d - 1, p, 2);
    } else {
      assert DistBits(d) == 0;
    }
  }

  lemma Halved(x: nat, p: nat)
    requires p <= x / 2 < 2 * p
    ensures 2 * p <= x < 4 * p
  {
  }

  lemma Division(x: nat, p: nat, k: nat)
    requires p > 0
    ensures x == x / p * p + x % p && (x < k * p ==> x / p < k) && (x >= k * p ==> x / p >= k)
  {
    var q := x / p;
    assert x == q * p + x % p;
    if q >= k { AtLeast(q, k, p); }
    if q + 1 <= k { AtLeast(k, q + 1, p); }
  }

  lemma AtLeast(a: nat, b: nat, p: nat)
    requires a >= b
    ensures a * p >= b * p
  {
    assert a * p == b * p + (a - b) * p;
    assert (a - b) * p >= 0;
  }

  /** The symbol and the extra bits of a distance, read with the tables, denote it. */
  lemma DistDenoted(d: nat)
    requires 1 <= d <= 32768
    ensures var s, e := DistSymbol(d), DistBits(d);
      && s < 30 && e == DistSymbolBits(s) <= 13 && SymOp(Dists, s) == 16 + e
      && DistRest(d) < Pow2(e) && SymVal(Dists, s) + DistRest(d) == d
  {
    hide Pow2, Log2;
    SmallPowers();
    DistParts(d);
    var e := DistBits(d);
    var q := (d - 1) / Pow2(e);
    DistEntry(e, q);
    DistRanges(2 * e + q);
  }

  /** No other symbol and extra bits denote it. */
  lemma DistOnly(s: nat, x: nat)
    requires s < 30 && x < Pow2(DistSymbolBits(s))
    ensures var d := SymVal(Dists, s) + x; 1 <= d <= 32768 && DistSymbol(d) == s && DistRest(d) == x
  {
    hide Pow2, Log2, SymVal, SymOp;
    SmallPowers();
    var e := DistSymbolBits(s);
    var q := s - 2 * e;
    DistEntry(e, q);
    DistWithin(e, q, x);
    Quotient(q, Pow2(e), x);
  }

  /** The distance has these extra bits. */
  lemma DistWithin(e: nat, q: nat, x: nat)
    requires e <= 13 && q < 4 && (e == 0 || q >= 2) && x < Pow2(e)
    ensures var d := 1 + q * Pow2(e) + x; 1 <= d <= 32768 && DistBits(d) == e
  {
    hide Pow2, Log2;
    SmallPowers();
    MorePowers();
    Pow2Mono(e, 13);
    AtLeast(3, q, Pow2(e));
    if e > 0 {
      var d := 1 + q * Pow2(e) + x;
      Pow2Mono(1, e);
      AtLeast(q, 2, Pow2(e));
      assert 2 * Pow2(e) <= d - 1 < 4 * Pow2(e);
      LogUnique((d - 1) / 2, e);
    }
  }
}
