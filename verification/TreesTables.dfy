/** The tables of trees.c: code words for code lengths, and the mapping of lengths and distances to symbols. */
module TreesTables {
  import opened Bits
  import opened Bytes
  import opened Canonical
  import opened DecodeTable
  import opened DeflateFormat
  import opened InflateSpec
  import InflateRun
  import InflateTable

  // ----- code words -----

  lemma RevNext(x: nat, k: nat)
    ensures Rev(x, k + 1) == 2 * Rev(x, k) + Hi(x, k) % 2 && Hi(x, k + 1) == Hi(x, k) / 2
  {
    RevSplit(x, k, 1);
    HiHi(x, k, 1);
    assert Rev(Hi(x, k), 1) == Hi(x, k) % 2 by { assert Rev(Hi(x, k) / 2, 0) == 0; assert Pow2(0) == 1; }
    assert Shl(Rev(x, k), 1) == 2 * Shl(Rev(x, k), 0);
    assert Hi(Hi(x, k), 1) == Hi(Hi(x, k) / 2, 0);
  }

  /** bi_reverse() */
  method BiReverse(code: nat, len: nat) returns (res: nat)
    requires 1 <= len <= MAXBITS
    ensures res == Rev(code, len)
  {
    hide Rev, Hi;
    res := 0;
    var c, left := code, len;
    RevNone(code);
    while left > 0
      invariant 0 <= left <= len && c == Hi(code, len - left) && res == 2 * Rev(code, len - left)
    {
      RevNext(code, len - left);
      res := res + c % 2;
      c := c / 2;
      res := 2 * res;
      left := left - 1;
    }
    res := res / 2;
  }

  lemma RevNone(x: nat)
    ensures Rev(x, 0) == 0 && Hi(x, 0) == x
  {
  }

  /** What bl_count holds. */
  predicate Counted(lens: seq<nat>, blCount: seq<nat>) {
    |blCount| == 16 && blCount[0] == 0
      && forall l {:trigger blCount[l]} :: 1 <= l <= 15 ==> blCount[l] == Count(lens, l)
  }

  /** Every symbol that has a length has its code word, in the order the bits are sent. */
  predicate HasCodes(lens: seq<nat>, codes: seq<nat>) {
    |codes| == |lens| && forall n {:trigger codes[n]} ::
      0 <= n < |lens| && lens[n] > 0 ==> codes[n] == Rev(CodeOf(lens, n), lens[n])
  }

  /** Lengths that are not over-subscribed. */
  predicate Fit(lens: seq<nat>) {
    (forall n {:trigger lens[n]} :: 0 <= n < |lens| ==> lens[n] <= MAXBITS) && EndOf(lens, MAXBITS) <= Pow2(MAXBITS)
  }

  lemma UsedFits(lens: seq<nat>, l: nat)
    requires Fit(lens) && l < MAXBITS
    ensures Used(lens, l) <= Pow2(l) <= 16384
  {
    hide Used, Shl, Pow2;
    EndOfMono(lens, l, MAXBITS);
    if Used(lens, l) > Pow2(l) {
      ShlMono(Pow2(l), Used(lens, l), MAXBITS - l);
      Pow2Shl(l, MAXBITS - l);
      assert Pow2(MAXBITS - l) >= 1;
    }
    Pow2Mono(l, 14);
    MorePowers();
  }

  lemma FirstIs(lens: seq<nat>, l: nat)
    requires 1 <= l
    ensures First(lens, l) == 2 * Used(lens, l - 1)
    ensures Used(lens, l - 1) == if l == 1 then 0 else First(lens, l - 1) + Count(lens, l - 1)
  {
  }

  /** gen_codes(): for lengths that fit, 16 bits are enough and the code words are the canonical ones. */
  method GenCodes(lens: seq<nat>, blCount: seq<nat>) returns (codes: seq<nat>)
    requires Counted(lens, blCount) && Fit(lens)
    ensures HasCodes(lens, codes)
  {
    hide Rev, Count, Used, EndOf, Pow2, Fit;
    var next := new nat[16];
    var code := 0;
    for bits := 1 to 16
      invariant code == if bits == 1 then 0 else First(lens, bits - 1)
      invariant forall l {:trigger next[l]} :: 1 <= l < bits ==> next[l] == First(lens, l)
    {
      FirstIs(lens, bits);
      UsedFits(lens, bits - 1);
      code := (code + blCount[bits - 1]) % 65536 * 2 % 65536;
      next[bits] := code;
    }
    codes := [];
    for n := 0 to |lens|
      invariant |codes| == n
      invariant forall l {:trigger next[l]} :: 1 <= l <= 15 ==> next[l] == First(lens, l) + Count(lens[..n], l)
      invariant forall k {:trigger codes[k]} :: 0 <= k < n && lens[k] > 0 ==> codes[k] == Rev(CodeOf(lens, k), lens[k])
    {
      assert lens[..n + 1][..n] == lens[..n];
      CountNext(lens, n);
      FitAt(lens, n);
      var len := lens[n];
      if len == 0 {
        codes := codes + [0];
      } else {
        var c := BiReverse(next[len], len);
        codes := codes + [c];
        next[len] := next[len] + 1;
      }
    }
  }

  lemma FitAt(lens: seq<nat>, n: nat)
    requires Fit(lens) && n < |lens|
    ensures lens[n] <= MAXBITS
  {
    hide EndOf;
  }

  lemma CountNext(lens: seq<nat>, n: nat)
    requires n < |lens|
    ensures forall l {:trigger Count(lens[..n], l)} ::
      Count(lens[..n + 1], l) == Count(lens[..n], l) + if lens[n] == l then 1 else 0
  {
    assert lens[..n + 1][..n] == lens[..n];
  }

  // ----- lengths and distances -----

  const EXTRA_LBITS: seq<nat> := [
    0, 0, 0, 0, 0, 0, 0, 0, 1, 1, 1, 1, 2, 2, 2, 2, 3, 3, 3, 3, 4, 4, 4, 4, 5, 5, 5, 5, 0]
  const EXTRA_DBITS: seq<nat> := [
    0, 0, 0, 0, 1, 1, 2, 2, 3, 3, 4, 4, 5, 5, 6, 6, 7, 7, 8, 8, 9, 9, 10, 10, 11, 11, 12, 12, 13, 13]

  lemma ExtraBitsAre(code: nat)
    ensures code < 29 ==> EXTRA_LBITS[code] == SymbolBits(257 + code)
    ensures code < 30 ==> EXTRA_DBITS[code] == DistSymbolBits(code)
  {
  }

  /** _length_code, base_length, _dist_code and base_dist. */
  datatype Tables = Tables(lengthCode: seq<nat>, baseLength: seq<nat>, distCode: seq<nat>, baseDist: seq<nat>)

  /** d_code(), for a distance less one. */
  function DCode(t: Tables, dist: nat): nat
    requires |t.distCode| == 512 && dist < 32768
  {
    if dist < 256 then t.distCode[dist] else t.distCode[256 + dist / 128]
  }

  /** What the tables hold is the arithmetic of the format. */
  ghost predicate Right(t: Tables) {
    && |t.lengthCode| == 256 && |t.baseLength| == 29 && |t.distCode| == 512 && |t.baseDist| == 30
    && (forall len: nat {:trigger LengthSymbol(len)} :: 3 <= len <= 258 ==>
        t.lengthCode[len - 3] == LengthSymbol(len) - 257)
    && (forall c: nat {:trigger t.baseLength[c]} :: c < 28 ==> t.baseLength[c] == SymVal(Lens, 257 + c) - 3)
    && (forall d: nat {:trigger DistSymbol(d)} :: 1 <= d <= 32768 ==> DCode(t, d - 1) == DistSymbol(d))
    && (forall c: nat {:trigger t.baseDist[c]} :: c < 30 ==> t.baseDist[c] == SymVal(Dists, c) - 1)
  }

  /** The first lengths are mapped. */
  ghost predicate LengthsTo(a: array<nat>, n: nat)
    reads a
  {
    a.Length == 256 && n <= 256
    && forall i {:trigger a[i]} :: 0 <= i < n && i < 255 ==> a[i] == LengthSymbol(i + 3) - 257
  }

  /** Entry x of the range of a symbol. */
  lemma InLengthRange(code: nat, x: nat)
    requires code < 28 && x < Pow2(SymbolBits(257 + code))
    ensures var i := SymVal(Lens, 257 + code) - 3 + x; 0 <= i < 256 && (i < 255 ==> LengthSymbol(i + 3) == 257 + code)
  {
    hide Pow2, Log2, SymVal, SymOp, LengthSymbol;
    SmallPowers();
    if code == 27 && x == 31 {
      LengthRanges(284);
    } else {
      LengthOnly(257 + code, x);
    }
  }

  /** The lengths' part of tr_static_init() */
  method InitLengths() returns (lengthCode: array<nat>, baseLength: array<nat>)
    ensures fresh(lengthCode) && fresh(baseLength) && lengthCode.Length == 256 && baseLength.Length == 29
    ensures LengthsTo(lengthCode, 256) && lengthCode[255] == 28
    ensures forall c: nat {:trigger baseLength[c]} :: c < 28 ==> baseLength[c] == SymVal(Lens, 257 + c) - 3
  {
    hide Pow2, Log2, SymVal, SymOp, LengthSymbol;
    lengthCode, baseLength := new nat[256], new nat[29];
    var length: nat := 0;
    LengthRanges(257);
    for code := 0 to 28
      invariant length == (if code < 28 then SymVal(Lens, 257 + code) - 3 else 256)
      invariant LengthsTo(lengthCode, length)
      invariant forall c: nat {:trigger baseLength[c]} :: c < code ==> baseLength[c] == SymVal(Lens, 257 + c) - 3
    {
      baseLength[code] := length;
      ExtraBitsAre(code);
      LengthRanges(257 + code);
      ghost var start := length;
      for n := 0 to Pow2(EXTRA_LBITS[code])
        invariant length == start + n && LengthsTo(lengthCode, length)
        invariant forall c: nat {:trigger baseLength[c]} :: c <= code ==> baseLength[c] == SymVal(Lens, 257 + c) - 3
      {
        InLengthRange(code, n);
        lengthCode[length] := code;
        length := length + 1;
      }
    }
    lengthCode[length - 1] := 28;
  }

  /** Distances less one, up to n. */
  ghost predicate DistsTo(a: array<nat>, n: nat)
    reads a
  {
    a.Length == 512 && n <= 256 && forall i {:trigger a[i]} :: 0 <= i < n ==> a[i] == DistSymbol(i + 1)
  }

  /** Distances less one from 256 on, by their upper bits. */
  ghost predicate FarTo(a: array<nat>, n: nat)
    reads a
  {
    a.Length == 512 && 2 <= n <= 256
    && forall d: nat {:trigger DistSymbol(d)} :: 257 <= d <= 128 * n ==> a[256 + (d - 1) / 128] == DistSymbol(d)
  }

  lemma InDistRange(code: nat, x: nat)
    requires code < 30 && x < Pow2(DistSymbolBits(code))
    ensures var i := SymVal(Dists, code) - 1 + x; 0 <= i < 32768 && DistSymbol(i + 1) == code
  {
    hide Pow2, Log2, SymVal, SymOp, DistSymbol;
    DistOnly(code, x);
  }

  /** The boundary between the near and the far distances. */
  lemma Boundaries()
    ensures SymVal(Dists, 16) == 257 && SymVal(Dists, 0) == 1
  {
  }

  /** The near distances' part of tr_static_init() */
  method InitNear(distCode: array<nat>, baseDist: array<nat>)
    requires distCode.Length == 512 && baseDist.Length == 30 && distCode != baseDist
    modifies distCode, baseDist
    ensures DistsTo(distCode, 256)
    ensures forall c: nat {:trigger baseDist[c]} :: c < 16 ==> baseDist[c] == SymVal(Dists, c) - 1
  {
    hide Pow2, Log2, SymVal, SymOp, DistSymbol;
    var dist: nat := 0;
    Boundaries();
    for code := 0 to 16
      invariant dist == SymVal(Dists, code) - 1 && dist <= 256 && DistsTo(distCode, dist)
      invariant forall c: nat {:trigger baseDist[c]} :: c < code ==> baseDist[c] == SymVal(Dists, c) - 1
    {
      baseDist[code] := dist;
      ExtraBitsAre(code);
      DistRanges(code);
      NearEnd(code);
      ghost var start := dist;
      for n := 0 to Pow2(EXTRA_DBITS[code])
        invariant dist == start + n && DistsTo(distCode, dist)
        invariant forall c: nat {:trigger baseDist[c]} :: c <= code ==> baseDist[c] == SymVal(Dists, c) - 1
      {
        InDistRange(code, n);
        distCode[dist] := code;
        dist := dist + 1;
      }
    }
  }

  lemma NearEnd(code: nat)
    requires code < 16
    ensures SymVal(Dists, code + 1) <= 257
  {
  }

  /** From symbol 16 on the ranges are whole multiples of 128. */
  lemma FarRange(code: nat)
    requires 16 <= code < 30
    ensures DistSymbolBits(code) >= 7 && Pow2(DistSymbolBits(code)) == 128 * Pow2(DistSymbolBits(code) - 7)
    ensures (SymVal(Dists, code) - 1) % 128 == 0
  {
    FarBase(code);
    var e := DistSymbolBits(code) - 7;
    hide Pow2;
    Pow2Shl(e, 7);
    ShlSeven(Pow2(e));
  }

  lemma FarBase(code: nat)
    requires 16 <= code < 30
    ensures (SymVal(Dists, code) - 1) % 128 == 0
  {
  }

  lemma ShlSeven(x: nat)
    ensures Shl(x, 7) == 128 * x
  {
    assert Shl(x, 1) == 2 * x;
    assert Shl(x, 3) == 8 * x;
    assert Shl(x, 5) == 32 * x;
  }

  /** One more entry for far distances. */
  lemma FarSlot(code: nat, n: nat, d: nat)
    requires 16 <= code < 30 && n < Pow2(DistSymbolBits(code) - 7)
    requires SymVal(Dists, code) - 1 + 128 * n <= d - 1 < SymVal(Dists, code) - 1 + 128 * n + 128
    ensures 1 <= d <= 32768 && DistSymbol(d) == code
  {
    hide Pow2, DistSymbol, SymVal;
    FarRange(code);
    InDistRange(code, d - SymVal(Dists, code));
  }

  lemma FarEnd(code: nat)
    requires 16 <= code < 30
    ensures 257 <= SymVal(Dists, code) && SymVal(Dists, code) - 1 + Pow2(DistSymbolBits(code)) <= 32768
  {
    hide Pow2, SymVal;
    DistRanges(code);
    InDistRange(code, Pow2(DistSymbolBits(code)) - 1);
    if code > 16 { FarMore(code); } else { Boundaries(); }
  }

  lemma FarMore(code: nat)
    requires 16 < code < 30
    ensures 257 <= SymVal(Dists, code)
  {
  }

  /** The far distances' part of tr_static_init() */
  method InitFar(distCode: array<nat>, baseDist: array<nat>)
    requires distCode.Length == 512 && baseDist.Length == 30 && distCode != baseDist && DistsTo(distCode, 256)
    requires forall c: nat {:trigger baseDist[c]} :: c < 16 ==> baseDist[c] == SymVal(Dists, c) - 1
    modifies distCode, baseDist
    ensures DistsTo(distCode, 256) && FarTo(distCode, 256)
    ensures forall c: nat {:trigger baseDist[c]} :: c < 30 ==> baseDist[c] == SymVal(Dists, c) - 1
  {
    hide Pow2, Log2, SymVal, SymOp, DistSymbol;
    var dist: nat := 2;
    Boundaries();
    for code := 16 to 30
      invariant 128 * dist == (if code < 30 then SymVal(Dists, code) - 1 else 32768)
      invariant DistsTo(distCode, 256) && FarTo(distCode, dist)
      invariant forall c: nat {:trigger baseDist[c]} :: c < code ==> baseDist[c] == SymVal(Dists, c) - 1
    {
      baseDist[code] := 128 * dist;
      ExtraBitsAre(code);
      DistRanges(code);
      FarRange(code);
      FarEnd(code);
      ghost var start := dist;
      for n := 0 to Pow2(EXTRA_DBITS[code] - 7)
        invariant dist == start + n && DistsTo(distCode, 256) && FarTo(distCode, dist)
        invariant forall c: nat {:trigger baseDist[c]} :: c <= code ==> baseDist[c] == SymVal(Dists, c) - 1
      {
        FarNext(distCode, dist, code, n);
        distCode[256 + dist] := code;
        dist := dist + 1;
      }
    }
  }

  lemma FarNext(a: array<nat>, dist: nat, code: nat, n: nat)
    requires FarTo(a, dist) && 16 <= code < 30 && n < Pow2(DistSymbolBits(code) - 7)
    requires 128 * dist == SymVal(Dists, code) - 1 + 128 * n
    ensures dist < 256
    ensures forall d: nat {:trigger DistSymbol(d)} :: 128 * dist < d <= 128 * (dist + 1) ==>
      (d - 1) / 128 == dist && DistSymbol(d) == code
  {
    hide Pow2, SymVal, DistSymbol;
    forall d: nat {:trigger DistSymbol(d)} | 128 * dist < d <= 128 * (dist + 1)
      ensures d <= 32768 && (d - 1) / 128 == dist && DistSymbol(d) == code
    {
      FarSlot(code, n, d);
    }
    FarSlot(code, n, 128 * dist + 1);
  }

  /** tr_static_init(): the tables of lengths and distances. */
  method StaticInit() returns (t: Tables)
    ensures Right(t)
  {
    hide Pow2, Log2, SymVal, SymOp, DistSymbol, LengthSymbol;
    var lengthCode, baseLength := InitLengths();
    var distCode, baseDist := new nat[512], new nat[30];
    InitNear(distCode, baseDist);
    InitFar(distCode, baseDist);
    t := Tables(lengthCode[..], baseLength[..], distCode[..], baseDist[..]);
    Longest();
  }

  lemma Longest()
    ensures LengthSymbol(258) == 285
  {
  }

  // ----- the static trees -----

  /** The static distance tree has no entries for 30 and 31. */
  const STATIC_DIST: seq<nat> := Repeat<nat>(5, 30)

  lemma StaticDist(n: nat)
    requires n < 30
    ensures CodeOf(STATIC_DIST, n) == n && CodeOf(FIXED_DIST, n) == n && STATIC_DIST[n] == FIXED_DIST[n] == 5
  {
    hide Count, Used;
    assert STATIC_DIST[..n] == Repeat<nat>(5, n) && FIXED_DIST[..n] == Repeat<nat>(5, n);
    InflateRun.CountRepeat(5, n, 5);
    InflateRun.FixedUsed(4);
    NoneShorter(4);
  }

  lemma {:induction false} NoneShorter(l: nat)
    requires l < 5
    ensures Used(STATIC_DIST, l) == 0
  {
    hide Count;
    if l > 0 {
      InflateRun.CountRepeat(5, 30, l);
      NoneShorter(l - 1);
    }
  }

  lemma FixedFits()
    ensures Fit(FIXED_LIT)
  {
    hide EndOf, Pow2, InflateTable.BadLengths;
    InflateRun.FixedAccepted();
    InflateRun.NotOver(Lens, FIXED_LIT);
  }

  /** The static trees' part of tr_static_init() */
  method StaticTrees() returns (litCodes: seq<nat>, distCodes: seq<nat>)
    ensures HasCodes(FIXED_LIT, litCodes) && HasCodes(STATIC_DIST, distCodes)
  {
    hide Rev, CodeOf, Count, Fit;
    var lens: seq<nat>, blCount := [], Repeat<nat>(0, 16);
    while |lens| <= 143
      invariant |lens| <= 144 && lens == Repeat<nat>(8, |lens|)
      invariant blCount == Repeat<nat>(0, 16)[8 := |lens|]
    {
      lens, blCount := lens + [8], blCount[8 := blCount[8] + 1];
    }
    while |lens| <= 255
      invariant 144 <= |lens| <= 256 && lens == Repeat<nat>(8, 144) + Repeat<nat>(9, |lens| - 144)
      invariant blCount == Repeat<nat>(0, 16)[8 := 144][9 := |lens| - 144]
    {
      lens, blCount := lens + [9], blCount[9 := blCount[9] + 1];
    }
    while |lens| <= 279
      invariant 256 <= |lens| <= 280
      invariant lens == Repeat<nat>(8, 144) + Repeat<nat>(9, 112) + Repeat<nat>(7, |lens| - 256)
      invariant blCount == Repeat<nat>(0, 16)[8 := 144][9 := 112][7 := |lens| - 256]
    {
      lens, blCount := lens + [7], blCount[7 := blCount[7] + 1];
    }
    while |lens| <= 287
      invariant 280 <= |lens| <= 288
      invariant lens == Repeat<nat>(8, 144) + Repeat<nat>(9, 112) + Repeat<nat>(7, 24) + Repeat<nat>(8, |lens| - 280)
      invariant blCount == Repeat<nat>(0, 16)[9 := 112][7 := 24][8 := |lens| - 136]
    {
      lens, blCount := lens + [8], blCount[8 := blCount[8] + 1];
    }
    assert lens == FIXED_LIT;
    forall l | 1 <= l <= 15
      ensures blCount[l] == Count(FIXED_LIT, l)
    {
      InflateRun.FixedCounts(l);
    }
    FixedFits();
    litCodes := GenCodes(lens, blCount);
    distCodes := [];
    for n := 0 to 30
      invariant |distCodes| == n
      invariant forall k {:trigger distCodes[k]} :: 0 <= k < n ==> distCodes[k] == Rev(CodeOf(STATIC_DIST, k), 5)
    {
      StaticDist(n);
      var c := BiReverse(n, 5);
      distCodes := distCodes + [c];
    }
  }
}
