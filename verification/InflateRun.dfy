/** What every step of the inflate machine keeps, and whole runs. */
module InflateRun {
  import opened Bits
  import opened Canonical
  import opened DecodeTable
  import opened Bytes
  import opened InflateSpec
  import InflateTable
  import BuildTable

  // ----- decoded entries -----

  lemma LengthFacts(i: nat)
    requires i < 31 && !HasBit(LENGTH_EXTRA[i], 32) && !HasBit(LENGTH_EXTRA[i], 64)
    ensures LENGTH_EXTRA[i] % 16 <= 5 && 3 <= LENGTH_BASE[i] && LENGTH_BASE[i] + Pow2(LENGTH_EXTRA[i] % 16) <= 259
  {
    assert Pow2(0) == 1 && Pow2(1) == 2 && Pow2(2) == 4 && Pow2(3) == 8 && Pow2(4) == 16 && Pow2(5) == 32;
  }

  lemma DistFacts(i: nat)
    requires i < 32 && !HasBit(DIST_EXTRA[i], 64)
    ensures DIST_EXTRA[i] % 16 <= 13 && 1 <= DIST_BASE[i] && DIST_BASE[i] + Pow2(DIST_EXTRA[i] % 16) <= 32769
  {
    assert Pow2(0) == 1 && Pow2(1) == 2 && Pow2(2) == 4 && Pow2(3) == 8 && Pow2(4) == 16 && Pow2(5) == 32;
    assert Pow2(6) == 64 && Pow2(7) == 128 && Pow2(8) == 256 && Pow2(9) == 512 && Pow2(10) == 1024;
    assert Pow2(11) == 2048 && Pow2(12) == 4096 && Pow2(13) == 8192;
  }

  /** What decoding yields, for a code that inflate_table accepts. */
  lemma DecodeFacts(kind: Kind, lens: seq<nat>, v: nat)
    requires Accepted(kind, lens)
    ensures var e := Decode(kind, lens, v);
      && 1 <= e.bits <= 15
      && (e == Entry(64, 1, 0)
          || exists sym: nat :: Matches(lens, sym, v) && e == Entry(SymOp(kind, sym), lens[sym], SymVal(kind, sym)))
  {
    hide InflateTable.BadLengths, CodeOf, Rev, SymOp, SymVal, Lo;
  }

  lemma DecodeLens(lens: seq<nat>, v: nat)
    requires Accepted(Lens, lens)
    ensures var e := Decode(Lens, lens, v);
      && 1 <= e.bits <= 15
      && (e.op == 0 ==> e.val < 256)
      && (e.op != 0 && !HasBit(e.op, 32) && !HasBit(e.op, 64) ==> ValidSub(LenExt(e.val, e.op % 16)))
  {
    hide InflateTable.BadLengths, CodeOf, Rev, Lo, Pow2;
    DecodeFacts(Lens, lens, v);
    var e := Decode(Lens, lens, v);
    if e != Entry(64, 1, 0) && e.op != 0 && !HasBit(e.op, 32) && !HasBit(e.op, 64) {
      var sym: nat :| Matches(lens, sym, v) && e == Entry(SymOp(Lens, sym), lens[sym], SymVal(Lens, sym));
      LengthFacts(sym - 257);
    }
  }

  lemma DecodeDists(lens: seq<nat>, v: nat)
    requires Accepted(Dists, lens)
    ensures var e := Decode(Dists, lens, v);
      && 1 <= e.bits <= 15
      && (!HasBit(e.op, 64) ==> 1 <= e.val && e.val + Pow2(e.op % 16) <= 32769 && e.op % 16 <= 13)
  {
    hide InflateTable.BadLengths, CodeOf, Rev, Lo, Pow2;
    DecodeFacts(Dists, lens, v);
    var e := Decode(Dists, lens, v);
    if e != Entry(64, 1, 0) && !HasBit(e.op, 64) {
      var sym: nat :| Matches(lens, sym, v) && e == Entry(SymOp(Dists, sym), lens[sym], SymVal(Dists, sym));
      DistFacts(sym);
    }
  }

  lemma DecodeCodes(lens: seq<nat>, v: nat)
    requires Accepted(Codes, lens) && Lengths(lens, 7)
    ensures var e := Decode(Codes, lens, v); 1 <= e.bits <= 7 && e.val <= 18
  {
    hide InflateTable.BadLengths, CodeOf, Rev, Lo;
    DecodeFacts(Codes, lens, v);
  }

  /** Streams that agree on the bits of the decoded word decode to the same entry. */
  lemma DecodeStable(kind: Kind, lens: seq<nat>, v: nat, v': nat, n: nat)
    requires Accepted(kind, lens) && Decode(kind, lens, v).bits <= n && Lo(v, n) == Lo(v', n)
    ensures Decode(kind, lens, v') == Decode(kind, lens, v)
  {
    hide InflateTable.BadLengths, CodeOf, Rev, SymOp, SymVal, Lo;
    NotOver(kind, lens);
    if exists sym: nat :: Matches(lens, sym, v) {
      var sym: nat :| Matches(lens, sym, v);
      Unique(kind, lens, sym, v);
      LoLo(v, lens[sym], n);
      LoLo(v', lens[sym], n);
      assert Matches(lens, sym, v');
      Unique(kind, lens, sym, v');
    } else {
      LoLo(v, 1, n);
      LoLo(v', 1, n);
      NoneMatches(kind, lens, v, v');
    }
  }

  lemma NotOver(kind: Kind, lens: seq<nat>)
    requires Accepted(kind, lens)
    ensures EndOf(lens, MAXBITS) <= Pow2(MAXBITS)
  {
    hide EndOf, Pow2;
    BuildTable.EndIsKraft(lens);
  }

  lemma Unique(kind: Kind, lens: seq<nat>, sym: nat, v: nat)
    requires |lens| <= Alphabet(kind) && EndOf(lens, MAXBITS) <= Pow2(MAXBITS) && Matches(lens, sym, v)
    ensures Decode(kind, lens, v) == Entry(SymOp(kind, sym), lens[sym], SymVal(kind, sym))
  {
    hide CodeOf, Rev, Lo, EndOf, Pow2, SymOp, SymVal;
    var a: nat :| Matches(lens, a, v) && Decode(kind, lens, v) == Entry(SymOp(kind, a), lens[a], SymVal(kind, a));
    MatchUnique(lens, a, sym, v);
  }

  /** Where an accepted code has no word, one bit decides it. */
  lemma NoneMatches(kind: Kind, lens: seq<nat>, v: nat, v': nat)
    requires Accepted(kind, lens) && Lo(v, 1) == Lo(v', 1) && forall sym: nat :: !Matches(lens, sym, v)
    ensures forall sym: nat :: !Matches(lens, sym, v')
  {
    hide EndOf, Pow2, CodeOf, Rev, Lo, InflateTable.BadLengths, InflateTable.MaxLen;
    NotOver(kind, lens);
    if EndOf(lens, MAXBITS) == Pow2(MAXBITS) {
      var sym := CompleteMatches(lens, v);
    } else {
      forall sym: nat
        ensures !Matches(lens, sym, v')
      {
        if IsSymbol(lens, sym) {
          BuildTable.CountAt(lens, sym);
          BuildTable.IncompleteRoot(kind, lens, 1);
          BuildTable.OneCode(lens, sym);
          assert !Matches(lens, sym, v);
        }
      }
    }
  }

  /** A table that decodes a code decodes as the specification does. */
  lemma TableDecodes(t: seq<Entry>, b: nat, root: nat, kind: Kind, lens: seq<nat>, v: nat)
    requires Accepted(kind, lens) && Decodes(t, b, root, kind, lens)
    ensures InTable(t, b, root, v) && Lookup(t, b, root, v) == Decode(kind, lens, v)
    ensures var e := t[b + Lo(v, root)];
      && (IsLink(e) ==> e.bits == root)
      && (Decode(kind, lens, v).bits <= root ==> !IsLink(e))
  {
    hide InflateTable.BadLengths, SymOp, SymVal, Lo, Hi, CodeOf, Rev;
    assert DecodesStream(t, b, root, kind, lens, v);
  }

  // ----- the fixed codes -----

  lemma {:induction false} CountAppend(a: seq<nat>, b: seq<nat>, l: nat)
    ensures Count(a + b, l) == Count(a, l) + Count(b, l)
    decreases |b|
  {
    if b == [] {
      assert a + b == a;
    } else {
      assert (a + b)[..|a + b| - 1] == a + b[..|b| - 1];
      CountAppend(a, b[..|b| - 1], l);
    }
  }

  lemma {:induction false} CountRepeat(x: nat, k: nat, l: nat)
    ensures Count(Repeat<nat>(x, k), l) == if x == l then k else 0
  {
    if k > 0 {
      assert Repeat<nat>(x, k)[..k - 1] == Repeat<nat>(x, k - 1);
      CountRepeat(x, k - 1, l);
    }
  }

  lemma FixedCounts(l: nat)
    ensures Count(FIXED_LIT, l) == if l == 7 then 24 else if l == 8 then 152 else if l == 9 then 112 else 0
    ensures Count(FIXED_DIST, l) == if l == 5 then 32 else 0
  {
    hide Count;
    CountAppend(Repeat<nat>(8, 144) + Repeat<nat>(9, 112) + Repeat<nat>(7, 24), Repeat<nat>(8, 8), l);
    CountAppend(Repeat<nat>(8, 144) + Repeat<nat>(9, 112), Repeat<nat>(7, 24), l);
    CountAppend(Repeat<nat>(8, 144), Repeat<nat>(9, 112), l);
    CountRepeat(8, 144, l);
    CountRepeat(9, 112, l);
    CountRepeat(7, 24, l);
    CountRepeat(8, 8, l);
    CountRepeat(5, 32, l);
  }

  lemma {:induction false} FixedUsed(l: nat)
    requires l <= 15
    ensures Used(FIXED_LIT, l) == if l < 7 then 0 else if l == 7 then 24 else if l == 8 then 200 else Pow2(l)
    ensures Used(FIXED_DIST, l) == if l < 5 then 0 else Pow2(l)
  {
    hide Count;
    FixedCounts(l);
    if l > 0 {
      FixedUsed(l - 1);
    }
    assert Pow2(5) == 32 && Pow2(9) == 512;
  }

  /** The fixed codes are complete, so inflate_table accepts them. */
  lemma FixedAccepted()
    ensures Accepted(Lens, FIXED_LIT) && Accepted(Dists, FIXED_DIST)
  {
    hide Used, KraftUpTo, Pow2, InflateTable.MaxLen;
    FixedUsed(15);
    KraftIsUsed(FIXED_LIT, 15);
    KraftIsUsed(FIXED_DIST, 15);
  }

  /** The tables of the fixed codes, as makefixed() lays them out. */
  ghost predicate FixedTables(t: seq<Entry>) {
    && Decodes(t, 0, 9, Lens, FIXED_LIT)
    && Decodes(t, 512, 5, Dists, FIXED_DIST)
  }

  // ----- one step -----

  lemma TakeValid(c: Config, k: nat)
    requires Valid(c) && k <= c.n
    ensures Valid(Take(c, k))
  {
    hide ValidPhase;
    HiBound(c.v, k, c.n - k);
  }

  lemma UnpermuteFacts(cl: seq<nat>)
    requires Lengths(cl, 7)
    ensures Lengths(Unpermute(cl), 7)
  {
  }

  /** What a step keeps: validity, the output so far, and a measure that decreases. */
  ghost predicate GoodStep(c: Config, c': Config) {
    && Valid(c')
    && (c'.n < c.n || (c'.n == c.n && Rank(c'.phase) < Rank(c.phase)))
    && c.out <= c'.out && |c'.out| <= |c.out| + (if NeedsRoom(c.phase) then 1 else 0)
  }

  lemma HeaderStep(c: Config, w: Window)
    requires Valid(c) && (c.phase.Block? || c.phase.Stored? || c.phase.Copy? || c.phase.Table? || c.phase.LenLens?)
    ensures Next(c, w).Some? ==> GoodStep(c, Next(c, w).value)
  {
    hide Pow2, Hi, InflateTable.Result, InflateTable.BadLengths, Unpermute;
    FixedAccepted();
    Pow2Values();
    if 3 <= c.n { TakeValid(c, 3); }
    if 8 <= c.n { TakeValid(c, 8); }
    if 14 <= c.n { TakeValid(c, 14); }
    if 32 <= c.n { TakeValid(c, 32); }
    if c.n % 8 <= c.n { TakeValid(c, c.n % 8); }
    if c.phase.LenLens? {
      LenLensStep(c, w);
    }
  }

  lemma Pow2Values()
    ensures Pow2(3) == 8 && Pow2(4) == 16 && Pow2(5) == 32 && Pow2(7) == 128 && Pow2(8) == 256 && Pow2(16) == 65536
  {
    assert Pow2(8) == 256;
    assert Pow2(12) == 4096;
  }

  lemma LenLensStep(c: Config, w: Window)
    requires Valid(c) && c.phase.LenLens?
    ensures Next(c, w).Some? ==> GoodStep(c, Next(c, w).value)
  {
    hide Pow2, Hi, InflateTable.BadLengths, Unpermute, InflateTable.TotalSpace;
    if |c.phase.cl| < c.phase.ncode {
      if 3 <= c.n { TakeValid(c, 3); Pow2Values(); }
    } else {
      UnpermuteFacts(c.phase.cl);
    }
  }

  lemma OneLengthStep(c: Config)
    requires Valid(c) && c.phase.CodeLens? && |c.phase.ls| < c.phase.nlen + c.phase.ndist
    ensures OneLength(c).Some? ==> GoodStep(c, OneLength(c).value)
  {
    hide Pow2, Hi, InflateTable.BadLengths, Decode;
    var CodeLens(nlen, ndist, code, ls) := c.phase;
    DecodeCodes(code, c.v);
    var e := Decode(Codes, code, c.v);
    if e.bits <= c.n { TakeValid(c, e.bits); }
    if e.bits + RepeatBits(e.val) <= c.n { TakeValid(c, e.bits + RepeatBits(e.val)); }
  }

  lemma CodeLensStep(c: Config, w: Window)
    requires Valid(c) && c.phase.CodeLens?
    ensures Next(c, w).Some? ==> GoodStep(c, Next(c, w).value)
  {
    hide Pow2, Hi, InflateTable.BadLengths, InflateTable.TotalSpace, OneLength;
    if |c.phase.ls| < c.phase.nlen + c.phase.ndist {
      OneLengthStep(c);
    }
  }

  lemma CodedStepGood(c: Config, w: Window)
    requires Valid(c) && c.phase.Coded?
    ensures Next(c, w).Some? ==> GoodStep(c, Next(c, w).value)
  {
    hide Pow2, Hi, InflateTable.BadLengths, Decode, HasBit;
    match c.phase.sub
    case Len =>
      DecodeLens(c.phase.lit, c.v);
      var e := Decode(Lens, c.phase.lit, c.v);
      if e.bits <= c.n { TakeValid(c, e.bits); }
    case LenExt(length, extra) =>
      if extra <= c.n { TakeValid(c, extra); }
    case Dist(length) =>
      DecodeDists(c.phase.dist, c.v);
      var e := Decode(Dists, c.phase.dist, c.v);
      if e.bits <= c.n { TakeValid(c, e.bits); }
    case DistExt(length, offset, extra) =>
      if extra <= c.n { TakeValid(c, extra); }
    case Match(length, offset) =>
    case Lit(val) =>
  }

  /** Every step keeps validity and the output so far, and makes progress. */
  lemma StepIsGood(c: Config, w: Window)
    requires Valid(c)
    ensures Next(c, w).Some? ==> GoodStep(c, Next(c, w).value)
  {
    hide *;
    match c.phase
    case CodeLens(_, _, _, _) => CodeLensStep(c, w);
    case Coded(_, _, _) => CodedStepGood(c, w);
    case Done => DoneStep(c, w);
    case Bad => DoneStep(c, w);
    case _ => HeaderStep(c, w);
  }

  lemma DoneStep(c: Config, w: Window)
    requires Valid(c) && (c.phase.Done? || c.phase.Bad?)
    ensures Next(c, w).None?
  {
  }
}
