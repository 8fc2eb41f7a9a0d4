/** The cases of inflate()'s switch that read the code lengths of a dynamic block and build its tables. */
module InflateLengths {
  import opened Bits
  import opened DecodeTable
  import opened Bytes
  import opened InflateSpec
  import opened InflateSchedule
  import opened InflateState
  import opened InflateSteps
  import opened InflateCases
  import InflateRun
  import InflateTable
  import BuildTable
  import Canonical

  lemma OrderInverse(i: nat)
    requires i < 19
    ensures ORDER[i] < 19 && OrderOf(ORDER[i]) == i
  {
  }

  /** Storing the next length read. */
  lemma StoreInOrder(lens: seq<nat>, have: nat, len: nat)
    requires have < 19 <= |lens|
    ensures InOrder(lens[ORDER[have] := len], have + 1) == InOrder(lens, have) + [len]
  {
    OrderInverse(have);
    var a, b := InOrder(lens[ORDER[have] := len], have + 1), InOrder(lens, have) + [len];
    forall i | 0 <= i < have + 1
      ensures a[i] == b[i]
    {
      OrderInverse(i);
    }
  }

  /** When the missing lengths are zero the array holds the lengths in symbol order. */
  lemma AllStored(cl: seq<nat>, ncode: nat, lens: seq<nat>)
    requires |cl| == ncode <= 19 <= |lens|
    requires forall i {:trigger ORDER[i]} :: 0 <= i < 19 ==> lens[ORDER[i]] == if i < ncode then cl[i] else 0
    ensures lens[..19] == Unpermute(cl)
  {
    forall s: nat | s < 19
      ensures lens[..19][s] == Unpermute(cl)[s]
    {
      assert ORDER[OrderOf(s)] == s;
    }
  }

  /** The lengths not sent are zero. */
  method ClearRest(lens: array<nat>, ncode: nat)
    requires ncode <= 19 <= lens.Length
    modifies lens
    ensures lens[..19] == Unpermute(InOrder(old(lens[..]), ncode))
  {
    ghost var cl := InOrder(lens[..], ncode);
    var have := ncode;
    while have < 19
      invariant ncode <= have <= 19
      invariant forall i {:trigger ORDER[i]} :: 0 <= i < have ==> lens[ORDER[i]] == if i < ncode then cl[i] else 0
    {
      forall i | 0 <= i < 19
        ensures ORDER[i] == ORDER[have] ==> i == have
      {
        OrderInverse(i);
        OrderInverse(have);
      }
      lens[ORDER[have]] := 0;
      have := have + 1;
    }
    AllStored(cl, ncode, lens[..]);
  }

  /** Moving on without reading: fewer than eight bits are held already. */
  lemma Builds(r: Regs, ph: Phase, next: seq<Byte>, r': Regs, ph': Phase, out: seq<Byte>, w: Window)
    requires Sound(r, ph) && ph'.Bad? == (r'.mode == BAD)
    requires r'.hold == r.hold && r'.bits == r.bits && r'.last == r.last
    requires Valid(Conf(r, ph, next, out)) && Next(Conf(r, ph, next, out), w) == Some(Conf(r', ph', next, out))
    requires Valid(Config(r.last, ph, r.hold, r.bits, [])) && Next(Config(r.last, ph, r.hold, r.bits, []), w).Some?
    ensures Stepped(r, ph, next, r', ph', next, false, out, w)
  {
    hide Next, ValidPhase, Pow2, Virtual, Stepped;
    HeldFew(r, ph, w);
    Goes(r, ph, next, r', ph', next, out, w);
  }

  lemma LenLensBuilds(c: Config, w: Window)
    requires Valid(c) && c.phase.LenLens? && |c.phase.cl| == c.phase.ncode
    ensures var code := Unpermute(c.phase.cl);
      Next(c, w) == Some(c.(phase :=
        if InflateTable.Result(Codes, code, 7) != 0 then Phase.Bad
          else CodeLens(c.phase.nlen, c.phase.ndist, code, [])))
  {
    hide Lo, Hi, Pow2, Unpermute, InflateTable.Result;
  }

  /** The code length code is built in the state's own tables. */
  method BuildLengthCode(r: Regs, next: seq<Byte>, lens: array<nat>, codes: array<Entry>, ghost out: seq<Byte>,
      ghost w: Window)
    returns (r': Regs, root: nat)
    requires lens.Length == 320 && codes.Length == ENOUGH_LENS + ENOUGH_DISTS && r.have == r.ncode <= 19
    requires Sound(r, LenLens(r.nlen, r.ndist, r.ncode, InOrder(lens[..], r.have)))
    modifies lens, codes
    ensures r'.mode in {BAD, CODELENS} && r'.have == 0
    ensures r'.mode == CODELENS ==>
      root == InflateTable.Root(lens[..19], 7) && Decodes(codes[..], 0, root, Codes, lens[..19])
    ensures Stepped(r, old(LenLens(r.nlen, r.ndist, r.ncode, InOrder(lens[..], r.have))), next,
      r', if r'.mode == BAD then Phase.Bad else CodeLens(r'.nlen, r'.ndist, lens[..19], []), next, false, out, w)
  {
    hide Pow2, Virtual, Next, Tight, Decodes, InflateTable.Root, InflateTable.Result, Unpermute, Stepped;
    ghost var cl := InOrder(lens[..], r.have);
    ghost var ph := LenLens(r.nlen, r.ndist, r.ncode, cl);
    ClearRest(lens, r.ncode);
    SoundConf(r, ph, next, out);
    LenLensBuilds(Conf(r, ph, next, out), w);
    LenLensBuilds(Config(r.last, ph, r.hold, r.bits, []), w);
    InflateRun.UnpermuteFacts(cl);
    SevenBits();
    var ret, end;
    ret, end, root := BuildTable.Build(Codes, lens[..19], codes, 0, 7);
    if ret != 0 {
      r' := r.(mode := BAD, have := 0);
      Builds(r, ph, next, r', Phase.Bad, out, w);
    } else {
      BuildTable.DecodesPrefix(codes[..end], codes[..], 0, root, Codes, lens[..19]);
      r' := r.(mode := CODELENS, have := 0);
      Builds(r, ph, next, r', CodeLens(r.nlen, r.ndist, lens[..19], []), out, w);
    }
  }

  lemma SevenBits()
    ensures Pow2(7) == 128
  {
    InflateRun.Pow2Values();
  }

  /** The lengths and symbols of the code length code now in use. */
  lemma HasLengthCode(r: Regs, l: Links, k: CodesInUse, m: Arrays, r': Regs, root: nat, m': Arrays)
    requires HasTables(r, l, k, m) && |m'.lens| == 320 && |m'.codes| == |m.codes| && m'.fixed == m.fixed
    requires r'.mode in {BAD, CODELENS}
    requires r'.mode == CODELENS ==>
      root == InflateTable.Root(m'.lens[..19], 7) && Decodes(m'.codes, 0, root, Codes, m'.lens[..19])
    ensures HasTables(r', l.(lenFixed := false, lenAt := 0, lenbits := root), k.(code := m'.lens[..19]), m')
  {
    hide Decodes, InflateTable.Root, InflateRun.FixedTables;
  }

  /** LENLENS: one more length, or the table once all are there. */
  method LenLensCase(r: Regs, l: Links, next: seq<Byte>, lens: array<nat>, codes: array<Entry>,
                     ghost k: CodesInUse, ghost fixed: seq<Entry>, ghost out: seq<Byte>, ghost w: Window)
    returns (r': Regs, l': Links, ghost k': CodesInUse, rest: seq<Byte>, leave: bool)
    requires r.mode == LENLENS && Good(r, l, k, Arrays(lens[..], codes[..], fixed))
    modifies lens, codes
    ensures Good(r', l', k', Arrays(lens[..], codes[..], fixed)) && (leave ==> rest == [])
    ensures Moved(old(ConfOf(r, k, Arrays(lens[..], codes[..], fixed), next, out)),
                  ConfOf(r', k', Arrays(lens[..], codes[..], fixed), rest, out), leave, w)
  {
    hide Stepped, Moved, Sound, Conf, HasTables, InOrder;
    ghost var m, ph := Arrays(lens[..], codes[..], fixed), PhaseOf(r, k, lens[..]);
    CodesLength(r, l, k, m);
    LenLensSizes(r, k, lens[..]);
    if r.have < r.ncode {
      var len;
      r', rest, leave, len := OneLenLen(r, next, InOrder(lens[..], r.have), out, w);
      l', k' := l, k;
      if !leave {
        StoreInOrder(lens[..], r.have, len);
        lens[ORDER[r.have]] := len;
      }
      HasLengthsOnly(r, l, k, m, r', Arrays(lens[..], codes[..], fixed));
    } else {
      var root;
      r', root := BuildLengthCode(r, next, lens, codes, out, w);
      rest, leave := next, false;
      l', k' := l.(lenFixed := false, lenAt := 0, lenbits := root), k.(code := lens[..19]);
      HasLengthCode(r, l, k, m, r', root, Arrays(lens[..], codes[..], fixed));
    }
    SteppedMoved(r, ph, next, r', PhaseOf(r', k', lens[..]), rest, leave, out, w);
  }

  lemma CodesLength(r: Regs, l: Links, k: CodesInUse, m: Arrays)
    requires HasTables(r, l, k, m)
    ensures |m.codes| == ENOUGH_LENS + ENOUGH_DISTS
  {
  }

  lemma LenLensSizes(r: Regs, k: CodesInUse, lens: seq<nat>)
    requires r.mode == LENLENS && Fits(r, lens) && Sound(r, PhaseOf(r, k, lens))
    ensures r.have <= r.ncode <= 19
  {
    hide Tight, Pow2;
  }

  lemma HasLengthsOnly(r: Regs, l: Links, k: CodesInUse, m: Arrays, r': Regs, m': Arrays)
    requires HasTables(r, l, k, m) && m' == m.(lens := m'.lens) && r'.mode == LENLENS
    ensures HasTables(r', l, k, m')
  {
    hide Decodes, InflateTable.Root, InflateRun.FixedTables;
  }

  // ----- the lengths of the two codes -----

  lemma CodeLensBuilds(c: Config, w: Window)
    requires Valid(c) && c.phase.CodeLens? && |c.phase.ls| == c.phase.nlen + c.phase.ndist
    ensures Next(c, w) == Some(c.(phase := BuildCodes(c.phase.nlen, c.phase.ls)))
  {
    hide Decode, Pow2, InflateTable.BadLengths, BuildCodes;
  }

  /** The tables of a dynamic block, one after the other. */
  method BuildTables(nlen: nat, ndist: nat, lens: array<nat>, codes: array<Entry>)
    returns (ok: bool, lenbits: nat, distAt: nat, distbits: nat)
    requires 257 <= nlen <= 286 && 1 <= ndist <= 30 && lens.Length == 320 && codes.Length == ENOUGH_LENS + ENOUGH_DISTS
    requires Lengths(lens[..nlen + ndist], 15)
    modifies codes
    ensures var ls := lens[..nlen + ndist];
      && BuildCodes(nlen, ls) == (if ok then Coded(ls[..nlen], ls[nlen..], Sub.Len) else Phase.Bad)
      && (ok ==>
          Decodes(codes[..], 0, lenbits, Lens, ls[..nlen]) && Decodes(codes[..], distAt, distbits, Dists, ls[nlen..]))
  {
    hide Decodes, InflateTable.Result, InflateTable.Root, InflateTable.TotalSpace;
    ghost var ls := lens[..nlen + ndist];
    ok, lenbits, distAt, distbits := false, 9, 0, 6;
    assert ls[256] == lens[256];
    if lens[256] == 0 { return; }
    var ret;
    assert lens[..nlen] == ls[..nlen];
    ret, distAt, lenbits := BuildTable.Build(Lens, lens[..nlen], codes, 0, 9);
    if ret != 0 { return; }
    SpaceLeft(ls[..nlen]);
    ghost var t := codes[..distAt];
    var end;
    assert lens[nlen..nlen + ndist] == ls[nlen..];
    ret, end, distbits := BuildTable.Build(Dists, lens[nlen..nlen + ndist], codes, distAt, 6);
    if ret != 0 { return; }
    assert t <= codes[..];
    BuildTable.DecodesPrefix(t, codes[..], 0, lenbits, Lens, ls[..nlen]);
    BuildTable.DecodesPrefix(codes[..end], codes[..], distAt, distbits, Dists, ls[nlen..]);
    ok := true;
  }

  lemma SpaceLeft(lens: seq<nat>)
    requires InflateTable.Result(Lens, lens, 9) == 0
    ensures InflateTable.TotalSpace(lens, 9) <= ENOUGH_LENS
  {
    hide InflateTable.BadLengths, InflateTable.TotalSpace;
  }

  /** while (copy--) state->lens[state->have++] = len */
  method StoreRepeat(lens: array<nat>, have: nat, len: nat, count: nat)
    requires have + count <= lens.Length
    modifies lens
    ensures lens[..have + count] == old(lens[..have]) + Repeat(len, count)
  {
    for i := 0 to count
      invariant lens[..have + i] == old(lens[..have]) + Repeat(len, i)
    {
      lens[have + i] := len;
      assert lens[..have + i + 1] == lens[..have + i] + [len];
    }
  }

  lemma CodeLensFacts(r: Regs, l: Links, k: CodesInUse, m: Arrays)
    requires r.mode == CODELENS && Good(r, l, k, m)
    ensures |m.codes| == ENOUGH_LENS + ENOUGH_DISTS && |m.lens| == 320
    ensures 257 <= r.nlen <= 286 && 1 <= r.ndist <= 30 && r.have <= r.nlen + r.ndist && Lengths(m.lens[..r.have], 15)
    ensures |k.code| <= 19 && l.lenbits == InflateTable.Root(k.code, 7)
      && Decodes(LenTable(l, m), l.lenAt, l.lenbits, Codes, k.code)
    ensures Sound(r, CodeLens(r.nlen, r.ndist, k.code, m.lens[..r.have]))
  {
    hide Tight, Pow2, Decodes, InflateTable.Root, InflateTable.BadLengths;
  }

  lemma HasSameCode(r: Regs, l: Links, k: CodesInUse, m: Arrays, r': Regs, m': Arrays)
    requires HasTables(r, l, k, m) && m' == m.(lens := m'.lens) && r.mode == CODELENS && r'.mode in {BAD, CODELENS}
    ensures HasTables(r', l, k, m')
  {
    hide Decodes, InflateTable.Root, InflateRun.FixedTables;
  }

  lemma HasNewCodes(r: Regs, l: Links, k: CodesInUse, m: Arrays, r': Regs, l': Links, k': CodesInUse, m': Arrays)
    requires HasTables(r, l, k, m) && |m'.codes| == |m.codes| && m'.fixed == m.fixed && |k'.lit| <= 288
      && |k'.dist| <= 32 && k'.code == k.code
    requires r'.mode == LENFIRST ==>
      && Decodes(LenTable(l', m'), l'.lenAt, l'.lenbits, Lens, k'.lit)
      && Decodes(DistTable(l', m'), l'.distAt, l'.distbits, Dists, k'.dist)
    requires r'.mode in {BAD, LENFIRST}
    ensures HasTables(r', l', k', m')
  {
    hide Decodes, InflateTable.Root, InflateRun.FixedTables;
  }

  /** CODELENS: one more symbol, or the tables once all lengths are there. */
  method CodeLensCase(r: Regs, l: Links, next: seq<Byte>, lens: array<nat>, codes: array<Entry>, t: seq<Entry>,
                      ghost k: CodesInUse, ghost fixed: seq<Entry>, ghost out: seq<Byte>, ghost w: Window)
    returns (r': Regs, l': Links, ghost k': CodesInUse, rest: seq<Byte>, leave: bool)
    requires r.mode == CODELENS && Good(r, l, k, Arrays(lens[..], codes[..], fixed))
      && t == LenTable(l, Arrays(lens[..], codes[..], fixed))
    modifies lens, codes
    ensures Good(r', l', k', Arrays(lens[..], codes[..], fixed)) && (leave ==> rest == [])
    ensures Moved(old(ConfOf(r, k, Arrays(lens[..], codes[..], fixed), next, out)),
                  ConfOf(r', k', Arrays(lens[..], codes[..], fixed), rest, out), leave, w)
  {
    hide Stepped, Moved, Sound, Conf, HasTables, Decodes, Lengths, InflateTable.Root;
    ghost var m, ph := Arrays(lens[..], codes[..], fixed), PhaseOf(r, k, lens[..]);
    CodeLensFacts(r, l, k, m);
    if r.have < r.nlen + r.ndist {
      var len, count;
      r', rest, leave, len, count := OneCodeLength(r, next, t, l.lenAt, l.lenbits,
        if r.have == 0 then 0 else lens[r.have - 1], k.code, lens[..r.have], out, w);
      l', k' := l, k;
      if !leave && r'.mode == CODELENS {
        StoreRepeat(lens, r.have, len, count);
      }
      HasSameCode(r, l, k, m, r', Arrays(lens[..], codes[..], fixed));
    } else {
      r', l', k' := BuildDynamic(r, l, next, lens, codes, k, fixed, out, w);
      rest, leave := next, false;
    }
    SteppedMoved(r, ph, next, r', PhaseOf(r', k', lens[..]), rest, leave, out, w);
  }

  method BuildDynamic(r: Regs, l: Links, next: seq<Byte>, lens: array<nat>, codes: array<Entry>,
                      ghost k: CodesInUse, ghost fixed: seq<Entry>, ghost out: seq<Byte>, ghost w: Window)
    returns (r': Regs, l': Links, ghost k': CodesInUse)
    requires r.mode == CODELENS && Good(r, l, k, Arrays(lens[..], codes[..], fixed)) && r.have == r.nlen + r.ndist
    modifies codes
    ensures r'.mode in {BAD, LENFIRST} && HasTables(r', l', k', Arrays(lens[..], codes[..], fixed))
    ensures Stepped(r, PhaseOf(r, k, lens[..]), next, r', PhaseOf(r', k', lens[..]), next, false, out, w)
  {
    hide Pow2, Stepped, Sound, Conf, HasTables, Decodes, Lengths, InflateTable.Root, Next, Valid, BuildCodes;
    ghost var m, ph := Arrays(lens[..], codes[..], fixed), PhaseOf(r, k, lens[..]);
    CodeLensFacts(r, l, k, m);
    var ok, lenbits, distAt, distbits := BuildTables(r.nlen, r.ndist, lens, codes);
    ghost var ls := lens[..r.have];
    r' := if ok then r.(mode := LENFIRST) else r.(mode := BAD);
    l' := Links(false, 0, lenbits, false, distAt, distbits);
    k' := k.(lit := ls[..r.nlen], dist := ls[r.nlen..]);
    HasNewCodes(r, l, k, m, r', l', k', Arrays(lens[..], codes[..], fixed));
    BuildsDynamic(r, ph, next, r', PhaseOf(r', k', lens[..]), out, w);
  }

  lemma BuildsDynamic(r: Regs, ph: Phase, next: seq<Byte>, r': Regs, ph': Phase, out: seq<Byte>, w: Window)
    requires Sound(r, ph) && ph.CodeLens? && |ph.ls| == ph.nlen + ph.ndist
    requires r'.hold == r.hold && r'.bits == r.bits && r'.last == r.last && ph' == BuildCodes(ph.nlen, ph.ls)
      && ph'.Bad? == (r'.mode == BAD)
    ensures Stepped(r, ph, next, r', ph', next, false, out, w)
  {
    hide Pow2, Virtual, Next, ValidPhase, Tight, BuildCodes, Stepped;
    SoundConf(r, ph, next, out);
    CodeLensSize(ph);
    CodeLensBuilds(Conf(r, ph, next, out), w);
    CodeLensBuilds(Config(r.last, ph, r.hold, r.bits, []), w);
    Builds(r, ph, next, r', ph', out, w);
  }

  lemma CodeLensSize(ph: Phase)
    requires ph.CodeLens? && ValidPhase(ph)
    ensures 257 <= ph.nlen <= 286 && 1 <= ph.ndist <= 30
  {
  }
}
