/** The state kept between inflate() calls, its bit accumulator, and the configuration it stands for. */
module InflateState {
  import opened Bits
  import opened DecodeTable
  import opened Bytes
  import opened InflateSpec
  import opened InflateSchedule
  import opened InflateWindow
  import InflateRun
  import InflateTable
  import BuildTable
  import Canonical

  /** The modes of a raw stream; some only mark the first time in. */
  datatype Mode =
    | HEAD | TYPE | TYPEDO | STORED | COPYFIRST | COPY | TABLE | LENLENS | CODELENS
    | LENFIRST | LEN | LENEXT | DIST | DISTEXT | MATCH | LIT | CHECK | DONE | BAD

  /** hold followed by the unread input, as one number. */
  function Virtual(hold: nat, bits: nat, next: seq<Byte>): nat {
    hold + Shl(Val(next), bits)
  }

  lemma PullVirtual(hold: nat, bits: nat, next: seq<Byte>)
    requires next != [] && hold < Pow2(bits)
    ensures Virtual(hold + Shl(next[0], bits), bits + 8, next[1..]) == Virtual(hold, bits, next)
    ensures hold + Shl(next[0], bits) < Pow2(bits + 8)
  {
    hide Pow2;
    var b, rest := next[0], Val(next[1..]);
    ShlEight(rest);
    ShlAdd(b, Shl(rest, 8), bits);
    ShlShl(rest, 8, bits);
    assert b < Pow2(8) by { InflateRun.Pow2Values(); }
    ShlBound(b, 8, bits);
  }

  lemma TakeVirtual(hold: nat, bits: nat, next: seq<Byte>, k: nat)
    requires k <= bits && hold < Pow2(bits)
    ensures Lo(Virtual(hold, bits, next), k) == Lo(hold, k)
    ensures Hi(Virtual(hold, bits, next), k) == Virtual(Hi(hold, k), bits - k, next)
    ensures Hi(hold, k) < Pow2(bits - k)
  {
    hide Val, Pow2;
    AddAbove(hold, Val(next), bits, k);
    HiBound(hold, k, bits - k);
  }

  lemma VirtualBound(hold: nat, bits: nat, next: seq<Byte>)
    requires hold < Pow2(bits)
    ensures Virtual(hold, bits, next) < Pow2(bits + 8 * |next|)
  {
    hide Val, Pow2;
    ShlBound(Val(next), 8 * |next|, bits);
  }

  /** The held bits alone do not suffice for the next step, unless they are fewer than eight. */
  ghost predicate Tight(last: bool, phase: Phase, hold: nat, bits: nat) {
    bits < 8
      || (Valid(Config(last, phase, hold, bits, [])) && Next(Config(last, phase, hold, bits, []), Window(0, 0)).None?)
  }

  lemma FixedLengths()
    ensures InflateTable.MaxLen(FIXED_LIT, 15) == 9 && InflateTable.MinLen(FIXED_LIT, 1, 9) == 7
    ensures InflateTable.MaxLen(FIXED_DIST, 15) == 5 && InflateTable.MinLen(FIXED_DIST, 1, 5) == 5
  {
    hide InflateTable.MaxLen, InflateTable.MinLen, Canonical.Count;
    forall l: nat
      ensures Canonical.Count(FIXED_LIT, l) == if l == 7 then 24 else if l == 8 then 152 else if l == 9 then 112 else 0
      ensures Canonical.Count(FIXED_DIST, l) == if l == 5 then 32 else 0
    {
      InflateRun.FixedCounts(l);
    }
    assert Canonical.Count(FIXED_LIT, 7) == 24 && Canonical.Count(FIXED_LIT, 9) == 112
      && Canonical.Count(FIXED_DIST, 5) == 32;
  }

  /** inflate_table succeeds on the fixed codes, with 512 and 32 entries. */
  lemma FixedResults()
    ensures InflateTable.Result(Lens, FIXED_LIT, 9) == 0 && InflateTable.Root(FIXED_LIT, 9) == 9
    ensures InflateTable.TotalSpace(FIXED_LIT, 9) == 512
    ensures InflateTable.Result(Dists, FIXED_DIST, 5) == 0 && InflateTable.Root(FIXED_DIST, 5) == 5
  {
    hide InflateTable.MaxLen, InflateTable.MinLen, Canonical.Count, Canonical.Used, Pow2, Canonical.KraftUpTo,
      InflateTable.Space, Shl;
    FixedLengths();
    FixedSpace();
    InflateRun.FixedAccepted();
    InflateRun.FixedUsed(15);
    BuildTable.EndIsKraft(FIXED_LIT);
    BuildTable.EndIsKraft(FIXED_DIST);
    Canonical.KraftIsUsed(FIXED_LIT, 15);
    Canonical.KraftIsUsed(FIXED_DIST, 15);
  }

  lemma FixedSpace()
    ensures Pow2(9) == 512 && Pow2(5) == 32
    ensures InflateTable.Space(FIXED_LIT, 9, 512) == 512 && InflateTable.Space(FIXED_DIST, 5, 32) == 32
  {
    hide InflateTable.Space, Canonical.Used, Shl;
    assert Pow2(5) == 32;
    assert Pow2(9) == 512;
    InflateRun.FixedUsed(9);
    InflateRun.FixedUsed(5);
    BuildTable.SpaceShort(FIXED_LIT, 9, 512);
    BuildTable.SpaceShort(FIXED_DIST, 5, 32);
  }

  /** The scalar fields of the state. */
  datatype Regs = Regs(
    mode: Mode, last: bool, hold: nat, bits: nat, length: nat, offset: nat, extra: nat,
    nlen: nat, ndist: nat, ncode: nat, have: nat)

  /** The lengths of the codes in use: code length code, literal/length code, distance code. */
  datatype CodesInUse = CodesInUse(code: seq<nat>, lit: seq<nat>, dist: seq<nat>)

  ghost function SubOf(r: Regs): Sub {
    match r.mode
    case LENEXT => LenExt(r.length, r.extra)
    case DIST => Sub.Dist(r.length)
    case DISTEXT => DistExt(r.length, r.offset, r.extra)
    case MATCH => Sub.Match(r.length, r.offset)
    case LIT => Sub.Lit(r.length)
    case _ => Sub.Len
  }

  predicate InCodes(m: Mode) {
    m in {LENFIRST, LEN, LENEXT, DIST, DISTEXT, MATCH, LIT}
  }

  /** The lens array is large enough for the lengths read so far. */
  predicate Fits(r: Regs, lens: seq<nat>) {
    |lens| == 320 && (r.mode == CODELENS ==> r.have <= 320) && (r.mode == LENLENS ==> r.have <= 19)
  }

  ghost function PhaseOf(r: Regs, k: CodesInUse, lens: seq<nat>): Phase
    requires Fits(r, lens)
  {
    match r.mode
    case HEAD => Block
    case TYPE => Block
    case TYPEDO => Block
    case STORED => Stored
    case COPYFIRST => Phase.Copy(r.length)
    case COPY => Phase.Copy(r.length)
    case TABLE => Table
    case LENLENS => LenLens(r.nlen, r.ndist, r.ncode, InOrder(lens, r.have))
    case CODELENS => CodeLens(r.nlen, r.ndist, k.code, lens[..r.have])
    case CHECK => Phase.Done
    case DONE => Phase.Done
    case BAD => Phase.Bad
    case _ => Coded(k.lit, k.dist, SubOf(r))
  }

  /** The accumulator is sound for the phase the machine is in. */
  ghost predicate Sound(r: Regs, phase: Phase) {
    r.hold < Pow2(r.bits) && ValidPhase(phase) && Tight(r.last, phase, r.hold, r.bits)
  }

  ghost function Conf(r: Regs, phase: Phase, next: seq<Byte>, out: seq<Byte>): Config {
    Config(r.last, phase, Virtual(r.hold, r.bits, next), r.bits + 8 * |next|, out)
  }

  /** Where lencode and distcode point: into the fixed tables or the state's own, and their index bits. */
  datatype Links = Links(lenFixed: bool, lenAt: nat, lenbits: nat, distFixed: bool, distAt: nat, distbits: nat)

  /** The contents of the arrays. */
  datatype Arrays = Arrays(lens: seq<nat>, codes: seq<Entry>, fixed: seq<Entry>)

  function LenTable(l: Links, m: Arrays): seq<Entry> {
    if l.lenFixed then m.fixed else m.codes
  }

  function DistTable(l: Links, m: Arrays): seq<Entry> {
    if l.distFixed then m.fixed else m.codes
  }

  /** The tables in use decode the codes in use, as far as the mode relies on them. */
  ghost predicate HasTables(r: Regs, l: Links, k: CodesInUse, m: Arrays) {
    && |m.codes| == ENOUGH_LENS + ENOUGH_DISTS && InflateRun.FixedTables(m.fixed)
    && |k.code| <= 19 && |k.lit| <= 288 && |k.dist| <= 32
    && (r.mode in {COPYFIRST, COPY, CHECK, DONE} ==> r.bits == 0)
    && (r.mode == CODELENS ==>
          l.lenbits == InflateTable.Root(k.code, 7) && Decodes(LenTable(l, m), l.lenAt, l.lenbits, Codes, k.code))
    && (InCodes(r.mode) ==>
          && Decodes(LenTable(l, m), l.lenAt, l.lenbits, Lens, k.lit)
          && Decodes(DistTable(l, m), l.distAt, l.distbits, Dists, k.dist))
  }

  /** The invariant of the state, on the values of its fields. */
  ghost predicate Good(r: Regs, l: Links, k: CodesInUse, m: Arrays) {
    Fits(r, m.lens) && HasTables(r, l, k, m) && Sound(r, PhaseOf(r, k, m.lens))
  }

  /** The configuration a state stands for, with the unread input and the output so far. */
  ghost function ConfOf(r: Regs, k: CodesInUse, m: Arrays, next: seq<Byte>, out: seq<Byte>): Config
    requires Fits(r, m.lens)
  {
    Conf(r, PhaseOf(r, k, m.lens), next, out)
  }

  class State {
    var r: Regs
    var l: Links
    const lens: array<nat>
    const codes: array<Entry>
    const fixed: array<Entry>
    const win: SlidingWindow
    ghost var k: CodesInUse
    ghost var total: seq<Byte>

    ghost function Arr(): Arrays
      reads lens, codes, fixed
    {
      Arrays(lens[..], codes[..], fixed[..])
    }

    ghost predicate Valid()
      reads this, lens, codes, fixed
    {
      codes != fixed && Good(r, l, k, Arr())
    }

    ghost function Abs(next: seq<Byte>, out: seq<Byte>): Config
      requires Fits(r, Arr().lens)
      reads this, lens, codes, fixed
    {
      ConfOf(r, k, Arr(), next, out)
    }

    /** inflateInit2 with negative windowBits, and the tables of the fixed codes. */
    constructor (wbits: nat)
      ensures Valid() && win.Valid() && win.wbits == wbits && total == win.hist == []
      ensures Abs([], total) == INIT
      ensures fresh(lens) && fresh(codes) && fresh(fixed) && fresh(win) && fresh(win.window)
    {
      r := Regs(HEAD, false, 0, 0, 0, 0, 0, 0, 0, 0, 0);
      l := Links(true, 0, 9, true, 512, 5);
      lens := new nat[320];
      codes := new Entry[ENOUGH_LENS + ENOUGH_DISTS];
      fixed := new Entry[ENOUGH_LENS + ENOUGH_DISTS];
      k := CodesInUse([], [], []);
      total := [];
      win := new SlidingWindow(wbits);
      new;
      BuildFixed();
    }

    /** The tables of the fixed codes, built as makefixed() does. */
    method BuildFixed()
      requires fixed.Length == ENOUGH_LENS + ENOUGH_DISTS
      modifies fixed
      ensures InflateRun.FixedTables(fixed[..])
    {
      FixedResults();
      InflateRun.FixedAccepted();
      var ret, end, root := BuildTable.Build(Lens, FIXED_LIT, fixed, 0, 9);
      ghost var t := fixed[..end];
      ret, end, root := BuildTable.Build(Dists, FIXED_DIST, fixed, 512, 5);
      assert t <= fixed[..];
      BuildTable.DecodesPrefix(t, fixed[..], 0, 9, Lens, FIXED_LIT);
      BuildTable.DecodesPrefix(fixed[..end], fixed[..], 512, 5, Dists, FIXED_DIST);
    }
  }
}
