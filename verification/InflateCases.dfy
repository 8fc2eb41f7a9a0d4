/** The cases of inflate() that read headers and codes, on the values of the state. */
module InflateCases {
  import opened Bits
  import opened DecodeTable
  import opened Bytes
  import opened InflateSpec
  import opened InflateSchedule
  import opened InflateWindow
  import opened InflateState
  import opened InflateSteps
  import opened InflateCopy
  import InflateRun
  import InflateTable
  import BuildTable
  import Canonical

  /** One step of the machine, or none possible for want of input. */
  ghost predicate Moved(c: Config, c': Config, leave: bool, w: Window) {
    Valid(c) && if leave then c' == c && Next(c, w).None? else Next(c, w) == Some(c')
  }

  lemma SteppedMoved(r: Regs, ph: Phase, next: seq<Byte>, r': Regs, ph': Phase, rest: seq<Byte>, leave: bool,
      out: seq<Byte>, w: Window)
    requires Stepped(r, ph, next, r', ph', rest, leave, out, w)
    ensures Moved(Conf(r, ph, next, out), Conf(r', ph', rest, out), leave, w)
    ensures Sound(r', ph') && (leave ==> rest == [])
  {
    hide Next, Valid, Virtual, Sound;
  }

  /** The codes in use after a step: a fixed block brings its own. */
  function CodesAfter(r': Regs, k: CodesInUse): CodesInUse {
    if r'.mode == LENFIRST then k.(lit := FIXED_LIT, dist := FIXED_DIST) else k
  }

  /** lencode and distcode after a step. */
  function LinksAfter(r': Regs, l: Links): Links {
    if r'.mode == LENFIRST then Links(true, 0, 9, true, 512, 5) else l
  }

  /** TYPEDO, STORED and TABLE */
  method HeaderCase(r: Regs, l: Links, next: seq<Byte>, ghost k: CodesInUse, ghost m: Arrays, ghost out: seq<Byte>,
      ghost w: Window)
    returns (r': Regs, l': Links, rest: seq<Byte>, leave: bool)
    requires r.mode in {TYPEDO, STORED, TABLE} && Good(r, l, k, m)
    ensures l' == LinksAfter(r', l) && Good(r', l', CodesAfter(r', k), m)
    ensures Moved(ConfOf(r, k, m, next, out), ConfOf(r', CodesAfter(r', k), m, rest, out), leave, w)
      && (leave ==> rest == [])
  {
    hide Stepped, Moved, Sound, Conf, HasTables, FIXED_LIT, FIXED_DIST;
    match r.mode {
      case TYPEDO => r', rest, leave := TypeDo(r, next, out, w);
      case STORED => r', rest, leave := StoredLengths(r, next, out, w);
      case TABLE => r', rest, leave := TableSizes(r, next, out, w);
    }
    l' := LinksAfter(r', l);
    KeepTables(r, r', l, k, m);
    SteppedMoved(r, PhaseOf(r, k, m.lens), next, r', PhaseOf(r', CodesAfter(r', k), m.lens), rest, leave, out, w);
  }

  /** Modes that rely on the fixed tables, on no table, or on the same tables as before. */
  lemma KeepTables(r: Regs, r': Regs, l: Links, k: CodesInUse, m: Arrays)
    requires HasTables(r, l, k, m)
    requires r'.mode in {COPYFIRST, COPY, CHECK, DONE} ==> r'.bits == 0
    requires r'.mode == CODELENS ==> r.mode == CODELENS
    requires InCodes(r'.mode) ==> InCodes(r.mode) || r'.mode == LENFIRST
    ensures HasTables(r', LinksAfter(r', l), CodesAfter(r', k), m)
  {
    hide Decodes, InflateTable.Root;
  }

  /** LEN, LENEXT, DIST and DISTEXT */
  method CodedCase(r: Regs, l: Links, next: seq<Byte>, lt: seq<Entry>, dt: seq<Entry>, ghost k: CodesInUse,
      ghost m: Arrays, ghost out: seq<Byte>, ghost w: Window)
    returns (r': Regs, rest: seq<Byte>, leave: bool)
    requires r.mode in {LEN, LENEXT, DIST, DISTEXT} && Good(r, l, k, m) && lt == LenTable(l, m) && dt == DistTable(l, m)
    ensures Good(r', l, k, m)
    ensures Moved(ConfOf(r, k, m, next, out), ConfOf(r', k, m, rest, out), leave, w) && (leave ==> rest == [])
  {
    hide Stepped, Moved, Sound, Conf, Decodes, InflateTable.Root, InflateRun.FixedTables;
    match r.mode {
      case LEN => r', rest, leave := LenCode(r, next, lt, l.lenAt, l.lenbits, k.lit, k.dist, out, w);
      case LENEXT => r', rest, leave := LenExtra(r, next, k.lit, k.dist, out, w);
      case DIST => r', rest, leave := DistCode(r, next, dt, l.distAt, l.distbits, k.lit, k.dist, out, w);
      case DISTEXT => r', rest, leave := DistExtra(r, next, k.lit, k.dist, out, w);
    }
    KeepTables(r, r', l, k, m);
    SteppedMoved(r, PhaseOf(r, k, m.lens), next, r', PhaseOf(r', k, m.lens), rest, leave, out, w);
  }
}
