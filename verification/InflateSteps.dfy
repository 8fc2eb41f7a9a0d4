/** The cases of inflate()'s switch that read bits: each makes one step of the machine or leaves for want of input. */
module InflateSteps {
  import opened Bits
  import opened DecodeTable
  import opened Bytes
  import opened InflateSpec
  import opened InflateSchedule
  import opened InflateState
  import InflateRun
  import InflateTable
  import BuildTable
  import opened Canonical

  const ANY := Window(0, 0)

  // ----- the bit accumulator -----

  /** r with another accumulator that stands for the same bits, some of them pulled from the input. */
  ghost predicate Pulled(r: Regs, next: seq<Byte>, r': Regs, rest: seq<Byte>) {
    && r' == r.(hold := r'.hold, bits := r'.bits) && r'.hold < Pow2(r'.bits)
    && Virtual(r'.hold, r'.bits, rest) == Virtual(r.hold, r.bits, next)
    && r'.bits + 8 * |rest| == r.bits + 8 * |next|
  }

  /** PULLBYTE */
  method PullByte(r: Regs, next: seq<Byte>) returns (r': Regs, rest: seq<Byte>)
    requires r.hold < Pow2(r.bits) && next != []
    ensures Pulled(r, next, r', rest) && r'.bits == r.bits + 8 && |rest| == |next| - 1
  {
    hide Pow2, Val, Shl;
    PullVirtual(r.hold, r.bits, next);
    r', rest := r.(hold := r.hold + Shl(next[0], r.bits), bits := r.bits + 8), next[1..];
  }

  /** NEEDBITS(n): pull input bytes until n bits are held. */
  method NeedBits(r: Regs, next: seq<Byte>, n: nat) returns (r': Regs, rest: seq<Byte>, ok: bool)
    requires r.hold < Pow2(r.bits)
    ensures Pulled(r, next, r', rest)
    ensures ok ==> n <= r'.bits && (r'.bits < n + 8 || (r' == r && rest == next))
    ensures !ok ==> rest == [] && r'.bits < n
  {
    hide Pow2, Virtual;
    r', rest := r, next;
    while r'.bits < n && rest != []
      invariant Pulled(r, next, r', rest)
      invariant r'.bits < n + 8 || (r' == r && rest == next)
      decreases |rest|
    {
      r', rest := PullByte(r', rest);
    }
    ok := r'.bits >= n;
  }

  /** DROPBITS(n) */
  function Drop(r: Regs, n: nat): Regs
    requires n <= r.bits
  {
    r.(hold := Hi(r.hold, n), bits := r.bits - n)
  }

  lemma DropConf(r: Regs, n: nat, phase: Phase, next: seq<Byte>, out: seq<Byte>)
    requires r.hold < Pow2(r.bits) && n <= r.bits
    ensures Drop(r, n).hold < Pow2(Drop(r, n).bits)
    ensures Conf(Drop(r, n), phase, next, out) == Take(Conf(r, phase, next, out), n)
    ensures Lo(Conf(r, phase, next, out).v, n) == Lo(r.hold, n)
  {
    hide Pow2, Hi, Lo, Virtual;
    TakeVirtual(r.hold, r.bits, next, n);
  }

  /** Fields of the held bits are fields of the stream. */
  lemma FieldConf(r: Regs, j: nat, n: nat, next: seq<Byte>)
    requires r.hold < Pow2(r.bits) && j + n <= r.bits
    ensures Lo(Hi(Virtual(r.hold, r.bits, next), j), n) == Lo(Hi(r.hold, j), n)
  {
    hide Pow2, Hi, Lo, Virtual;
    TakeVirtual(r.hold, r.bits, next, j);
    TakeVirtual(Hi(r.hold, j), r.bits - j, next, n);
  }

  // ----- steps -----

  /** Whether a step lacks input does not depend on the output or the window. */
  lemma NoneAnywhere(c: Config, w: Window, out: seq<Byte>, w': Window)
    requires Valid(c)
    ensures Next(c, w).None? <==> Next(c.(out := out), w').None?
  {
    hide Decode, Hi, Lo, Pow2, HasBit, ValidSub, InflateTable.BadLengths, InflateTable.Result, Unpermute;
  }

  /** One step of the machine from phase ph to ph', or, with the input used up, none possible. */
  ghost predicate Stepped(r: Regs, ph: Phase, next: seq<Byte>, r': Regs, ph': Phase, rest: seq<Byte>, leave: bool,
      out: seq<Byte>, w: Window) {
    && Sound(r', ph') && Valid(Conf(r, ph, next, out))
    && if leave then ph' == ph && rest == [] && Pulled(r, next, r', rest) && Next(Conf(r, ph, next, out), w).None?
       else Next(Conf(r, ph, next, out), w) == Some(Conf(r', ph', rest, out))
  }

  lemma SoundConf(r: Regs, ph: Phase, next: seq<Byte>, out: seq<Byte>)
    requires Sound(r, ph)
    ensures Valid(Conf(r, ph, next, out)) && Valid(Config(r.last, ph, r.hold, r.bits, []))
  {
    hide Tight, ValidPhase, Pow2, Virtual;
    VirtualBound(r.hold, r.bits, next);
  }

  /** Leaving: the input is used up and the step lacks input. */
  lemma Leaves(r: Regs, ph: Phase, next: seq<Byte>, r': Regs, rest: seq<Byte>, out: seq<Byte>, w: Window)
    requires Sound(r, ph) && Pulled(r, next, r', rest) && rest == []
    requires Valid(Conf(r, ph, next, out)) && Next(Conf(r, ph, next, out), w).None?
    ensures Stepped(r, ph, next, r', ph, rest, true, out, w)
  {
    hide Next, Pow2, ValidPhase;
    assert Virtual(r'.hold, r'.bits, []) == r'.hold by { ShlOne(r'.bits); }
    NoneAnywhere(Conf(r, ph, next, out), w, [], ANY);
  }

  /** Going on: fewer than eight bits are left, because no more bytes were pulled than needed. */
  lemma Goes(r: Regs, ph: Phase, next: seq<Byte>, r': Regs, ph': Phase, rest: seq<Byte>, out: seq<Byte>, w: Window)
    requires Valid(Conf(r, ph, next, out)) && Next(Conf(r, ph, next, out), w) == Some(Conf(r', ph', rest, out))
    requires r'.hold < Pow2(r'.bits) && r'.bits < 8
    ensures Stepped(r, ph, next, r', ph', rest, false, out, w)
  {
    hide Next, Pow2, ValidPhase, Virtual;
    InflateRun.StepIsGood(Conf(r, ph, next, out), w);
  }

  /** If the held bits suffice for a step they are fewer than eight. */
  lemma HeldFew(r: Regs, ph: Phase, w: Window)
    requires Sound(r, ph)
    ensures Valid(Config(r.last, ph, r.hold, r.bits, []))
    ensures Next(Config(r.last, ph, r.hold, r.bits, []), w).Some? ==> r.bits < 8
  {
    hide Next, ValidPhase, Pow2;
    NoneAnywhere(Config(r.last, ph, r.hold, r.bits, []), w, [], ANY);
  }

  /** The phase after a block header. */
  function TypePhase(m: Mode): Phase {
    match m
    case CHECK => Phase.Done
    case STORED => Stored
    case LENFIRST => Coded(FIXED_LIT, FIXED_DIST, Sub.Len)
    case TABLE => Table
    case _ => Phase.Bad
  }

  function BlockMode(kind: nat): Mode {
    if kind == 0 then STORED else if kind == 1 then LENFIRST else if kind == 2 then TABLE else BAD
  }

  lemma BlockNext(c: Config, w: Window)
    requires Valid(c) && c.phase == Block
    ensures c.last ==> Next(c, w) == Some(Take(c, c.n % 8).(phase := Phase.Done))
    ensures !c.last && c.n < 3 ==> Next(c, w).None?
    ensures !c.last && c.n >= 3 ==>
      Next(c, w) ==
        Some(Take(Take(c, 1), 2).(last := Lo(c.v, 1) == 1, phase := TypePhase(BlockMode(Lo(Hi(c.v, 1), 2)))))
  {
    hide Lo, Hi, Pow2;
    HiHi(c.v, 1, 2);
  }

  /** TYPEDO */
  method TypeDo(r: Regs, next: seq<Byte>, ghost out: seq<Byte>, ghost w: Window)
    returns (r': Regs, rest: seq<Byte>, leave: bool)
    requires r.mode == TYPEDO && Sound(r, Block)
    ensures Stepped(r, Block, next, r', if leave then Block else TypePhase(r'.mode), rest, leave, out, w)
    ensures leave ==> r'.mode == TYPEDO
    ensures !leave ==> r'.mode in {CHECK, STORED, LENFIRST, TABLE, BAD} && (r'.mode == CHECK ==> r'.bits == 0)
  {
    hide Pow2, Hi, Lo, Virtual, Next, ValidPhase, Tight;
    ghost var c := Conf(r, Block, next, out);
    SoundConf(r, Block, next, out);
    BlockNext(c, w);
    BlockNext(Config(r.last, Block, r.hold, r.bits, []), w);
    HeldFew(r, Block, w);
    if r.last {
      DropConf(r, r.bits % 8, Block, next, out);
      r', rest, leave := Drop(r, r.bits % 8).(mode := CHECK), next, false;
      Goes(r, Block, next, r', Phase.Done, rest, out, w);
      return;
    }
    var r1, ok;
    r1, rest, ok := NeedBits(r, next, 3);
    if !ok {
      Leaves(r, Block, next, r1, rest, out, w);
      return r1, rest, true;
    }
    DropConf(r1, 1, Block, rest, out);
    FieldConf(r1, 1, 2, rest);
    var last := Lo(r1.hold, 1) == 1;
    var r2 := Drop(r1, 1);
    DropConf(r2, 2, Block, rest, out);
    r', leave := Drop(r2, 2).(last := last, mode := BlockMode(Lo(r2.hold, 2))), false;
    Goes(r, Block, next, r', TypePhase(r'.mode), rest, out, w);
  }

  /** Errors keep whatever bits are held. */
  lemma GoesBad(r: Regs, ph: Phase, next: seq<Byte>, r': Regs, rest: seq<Byte>, out: seq<Byte>, w: Window)
    requires Valid(Conf(r, ph, next, out)) && Next(Conf(r, ph, next, out), w) == Some(Conf(r', Phase.Bad, rest, out))
    requires r'.hold < Pow2(r'.bits)
    ensures Stepped(r, ph, next, r', Phase.Bad, rest, false, out, w)
  {
    hide Pow2, Virtual, BlockHeader, StoredHeader, CopyByte, TableHeader, CodeLengthLengths, CodeLengths, CodedStep;
  }

  lemma StoredNext(c: Config, w: Window)
    requires Valid(c) && c.phase == Stored
    ensures c.n % 8 != 0 ==> Next(c, w) == Some(Take(c, c.n % 8))
    ensures c.n % 8 == 0 && c.n < 32 ==> Next(c, w).None?
    ensures c.n % 8 == 0 && c.n >= 32 ==>
      var len := Lo(c.v, 16);
      Next(c, w) ==
        Some(if len != 65535 - Lo(Hi(c.v, 16), 16) then c.(phase := Phase.Bad)
            else Take(c, 32).(phase := Phase.Copy(len)))
  {
    hide Lo, Hi, Pow2;
  }

  /** STORED: go to a byte boundary, then read the length and its complement. */
  method StoredLengths(r: Regs, next: seq<Byte>, ghost out: seq<Byte>, ghost w: Window)
    returns (r': Regs, rest: seq<Byte>, leave: bool)
    requires r.mode == STORED && Sound(r, Stored)
    ensures leave ==> r'.mode == STORED
    ensures !leave ==> r'.mode in {STORED, COPYFIRST, BAD} && (r'.mode == COPYFIRST ==> r'.bits == 0)
    ensures Stepped(r, Stored, next, r',
      if r'.mode == STORED then Stored
        else if r'.mode == COPYFIRST then Phase.Copy(r'.length) else Phase.Bad, rest, leave, out, w)
  {
    hide Pow2, Hi, Lo, Virtual, Next, ValidPhase, Tight;
    ghost var c := Conf(r, Stored, next, out);
    SoundConf(r, Stored, next, out);
    StoredNext(c, w);
    StoredNext(Config(r.last, Stored, r.hold, r.bits, []), w);
    HeldFew(r, Stored, w);
    if r.bits % 8 != 0 {
      DropConf(r, r.bits % 8, Stored, next, out);
      r', rest, leave := Drop(r, r.bits % 8), next, false;
      Goes(r, Stored, next, r', Stored, rest, out, w);
      return;
    }
    var r1, ok;
    r1, rest, ok := NeedBits(r, next, 32);
    if !ok {
      Leaves(r, Stored, next, r1, rest, out, w);
      return r1, rest, true;
    }
    assert r1.bits == 32;
    leave := false;
    DropConf(r1, 16, Stored, rest, out);
    FieldConf(r1, 16, 16, rest);
    DropConf(r1, 32, Stored, rest, out);
    LoSmall(Hi(r1.hold, 16), 16);
    LoSmall(r1.hold, 32);
    assert Pow2(16) == 65536 by { InflateRun.Pow2Values(); }
    if Lo(r1.hold, 16) != 65535 - Hi(r1.hold, 16) {
      r' := r1.(mode := BAD);
      GoesBad(r, Stored, next, r', rest, out, w);
    } else {
      r' := r1.(length := Lo(r1.hold, 16), hold := 0, bits := 0, mode := COPYFIRST);
      Goes(r, Stored, next, r', Phase.Copy(r'.length), rest, out, w);
    }
  }

  lemma TableNext(c: Config, w: Window)
    requires Valid(c) && c.phase == Table
    ensures c.n < 14 ==> Next(c, w).None?
    ensures c.n >= 14 ==>
      var nlen, ndist, ncode := Lo(c.v, 5) + 257, Lo(Hi(c.v, 5), 5) + 1, Lo(Hi(c.v, 10), 4) + 4;
      Next(c, w) ==
        Some(Take(c, 14).(phase := if nlen > 286 || ndist > 30 then Phase.Bad else LenLens(nlen, ndist, ncode, [])))
  {
    hide Lo, Hi, Pow2;
  }

  /** TABLE */
  method TableSizes(r: Regs, next: seq<Byte>, ghost out: seq<Byte>, ghost w: Window)
    returns (r': Regs, rest: seq<Byte>, leave: bool)
    requires r.mode == TABLE && Sound(r, Table)
    ensures leave ==> r'.mode == TABLE
    ensures !leave ==> r'.mode in {LENLENS, BAD} && (r'.mode == LENLENS ==> r'.have == 0)
    ensures Stepped(r, Table, next, r',
      if leave then Table
        else if r'.mode == BAD then Phase.Bad else LenLens(r'.nlen, r'.ndist, r'.ncode, []), rest, leave, out, w)
  {
    hide Pow2, Hi, Lo, Virtual, Next, ValidPhase, Tight;
    ghost var c := Conf(r, Table, next, out);
    SoundConf(r, Table, next, out);
    TableNext(c, w);
    TableNext(Config(r.last, Table, r.hold, r.bits, []), w);
    HeldFew(r, Table, w);
    var r1, ok;
    r1, rest, ok := NeedBits(r, next, 14);
    if !ok {
      Leaves(r, Table, next, r1, rest, out, w);
      return r1, rest, true;
    }
    leave := false;
    DropConf(r1, 5, Table, rest, out);
    FieldConf(r1, 5, 5, rest);
    FieldConf(r1, 10, 4, rest);
    DropConf(r1, 14, Table, rest, out);
    HiHi(r1.hold, 5, 5);
    HiHi(r1.hold, 10, 4);
    var r2 := Drop(r1, 5).(nlen := Lo(r1.hold, 5) + 257);
    var r3 := Drop(r2, 5).(ndist := Lo(r2.hold, 5) + 1);
    r' := Drop(r3, 4).(ncode := Lo(r3.hold, 4) + 4);
    if r'.nlen > 286 || r'.ndist > 30 {
      r' := r'.(mode := BAD);
      GoesBad(r, Table, next, r', rest, out, w);
    } else {
      r' := r'.(have := 0, mode := LENLENS);
      Goes(r, Table, next, r', LenLens(r'.nlen, r'.ndist, r'.ncode, []), rest, out, w);
    }
  }

  // ----- codes -----

  /** The held bits decode as the stream does, or neither decodes within them. */
  lemma HeldDecodes(kind: Kind, lens: seq<nat>, hold: nat, bits: nat, next: seq<Byte>)
    requires Accepted(kind, lens) && hold < Pow2(bits)
    ensures var v := Virtual(hold, bits, next);
      if Decode(kind, lens, hold).bits <= bits then Decode(kind, lens, v) == Decode(kind, lens, hold)
      else Decode(kind, lens, v).bits > bits
  {
    hide Decode, InflateTable.BadLengths, Virtual, Lo, Pow2;
    var v := Virtual(hold, bits, next);
    TakeVirtual(hold, bits, next, bits);
    if Decode(kind, lens, hold).bits <= bits {
      InflateRun.DecodeStable(kind, lens, hold, v, bits);
    } else if Decode(kind, lens, v).bits <= bits {
      InflateRun.DecodeStable(kind, lens, v, hold, bits);
    }
  }

  /** The first and second level of a lookup of the held bits. */
  ghost predicate Levels(t: seq<Entry>, b: nat, root: nat, hold: nat, d: Entry) {
    && b + Lo(hold, root) < |t|
    && var e := t[b + Lo(hold, root)];
       if IsLink(e) then
         && e.bits == root
         && b + e.val + Lo(Hi(hold, root), e.op) < |t|
         && var e2 := t[b + e.val + Lo(Hi(hold, root), e.op)];
            d == Entry(e2.op, root + e2.bits, e2.val)
       else d == e
  }

  lemma LookupLevels(t: seq<Entry>, b: nat, root: nat, kind: Kind, lens: seq<nat>, hold: nat)
    requires Accepted(kind, lens) && Decodes(t, b, root, kind, lens)
    ensures Levels(t, b, root, hold, Decode(kind, lens, hold))
    ensures Decode(kind, lens, hold).bits <= root ==> !IsLink(t[b + Lo(hold, root)])
  {
    hide Decode, Accepted, Lo, Hi, Decodes;
    InflateRun.TableDecodes(t, b, root, kind, lens, hold);
  }

  /** What a search for a code word in progress knows. */
  ghost predicate Searching(r: Regs, next: seq<Byte>, r': Regs, rest: seq<Byte>, d: Entry) {
    Pulled(r, next, r', rest) && (r'.bits < d.bits + 8 || (r' == r && rest == next))
  }

  lemma SearchPull(r: Regs, next: seq<Byte>, r1: Regs, rest1: seq<Byte>, r2: Regs, rest2: seq<Byte>, d: Entry)
    requires Searching(r, next, r1, rest1, d) && d.bits > r1.bits
    requires Pulled(r1, rest1, r2, rest2) && r2.bits == r1.bits + 8
    ensures Searching(r, next, r2, rest2, d)
  {
  }

  /** What the table says about the held bits, and what they say about the stream decoding to d. */
  ghost predicate Looked(t: seq<Entry>, b: nat, root: nat, hold: nat, bits: nat, h: Entry, d: Entry) {
    Levels(t, b, root, hold, h) && if h.bits <= bits then d == h else d.bits > bits
  }

  lemma Look(t: seq<Entry>, b: nat, root: nat, kind: Kind, lens: seq<nat>, r: Regs, next: seq<Byte>)
    requires Accepted(kind, lens) && Decodes(t, b, root, kind, lens) && r.hold < Pow2(r.bits)
    ensures Looked(t, b, root, r.hold, r.bits, Decode(kind, lens, r.hold),
      Decode(kind, lens, Virtual(r.hold, r.bits, next)))
  {
    hide Decode, InflateTable.BadLengths, Lo, Hi, Decodes, Virtual, Pow2, Levels;
    LookupLevels(t, b, root, kind, lens, r.hold);
    HeldDecodes(kind, lens, r.hold, r.bits, next);
  }

  /** First level: pull bytes until the entry for the held bits is covered by them. */
  method FirstLevel(r: Regs, next: seq<Byte>, t: seq<Entry>, b: nat, root: nat, ghost kind: Kind, ghost lens: seq<nat>)
    returns (r': Regs, rest: seq<Byte>, ok: bool, here: Entry)
    requires Accepted(kind, lens) && Decodes(t, b, root, kind, lens) && r.hold < Pow2(r.bits)
    ensures var d := Decode(kind, lens, Virtual(r.hold, r.bits, next));
      && Searching(r, next, r', rest, d)
      && Looked(t, b, root, r'.hold, r'.bits, Decode(kind, lens, r'.hold), d)
      && here == t[b + Lo(r'.hold, root)]
      && (ok ==> here.bits <= r'.bits)
      && (!ok ==> rest == [] && d.bits > r'.bits)
  {
    hide Decode, InflateTable.BadLengths, Lo, Hi, Decodes, Virtual, Pow2;
    ghost var d := Decode(kind, lens, Virtual(r.hold, r.bits, next));
    r', rest := r, next;
    Look(t, b, root, kind, lens, r', rest);
    here := t[b + Lo(r'.hold, root)];
    while here.bits > r'.bits
      invariant Searching(r, next, r', rest, d)
      invariant Looked(t, b, root, r'.hold, r'.bits, Decode(kind, lens, r'.hold), d) && here == t[b + Lo(r'.hold, root)]
      decreases |rest|
    {
      if rest == [] { return r', rest, false, here; }
      ghost var r1, rest1 := r', rest;
      r', rest := PullByte(r', rest);
      SearchPull(r, next, r1, rest1, r', rest, d);
      Look(t, b, root, kind, lens, r', rest);
      here := t[b + Lo(r'.hold, root)];
    }
    ok := true;
  }

  /** Second level, behind the link `last`. */
  method SecondLevel(ghost r0: Regs, ghost next0: seq<Byte>, r: Regs, next: seq<Byte>, t: seq<Entry>, b: nat, root: nat,
      last: Entry, ghost kind: Kind, ghost lens: seq<nat>)
    returns (r': Regs, rest: seq<Byte>, ok: bool, here: Entry)
    requires Accepted(kind, lens) && Decodes(t, b, root, kind, lens) && root <= r.bits
    requires var d := Decode(kind, lens, Virtual(r0.hold, r0.bits, next0));
      && Searching(r0, next0, r, next, d) && Looked(t, b, root, r.hold, r.bits, Decode(kind, lens, r.hold), d)
    requires last == t[b + Lo(r.hold, root)] && IsLink(last)
    ensures var d := Decode(kind, lens, Virtual(r0.hold, r0.bits, next0));
      && Searching(r0, next0, r', rest, d)
      && (ok ==> d == Entry(here.op, last.bits + here.bits, here.val) && d.bits <= r'.bits)
      && (!ok ==> rest == [] && d.bits > r'.bits)
  {
    hide Decode, InflateTable.BadLengths, Lo, Hi, Decodes, Virtual, Pow2;
    ghost var d, v := Decode(kind, lens, Virtual(r0.hold, r0.bits, next0)), Virtual(r0.hold, r0.bits, next0);
    r', rest := r, next;
    TakeVirtual(r'.hold, r'.bits, rest, root);
    LoHi(r'.hold, root, last.op);
    here := t[b + last.val + Hi(Lo(r'.hold, last.bits + last.op), last.bits)];
    while last.bits + here.bits > r'.bits
      invariant Searching(r0, next0, r', rest, d) && root <= r'.bits
      invariant Lo(r'.hold, root) == Lo(v, root) && b + Lo(v, root) < |t| && last == t[b + Lo(v, root)]
      invariant Looked(t, b, root, r'.hold, r'.bits, Decode(kind, lens, r'.hold), d)
      invariant here == t[b + last.val + Lo(Hi(r'.hold, root), last.op)]
      decreases |rest|
    {
      if rest == [] { return r', rest, false, here; }
      ghost var r1, rest1 := r', rest;
      r', rest := PullByte(r', rest);
      SearchPull(r0, next0, r1, rest1, r', rest, d);
      Look(t, b, root, kind, lens, r', rest);
      TakeVirtual(r'.hold, r'.bits, rest, root);
      LoHi(r'.hold, root, last.op);
      here := t[b + last.val + Hi(Lo(r'.hold, last.bits + last.op), last.bits)];
    }
    ok := true;
  }

  /** The loops that pull just enough bytes to decode the next code. */
  method LookupCode(r: Regs, next: seq<Byte>, t: seq<Entry>, b: nat, root: nat, ghost kind: Kind, ghost lens: seq<nat>)
    returns (r': Regs, rest: seq<Byte>, ok: bool, e: Entry)
    requires Accepted(kind, lens) && Decodes(t, b, root, kind, lens) && r.hold < Pow2(r.bits)
    ensures Searching(r, next, r', rest, Decode(kind, lens, Virtual(r.hold, r.bits, next)))
    ensures ok ==> e == Decode(kind, lens, Virtual(r.hold, r.bits, next)) && e.bits <= r'.bits
    ensures !ok ==> rest == [] && Decode(kind, lens, Virtual(r.hold, r.bits, next)).bits > r'.bits
  {
    hide Decode, InflateTable.BadLengths, Lo, Hi, Decodes, Virtual, Pow2;
    r', rest, ok, e := FirstLevel(r, next, t, b, root, kind, lens);
    if ok && IsLink(e) {
      var last := e;
      r', rest, ok, e := SecondLevel(r, next, r', rest, t, b, root, last, kind, lens);
      e := e.(bits := last.bits + e.bits);
    }
  }

  // ----- literals, lengths and distances -----

  /** The phase of a mode inside a block of codes, or after it. */
  ghost function CodedPhase(r: Regs, lit: seq<nat>, dist: seq<nat>): Phase {
    if r.mode == TYPE then Block else if r.mode == BAD then Phase.Bad else Coded(lit, dist, SubOf(r))
  }

  /** LEN's reaction to an entry of the literal/length code. */
  function LenEntry(r: Regs, e: Entry): Regs
    requires e.bits <= r.bits
  {
    var r1 := Drop(r, e.bits).(length := e.val);
    if e.op == 0 then r1.(mode := LIT)
    else if HasBit(e.op, 32) then r1.(mode := TYPE)
    else if HasBit(e.op, 64) then r1.(mode := BAD)
    else r1.(extra := e.op % 16, mode := LENEXT)
  }

  lemma LenNext(c: Config, w: Window)
    requires Valid(c) && c.phase.Coded? && c.phase.sub == Sub.Len
    ensures var e := Decode(Lens, c.phase.lit, c.v);
      if e.bits > c.n then Next(c, w).None?
      else var c1 := Take(c, e.bits);
        Next(c, w) == Some(
          if e.op == 0 then WithSub(c1, Sub.Lit(e.val))
          else if HasBit(e.op, 32) then c1.(phase := Block)
          else if HasBit(e.op, 64) then c1.(phase := Phase.Bad)
          else WithSub(c1, LenExt(e.val, e.op % 16)))
  {
    hide Decode, Hi, Pow2, HasBit, InflateTable.BadLengths;
  }

  /** Only the accumulator and the phase make the configuration. */
  lemma ConfPhase(r: Regs, ph: Phase, r': Regs, ph': Phase, next: seq<Byte>, out: seq<Byte>)
    requires r'.hold == r.hold && r'.bits == r.bits && r'.last == r.last
    ensures Conf(r', ph', next, out) == Conf(r, ph, next, out).(phase := ph')
  {
    hide Virtual;
  }

  lemma PulledConf(r: Regs, next: seq<Byte>, r1: Regs, rest: seq<Byte>, ph: Phase, out: seq<Byte>)
    requires Pulled(r, next, r1, rest)
    ensures Conf(r1, ph, rest, out) == Conf(r, ph, next, out) && r1.hold < Pow2(r1.bits)
  {
    hide Virtual, Pow2;
  }

  lemma LenEnters(r: Regs, next: seq<Byte>, r1: Regs, rest: seq<Byte>, e: Entry, lit: seq<nat>, dist: seq<nat>,
      out: seq<Byte>, w: Window)
    requires Valid(Conf(r, Coded(lit, dist, Sub.Len), next, out)) && Pulled(r, next, r1, rest)
    requires e == Decode(Lens, lit, Virtual(r.hold, r.bits, next)) && e.bits <= r1.bits
    ensures LenEntry(r1, e).hold < Pow2(LenEntry(r1, e).bits)
    ensures Virtual(LenEntry(r1, e).hold, LenEntry(r1, e).bits, rest) == Hi(Virtual(r.hold, r.bits, next), e.bits)
    ensures Next(Conf(r, Coded(lit, dist, Sub.Len), next, out), w)
      == Some(Conf(LenEntry(r1, e), CodedPhase(LenEntry(r1, e), lit, dist), rest, out))
  {
    hide Pow2, Hi, Virtual, Next, Valid, Decode, HasBit, Conf, Take;
    ghost var ph := Coded(lit, dist, Sub.Len);
    var c, r2 := Conf(r, ph, next, out), LenEntry(r1, e);
    ConfFields(r, ph, next, out);
    LenNext(c, w);
    PulledConf(r, next, r1, rest, ph, out);
    DropConf(r1, e.bits, ph, rest, out);
    ConfPhase(Drop(r1, e.bits), ph, r2, CodedPhase(r2, lit, dist), rest, out);
    ConfFields(r2, CodedPhase(r2, lit, dist), rest, out);
    TakePhase(c, e.bits);
  }

  lemma ConfFields(r: Regs, ph: Phase, next: seq<Byte>, out: seq<Byte>)
    ensures var c := Conf(r, ph, next, out);
      c.phase == ph && c.v == Virtual(r.hold, r.bits, next) && c.n == r.bits + 8 * |next| && c.out == out
        && c.last == r.last
  {
  }

  lemma TakePhase(c: Config, k: nat)
    requires k <= c.n
    ensures Take(c, k).phase == c.phase && Take(c, k).v == Hi(c.v, k)
  {
  }

  /** LEN, when there is too little input or space for the fast loop. */
  method LenCode(r: Regs, next: seq<Byte>, t: seq<Entry>, b: nat, root: nat, ghost lit: seq<nat>, ghost dist: seq<nat>,
      ghost out: seq<Byte>, ghost w: Window)
    returns (r': Regs, rest: seq<Byte>, leave: bool)
    requires r.mode == LEN && Sound(r, Coded(lit, dist, Sub.Len)) && Decodes(t, b, root, Lens, lit)
    ensures leave ==> r'.mode == LEN
    ensures !leave ==> r'.mode in {LIT, TYPE, BAD, LENEXT}
    ensures Stepped(r, Coded(lit, dist, Sub.Len), next, r', CodedPhase(r', lit, dist), rest, leave, out, w)
  {
    hide Pow2, Hi, Lo, Virtual, Next, Tight, Decode, Decodes, InflateTable.BadLengths, HasBit, ValidSub;
    ghost var ph := Coded(lit, dist, Sub.Len);
    ghost var c := Conf(r, ph, next, out);
    SoundConf(r, ph, next, out);
    LenNext(c, w);
    LenNext(Config(r.last, ph, r.hold, r.bits, []), w);
    HeldFew(r, ph, w);
    HeldDecodes(Lens, lit, r.hold, r.bits, next);
    var r1, ok, e;
    r1, rest, ok, e := LookupCode(r, next, t, b, root, Lens, lit);
    if !ok {
      Leaves(r, ph, next, r1, rest, out, w);
      return r1, rest, true;
    }
    LenEnters(r, next, r1, rest, e, lit, dist, out, w);
    r', leave := LenEntry(r1, e), false;
    Goes(r, ph, next, r', CodedPhase(r', lit, dist), rest, out, w);
  }

  lemma LenExtNext(c: Config, w: Window)
    requires Valid(c) && c.phase.Coded? && c.phase.sub.LenExt?
    ensures var x := c.phase.sub.extra;
      Next(c, w) == if x > c.n then None else Some(WithSub(Take(c, x), Sub.Dist(c.phase.sub.length + Lo(c.v, x))))
  {
    hide Decode, Hi, Pow2, InflateTable.BadLengths;
  }

  function LenExtEntry(r: Regs): Regs
    requires r.extra <= r.bits
  {
    Drop(r, r.extra).(length := r.length + Lo(r.hold, r.extra), mode := DIST)
  }

  lemma LenExtEnters(r: Regs, next: seq<Byte>, r1: Regs, rest: seq<Byte>, lit: seq<nat>, dist: seq<nat>, out: seq<Byte>,
      w: Window)
    requires r.mode == LENEXT && Valid(Conf(r, Coded(lit, dist, SubOf(r)), next, out)) && Pulled(r, next, r1, rest)
      && r.extra <= r1.bits
    ensures LenExtEntry(r1).hold < Pow2(LenExtEntry(r1).bits)
    ensures Virtual(LenExtEntry(r1).hold, LenExtEntry(r1).bits, rest) == Hi(Virtual(r.hold, r.bits, next), r.extra)
    ensures Next(Conf(r, Coded(lit, dist, SubOf(r)), next, out), w)
      == Some(Conf(LenExtEntry(r1), CodedPhase(LenExtEntry(r1), lit, dist), rest, out))
  {
    hide Pow2, Hi, Lo, Virtual, Next, Valid, Conf, Take;
    ghost var ph := Coded(lit, dist, SubOf(r));
    var c, r2 := Conf(r, ph, next, out), LenExtEntry(r1);
    ConfFields(r, ph, next, out);
    LenExtNext(c, w);
    PulledConf(r, next, r1, rest, ph, out);
    DropConf(r1, r.extra, ph, rest, out);
    ConfPhase(Drop(r1, r.extra), ph, r2, CodedPhase(r2, lit, dist), rest, out);
    ConfFields(r2, CodedPhase(r2, lit, dist), rest, out);
    TakePhase(c, r.extra);
  }

  /** LENEXT */
  method LenExtra(r: Regs, next: seq<Byte>, ghost lit: seq<nat>, ghost dist: seq<nat>, ghost out: seq<Byte>,
      ghost w: Window)
    returns (r': Regs, rest: seq<Byte>, leave: bool)
    requires r.mode == LENEXT && Sound(r, Coded(lit, dist, SubOf(r)))
    ensures leave ==> r'.mode == LENEXT
    ensures !leave ==> r'.mode == DIST
    ensures Stepped(r, Coded(lit, dist, SubOf(r)), next, r', CodedPhase(r', lit, dist), rest, leave, out, w)
  {
    hide Pow2, Hi, Lo, Virtual, Next, Tight, ValidPhase;
    ghost var ph := Coded(lit, dist, LenExt(r.length, r.extra));
    SoundConf(r, ph, next, out);
    LenExtNext(Conf(r, ph, next, out), w);
    LenExtNext(Config(r.last, ph, r.hold, r.bits, []), w);
    HeldFew(r, ph, w);
    var r1, ok;
    r1, rest, ok := NeedBits(r, next, r.extra);
    if !ok {
      Leaves(r, ph, next, r1, rest, out, w);
      return r1, rest, true;
    }
    LenExtEnters(r, next, r1, rest, lit, dist, out, w);
    r', leave := LenExtEntry(r1), false;
    Goes(r, ph, next, r', CodedPhase(r', lit, dist), rest, out, w);
  }

  function DistEntry(r: Regs, e: Entry): Regs
    requires e.bits <= r.bits
  {
    var r1 := Drop(r, e.bits);
    if HasBit(e.op, 64) then r1.(mode := BAD) else r1.(offset := e.val, extra := e.op % 16, mode := DISTEXT)
  }

  lemma DistNext(c: Config, w: Window)
    requires Valid(c) && c.phase.Coded? && c.phase.sub.Dist?
    ensures var e := Decode(Dists, c.phase.dist, c.v);
      if e.bits > c.n then Next(c, w).None?
      else var c1 := Take(c, e.bits);
        Next(c, w) == Some(
          if HasBit(e.op, 64) then c1.(phase := Phase.Bad)
          else WithSub(c1, DistExt(c.phase.sub.length, e.val, e.op % 16)))
  {
    hide Decode, Hi, Pow2, HasBit, InflateTable.BadLengths;
  }

  lemma DistEnters(r: Regs, next: seq<Byte>, r1: Regs, rest: seq<Byte>, e: Entry, lit: seq<nat>, dist: seq<nat>,
      out: seq<Byte>, w: Window)
    requires Valid(Conf(r, Coded(lit, dist, Sub.Dist(r.length)), next, out)) && Pulled(r, next, r1, rest)
    requires e == Decode(Dists, dist, Virtual(r.hold, r.bits, next)) && e.bits <= r1.bits
    ensures DistEntry(r1, e).hold < Pow2(DistEntry(r1, e).bits)
    ensures Virtual(DistEntry(r1, e).hold, DistEntry(r1, e).bits, rest) == Hi(Virtual(r.hold, r.bits, next), e.bits)
    ensures Next(Conf(r, Coded(lit, dist, Sub.Dist(r.length)), next, out), w)
      == Some(Conf(DistEntry(r1, e), CodedPhase(DistEntry(r1, e), lit, dist), rest, out))
  {
    hide Pow2, Hi, Virtual, Next, Valid, Decode, HasBit, Conf, Take;
    ghost var ph := Coded(lit, dist, Sub.Dist(r.length));
    var c, r2 := Conf(r, ph, next, out), DistEntry(r1, e);
    ConfFields(r, ph, next, out);
    DistNext(c, w);
    PulledConf(r, next, r1, rest, ph, out);
    DropConf(r1, e.bits, ph, rest, out);
    ConfPhase(Drop(r1, e.bits), ph, r2, CodedPhase(r2, lit, dist), rest, out);
    ConfFields(r2, CodedPhase(r2, lit, dist), rest, out);
    TakePhase(c, e.bits);
  }

  /** DIST */
  method DistCode(r: Regs, next: seq<Byte>, t: seq<Entry>, b: nat, root: nat, ghost lit: seq<nat>, ghost dist: seq<nat>,
      ghost out: seq<Byte>, ghost w: Window)
    returns (r': Regs, rest: seq<Byte>, leave: bool)
    requires r.mode == DIST && Sound(r, Coded(lit, dist, Sub.Dist(r.length))) && Decodes(t, b, root, Dists, dist)
    ensures leave ==> r'.mode == DIST
    ensures !leave ==> r'.mode in {BAD, DISTEXT}
    ensures Stepped(r, Coded(lit, dist, Sub.Dist(r.length)), next, r', CodedPhase(r', lit, dist), rest, leave, out, w)
  {
    hide Pow2, Hi, Lo, Virtual, Next, Tight, Decode, Decodes, InflateTable.BadLengths, HasBit, ValidSub;
    ghost var ph := Coded(lit, dist, Sub.Dist(r.length));
    ghost var c := Conf(r, ph, next, out);
    SoundConf(r, ph, next, out);
    DistNext(c, w);
    DistNext(Config(r.last, ph, r.hold, r.bits, []), w);
    HeldFew(r, ph, w);
    HeldDecodes(Dists, dist, r.hold, r.bits, next);
    var r1, ok, e;
    r1, rest, ok, e := LookupCode(r, next, t, b, root, Dists, dist);
    if !ok {
      Leaves(r, ph, next, r1, rest, out, w);
      return r1, rest, true;
    }
    DistEnters(r, next, r1, rest, e, lit, dist, out, w);
    r', leave := DistEntry(r1, e), false;
    Goes(r, ph, next, r', CodedPhase(r', lit, dist), rest, out, w);
  }

  lemma DistExtNext(c: Config, w: Window)
    requires Valid(c) && c.phase.Coded? && c.phase.sub.DistExt?
    ensures var x := c.phase.sub.extra;
      Next(c, w) ==
        if x > c.n then None
          else Some(WithSub(Take(c, x), Sub.Match(c.phase.sub.length, c.phase.sub.offset + Lo(c.v, x))))
  {
    hide Decode, Hi, Pow2, InflateTable.BadLengths;
  }

  function DistExtEntry(r: Regs): Regs
    requires r.extra <= r.bits
  {
    Drop(r, r.extra).(offset := r.offset + Lo(r.hold, r.extra), mode := MATCH)
  }

  lemma DistExtEnters(r: Regs, next: seq<Byte>, r1: Regs, rest: seq<Byte>, lit: seq<nat>, dist: seq<nat>,
      out: seq<Byte>, w: Window)
    requires r.mode == DISTEXT && Valid(Conf(r, Coded(lit, dist, SubOf(r)), next, out)) && Pulled(r, next, r1, rest)
      && r.extra <= r1.bits
    ensures DistExtEntry(r1).hold < Pow2(DistExtEntry(r1).bits)
    ensures Virtual(DistExtEntry(r1).hold, DistExtEntry(r1).bits, rest) == Hi(Virtual(r.hold, r.bits, next), r.extra)
    ensures Next(Conf(r, Coded(lit, dist, SubOf(r)), next, out), w)
      == Some(Conf(DistExtEntry(r1), CodedPhase(DistExtEntry(r1), lit, dist), rest, out))
  {
    hide Pow2, Hi, Lo, Virtual, Next, Valid, Conf, Take;
    ghost var ph := Coded(lit, dist, SubOf(r));
    var c, r2 := Conf(r, ph, next, out), DistExtEntry(r1);
    ConfFields(r, ph, next, out);
    DistExtNext(c, w);
    PulledConf(r, next, r1, rest, ph, out);
    DropConf(r1, r.extra, ph, rest, out);
    ConfPhase(Drop(r1, r.extra), ph, r2, CodedPhase(r2, lit, dist), rest, out);
    ConfFields(r2, CodedPhase(r2, lit, dist), rest, out);
    TakePhase(c, r.extra);
  }

  /** DISTEXT */
  method DistExtra(r: Regs, next: seq<Byte>, ghost lit: seq<nat>, ghost dist: seq<nat>, ghost out: seq<Byte>,
      ghost w: Window)
    returns (r': Regs, rest: seq<Byte>, leave: bool)
    requires r.mode == DISTEXT && Sound(r, Coded(lit, dist, SubOf(r)))
    ensures leave ==> r'.mode == DISTEXT
    ensures !leave ==> r'.mode == MATCH
    ensures Stepped(r, Coded(lit, dist, SubOf(r)), next, r', CodedPhase(r', lit, dist), rest, leave, out, w)
  {
    hide Pow2, Hi, Lo, Virtual, Next, Tight, ValidPhase;
    ghost var ph := Coded(lit, dist, DistExt(r.length, r.offset, r.extra));
    SoundConf(r, ph, next, out);
    DistExtNext(Conf(r, ph, next, out), w);
    DistExtNext(Config(r.last, ph, r.hold, r.bits, []), w);
    HeldFew(r, ph, w);
    var r1, ok;
    r1, rest, ok := NeedBits(r, next, r.extra);
    if !ok {
      Leaves(r, ph, next, r1, rest, out, w);
      return r1, rest, true;
    }
    DistExtEnters(r, next, r1, rest, lit, dist, out, w);
    r', leave := DistExtEntry(r1), false;
    Goes(r, ph, next, r', CodedPhase(r', lit, dist), rest, out, w);
  }

  // ----- code lengths -----

  lemma LenLensNext(c: Config, w: Window)
    requires Valid(c) && c.phase.LenLens? && |c.phase.cl| < c.phase.ncode
    ensures Next(c, w) ==
      if c.n < 3 then None else Some(Take(c, 3).(phase := c.phase.(cl := c.phase.cl + [Lo(c.v, 3)])))
  {
    hide Lo, Hi, Pow2, Unpermute, InflateTable.Result;
  }

  /** LENLENS: read one code length of the code length code. */
  method OneLenLen(r: Regs, next: seq<Byte>, ghost cl: seq<nat>, ghost out: seq<Byte>, ghost w: Window)
    returns (r': Regs, rest: seq<Byte>, leave: bool, len: nat)
    requires |cl| < r.ncode && Sound(r, LenLens(r.nlen, r.ndist, r.ncode, cl))
    ensures r' == r.(hold := r'.hold, bits := r'.bits, have := if leave then r.have else r.have + 1)
    ensures Stepped(r, LenLens(r.nlen, r.ndist, r.ncode, cl), next, r',
      LenLens(r.nlen, r.ndist, r.ncode, if leave then cl else cl + [len]), rest, leave, out, w)
  {
    hide Pow2, Hi, Lo, Virtual, Next, Tight, ValidPhase;
    ghost var ph := LenLens(r.nlen, r.ndist, r.ncode, cl);
    SoundConf(r, ph, next, out);
    LenLensNext(Conf(r, ph, next, out), w);
    LenLensNext(Config(r.last, ph, r.hold, r.bits, []), w);
    HeldFew(r, ph, w);
    var r1, ok;
    r1, rest, ok := NeedBits(r, next, 3);
    if !ok {
      Leaves(r, ph, next, r1, rest, out, w);
      return r1, rest, true, 0;
    }
    DropConf(r1, 3, ph, rest, out);
    r', leave, len := Drop(r1, 3).(have := r.have + 1), false, Lo(r1.hold, 3);
    Goes(r, ph, next, r', ph.(cl := cl + [len]), rest, out, w);
  }

  /** How many lengths an entry of the code length code stands for, and which. */
  function RepeatCount(val: nat, field: nat): nat {
    if val < 16 then 1 else if val == 18 then 11 + field else 3 + field
  }

  function RepeatLen(val: nat, prev: nat): nat {
    if val < 16 then val else if val == 16 then prev else 0
  }

  function ExtraBits(val: nat): nat {
    if val < 16 then 0 else RepeatBits(val)
  }

  lemma OneLengthNext(c: Config, w: Window)
    requires Valid(c) && c.phase.CodeLens? && |c.phase.ls| < c.phase.nlen + c.phase.ndist
    ensures var e, ls := Decode(Codes, c.phase.code, c.v), c.phase.ls;
      var x := ExtraBits(e.val);
      if e.bits + x > c.n then Next(c, w).None?
      else if e.val == 16 && ls == [] then Next(c, w) == Some(Take(c, e.bits).(phase := Phase.Bad))
      else
        var k, len := RepeatCount(e.val, Lo(Hi(c.v, e.bits), x)),
          RepeatLen(e.val, if ls == [] then 0 else ls[|ls| - 1]);
        Next(c, w) == Some(Take(c, e.bits + x).(phase :=
          if |ls| + k > c.phase.nlen + c.phase.ndist then Phase.Bad else c.phase.(ls := ls + Repeat(len, k))))
  {
    hide Decode, Hi, Lo, Pow2, InflateTable.BadLengths;
    var e := Decode(Codes, c.phase.code, c.v);
    InflateRun.DecodeCodes(c.phase.code, c.v);
    assert Repeat(e.val, 1) == [e.val];
  }

  /** Pull enough bits for the next symbol of the code length code and its repeat count. */
  method CodeLengthEntry(r: Regs, next: seq<Byte>, t: seq<Entry>, b: nat, root: nat, ghost code: seq<nat>,
      ghost ls: seq<nat>, ghost out: seq<Byte>, ghost w: Window)
    returns (r': Regs, rest: seq<Byte>, leave: bool, here: Entry)
    requires |ls| < r.nlen + r.ndist && Sound(r, CodeLens(r.nlen, r.ndist, code, ls))
    requires Decodes(t, b, root, Codes, code) && root == InflateTable.Root(code, 7)
    ensures Pulled(r, next, r', rest)
    ensures leave ==>
      Stepped(r, CodeLens(r.nlen, r.ndist, code, ls), next, r', CodeLens(r.nlen, r.ndist, code, ls), rest, true, out, w)
    ensures !leave ==> here == Decode(Codes, code, Virtual(r.hold, r.bits, next))
    ensures !leave ==> here.bits + ExtraBits(here.val) <= r'.bits < here.bits + ExtraBits(here.val) + 8
  {
    hide Pow2, Hi, Lo, Virtual, Next, Tight, Decode, Decodes, InflateTable.BadLengths, InflateTable.Root, Lengths,
      Levels;
    ghost var ph := CodeLens(r.nlen, r.ndist, code, ls);
    ghost var c := Conf(r, ph, next, out);
    SoundConf(r, ph, next, out);
    OneLengthNext(c, w);
    OneLengthNext(Config(r.last, ph, r.hold, r.bits, []), w);
    HeldFew(r, ph, w);
    HeldDecodes(Codes, code, r.hold, r.bits, next);
    var r1, ok;
    r1, rest, ok, here := FirstLevel(r, next, t, b, root, Codes, code);
    if !ok {
      Leaves(r, ph, next, r1, rest, out, w);
      return r1, rest, true, here;
    }
    PlainEntry(t, b, root, code, r1.hold, Decode(Codes, code, r1.hold));
    ghost var n1 := rest;
    r', rest, ok := NeedBits(r1, rest, here.bits + ExtraBits(here.val));
    PulledTwice(r, next, r1, n1, r', rest);
    leave := !ok;
    if !ok {
      Leaves(r, ph, next, r', rest, out, w);
    }
  }

  /** CODELENS: decode one symbol of the code length code; len, repeated count times, comes next. */
  method OneCodeLength(r: Regs, next: seq<Byte>, t: seq<Entry>, b: nat, root: nat, prev: nat, ghost code: seq<nat>,
      ghost ls: seq<nat>, ghost out: seq<Byte>, ghost w: Window)
    returns (r': Regs, rest: seq<Byte>, leave: bool, len: nat, count: nat)
    requires r.mode == CODELENS && |ls| == r.have < r.nlen + r.ndist && Sound(r, CodeLens(r.nlen, r.ndist, code, ls))
    requires Decodes(t, b, root, Codes, code) && root == InflateTable.Root(code, 7)
    requires ls != [] ==> prev == ls[|ls| - 1]
    ensures r' ==
      r.(hold := r'.hold, bits := r'.bits, mode := r'.mode, have := if leave
          || r'.mode == BAD then r.have else r.have + count)
    ensures r'.mode in (if leave then {CODELENS} else {CODELENS, BAD})
    ensures !leave && r'.mode == CODELENS ==> r.have + count <= r.nlen + r.ndist
    ensures Stepped(r, CodeLens(r.nlen, r.ndist, code, ls), next, r',
      if leave then CodeLens(r.nlen, r.ndist, code, ls)
      else if r'.mode == BAD then Phase.Bad
      else CodeLens(r.nlen, r.ndist, code, ls + Repeat(len, count)), rest, leave, out, w)
  {
    hide Pow2, Hi, Lo, Virtual, Next, Tight, Decode, Decodes, InflateTable.BadLengths, InflateTable.Root, Lengths,
      ValidPhase;
    ghost var ph := CodeLens(r.nlen, r.ndist, code, ls);
    SoundConf(r, ph, next, out);
    OneLengthNext(Conf(r, ph, next, out), w);
    var r1, here;
    r1, rest, leave, here := CodeLengthEntry(r, next, t, b, root, code, ls, out, w);
    len, count := 0, 0;
    if leave { return r1, rest, leave, len, count; }
    var x := ExtraBits(here.val);
    FieldConf(r1, here.bits, x, rest);
    HiHi(r1.hold, here.bits, x);
    DropConf(r1, here.bits, ph, rest, out);
    DropConf(r1, here.bits + x, ph, rest, out);
    r' := Drop(r1, here.bits);
    if here.val == 16 && r.have == 0 {
      r' := r'.(mode := BAD);
      GoesBad(r, ph, next, r', rest, out, w);
      return;
    }
    len, count := RepeatLen(here.val, prev), RepeatCount(here.val, Lo(r'.hold, x));
    r' := Drop(r', x);
    if r.have + count > r.nlen + r.ndist {
      r' := r'.(mode := BAD);
      GoesBad(r, ph, next, r', rest, out, w);
    } else {
      r' := r'.(have := r.have + count);
      Goes(r, ph, next, r', CodeLens(r.nlen, r.ndist, code, ls + Repeat(len, count)), rest, out, w);
    }
  }

  lemma PulledTwice(r: Regs, next: seq<Byte>, r1: Regs, next1: seq<Byte>, r2: Regs, next2: seq<Byte>)
    requires Pulled(r, next, r1, next1) && Pulled(r1, next1, r2, next2)
    ensures Pulled(r, next, r2, next2)
  {
  }

  lemma PlainEntry(t: seq<Entry>, b: nat, root: nat, code: seq<nat>, hold: nat, h: Entry)
    requires Accepted(Codes, code) && Lengths(code, 7) && Decodes(t, b, root, Codes, code)
      && root == InflateTable.Root(code, 7)
    requires Levels(t, b, root, hold, h)
    ensures h == t[b + Lo(hold, root)]
  {
    hide Lo, Hi, Decodes, InflateTable.BadLengths, InflateTable.Root;
    NoLinks(t, b, root, code, hold);
  }

  /** The code length code needs no second level. */
  lemma NoLinks(t: seq<Entry>, b: nat, root: nat, code: seq<nat>, hold: nat)
    requires Accepted(Codes, code) && Lengths(code, 7) && Decodes(t, b, root, Codes, code)
      && root == InflateTable.Root(code, 7)
    ensures b + Lo(hold, root) < |t| && !IsLink(t[b + Lo(hold, root)])
  {
    hide Lo, Hi, Decodes, Decode, InflateTable.BadLengths, InflateTable.Root;
    LookupLevels(t, b, root, Codes, code, hold);
    RootCovers(code, hold);
  }

  lemma RootCovers(code: seq<nat>, v: nat)
    requires Accepted(Codes, code) && Lengths(code, 7)
    ensures Decode(Codes, code, v).bits <= InflateTable.Root(code, 7)
  {
    hide InflateTable.BadLengths, InflateTable.MaxLen, InflateTable.MinLen, CodeOf, Rev, Lo, SymOp, SymVal, Count;
    InflateRun.DecodeFacts(Codes, code, v);
    var e := Decode(Codes, code, v);
    if e != Entry(64, 1, 0) {
      var sym: nat :| Matches(code, sym, v) && e == Entry(SymOp(Codes, sym), code[sym], SymVal(Codes, sym));
      BuildTable.CountAt(code, sym);
      BuildTable.MaxLenBound(code, 7, InflateTable.MaxLen(code, MAXBITS));
    }
  }
}
