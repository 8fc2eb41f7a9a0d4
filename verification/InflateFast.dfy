/** inflate_fast(): the decoding loop without input and space checks, shown to run the same machine. */
module InflateFast {
  import opened Bits
  import opened DecodeTable
  import opened Bytes
  import opened InflateSpec
  import opened InflateSchedule
  import opened InflateWindow
  import opened InflateState
  import opened InflateSteps
  import opened InflateCopy
  import opened InflateOutput
  import InflateRun
  import InflateTable
  import Canonical

  // ----- decoding -----

  /** The bits that tell operations apart. */
  predicate Plain(op: nat) {
    && (op == 0 || HasBit(op, 16) || HasBit(op, 64))
    && !(HasBit(op, 16) && HasBit(op, 64)) && !(HasBit(op, 16) && HasBit(op, 32)) && !(0 < op < 16)
  }

  lemma LengthOperations(i: nat)
    requires i < 31
    ensures Plain(LENGTH_EXTRA[i])
  {
    assert Plain(16) && Plain(17) && Plain(18) && Plain(19) && Plain(20) && Plain(21) && Plain(73) && Plain(195);
    hide Plain;
  }

  lemma DistOperations(i: nat)
    requires i < 32
    ensures Plain(DIST_EXTRA[i])
  {
    assert Plain(16) && Plain(17) && Plain(18) && Plain(19) && Plain(20) && Plain(21) && Plain(22) && Plain(23);
    assert Plain(24) && Plain(25) && Plain(26) && Plain(27) && Plain(28) && Plain(29) && Plain(64);
    hide Plain;
  }

  lemma Operations(kind: Kind, sym: nat)
    requires sym < Alphabet(kind)
    ensures Plain(SymOp(kind, sym)) && (kind == Dists ==> SymOp(kind, sym) != 0)
  {
    assert Plain(0) && Plain(96);
    hide Plain;
    if kind == Lens && sym > 256 { LengthOperations(sym - 257); }
    if kind == Dists { DistOperations(sym); }
  }

  lemma DecodedOperation(kind: Kind, lens: seq<nat>, v: nat)
    requires Accepted(kind, lens)
    ensures var d := Decode(kind, lens, v);
      && 1 <= d.bits <= 15
      && Plain(d.op) && (kind == Dists ==> d.op != 0)
  {
    hide InflateTable.BadLengths, Canonical.CodeOf, Rev, SymOp, SymVal, Lo, Decode;
    InflateRun.DecodeFacts(kind, lens, v);
    var d := Decode(kind, lens, v);
    if d != Entry(64, 1, 0) {
      var sym: nat :| Canonical.Matches(lens, sym, v) && d == Entry(SymOp(kind, sym), lens[sym], SymVal(kind, sym));
      Operations(kind, sym);
    }
  }

  /** How the fast loop recognizes a link to a second-level table. */
  predicate LooksLinked(e: Entry) {
    e.op != 0 && !HasBit(e.op, 16) && !HasBit(e.op, 64)
  }

  lemma LinkTest(e: Entry)
    ensures IsLink(e) ==> LooksLinked(e)
  {
  }

  /** Two bytes, when fewer than fifteen bits are held. */
  method TwoBytes(r: Regs, next: seq<Byte>) returns (r': Regs, rest: seq<Byte>)
    requires r.hold < Pow2(r.bits) && r.bits <= 30 && (r.bits < 15 ==> |next| >= 2)
    ensures Pulled(r, next, r', rest) && 15 <= r'.bits <= 30 && r'.bits == (if r.bits < 15 then r.bits + 16 else r.bits)
  {
    hide Pow2, Virtual;
    r', rest := r, next;
    if r.bits < 15 {
      r', rest := PullByte(r', rest);
      ghost var r1, rest1 := r', rest;
      r', rest := PullByte(r', rest);
      PulledTwice(r, next, r1, rest1, r', rest);
    }
  }

  /** Look up a code among at least fifteen bits, and drop it. */
  method FastCode(r: Regs, ghost next: seq<Byte>, t: seq<Entry>, b: nat, root: nat, ghost kind: Kind,
      ghost lens: seq<nat>) returns (r': Regs, here: Entry)
    requires Accepted(kind, lens) && Decodes(t, b, root, kind, lens) && r.hold < Pow2(r.bits) && 15 <= r.bits
    ensures var d := Decode(kind, lens, Virtual(r.hold, r.bits, next));
      here.op == d.op && here.val == d.val && d.bits <= 15 && r' == Drop(r, d.bits)
  {
    hide Decode, InflateTable.BadLengths, Lo, Hi, Decodes, Virtual, Pow2, Drop, HasBit;
    Look(t, b, root, kind, lens, r, next);
    DecodedOperation(kind, lens, r.hold);
    here := t[b + Lo(r.hold, root)];
    LinkTest(here);
    DropTwice(r, root, here, Decode(kind, lens, r.hold).bits);
    r' := Drop(r, here.bits);
    if LooksLinked(here) {
      here := t[b + here.val + Lo(r'.hold, here.op)];
      r' := Drop(r', here.bits);
    }
  }

  lemma DropTwice(r: Regs, root: nat, e: Entry, n: nat)
    requires n <= 15 <= r.bits && (if IsLink(e) then e.bits == root <= n else e.bits == n)
    ensures e.bits <= r.bits && Drop(r, e.bits).hold == Hi(r.hold, e.bits)
    ensures n - e.bits <= Drop(r, e.bits).bits && Drop(Drop(r, e.bits), n - e.bits) == Drop(r, n)
  {
    hide Hi;
    if IsLink(e) { HiHi(r.hold, e.bits, n - e.bits); } else { HiHi(r.hold, n, 0); }
    HiZero(Hi(r.hold, n));
  }

  // ----- one step each -----

  ghost predicate Spent(r: Regs, next: seq<Byte>, r': Regs, rest: seq<Byte>, used: nat) {
    r'.hold < Pow2(r'.bits) && r'.bits + 8 * |rest| + used == r.bits + 8 * |next| && |rest| <= |next|
  }

  /** One step of the machine that uses up some of the bits; those left may be any number. */
  ghost predicate Quick(r: Regs, ph: Phase, next: seq<Byte>, r': Regs, ph': Phase, rest: seq<Byte>, used: nat,
      out: seq<Byte>, w: Window) {
    && Valid(Conf(r, ph, next, out)) && Spent(r, next, r', rest, used)
    && Virtual(r'.hold, r'.bits, rest) == Hi(Virtual(r.hold, r.bits, next), used)
    && Next(Conf(r, ph, next, out), w) == Some(Conf(r', ph', rest, out))
  }

  /** The length code; op and val are those of its entry. */
  method FastLength(r: Regs, next: seq<Byte>, t: seq<Entry>, b: nat, root: nat, ghost lit: seq<nat>,
      ghost dist: seq<nat>, ghost out: seq<Byte>, ghost w: Window)
    returns (r': Regs, rest: seq<Byte>, ghost used: nat)
    requires Valid(Conf(r, Coded(lit, dist, Sub.Len), next, out)) && r.hold < Pow2(r.bits)
    requires Decodes(t, b, root, Lens, lit) && r.bits <= 30 && (r.bits < 15 ==> |next| >= 2)
    ensures 1 <= used <= 15 && r'.mode in {LIT, LENEXT, TYPE, BAD} && r'.bits <= 30
    ensures Spent(r, next, r', rest, used)
    ensures Quick(r, Coded(lit, dist, Sub.Len), next, r', CodedPhase(r', lit, dist), rest, used, out, w)
    ensures |next| <= |rest| + (if r.bits < 15 then 2 else 0)
    ensures used == Decode(Lens, lit, Virtual(r.hold, r.bits, next)).bits
  {
    hide Pow2, Hi, Lo, Virtual, Next, Decode, Decodes, HasBit, InflateTable.BadLengths, ValidSub;
    ghost var d := Decode(Lens, lit, Virtual(r.hold, r.bits, next));
    DecodedOperation(Lens, lit, Virtual(r.hold, r.bits, next));
    var r1, here;
    r1, rest := TwoBytes(r, next);
    LenEnters(r, next, r1, rest, d, lit, dist, out, w);
    r', here := FastCode(r1, rest, t, b, root, Lens, lit);
    used := d.bits;
    r' := r'.(length := here.val);
    if here.op == 0 {
      r' := r'.(mode := LIT);
    } else if HasBit(here.op, 16) {
      r' := r'.(extra := here.op % 16, mode := LENEXT);
    } else if HasBit(here.op, 32) {
      r' := r'.(mode := TYPE);
    } else {
      r' := r'.(mode := BAD);
    }
    assert r' == LenEntry(r1, d);
  }

  /** One more byte, when fewer than n bits are held. */
  method OneByte(r: Regs, next: seq<Byte>, n: nat) returns (r': Regs, rest: seq<Byte>)
    requires r.hold < Pow2(r.bits) && r.bits <= 30 && n <= 13 && (r.bits < n ==> next != [])
    ensures Pulled(r, next, r', rest) && r'.bits <= 30 && r'.bits == (if r.bits < n then r.bits + 8 else r.bits)
  {
    hide Pow2, Virtual;
    r', rest := r, next;
    if r.bits < n {
      r', rest := PullByte(r', rest);
    }
  }

  lemma ExtraBound(c: Config)
    requires Valid(c) && c.phase.Coded?
    ensures c.phase.sub.LenExt? ==> c.phase.sub.extra <= 5
    ensures c.phase.sub.DistExt? ==> c.phase.sub.extra <= 13
  {
    hide Pow2, InflateTable.BadLengths;
  }

  /** The extra bits of a length. */
  method FastLenExtra(r: Regs, next: seq<Byte>, ghost lit: seq<nat>, ghost dist: seq<nat>, ghost out: seq<Byte>,
      ghost w: Window)
    returns (r': Regs, rest: seq<Byte>, ghost used: nat)
    requires r.mode == LENEXT && Valid(Conf(r, Coded(lit, dist, SubOf(r)), next, out)) && r.hold < Pow2(r.bits)
    requires r.bits <= 30 && (r.bits < 5 ==> next != [])
    ensures used <= 5 && r'.mode == DIST && r'.bits <= 30 && |next| <= |rest| + 1
    ensures Spent(r, next, r', rest, used)
    ensures Quick(r, Coded(lit, dist, SubOf(r)), next, r', CodedPhase(r', lit, dist), rest, used, out, w)
  {
    hide Pow2, Hi, Lo, Virtual, Next, Valid;
    ExtraBound(Conf(r, Coded(lit, dist, SubOf(r)), next, out));
    var r1;
    r1, rest := OneByte(r, next, r.extra);
    LenExtEnters(r, next, r1, rest, lit, dist, out, w);
    r', used := LenExtEntry(r1), r.extra;
  }

  /** The distance code. */
  method FastDistance(r: Regs, next: seq<Byte>, t: seq<Entry>, b: nat, root: nat, ghost lit: seq<nat>,
      ghost dist: seq<nat>, ghost out: seq<Byte>, ghost w: Window)
    returns (r': Regs, rest: seq<Byte>, ghost used: nat)
    requires Valid(Conf(r, Coded(lit, dist, Sub.Dist(r.length)), next, out)) && r.hold < Pow2(r.bits)
    requires Decodes(t, b, root, Dists, dist) && r.bits <= 30 && (r.bits < 15 ==> |next| >= 2)
    ensures 1 <= used <= 15 && r'.mode in {DISTEXT, BAD} && r'.bits <= 30 && |next| <= |rest| + 2
    ensures Spent(r, next, r', rest, used)
    ensures Quick(r, Coded(lit, dist, Sub.Dist(r.length)), next, r', CodedPhase(r', lit, dist), rest, used, out, w)
  {
    hide Pow2, Hi, Lo, Virtual, Next, Decode, Decodes, HasBit, InflateTable.BadLengths, ValidSub;
    ghost var d := Decode(Dists, dist, Virtual(r.hold, r.bits, next));
    DecodedOperation(Dists, dist, Virtual(r.hold, r.bits, next));
    var r1, here;
    r1, rest := TwoBytes(r, next);
    DistEnters(r, next, r1, rest, d, lit, dist, out, w);
    r', here := FastCode(r1, rest, t, b, root, Dists, dist);
    used := d.bits;
    if HasBit(here.op, 16) {
      r' := r'.(offset := here.val, extra := here.op % 16, mode := DISTEXT);
    } else {
      r' := r'.(mode := BAD);
    }
    assert r' == DistEntry(r1, d);
  }

  /** The extra bits of a distance: up to two more bytes. */
  method FastDistExtra(r: Regs, next: seq<Byte>, ghost lit: seq<nat>, ghost dist: seq<nat>, ghost out: seq<Byte>,
      ghost w: Window)
    returns (r': Regs, rest: seq<Byte>, ghost used: nat)
    requires r.mode == DISTEXT && Valid(Conf(r, Coded(lit, dist, SubOf(r)), next, out)) && r.hold < Pow2(r.bits)
    requires r.bits <= 30 && (r.bits < 13 ==> |next| >= 1) && (r.bits < 5 ==> |next| >= 2)
    ensures used <= 13 && r'.mode == MATCH && r'.bits <= 30
    ensures |next| <= |rest| + (if r.bits < 5 then 2 else if r.bits < 13 then 1 else 0)
    ensures Spent(r, next, r', rest, used)
    ensures Quick(r, Coded(lit, dist, SubOf(r)), next, r', CodedPhase(r', lit, dist), rest, used, out, w)
  {
    hide Pow2, Hi, Lo, Virtual, Next, Valid;
    ExtraBound(Conf(r, Coded(lit, dist, SubOf(r)), next, out));
    var r1;
    r1, rest := OneByte(r, next, r.extra);
    if r1.bits < r.extra {
      ghost var r2, rest2 := r1, rest;
      r1, rest := OneByte(r1, rest, r.extra);
      PulledTwice(r, next, r2, rest2, r1, rest);
    }
    DistExtEnters(r, next, r1, rest, lit, dist, out, w);
    r', used := DistExtEntry(r1), r.extra;
  }

  // ----- copying a whole match -----

  lemma {:induction false} MatchOutAppend(out: seq<Byte>, offset: nat, a: nat, b: nat)
    requires 1 <= offset <= |out|
    ensures MatchOut(MatchOut(out, offset, a), offset, b) == MatchOut(out, offset, a + b)
  {
    if b > 0 { MatchOutAppend(out, offset, a, b - 1); }
  }

  /** From the output of this call, three bytes at a time. */
  method CopyThrees(ghost hist: seq<Byte>, buf: array<Byte>, put: nat, offset: nat, n: nat)
    requires 1 <= offset <= put && put + n <= buf.Length
    modifies buf
    ensures hist + buf[..put + n] == MatchOut(hist + old(buf[..put]), offset, n)
  {
    hide MatchOut;
    ghost var out := hist + buf[..put];
    MatchOutStep(out, offset, 0);
    var len: nat, at: nat := n, put;
    while len > 2
      invariant put <= at <= buf.Length && at + len == put + n
      invariant hist + buf[..at] == MatchOut(out, offset, at - put)
      decreases len
    {
      CopyByte(hist, out, buf, put, at, offset);
      CopyByte(hist, out, buf, put, at + 1, offset);
      CopyByte(hist, out, buf, put, at + 2, offset);
      at, len := at + 3, len - 3;
    }
    if len > 0 {
      CopyByte(hist, out, buf, put, at, offset);
      if len > 1 { CopyByte(hist, out, buf, put, at + 1, offset); }
    }
  }

  /** PUP(out) = PUP(from) */
  method CopyByte(ghost hist: seq<Byte>, ghost out: seq<Byte>, buf: array<Byte>, ghost put: nat, at: nat, offset: nat)
    requires 1 <= offset <= put <= at < buf.Length && offset <= |out|
      && hist + buf[..at] == MatchOut(out, offset, at - put)
    modifies buf
    ensures hist + buf[..at + 1] == MatchOut(out, offset, at + 1 - put)
  {
    ghost var sofar := hist + buf[..at];
    assert sofar[|sofar| - offset] == buf[at - offset];
    buf[at] := buf[at - offset];
    assert hist + buf[..at + 1] == sofar + [buf[at]];
  }

  /** Where in the window the bytes from d back lie, up to the wrap. */
  lemma WindowAt(win: SlidingWindow, d: nat, from: nat, run: nat)
    requires win.Valid() && 1 <= d <= win.whave && run <= d
    requires if d <= win.wnext then from == win.wnext - d else from == win.wsize + win.wnext - d && run <= d - win.wnext
    ensures d <= |win.hist| && from + run <= win.window.Length
    ensures win.window[from..from + run] == win.hist[|win.hist| - d..][..run]
  {
    var a, b := win.window[from..from + run], win.hist[|win.hist| - d..][..run];
    forall i | 0 <= i < |a|
      ensures a[i] == b[i]
    {
      assert Back(win.wsize, win.wnext, d - i) == from + i;
      assert win.window[..][from + i] == win.hist[|win.hist| - (d - i)];
    }
  }

  /** Part of a match from the window at `from`, dist - put back. */
  method CopyPart(win: SlidingWindow, ghost out: seq<Byte>, buf: array<Byte>, ghost put: nat, at: nat, dist: nat,
      from: nat, n: nat)
    requires win.Valid() && buf != win.window && put <= at < dist && dist - at <= win.whave && at + n <= buf.Length
      && n <= dist - at
    requires if dist - at <= win.wnext then from == win.wnext - (dist - at)
             else from == win.wsize + win.wnext - (dist - at) && n <= dist - at - win.wnext
    requires 1 <= dist <= |out| && win.hist + buf[..at] == MatchOut(out, dist, at - put)
    modifies buf
    ensures win.hist + buf[..at + n] == MatchOut(out, dist, at + n - put)
  {
    hide SlidingWindow.Valid, MatchOut;
    WindowAt(win, dist - at, from, n);
    CopyFromWindow(win, buf, at, dist, from, n, n);
    MatchOutAppend(out, dist, at - put, n);
  }

  /** The rest of a match from the output. */
  method CopyRest(ghost hist: seq<Byte>, ghost out: seq<Byte>, buf: array<Byte>, ghost put: nat, at: nat, dist: nat,
      n: nat)
    requires 1 <= dist <= at && put <= at && at + n <= buf.Length && dist <= |out|
    requires hist + buf[..at] == MatchOut(out, dist, at - put)
    modifies buf
    ensures hist + buf[..at + n] == MatchOut(out, dist, at + n - put)
  {
    hide MatchOut;
    CopyThrees(hist, buf, at, dist, n);
    MatchOutAppend(out, dist, at - put, n);
  }

  /** The last op bytes of the window, in a row at `from`, as far as the match goes, and the rest from the output. */
  method PartThenRest(win: SlidingWindow, ghost out: seq<Byte>, buf: array<Byte>, ghost put: nat, at: nat, dist: nat,
      from: nat, op: nat, len: nat)
    requires win.Valid() && buf != win.window && put <= at && at + len <= buf.Length
    requires dist - at == op && 0 < op <= win.whave
    requires if op <= win.wnext then from == win.wnext - op else from == win.wsize - op && win.wnext == 0
    requires 1 <= dist <= |out| && win.hist + buf[..at] == MatchOut(out, dist, at - put)
    modifies buf
    ensures win.hist + buf[..at + len] == MatchOut(out, dist, at + len - put)
  {
    hide SlidingWindow.Valid, MatchOut;
    if op < len {
      CopyPart(win, out, buf, put, at, dist, from, op);
      CopyRest(win.hist, out, buf, put, at + op, dist, len - op);
    } else {
      CopyPart(win, out, buf, put, at, dist, from, len);
    }
  }

  /** Copy a whole match: the cases of a window that starts at its index 0, wraps, or is contiguous. */
  method FastCopy(win: SlidingWindow, buf: array<Byte>, put: nat, length: nat, dist: nat)
    requires win.Valid() && buf != win.window && put + length <= buf.Length && 1 <= dist <= put + win.whave
    modifies buf
    ensures dist <= |win.hist| + put
    ensures win.hist + buf[..put + length] == MatchOut(win.hist + old(buf[..put]), dist, length)
  {
    hide SlidingWindow.Valid, MatchOut;
    WindowSizes(win);
    ghost var out := win.hist + buf[..put];
    MatchOutStep(out, dist, 0);
    if dist <= put {
      CopyRest(win.hist, out, buf, put, put, dist, length);
      return;
    }
    var op := dist - put;
    if win.wnext == 0 {
      PartThenRest(win, out, buf, put, put, dist, win.wsize - op, op, length);
    } else if win.wnext < op {
      var from := win.wsize + win.wnext - op;
      op := op - win.wnext;
      if op < length {
        CopyPart(win, out, buf, put, put, dist, from, op);
        PartThenRest(win, out, buf, put, put + op, dist, 0, win.wnext, length - op);
      } else {
        CopyPart(win, out, buf, put, put, dist, from, length);
      }
    } else {
      PartThenRest(win, out, buf, put, put, dist, win.wnext - op, op, length);
    }
  }

  lemma WindowSizes(win: SlidingWindow)
    requires win.Valid()
    ensures win.whave <= win.wsize && win.whave <= |win.hist|
    ensures win.whave > 0 ==> win.wnext < win.wsize == win.window.Length
    ensures win.whave < win.wsize ==> win.wnext == win.whave
  {
  }

  // ----- one round of the loop -----

  /** c' is where c comes to after using up some bits. */
  ghost predicate Went(c: Config, c': Config, used: nat, w: Window, limit: nat) {
    && Valid(c) && Valid(c') && RunTo(c, w, limit) == RunTo(c', w, limit)
    && c'.n + used == c.n && c'.v == Hi(c.v, used)
  }

  lemma QuickWent(r: Regs, ph: Phase, next: seq<Byte>, r': Regs, ph': Phase, rest: seq<Byte>, used: nat, out: seq<Byte>,
      w: Window, limit: nat)
    requires Quick(r, ph, next, r', ph', rest, used, out, w) && !NeedsRoom(ph)
    ensures Went(Conf(r, ph, next, out), Conf(r', ph', rest, out), used, w, limit) && Valid(Conf(r', ph', rest, out))
  {
    hide Next, Valid, RunTo, Virtual, Hi, Pow2;
    InflateRun.StepIsGood(Conf(r, ph, next, out), w);
    RunStep(Conf(r, ph, next, out), w, limit);
  }

  lemma WentTwice(c: Config, c1: Config, c2: Config, a: nat, b: nat, w: Window, limit: nat)
    requires Went(c, c1, a, w, limit) && Went(c1, c2, b, w, limit)
    ensures Went(c, c2, a + b, w, limit)
  {
    hide Valid, RunTo, Hi;
    HiHi(c.v, a, b);
  }

  /** The machine copies the whole match. */
  lemma MatchWent(r: Regs, lit: seq<nat>, dist: seq<nat>, next: seq<Byte>, out: seq<Byte>, w: Window, limit: nat)
    requires r.mode == MATCH && Valid(Conf(r, Coded(lit, dist, SubOf(r)), next, out))
    requires 1 <= r.offset <= |out| && |out| + r.length <= limit
    requires !TooFar(Conf(r, Coded(lit, dist, SubOf(r)), next, out), w, r.offset)
    ensures Went(Conf(r, Coded(lit, dist, SubOf(r)), next, out),
                 Conf(r.(mode := LEN), Coded(lit, dist, Sub.Len), next, MatchOut(out, r.offset, r.length)), 0, w, limit)
  {
    hide Pow2, Virtual, RunTo, Valid, Hi, TooFar, MatchOut;
    HiZero(Virtual(r.hold, r.bits, next));
    MatchRun(Conf(r, Coded(lit, dist, SubOf(r)), next, out), w, limit, r.length);
  }

  lemma MatchTooFar(r: Regs, lit: seq<nat>, dist: seq<nat>, next: seq<Byte>, out: seq<Byte>, w: Window, limit: nat)
    requires r.mode == MATCH && Valid(Conf(r, Coded(lit, dist, SubOf(r)), next, out)) && |out| < limit
    requires TooFar(Conf(r, Coded(lit, dist, SubOf(r)), next, out), w, r.offset)
    ensures Went(Conf(r, Coded(lit, dist, SubOf(r)), next, out), Conf(r.(mode := BAD), Phase.Bad, next, out), 0, w,
      limit)
  {
    hide Pow2, Virtual, RunTo, Next, Valid, Hi, TooFar, MatchOut;
    HiZero(Virtual(r.hold, r.bits, next));
    var c := Conf(r, Coded(lit, dist, SubOf(r)), next, out);
    MatchStep(c, w);
    InflateRun.StepIsGood(c, w);
    RunStep(c, w, limit);
  }

  lemma LitWent(r: Regs, lit: seq<nat>, dist: seq<nat>, next: seq<Byte>, out: seq<Byte>, w: Window, limit: nat)
    requires r.mode == LIT && r.length < 256 && Valid(Conf(r, Coded(lit, dist, SubOf(r)), next, out)) && |out| < limit
    ensures Went(Conf(r, Coded(lit, dist, SubOf(r)), next, out),
                 Conf(r.(mode := LEN), Coded(lit, dist, Sub.Len), next, out + [r.length]), 0, w, limit)
  {
    hide Pow2, Virtual, RunTo, Next, Valid, Hi;
    HiZero(Virtual(r.hold, r.bits, next));
    var c := Conf(r, Coded(lit, dist, SubOf(r)), next, out);
    LitNext(c, w);
    InflateRun.StepIsGood(c, w);
    RunStep(c, w, limit);
  }

  /** A literal, the end of the block, an error, or a whole match: at most 48 bits and six bytes. */
  method FastSymbol(r: Regs, next: seq<Byte>, l: Links, lt: seq<Entry>, dt: seq<Entry>, ghost k: CodesInUse,
      ghost out: seq<Byte>, ghost w: Window, ghost limit: nat)
    returns (r': Regs, rest: seq<Byte>, ghost used: nat)
    requires Valid(Conf(r, Coded(k.lit, k.dist, Sub.Len), next, out)) && r.hold < Pow2(r.bits) && r.bits <= 30
      && |next| >= 6
    requires |k.lit| <= 288 && Decodes(lt, l.lenAt, l.lenbits, Lens, k.lit)
    requires |k.dist| <= 32 && Decodes(dt, l.distAt, l.distbits, Dists, k.dist)
    ensures r'.mode in {LIT, MATCH, TYPE, BAD} && r'.bits <= 30 && r'.hold < Pow2(r'.bits)
      && |rest| <= |next| <= |rest| + 6
    ensures Decode(Lens, k.lit, Virtual(r.hold, r.bits, next)).bits <= used <= 48
    ensures 0 < used && r'.bits + 8 * |rest| + used == r.bits + 8 * |next|
    ensures Went(Conf(r, Coded(k.lit, k.dist, Sub.Len), next, out), Conf(r', CodedPhase(r', k.lit, k.dist), rest, out),
      used, w, limit)
  {
    hide Pow2, Hi, Lo, Virtual, Next, Decode, Decodes, Went, Valid, Conf, ValidPhase, InflateTable.BadLengths, Quick;
    ghost var c := Conf(r, Coded(k.lit, k.dist, Sub.Len), next, out);
    r', rest, used := FastLength(r, next, lt, l.lenAt, l.lenbits, k.lit, k.dist, out, w);
    QuickWent(r, Coded(k.lit, k.dist, Sub.Len), next, r', CodedPhase(r', k.lit, k.dist), rest, used, out, w, limit);
    if r'.mode != LENEXT { return; }
    ghost var r1, next1, u;
    r1, next1 := r', rest;
    r', rest, u := FastLenExtra(r', rest, k.lit, k.dist, out, w);
    More(c, r1, next1, r', rest, k, used, u, out, w, limit);
    used := used + u;
    r1, next1 := r', rest;
    r', rest, u := FastDistance(r', rest, dt, l.distAt, l.distbits, k.lit, k.dist, out, w);
    More(c, r1, next1, r', rest, k, used, u, out, w, limit);
    used := used + u;
    if r'.mode != DISTEXT { return; }
    r1, next1 := r', rest;
    r', rest, u := FastDistExtra(r', rest, k.lit, k.dist, out, w);
    More(c, r1, next1, r', rest, k, used, u, out, w, limit);
    used := used + u;
  }

  lemma More(c: Config, r: Regs, next: seq<Byte>, r': Regs, rest: seq<Byte>, k: CodesInUse, used: nat, u: nat,
      out: seq<Byte>, w: Window, limit: nat)
    requires r.mode in {LENEXT, DIST, DISTEXT}
      && Went(c, Conf(r, Coded(k.lit, k.dist, SubOf(r)), next, out), used, w, limit)
    requires Quick(r, Coded(k.lit, k.dist, SubOf(r)), next, r', CodedPhase(r', k.lit, k.dist), rest, u, out, w)
    ensures Went(c, Conf(r', CodedPhase(r', k.lit, k.dist), rest, out), used + u, w, limit)
    ensures Valid(Conf(r', CodedPhase(r', k.lit, k.dist), rest, out))
  {
    hide Quick, Next, Valid, Conf, RunTo, Hi;
    var ph, ph' := Coded(k.lit, k.dist, SubOf(r)), CodedPhase(r', k.lit, k.dist);
    QuickWent(r, ph, next, r', ph', rest, u, out, w, limit);
    WentTwice(c, Conf(r, ph, next, out), Conf(r', ph', rest, out), used, u, w, limit);
  }

  lemma SubFacts(r: Regs, lit: seq<nat>, dist: seq<nat>, next: seq<Byte>, out: seq<Byte>)
    requires Valid(Conf(r, Coded(lit, dist, SubOf(r)), next, out))
    ensures r.mode == LIT ==> r.length < 256
    ensures r.mode == MATCH ==> 1 <= r.length <= 258 && 1 <= r.offset
  {
    hide Virtual, Pow2, InflateTable.BadLengths;
  }

  /** Write a literal or a whole match. */
  method FastWrite(r: Regs, ghost next: seq<Byte>, win: SlidingWindow, buf: array<Byte>, put: nat, ghost k: CodesInUse,
      ghost w: Window)
    returns (r': Regs, put': nat)
    requires InCall(win, buf, put, w) && put + 258 <= buf.Length && r.mode in {LIT, MATCH}
    requires Valid(Conf(r, Coded(k.lit, k.dist, SubOf(r)), next, win.hist + buf[..put]))
    modifies buf
    ensures r' == r.(mode := r'.mode) && r'.mode in {LEN, BAD} && put <= put' <= put + 258
    ensures Went(old(Conf(r, Coded(k.lit, k.dist, SubOf(r)), next, win.hist + buf[..put])),
                 Conf(r', CodedPhase(r', k.lit, k.dist), next, win.hist + buf[..put']), 0, w, |win.hist| + buf.Length)
  {
    hide Pow2, Went, Valid, Conf, InCall, TooFar, MatchOut;
    CallFacts(win, buf, put, w);
    ghost var out, limit := win.hist + buf[..put], |win.hist| + buf.Length;
    SubFacts(r, k.lit, k.dist, next, out);
    if r.mode == LIT {
      buf[put], put' := r.length, put + 1;
      r' := r.(mode := LEN);
      LitWent(r, k.lit, k.dist, next, out, w, limit);
      assert win.hist + buf[..put'] == out + [r.length];
    } else {
      ConfFields(r, Coded(k.lit, k.dist, SubOf(r)), next, out);
      TooFarTest(Conf(r, Coded(k.lit, k.dist, SubOf(r)), next, out), win, buf, put, w, r.offset);
      if r.offset > put && r.offset - put > win.whave {
        r', put' := r.(mode := BAD), put;
        MatchTooFar(r, k.lit, k.dist, next, out, w, limit);
      } else {
        FastCopy(win, buf, put, r.length, r.offset);
        r', put' := r.(mode := LEN), put + r.length;
        MatchWent(r, k.lit, k.dist, next, out, w, limit);
      }
    }
  }

  /** One round of the do loop: at most 48 bits and six bytes in, at most 258 bytes out. */
  method FastRound(r: Regs, next: seq<Byte>, l: Links, lt: seq<Entry>, dt: seq<Entry>, win: SlidingWindow,
      buf: array<Byte>, put: nat, ghost k: CodesInUse, ghost w: Window)
    returns (r': Regs, rest: seq<Byte>, put': nat, ghost used: nat)
    requires InCall(win, buf, put, w) && put + 258 <= buf.Length
    requires Valid(Conf(r, Coded(k.lit, k.dist, Sub.Len), next, win.hist + buf[..put])) && r.hold < Pow2(r.bits)
      && r.bits <= 30 && |next| >= 6
    requires |k.lit| <= 288 && Decodes(lt, l.lenAt, l.lenbits, Lens, k.lit)
    requires |k.dist| <= 32 && Decodes(dt, l.distAt, l.distbits, Dists, k.dist)
    modifies buf
    ensures r'.mode in {LEN, TYPE, BAD} && r'.bits <= 30 && r'.hold < Pow2(r'.bits) && |rest| <= |next| <= |rest| + 6
    ensures put <= put' <= put + 258 && Decode(Lens, k.lit, Virtual(r.hold, r.bits, next)).bits <= used <= 48
    ensures 0 < used && r'.bits + 8 * |rest| + used == r.bits + 8 * |next|
    ensures Went(old(Conf(r, Coded(k.lit, k.dist, Sub.Len), next, win.hist + buf[..put])),
                 Conf(r', CodedPhase(r', k.lit, k.dist), rest, win.hist + buf[..put']), used, w,
                   |win.hist| + buf.Length)
  {
    hide Pow2, Virtual, Decode, Decodes, Went, Valid, Conf, ValidPhase, InCall;
    CallFacts(win, buf, put, w);
    ghost var out, limit := win.hist + buf[..put], |win.hist| + buf.Length;
    r', rest, used := FastSymbol(r, next, l, lt, dt, k, out, w, limit);
    put' := put;
    if r'.mode in {LIT, MATCH} {
      ghost var c, c1 := Conf(r, Coded(k.lit, k.dist, Sub.Len), next, out),
        Conf(r', CodedPhase(r', k.lit, k.dist), rest, out);
      WentValid(c, c1, used, w, limit);
      r', put' := FastWrite(r', rest, win, buf, put, k, w);
      WentTwice(c, c1, Conf(r', CodedPhase(r', k.lit, k.dist), rest, win.hist + buf[..put']), used, 0, w, limit);
    }
  }

  lemma WentValid(c: Config, c': Config, used: nat, w: Window, limit: nat)
    requires Went(c, c', used, w, limit)
    ensures Valid(c') && c'.n + used == c.n && c'.v == Hi(c.v, used)
  {
    hide Valid, Hi, RunTo;
  }

  // ----- the loop -----

  /** On entry, though more than a byte may be held, the first code uses all of it. */
  lemma EntryBits(r: Regs, lit: seq<nat>, dist: seq<nat>, next: seq<Byte>, out: seq<Byte>, w: Window)
    requires Sound(r, Coded(lit, dist, Sub.Len))
    ensures Valid(Conf(r, Coded(lit, dist, Sub.Len), next, out)) && r.bits <= 14
    ensures r.bits < 8 || r.bits <= Decode(Lens, lit, Virtual(r.hold, r.bits, next)).bits
  {
    hide Pow2, Hi, Virtual, Next, Decode, InflateTable.BadLengths, Tight;
    var ph := Coded(lit, dist, Sub.Len);
    SoundConf(r, ph, next, out);
    LenNext(Config(r.last, ph, r.hold, r.bits, []), w);
    HeldFew(r, ph, w);
    HeldDecodes(Lens, lit, r.hold, r.bits, next);
    DecodedOperation(Lens, lit, r.hold);
  }

  lemma ValTail(next: seq<Byte>, p: nat)
    requires p <= |next|
    ensures Hi(Val(next), 8 * p) == Val(next[p..])
  {
    hide Val, Hi, Lo, Shl;
    assert next == next[..p] + next[p..];
    ValAppend(next[..p], next[p..]);
    Join(Val(next[p..]), Val(next[..p]), 8 * p);
  }

  /** Returning whole unused bytes leaves the same stream of bits. */
  lemma PutBack(r: Regs, next: seq<Byte>, hold: nat, bits: nat, rest: seq<Byte>, used: nat)
    requires r.hold < Pow2(r.bits) && hold < Pow2(bits) && |rest| <= |next|
    requires Virtual(hold, bits, rest) == Hi(Virtual(r.hold, r.bits, next), used)
      && bits + 8 * |rest| + used == r.bits + 8 * |next|
    requires r.bits < 8 || r.bits <= used
    ensures bits / 8 <= |next| - |rest|
    ensures Lo(hold, bits % 8) < Pow2(bits % 8)
    ensures Virtual(Lo(hold, bits % 8), bits % 8, next[|next| - |rest| - bits / 8..]) == Virtual(hold, bits, rest)
  {
    hide Pow2, Val, Hi, Lo, Shl;
    var b, p := bits % 8, |next| - |rest| - bits / 8;
    var t, v := Virtual(r.hold, r.bits, next), Virtual(hold, bits, rest);
    assert used + b == r.bits + 8 * p && p >= 0;
    Join(Val(next), r.hold, r.bits);
    assert Hi(t, r.bits) == Val(next);
    HiHi(t, r.bits, 8 * p);
    ValTail(next, p);
    HiHi(t, used, b);
    assert Hi(v, b) == Val(next[p..]);
    TakeVirtual(hold, bits, rest, b);
    Split(v, b);
  }

  /** inflate_fast(): from LEN to LEN, TYPE or BAD, as the machine runs, with less than a byte held at the end. */
  method RunFast(r: Regs, next: seq<Byte>, l: Links, lt: seq<Entry>, dt: seq<Entry>, win: SlidingWindow,
      buf: array<Byte>, put: nat, ghost k: CodesInUse, ghost w: Window)
    returns (r': Regs, rest: seq<Byte>, put': nat, ghost used: nat)
    requires InCall(win, buf, put, w) && |next| >= 6 && put + 258 <= buf.Length
    requires Sound(r, Coded(k.lit, k.dist, Sub.Len))
    requires |k.lit| <= 288 && Decodes(lt, l.lenAt, l.lenbits, Lens, k.lit)
    requires |k.dist| <= 32 && Decodes(dt, l.distAt, l.distbits, Dists, k.dist)
    modifies buf
    ensures r'.mode in {LEN, TYPE, BAD} && r'.bits < 8 && r'.hold < Pow2(r'.bits) && put' <= buf.Length && 0 < used
    ensures Went(old(Conf(r, Coded(k.lit, k.dist, Sub.Len), next, win.hist + buf[..put])),
                 Conf(r', CodedPhase(r', k.lit, k.dist), rest, win.hist + buf[..put']), used, w,
                   |win.hist| + buf.Length)
  {
    hide Pow2, Virtual, Decode, Decodes, Went, Valid, Conf, ValidPhase, InCall, RunTo, Tight, CodedPhase, Lo,
      InflateTable.BadLengths, SlidingWindow.Valid;
    CallFacts(win, buf, put, w);
    ghost var limit, ph := |win.hist| + buf.Length, Coded(k.lit, k.dist, Sub.Len);
    ghost var c := Conf(r, ph, next, win.hist + buf[..put]);
    EntryBits(r, k.lit, k.dist, next, win.hist + buf[..put], w);
    r', rest, put', used := FastRound(r, next, l, lt, dt, win, buf, put, k, w);
    while r'.mode == LEN && |rest| > 5 && buf.Length - put' > 257
      invariant win.Valid() && put' <= buf.Length && buf != win.window
      invariant r'.mode in {LEN, TYPE, BAD} && r'.bits <= 30 && r'.hold < Pow2(r'.bits)
      invariant |rest| <= |next| && 0 < used && r'.bits + 8 * |rest| + used == r.bits + 8 * |next|
      invariant r.bits < 8 || r.bits <= used
      invariant Went(c, Conf(r', CodedPhase(r', k.lit, k.dist), rest, win.hist + buf[..put']), used, w, limit)
      decreases r'.bits + 8 * |rest|
    {
      ghost var c1, u := Conf(r', CodedPhase(r', k.lit, k.dist), rest, win.hist + buf[..put']), 0;
      WentValid(c, c1, used, w, limit);
      InLen(r', k.lit, k.dist);
      InCallAgain(win, buf, put', w);
      r', rest, put', u := FastRound(r', rest, l, lt, dt, win, buf, put', k, w);
      WentTwice(c, c1, Conf(r', CodedPhase(r', k.lit, k.dist), rest, win.hist + buf[..put']), used, u, w, limit);
      used := used + u;
    }
    r', rest := ReturnBytes(r, next, r', rest, k, win.hist + old(buf[..put]), win.hist + buf[..put'], used, w, limit);
  }

  /** Return unused bytes: the configuration stays, with less than a byte held. */
  method ReturnBytes(r: Regs, next: seq<Byte>, r1: Regs, rest1: seq<Byte>, ghost k: CodesInUse, ghost out: seq<Byte>,
      ghost out1: seq<Byte>, ghost used: nat, ghost w: Window, ghost limit: nat)
    returns (r': Regs, rest: seq<Byte>)
    requires r.hold < Pow2(r.bits) && r1.hold < Pow2(r1.bits) && |rest1| <= |next|
    requires r1.bits + 8 * |rest1| + used == r.bits + 8 * |next| && (r.bits < 8 || r.bits <= used)
    requires Went(Conf(r, Coded(k.lit, k.dist, Sub.Len), next, out),
      Conf(r1, CodedPhase(r1, k.lit, k.dist), rest1, out1), used, w, limit)
    ensures r' == r1.(hold := r'.hold, bits := r'.bits) && r'.bits < 8 && r'.hold < Pow2(r'.bits)
    ensures Conf(r', CodedPhase(r', k.lit, k.dist), rest, out1) == Conf(r1, CodedPhase(r1, k.lit, k.dist), rest1, out1)
  {
    hide Pow2, Virtual, Went, Valid, Conf, CodedPhase, Lo;
    ghost var ph, ph1 := Coded(k.lit, k.dist, Sub.Len), CodedPhase(r1, k.lit, k.dist);
    SameStream(Conf(r, ph, next, out), r, ph, next, out, r1, ph1, rest1, out1, used, w, limit);
    PutBack(r, next, r1.hold, r1.bits, rest1, used);
    var len := r1.bits / 8;
    rest := next[|next| - |rest1| - len..];
    r' := r1.(hold := Lo(r1.hold, r1.bits % 8), bits := r1.bits % 8);
    SameConf(r1, ph1, rest1, r', rest, out1);
    SamePhase(r1, r', k.lit, k.dist);
  }

  lemma InLen(r: Regs, lit: seq<nat>, dist: seq<nat>)
    requires r.mode == LEN
    ensures CodedPhase(r, lit, dist) == Coded(lit, dist, Sub.Len)
  {
  }

  lemma SamePhase(r: Regs, r': Regs, lit: seq<nat>, dist: seq<nat>)
    requires r' == r.(hold := r'.hold, bits := r'.bits)
    ensures CodedPhase(r, lit, dist) == CodedPhase(r', lit, dist)
  {
  }

  lemma SameStream(c: Config, r: Regs, ph: Phase, next: seq<Byte>, out: seq<Byte>, r': Regs, ph': Phase,
      rest: seq<Byte>, out': seq<Byte>, used: nat, w: Window, limit: nat)
    requires c == Conf(r, ph, next, out) && Went(c, Conf(r', ph', rest, out'), used, w, limit)
    ensures Virtual(r'.hold, r'.bits, rest) == Hi(Virtual(r.hold, r.bits, next), used)
    ensures Valid(Conf(r', ph', rest, out'))
  {
    hide Virtual, Hi, Valid, RunTo;
  }

  lemma SameConf(r: Regs, ph: Phase, next: seq<Byte>, r': Regs, rest: seq<Byte>, out: seq<Byte>)
    requires r'.last == r.last && r'.bits == r.bits % 8 && |rest| == |next| + r.bits / 8
    requires Virtual(r'.hold, r'.bits, rest) == Virtual(r.hold, r.bits, next)
    ensures Conf(r', ph, rest, out) == Conf(r, ph, next, out)
  {
    hide Virtual;
  }

  /** The phase of a valid configuration, for a state with few bits. */
  lemma ConfPhaseValid(r: Regs, ph: Phase, next: seq<Byte>, out: seq<Byte>)
    requires Valid(Conf(r, ph, next, out))
    ensures ValidPhase(ph)
  {
    hide Virtual, Pow2, ValidPhase;
  }

  lemma InCallAgain(win: SlidingWindow, buf: array<Byte>, put: nat, w: Window)
    requires win.Valid() && put <= buf.Length && buf != win.window && w == Window(|win.hist|, Pow2(win.wbits))
    ensures InCall(win, buf, put, w)
  {
    hide SlidingWindow.Valid, Pow2;
  }
}
