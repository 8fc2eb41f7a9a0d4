/** inflate(): the loop over the modes, and what a call computes. */
module Inflate {
  import opened Bits
  import opened DecodeTable
  import opened Bytes
  import opened InflateSpec
  import opened InflateSchedule
  import opened InflateWindow
  import opened InflateState
  import opened InflateSteps
  import opened InflateCopy
  import opened InflateOutput
  import opened InflateFast
  import opened InflateLengths
  import opened InflateCases
  import InflateRun
  import InflateTable

  /** The modes that only mark the first time in. */
  function Settled(m: Mode): Mode {
    match m
    case HEAD => TYPEDO
    case TYPE => TYPEDO
    case COPYFIRST => COPY
    case LENFIRST => LEN
    case CHECK => DONE
    case _ => m
  }

  lemma Settles(r: Regs, l: Links, k: CodesInUse, m: Arrays, next: seq<Byte>, out: seq<Byte>)
    requires Good(r, l, k, m)
    ensures var r' := r.(mode := Settled(r.mode));
      Good(r', l, k, m) && ConfOf(r', k, m, next, out) == ConfOf(r, k, m, next, out)
  {
    hide Decodes, InflateTable.Root, InflateRun.FixedTables, Tight, Pow2, Virtual, ValidPhase;
  }

  /** Facts that the cases inside a block of codes rely on. */
  lemma CodedFacts(r: Regs, l: Links, k: CodesInUse, m: Arrays)
    requires Good(r, l, k, m) && InCodes(r.mode)
    ensures Fits(r, m.lens) && |k.lit| <= 288 && Decodes(LenTable(l, m), l.lenAt, l.lenbits, Lens, k.lit)
    ensures |k.dist| <= 32 && Decodes(DistTable(l, m), l.distAt, l.distbits, Dists, k.dist)
    ensures PhaseOf(r, k, m.lens) == Coded(k.lit, k.dist, SubOf(r)) && Sound(r, Coded(k.lit, k.dist, SubOf(r)))
  {
    hide Decodes, InflateTable.Root, InflateRun.FixedTables, Sound;
  }

  lemma StayGood(r: Regs, r': Regs, l: Links, k: CodesInUse, m: Arrays)
    requires Good(r, l, k, m) && InCodes(r.mode) && r'.mode in {LEN, MATCH, LIT, TYPE, BAD}
    requires Sound(r', CodedPhase(r', k.lit, k.dist))
    ensures Good(r', l, k, m) && Fits(r', m.lens) && PhaseOf(r', k, m.lens) == CodedPhase(r', k.lit, k.dist)
  {
    hide Decodes, InflateTable.Root, InflateRun.FixedTables, Sound;
  }

  /** LEN by inflate_fast */
  method FastCase(r: Regs, l: Links, next: seq<Byte>, lt: seq<Entry>, dt: seq<Entry>, win: SlidingWindow,
      buf: array<Byte>, put: nat, ghost k: CodesInUse, ghost m: Arrays, ghost w: Window)
    returns (r': Regs, rest: seq<Byte>, put': nat)
    requires Good(r, l, k, m) && r.mode == LEN && InCall(win, buf, put, w) && |next| >= 6 && buf.Length - put >= 258
    requires lt == LenTable(l, m) && dt == DistTable(l, m)
    modifies buf
    ensures Good(r', l, k, m) && put' <= buf.Length
    ensures Ran(old(ConfOf(r, k, m, next, win.hist + buf[..put])), ConfOf(r', k, m, rest, win.hist + buf[..put']),
      false, w, |win.hist| + buf.Length)
  {
    hide Good, InCall, Went, Sound, Decodes, Ran, Virtual, Pow2, RunTo, Next, Valid, Conf;
    ghost var used;
    CodedFacts(r, l, k, m);
    CallFacts(win, buf, put, w);
    ghost var out := win.hist + buf[..put];
    r', rest, put', used := RunFast(r, next, l, lt, dt, win, buf, put, k, w);
    ghost var c := Conf(r, PhaseOf(r, k, m.lens), next, out);
    ghost var c' := Conf(r', CodedPhase(r', k.lit, k.dist), rest, win.hist + buf[..put']);
    WentValid(c, c', used, w, |win.hist| + buf.Length);
    ConfPhaseValid(r', CodedPhase(r', k.lit, k.dist), rest, win.hist + buf[..put']);
    FewBits(r', CodedPhase(r', k.lit, k.dist));
    StayGood(r, r', l, k, m);
    WentRan(c, c', used, w, |win.hist| + buf.Length);
  }

  lemma WentRan(c: Config, c': Config, used: nat, w: Window, limit: nat)
    requires Went(c, c', used, w, limit) && used > 0
    ensures Ran(c, c', false, w, limit)
  {
    hide Valid, RunTo, Hi;
  }

  /** MATCH and LIT */
  method WriteCase(r: Regs, l: Links, next: seq<Byte>, win: SlidingWindow, buf: array<Byte>, put: nat,
      ghost k: CodesInUse, ghost m: Arrays, ghost w: Window)
    returns (r': Regs, put': nat, leave: bool)
    requires Good(r, l, k, m) && r.mode in {MATCH, LIT} && InCall(win, buf, put, w)
    modifies buf
    ensures Good(r', l, k, m) && put' <= buf.Length && (leave ==> put' == buf.Length)
    ensures Ran(old(ConfOf(r, k, m, next, win.hist + buf[..put])), ConfOf(r', k, m, next, win.hist + buf[..put']),
      leave, w, |win.hist| + buf.Length)
  {
    hide Good, InCall, Sound, Decodes, Ran, Virtual, Pow2, RunTo, Next, Valid, Conf;
    CodedFacts(r, l, k, m);
    CallFacts(win, buf, put, w);
    if r.mode == LIT {
      r', put', leave := LitCase(r, next, win.hist, buf, put, k.lit, k.dist, w);
    } else {
      r', put', leave := MatchCase(r, next, win, buf, put, k.lit, k.dist, w);
    }
    StayGood(r, r', l, k, m);
  }

  lemma CopyFacts(r: Regs, l: Links, k: CodesInUse, m: Arrays)
    requires Good(r, l, k, m) && r.mode == COPY
    ensures Fits(r, m.lens) && r.bits == 0 && PhaseOf(r, k, m.lens) == CopyPhase(r) && Sound(r, CopyPhase(r))
  {
    hide Decodes, InflateTable.Root, InflateRun.FixedTables, Sound;
  }

  lemma CopyGood(r: Regs, r': Regs, l: Links, k: CodesInUse, m: Arrays)
    requires Good(r, l, k, m) && r.mode == COPY && r'.mode in {COPY, TYPE} && r'.bits == 0 && Sound(r', CopyPhase(r'))
    ensures Good(r', l, k, m) && Fits(r', m.lens) && PhaseOf(r', k, m.lens) == CopyPhase(r')
  {
    hide Decodes, InflateTable.Root, InflateRun.FixedTables, Sound;
  }

  /** COPY */
  method StoredCase(r: Regs, l: Links, next: seq<Byte>, ghost hist: seq<Byte>, buf: array<Byte>, put: nat,
      ghost k: CodesInUse, ghost m: Arrays, ghost w: Window)
    returns (r': Regs, rest: seq<Byte>, put': nat, leave: bool)
    requires Good(r, l, k, m) && r.mode == COPY && put <= buf.Length
    modifies buf
    ensures Good(r', l, k, m) && put' <= buf.Length && (leave ==> rest == [] || put' == buf.Length)
    ensures Ran(old(ConfOf(r, k, m, next, hist + buf[..put])), ConfOf(r', k, m, rest, hist + buf[..put']), leave, w,
      |hist| + buf.Length)
  {
    hide Good, Sound, Decodes, Ran, Virtual, Pow2, RunTo, Next, Valid, Conf;
    CopyFacts(r, l, k, m);
    r', rest, put', leave := CopyCase(r, next, hist, buf, put, w);
    CopyGood(r, r', l, k, m);
  }

  // ----- the switch -----

  /** The modes whose cases only read. */
  predicate Reads(m: Mode) {
    m in {TYPEDO, STORED, TABLE, LENLENS, CODELENS, LEN, LENEXT, DIST, DISTEXT}
  }

  method ReadCase(s: State, next: seq<Byte>, ghost out: seq<Byte>, ghost w: Window)
    returns (rest: seq<Byte>, leave: bool)
    requires s.Valid() && Reads(s.r.mode)
    modifies s`r, s`l, s`k, s.lens, s.codes
    ensures s.Valid() && Moved(old(s.Abs(next, out)), s.Abs(rest, out), leave, w) && (leave ==> rest == [])
  {
    hide Good, Moved, PhaseOf, Conf, ConfOf, Fits;
    GoodFits(s.r, s.l, s.k, s.Arr());
    var r, l;
    ghost var k := s.k;
    if s.r.mode in {TYPEDO, STORED, TABLE} {
      r, l, rest, leave := HeaderCase(s.r, s.l, next, s.k, s.Arr(), out, w);
      k := CodesAfter(r, s.k);
    } else if s.r.mode == LENLENS {
      r, l, k, rest, leave := LenLensCase(s.r, s.l, next, s.lens, s.codes, s.k, s.fixed[..], out, w);
    } else if s.r.mode == CODELENS {
      r, l, k, rest, leave := CodeLensCase(s.r, s.l, next, s.lens, s.codes,
        if s.l.lenFixed then s.fixed[..] else s.codes[..], s.k, s.fixed[..], out, w);
    } else {
      l := s.l;
      r, rest, leave := CodedCase(s.r, s.l, next, if l.lenFixed then s.fixed[..] else s.codes[..],
        if l.distFixed then s.fixed[..] else s.codes[..], s.k, s.Arr(), out, w);
    }
    s.r, s.l := r, l;
    s.k := k;
    GoodFits(s.r, s.l, s.k, s.Arr());
  }

  lemma GoodFits(r: Regs, l: Links, k: CodesInUse, m: Arrays)
    requires Good(r, l, k, m)
    ensures Fits(r, m.lens)
  {
    hide HasTables, Sound, PhaseOf;
  }

  /** Nothing more to decode. */
  predicate Over(m: Mode) {
    m in {CHECK, DONE, BAD}
  }

  /** What holds between calls; the window is no longer kept up once decoding is over. */
  ghost predicate Ready(s: State)
    reads s, s.lens, s.codes, s.fixed, s.win, s.win.window
  {
    s.Valid() && s.win.Valid() && (Over(s.r.mode) || s.total == s.win.hist)
  }

  /** The caller's buffer is none of the state's arrays. */
  ghost predicate Apart(s: State, buf: array<Byte>) {
    buf as object !in {s.lens as object, s.codes as object, s.fixed as object, s.win.window as object}
  }

  ghost predicate During(s: State, buf: array<Byte>, put: nat, w: Window)
    reads s, s.lens, s.codes, s.fixed, s.win, s.win.window
  {
    Ready(s) && Apart(s, buf) && put <= buf.Length && w == Window(|s.total|, Pow2(s.win.wbits))
  }

  /** The output cases, and LEN with enough input and space. */
  method OutputCase(s: State, next: seq<Byte>, buf: array<Byte>, put: nat, ghost w: Window)
    returns (rest: seq<Byte>, put': nat, leave: bool)
    requires During(s, buf, put, w) && s.r.mode in {LEN, COPY, MATCH, LIT}
    requires s.r.mode == LEN ==> |next| >= 6 && buf.Length - put >= 258
    modifies s`r, buf
    ensures During(s, buf, put', w) && (leave ==> rest == [] || put' == buf.Length)
    ensures Ran(old(s.Abs(next, s.total + buf[..put])), s.Abs(rest, s.total + buf[..put']), leave, w,
      |s.total| + buf.Length)
  {
    hide Good, Ran, PhaseOf, Conf, ConfOf, Fits, SlidingWindow.Valid;
    GoodFits(s.r, s.l, s.k, s.Arr());
    InCallAgain(s.win, buf, put, w);
    hide InCall;
    var r;
    if s.r.mode == LEN {
      leave := false;
      r, rest, put' := FastCase(s.r, s.l, next, if s.l.lenFixed then s.fixed[..] else s.codes[..],
        if s.l.distFixed then s.fixed[..] else s.codes[..], s.win, buf, put, s.k, s.Arr(), w);
    } else if s.r.mode == COPY {
      r, rest, put', leave := StoredCase(s.r, s.l, next, s.total, buf, put, s.k, s.Arr(), w);
    } else {
      rest := next;
      r, put', leave := WriteCase(s.r, s.l, next, s.win, buf, put, s.k, s.Arr(), w);
    }
    s.r := r;
    GoodFits(s.r, s.l, s.k, s.Arr());
  }

  lemma ReadsNoRoom(r: Regs, k: CodesInUse, lens: seq<nat>)
    requires Fits(r, lens) && Reads(r.mode)
    ensures !NeedsRoom(PhaseOf(r, k, lens))
  {
  }

  lemma OverStops(r: Regs, l: Links, k: CodesInUse, m: Arrays, next: seq<Byte>, out: seq<Byte>, w: Window, limit: nat)
    requires Good(r, l, k, m) && r.mode in {DONE, BAD}
    ensures Ran(ConfOf(r, k, m, next, out), ConfOf(r, k, m, next, out), true, w, limit)
  {
    hide HasTables, Tight, RunTo, Valid, Virtual, Pow2;
    SoundConf(r, PhaseOf(r, k, m.lens), next, out);
    InflateRun.DoneStep(ConfOf(r, k, m, next, out), w);
    RunStops(ConfOf(r, k, m, next, out), w, limit);
  }

  /** One round of the loop over the modes. */
  method Step(s: State, next: seq<Byte>, buf: array<Byte>, put: nat, ghost w: Window)
    returns (rest: seq<Byte>, put': nat, leave: bool)
    requires During(s, buf, put, w)
    modifies s`r, s`l, s`k, s.lens, s.codes, buf
    ensures During(s, buf, put', w) && (leave ==> rest == [] || put' == buf.Length || Over(s.r.mode))
    ensures Ran(old(s.Abs(next, s.total + buf[..put])), s.Abs(rest, s.total + buf[..put']), leave, w,
      |s.total| + buf.Length)
  {
    hide Good, Ran, PhaseOf, Conf, ConfOf, Fits, SlidingWindow.Valid, Moved;
    GoodFits(s.r, s.l, s.k, s.Arr());
    ghost var out, limit := s.total + buf[..put], |s.total| + buf.Length;
    Settles(s.r, s.l, s.k, s.Arr(), next, out);
    s.r := s.r.(mode := Settled(s.r.mode));
    GoodFits(s.r, s.l, s.k, s.Arr());
    if s.r.mode in {DONE, BAD} {
      rest, put', leave := next, put, true;
      OverStops(s.r, s.l, s.k, s.Arr(), next, out, w, limit);
    } else if s.r.mode in {COPY, MATCH, LIT} || (s.r.mode == LEN && |next| >= 6 && buf.Length - put >= 258) {
      rest, put', leave := OutputCase(s, next, buf, put, w);
    } else {
      put' := put;
      ghost var c := s.Abs(next, out);
      ReadsNoRoom(s.r, s.k, s.Arr().lens);
      AbsRoom(s.r, s.k, s.Arr(), next, out, limit);
      rest, leave := ReadCase(s, next, out, w);
      assert buf[..put] == old(buf[..put]);
      GoodFits(s.r, s.l, s.k, s.Arr());
      MovedRan(c, s.Abs(rest, out), leave, w, limit);
    }
  }

  lemma AbsRoom(r: Regs, k: CodesInUse, m: Arrays, next: seq<Byte>, out: seq<Byte>, limit: nat)
    requires Fits(r, m.lens) && !NeedsRoom(PhaseOf(r, k, m.lens))
    ensures HasSpace(ConfOf(r, k, m, next, out), limit)
  {
    hide Virtual, PhaseOf;
  }

  // ----- a call -----

  const Z_OK := 0
  const Z_STREAM_END := 1
  const Z_DATA_ERROR := -3
  const Z_BUF_ERROR := -5

  lemma AbsValid(r: Regs, l: Links, k: CodesInUse, m: Arrays, next: seq<Byte>, out: seq<Byte>)
    requires Good(r, l, k, m)
    ensures Valid(ConfOf(r, k, m, next, out))
    ensures (ConfOf(r, k, m, next, out).phase == Phase.Done <==> r.mode in {CHECK, DONE})
    ensures (ConfOf(r, k, m, next, out).phase == Phase.Bad <==> r.mode == BAD)
  {
    hide HasTables, Tight, Valid, Virtual, Pow2;
    SoundConf(r, PhaseOf(r, k, m.lens), next, out);
  }

  /** Fresh input after the unread input is fed to the machine. */
  lemma AbsFeed(r: Regs, ph: Phase, unread: seq<Byte>, added: seq<Byte>, out: seq<Byte>)
    ensures FeedBytes(Conf(r, ph, unread, out), added) == Conf(r, ph, unread + added, out)
  {
    hide Val;
    ValAppend(unread, added);
    ShlAdd(Val(unread), Shl(Val(added), 8 * |unread|), r.bits);
    ShlShl(Val(added), 8 * |unread|, r.bits);
  }

  /** c' is what one call makes of c. */
  ghost predicate Called(c: Config, c': Config, p: Piece, size: nat) {
    Valid(c) && c' == Call(c, p, size)
  }

  /** Where a call with room bytes of space stops. */
  ghost function Goal(c: Config, room: nat, size: nat): Config
    requires Valid(c)
  {
    RunTo(c, Window(|c.out|, size), |c.out| + room)
  }

  lemma RunIsCall(c: Config, added: seq<Byte>, room: nat, size: nat)
    requires Valid(c)
    ensures Valid(FeedBytes(c, added))
    ensures Called(c, Goal(FeedBytes(c, added), room, size), Piece(added, room), size)
  {
    hide Valid, Val, Shl;
    FeedValid(c, Val(added), 8 * |added|);
  }

  lemma AbsCall(r: Regs, l: Links, k: CodesInUse, m: Arrays, unread: seq<Byte>, added: seq<Byte>, out: seq<Byte>,
      room: nat, size: nat)
    requires Good(r, l, k, m)
    ensures Fits(r, m.lens) && Valid(ConfOf(r, k, m, unread + added, out))
    ensures Called(ConfOf(r, k, m, unread, out), Goal(ConfOf(r, k, m, unread + added, out), room, size),
      Piece(added, room), size)
    ensures ConfOf(r, k, m, unread + added, out).out == out
  {
    hide Good, Fits, Valid, Conf, Goal, PhaseOf, Called, FeedBytes;
    GoodFits(r, l, k, m);
    AbsValid(r, l, k, m, unread, out);
    AbsFeed(r, PhaseOf(r, k, m.lens), unread, added, out);
    ConfFields(r, PhaseOf(r, k, m.lens), unread, out);
    var c, c1 := ConfOf(r, k, m, unread, out), ConfOf(r, k, m, unread + added, out);
    ConfFields(r, PhaseOf(r, k, m.lens), unread + added, out);
    assert c1 == FeedBytes(c, added) && c.out == c1.out == out;
    hide ConfOf;
    RunIsCall(c, added, room, size);
    assert Valid(c1);
  }

  lemma NoneHeld(r: Regs, ph: Phase, next: seq<Byte>, out: seq<Byte>)
    requires r.bits == 0 && r.hold < Pow2(r.bits)
    ensures var c := Conf(r, ph, next, out); c.n == 8 * |next| && c.v == Val(next)
  {
    hide Val;
    ShlZero(Val(next));
  }

  lemma HeldAtEnd(r: Regs, l: Links, k: CodesInUse, m: Arrays)
    requires Good(r, l, k, m) && r.mode in {CHECK, DONE}
    ensures r.bits == 0 && r.hold < Pow2(r.bits)
  {
    hide Tight, Decodes, InflateTable.Root, InflateRun.FixedTables, Pow2, ValidPhase;
  }

  /** At the end of the stream no bits are held: what is left of the stream is the unread input. */
  lemma EndsOnByte(r: Regs, l: Links, k: CodesInUse, m: Arrays, next: seq<Byte>, out: seq<Byte>)
    requires Good(r, l, k, m) && Fits(r, m.lens)
    ensures var c := ConfOf(r, k, m, next, out); r.mode in {CHECK, DONE} ==> c.n == 8 * |next| && c.v == Val(next)
  {
    hide Good, PhaseOf, Conf, Val, Fits, Pow2;
    if r.mode in {CHECK, DONE} {
      HeldAtEnd(r, l, k, m);
      NoneHeld(r, PhaseOf(r, k, m.lens), next, out);
    }
  }

  /** What inflate() returns, from where the machine stopped and whether the call made progress. */
  function ReturnCode(phase: Phase, progress: bool, finish: bool): int {
    if phase == Phase.Done then Z_STREAM_END
    else if phase == Phase.Bad then Z_DATA_ERROR
    else if !progress || finish then Z_BUF_ERROR
    else Z_OK
  }

  /**
    inflate(): next starts with the input the previous call left unread. The state and the rest
    of the input then stand for the machine run on the fresh input until it lacks input or space.
   */
  method Inflate(s: State, next: seq<Byte>, buf: array<Byte>, finish: bool, ghost unread: seq<Byte>)
    returns (rest: seq<Byte>, put: nat, ret: int)
    requires Ready(s) && Apart(s, buf) && unread <= next
    modifies s`r, s`l, s`k, s`total, s.lens, s.codes, buf
    modifies s.win`wsize, s.win`whave, s.win`wnext, s.win`hist, s.win.window
    ensures Ready(s) && put <= buf.Length && s.total == old(s.total) + buf[..put]
    ensures Called(old(s.Abs(unread, s.total)), s.Abs(rest, s.total), Piece(next[|unread|..], buf.Length),
      Pow2(s.win.wbits))
    ensures ret == ReturnCode(s.Abs(rest, s.total).phase, |rest| != |next| || put != 0, finish)
    ensures put < buf.Length && !Over(s.r.mode) ==> rest == []
    ensures ret == Z_STREAM_END ==> s.Abs(rest, s.total).n == 8 * |rest| && s.Abs(rest, s.total).v == Val(rest)
  {
    hide Good, PhaseOf, Conf, ConfOf, Fits, SlidingWindow.Valid, RunTo, Rank, Valid, Called, Pow2;
    GoodFits(s.r, s.l, s.k, s.Arr());
    ghost var size, limit := Pow2(s.win.wbits), |s.total| + buf.Length;
    ghost var w := Window(|s.total|, size);
    AbsCall(s.r, s.l, s.k, s.Arr(), unread, next[|unread|..], s.total, buf.Length, size);
    assert next == unread + next[|unread|..];
    ghost var goal := Goal(s.Abs(next, s.total), buf.Length, size);
    rest, put := next, 0;
    assert s.total + buf[..put] == s.total;
    var leave := false;
    while !leave
      invariant During(s, buf, put, w) && Fits(s.r, s.Arr().lens) && s.total == old(s.total)
      invariant Valid(s.Abs(rest, s.total + buf[..put])) && RunTo(s.Abs(rest, s.total + buf[..put]), w, limit) == goal
      invariant leave ==> s.Abs(rest, s.total + buf[..put]) == goal
      invariant leave ==> rest == [] || put == buf.Length || Over(s.r.mode)
      decreases if leave then 0 else 1, s.Abs(rest, s.total + buf[..put]).n,
        Rank(s.Abs(rest, s.total + buf[..put]).phase)
    {
      rest, put, leave := Step(s, rest, buf, put, w);
      GoodFits(s.r, s.l, s.k, s.Arr());
    }
    AbsValid(s.r, s.l, s.k, s.Arr(), rest, s.total + buf[..put]);
    EndsOnByte(s.r, s.l, s.k, s.Arr(), rest, s.total + buf[..put]);
    ghost var r := s.r;
    if s.win.wsize != 0 || (!Over(s.r.mode) && put != 0) {
      s.win.Update(buf, put);
    }
    s.total := s.total + buf[..put];
    ret := if s.r.mode in {CHECK, DONE} then Z_STREAM_END else if s.r.mode == BAD then Z_DATA_ERROR else Z_OK;
    if ((|rest| == |next| && put == 0) || finish) && ret == Z_OK {
      ret := Z_BUF_ERROR;
    }
  }
}
