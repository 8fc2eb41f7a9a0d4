/** The cases of inflate()'s switch that write output. */
module InflateOutput {
  import opened Bits
  import opened DecodeTable
  import opened Bytes
  import opened InflateSpec
  import opened InflateSchedule
  import opened InflateWindow
  import opened InflateState
  import opened InflateSteps
  import opened InflateCopy
  import opened InflateCases
  import InflateRun
  import InflateTable

  /** c' is further along the run of c; when leaving, the run ends there. */
  ghost predicate Ran(c: Config, c': Config, leave: bool, w: Window, limit: nat) {
    && Valid(c) && Valid(c') && RunTo(c, w, limit) == RunTo(c', w, limit)
    && if leave then RunTo(c, w, limit) == c' else c'.n < c.n || (c'.n == c.n && Rank(c'.phase) < Rank(c.phase))
  }

  lemma MovedRan(c: Config, c': Config, leave: bool, w: Window, limit: nat)
    requires Moved(c, c', leave, w) && HasSpace(c, limit)
    ensures Ran(c, c', leave, w, limit)
  {
    hide Next, Valid, HasSpace, RunTo, Rank;
    InflateRun.StepIsGood(c, w);
    if leave {
      RunStops(c, w, limit);
    } else {
      RunStep(c, w, limit);
    }
  }

  lemma FullRan(c: Config, w: Window, limit: nat)
    requires Valid(c) && !HasSpace(c, limit)
    ensures Ran(c, c, true, w, limit)
  {
    hide Next, Valid, HasSpace, RunTo, Rank;
    RunStops(c, w, limit);
  }

  // ----- stored bytes -----

  /** Copying is on a byte boundary with nothing held. */
  lemma CopyConf(r: Regs, next: seq<Byte>, out: seq<Byte>)
    requires r.bits == 0 && r.hold < Pow2(0)
    ensures Conf(r, Phase.Copy(r.length), next, out) == Config(r.last, Phase.Copy(r.length), Val(next), 8 * |next|, out)
  {
    hide Val;
  }

  lemma CopyEnds(r: Regs, next: seq<Byte>, out: seq<Byte>, w: Window)
    requires r.bits == 0 && Sound(r, Phase.Copy(r.length))
    ensures Valid(Conf(r, Phase.Copy(r.length), next, out))
    ensures r.length == 0 ==>
      Next(Conf(r, Phase.Copy(r.length), next, out), w) ==
        Some(Conf(r, Phase.Copy(r.length), next, out).(phase := Block))
    ensures r.length > 0 && next == [] ==> Next(Conf(r, Phase.Copy(r.length), next, out), w).None?
  {
    hide Val, Tight, Lo, Hi;
    SoundConf(r, Phase.Copy(r.length), next, out);
  }

  lemma FewBits(r: Regs, ph: Phase)
    requires r.hold < Pow2(r.bits) && r.bits < 8 && ValidPhase(ph)
    ensures Sound(r, ph)
  {
    hide ValidPhase, Next, Pow2;
  }

  ghost function CopyPhase(r: Regs): Phase {
    if r.mode == TYPE then Block else Phase.Copy(r.length)
  }

  /** COPY */
  method CopyCase(r: Regs, next: seq<Byte>, ghost hist: seq<Byte>, buf: array<Byte>, put: nat, ghost w: Window)
    returns (r': Regs, rest: seq<Byte>, put': nat, leave: bool)
    requires r.mode == COPY && r.bits == 0 && Sound(r, Phase.Copy(r.length)) && put <= buf.Length
    modifies buf
    ensures r'.mode in {COPY, TYPE} && r'.bits == 0 && Sound(r', CopyPhase(r')) && put' <= buf.Length
    ensures leave ==> rest == [] || put' == buf.Length
    ensures Ran(old(Conf(r, Phase.Copy(r.length), next, hist + buf[..put])),
                Conf(r', CopyPhase(r'), rest, hist + buf[..put']), leave, w, |hist| + buf.Length)
  {
    hide Pow2, Virtual, Next, Tight, RunTo, Ran, Conf, Val, Valid;
    ghost var out, limit := hist + buf[..put], |hist| + buf.Length;
    ghost var c := Conf(r, Phase.Copy(r.length), next, out);
    var copy := r.length;
    r', rest, put', leave := r, next, put, false;
    FewBits(r, Block);
    CopyEnds(r, next, out, w);
    if copy == 0 {
      r' := r.(mode := TYPE);
      CopyDone(r, next, out, w, limit);
      return;
    }
    if copy > |next| { copy := |next|; }
    if copy > buf.Length - put { copy := buf.Length - put; }
    if copy == 0 {
      leave := true;
      CopyStuck(r, next, out, w, limit);
      return;
    }
    CopyStored(next, buf, put, copy);
    r', rest, put' := r.(length := r.length - copy), next[copy..], put + copy;
    FewBits(r', Phase.Copy(r'.length));
    assert hist + buf[..put'] == out + next[..copy];
    CopyMore(r, next, out, w, limit, copy);
  }

  lemma CopyDone(r: Regs, next: seq<Byte>, out: seq<Byte>, w: Window, limit: nat)
    requires r.bits == 0 && r.length == 0 && Sound(r, Phase.Copy(r.length))
    ensures Ran(Conf(r, Phase.Copy(r.length), next, out), Conf(r.(mode := TYPE), Block, next, out), false, w, limit)
  {
    hide Next, Valid, Sound, Virtual, RunTo, Ran;
    CopyEnds(r, next, out, w);
    var c := Conf(r, Phase.Copy(r.length), next, out);
    MovedRan(c, c.(phase := Block), false, w, limit);
  }

  lemma CopyStuck(r: Regs, next: seq<Byte>, out: seq<Byte>, w: Window, limit: nat)
    requires r.bits == 0 && r.length > 0 && Sound(r, Phase.Copy(r.length)) && (|out| >= limit || next == [])
    ensures var c := Conf(r, Phase.Copy(r.length), next, out); Ran(c, c, true, w, limit)
  {
    hide Next, Valid, RunTo, Sound, Virtual;
    CopyEnds(r, next, out, w);
    RunStops(Conf(r, Phase.Copy(r.length), next, out), w, limit);
  }

  lemma CopyMore(r: Regs, next: seq<Byte>, out: seq<Byte>, w: Window, limit: nat, n: nat)
    requires r.bits == 0 && Sound(r, Phase.Copy(r.length)) && 0 < n <= r.length && n <= |next| && |out| + n <= limit
    ensures Ran(Conf(r, Phase.Copy(r.length), next, out),
                Conf(r.(length := r.length - n), Phase.Copy(r.length - n), next[n..], out + next[..n]), false, w, limit)
  {
    hide Next, Valid, RunTo, Val, Tight, Conf;
    CopyConf(r, next, out);
    CopyConf(r.(length := r.length - n), next[n..], out + next[..n]);
    CopyRun(r.last, r.length, next, out, w, limit, n);
  }

  // ----- literals and matches -----

  /** LIT */
  method LitCase(r: Regs, next: seq<Byte>, ghost hist: seq<Byte>, buf: array<Byte>, put: nat, ghost lit: seq<nat>,
      ghost dist: seq<nat>, ghost w: Window)
    returns (r': Regs, put': nat, leave: bool)
    requires r.mode == LIT && Sound(r, Coded(lit, dist, SubOf(r))) && put <= buf.Length
    modifies buf
    ensures r'.mode in {LIT, LEN} && Sound(r', Coded(lit, dist, SubOf(r'))) && put' <= buf.Length
      && (leave ==> put' == buf.Length)
    ensures Ran(old(Conf(r, Coded(lit, dist, SubOf(r)), next, hist + buf[..put])),
                Conf(r', Coded(lit, dist, SubOf(r')), next, hist + buf[..put']), leave, w, |hist| + buf.Length)
  {
    hide Pow2, Virtual, Next, Tight, RunTo, Ran, Valid, InflateTable.BadLengths;
    ghost var ph, out, limit := Coded(lit, dist, Sub.Lit(r.length)), hist + buf[..put], |hist| + buf.Length;
    ghost var c := Conf(r, ph, next, out);
    SoundConf(r, ph, next, out);
    if put == buf.Length {
      FullRan(c, w, limit);
      return r, put, true;
    }
    LitNext(c, w);
    LitNext(Config(r.last, ph, r.hold, r.bits, []), w);
    HeldFew(r, ph, w);
    buf[put] := r.length;
    r', put', leave := r.(mode := LEN), put + 1, false;
    FewBits(r', Coded(lit, dist, Sub.Len));
    assert hist + buf[..put'] == out + [r.length];
    MovedRan(c, Conf(r', Coded(lit, dist, Sub.Len), next, hist + buf[..put']), false, w, limit);
  }

  lemma LitNext(c: Config, w: Window)
    requires c.phase.Coded? && c.phase.sub.Lit? && c.phase.sub.val < 256
    requires Valid(c)
    ensures Next(c, w) == Some(WithSub(c, Sub.Len).(out := c.out + [c.phase.sub.val]))
  {
    hide Pow2, Decode, InflateTable.BadLengths;
  }

  /** The output so far and the window, at some point of a call that started after hist. */
  ghost predicate InCall(win: SlidingWindow, buf: array<Byte>, put: nat, w: Window)
    reads win, win.window
  {
    win.Valid() && put <= buf.Length && buf != win.window && w == Window(|win.hist|, Pow2(win.wbits))
  }

  /** TooFar, as the code tests it. */
  lemma TooFarTest(c: Config, win: SlidingWindow, buf: array<Byte>, put: nat, w: Window, offset: nat)
    requires InCall(win, buf, put, w) && c.out == win.hist + buf[..put]
    ensures TooFar(c, w, offset) <==> offset > put && offset - put > win.whave
  {
    hide Holds, Pow2;
  }

  /** MATCH */
  method MatchCase(r: Regs, next: seq<Byte>, win: SlidingWindow, buf: array<Byte>, put: nat, ghost lit: seq<nat>,
      ghost dist: seq<nat>, ghost w: Window)
    returns (r': Regs, put': nat, leave: bool)
    requires r.mode == MATCH && Sound(r, Coded(lit, dist, SubOf(r))) && InCall(win, buf, put, w)
    modifies buf
    ensures r'.mode in {MATCH, LEN, BAD} && Sound(r', CodedPhase(r', lit, dist)) && put' <= buf.Length
      && (leave ==> put' == buf.Length)
    ensures Ran(old(Conf(r, Coded(lit, dist, SubOf(r)), next, win.hist + buf[..put])),
                Conf(r', CodedPhase(r', lit, dist), next, win.hist + buf[..put']), leave, w, |win.hist| + buf.Length)
  {
    hide Pow2, Virtual, Next, Tight, RunTo, Ran, Valid, InflateTable.BadLengths, TooFar, InCall, Sound, Conf, MatchOut;
    CallFacts(win, buf, put, w);
    ghost var out, limit := win.hist + buf[..put], |win.hist| + buf.Length;
    ghost var c := Conf(r, Coded(lit, dist, SubOf(r)), next, out);
    MatchFacts(r, lit, dist, next, out, limit, w);
    TooFarTest(c, win, buf, put, w, r.offset);
    if put == buf.Length {
      return r, put, true;
    }
    if r.offset > put && r.offset - put > win.whave {
      MatchBad(r, lit, dist, next, out, limit, w);
      return r.(mode := BAD), put, false;
    }
    var copy := CopyMatch(win, buf, put, r.length, r.offset);
    put', leave := put + copy, false;
    r' := r.(length := r.length - copy, mode := if r.length == copy then LEN else MATCH);
    MatchMore(r, lit, dist, next, out, limit, w, copy);
  }

  lemma CallFacts(win: SlidingWindow, buf: array<Byte>, put: nat, w: Window)
    requires InCall(win, buf, put, w)
    ensures win.Valid() && put <= buf.Length && buf != win.window && w == Window(|win.hist|, Pow2(win.wbits))
  {
    hide Holds, Pow2;
  }

  lemma MatchFacts(r: Regs, lit: seq<nat>, dist: seq<nat>, next: seq<Byte>, out: seq<Byte>, limit: nat, w: Window)
    requires r.mode == MATCH && Sound(r, Coded(lit, dist, SubOf(r))) && |out| <= limit
    ensures var c := Conf(r, Coded(lit, dist, SubOf(r)), next, out);
      1 <= r.length <= 258 && 1 <= r.offset && r.bits < 8 && c.out == out
        && (|out| == limit ==> Ran(c, c, true, w, limit))
  {
    hide Pow2, Virtual, Next, Tight, RunTo, Ran, Valid, InflateTable.BadLengths, TooFar;
    var ph := Coded(lit, dist, Sub.Match(r.length, r.offset));
    SoundConf(r, ph, next, out);
    HeldFew(r, ph, w);
    MatchStep(Config(r.last, ph, r.hold, r.bits, []), w);
    if |out| == limit { FullRan(Conf(r, ph, next, out), w, limit); }
  }

  lemma MatchBad(r: Regs, lit: seq<nat>, dist: seq<nat>, next: seq<Byte>, out: seq<Byte>, limit: nat, w: Window)
    requires r.mode == MATCH && Sound(r, Coded(lit, dist, SubOf(r))) && |out| < limit
    requires TooFar(Conf(r, Coded(lit, dist, SubOf(r)), next, out), w, r.offset)
    ensures Sound(r.(mode := BAD), Phase.Bad)
    ensures Ran(Conf(r, Coded(lit, dist, SubOf(r)), next, out), Conf(r.(mode := BAD), Phase.Bad, next, out), false, w,
      limit)
  {
    hide Pow2, Virtual, Next, RunTo, Ran, Valid, InflateTable.BadLengths, TooFar, Tight;
    var c := Conf(r, Coded(lit, dist, SubOf(r)), next, out);
    MatchFacts(r, lit, dist, next, out, limit, w);
    FewBits(r.(mode := BAD), Phase.Bad);
    SoundConf(r, Coded(lit, dist, SubOf(r)), next, out);
    MatchStep(c, w);
    MovedRan(c, c.(phase := Phase.Bad), false, w, limit);
  }

  lemma MatchMore(r: Regs, lit: seq<nat>, dist: seq<nat>, next: seq<Byte>, out: seq<Byte>, limit: nat, w: Window,
      n: nat)
    requires r.mode == MATCH && Sound(r, Coded(lit, dist, SubOf(r)))
    requires 1 <= n <= r.length && 1 <= r.offset <= |out| && |out| + n <= limit
    requires !TooFar(Conf(r, Coded(lit, dist, SubOf(r)), next, out), w, r.offset)
    ensures var r' := r.(length := r.length - n, mode := if r.length == n then LEN else MATCH);
      && Sound(r', Coded(lit, dist, SubOf(r')))
      && Ran(Conf(r, Coded(lit, dist, SubOf(r)), next, out),
             Conf(r', Coded(lit, dist, SubOf(r')), next, MatchOut(out, r.offset, n)), false, w, limit)
  {
    hide Pow2, Virtual, Next, RunTo, Valid, InflateTable.BadLengths, TooFar, MatchOut, Tight;
    var c := Conf(r, Coded(lit, dist, SubOf(r)), next, out);
    MatchFacts(r, lit, dist, next, out, limit, w);
    SoundConf(r, Coded(lit, dist, SubOf(r)), next, out);
    MatchRun(c, w, limit, n);
    var r' := r.(length := r.length - n, mode := if r.length == n then LEN else MATCH);
    FewBits(r', Coded(lit, dist, SubOf(r')));
  }
}
