/** Whole runs of inflate(): any cutting of input and output space into calls. */
module InflateSession {
  import opened Bits
  import opened DecodeTable
  import opened Bytes
  import opened InflateSpec
  import opened InflateSchedule
  import opened InflateWindow
  import opened InflateState
  import opened Inflate
  import InflateRun

  /** c is where the calls ps lead, from a fresh state. */
  ghost predicate Reached(c: Config, ps: seq<Piece>, size: nat) {
    Valid(INIT) && c == Play(INIT, ps, size)
  }

  lemma InitValid()
    ensures Valid(INIT)
  {
  }

  lemma ReachNone(size: nat)
    ensures Reached(INIT, [], size)
  {
    InitValid();
    hide Valid;
  }

  lemma ReachMore(c: Config, c': Config, ps: seq<Piece>, p: Piece, size: nat)
    requires Reached(c, ps, size) && Called(c, c', p, size)
    ensures Reached(c', ps + [p], size)
  {
    hide Valid, Call;
    assert (ps + [p])[..|ps|] == ps;
  }

  lemma ReachedOut(c: Config, ps: seq<Piece>, size: nat)
    requires Reached(c, ps, size)
    ensures Valid(INIT) && c.out == Play(INIT, ps, size).out && c.out <= OneShot(INIT, AllInput(ps), size).out
  {
    hide Valid, Play, OneShot, AllInput;
    OutputIsPrefix(INIT, ps, size);
  }

  lemma AbsOut(r: Regs, k: CodesInUse, m: Arrays, next: seq<Byte>, out: seq<Byte>)
    requires Fits(r, m.lens)
    ensures ConfOf(r, k, m, next, out).out == out
  {
    hide PhaseOf, Virtual;
  }

  /** With the full window, a last call that did not fill its space has decoded all there is to decode. */
  lemma Completes(ps: seq<Piece>, out: seq<Byte>, before: nat)
    requires Valid(INIT) && ps != [] && out == Play(INIT, ps, Pow2(15)).out
    requires before == |Play(INIT, ps[..|ps| - 1], Pow2(15)).out| && |out| < before + ps[|ps| - 1].room
    ensures out == OneShot(INIT, AllInput(ps), Pow2(15)).out
  {
    hide Valid, Play, OneShot, AllInput, INIT;
    assert Pow2(15) == 32768;
    ScheduleComplete(INIT, ps, Pow2(15));
  }

  /**
    Calls inflate() once per piece, handing back the unread input each time; out is all the output,
    unread the input after the stream if it has ended, and spare the space the last call left.
   */
  method Session(wbits: nat, ps: seq<Piece>) returns (out: seq<Byte>, unread: seq<Byte>, spare: nat)
    ensures Valid(INIT) && out == Play(INIT, ps, Pow2(wbits)).out
    ensures out <= OneShot(INIT, AllInput(ps), Pow2(wbits)).out
    ensures wbits == 15 && spare > 0 ==> out == OneShot(INIT, AllInput(ps), Pow2(wbits)).out
    ensures AtEnd(Play(INIT, ps, Pow2(wbits)), unread)
    ensures ps != [] ==> spare + |out| == |Play(INIT, ps[..|ps| - 1], Pow2(wbits)).out| + ps[|ps| - 1].room
  {
    hide Good, Fits, ConfOf, SlidingWindow.Valid, Reached, Called, Play, OneShot, AllInput, Pow2, INIT, Valid;
    ghost var size := Pow2(wbits);
    var s := new State(wbits);
    out, unread, spare := [], [], 0;
    ghost var before: nat := 0;
    ReachNone(size);
    StartAtEnd();
    GoodFits(s.r, s.l, s.k, s.Arr());
    for i := 0 to |ps|
      invariant Ready(s) && s.total == out && s.win.wbits == wbits
      invariant fresh(s) && fresh(s.lens) && fresh(s.codes) && fresh(s.win) && fresh(s.win.window)
      invariant Fits(s.r, s.Arr().lens) && Reached(s.Abs(unread, s.total), ps[..i], size)
      invariant AtEnd(s.Abs(unread, s.total), unread)
      invariant i == 0 ==> spare == 0
      invariant i > 0 ==> spare + |out| == before + ps[i - 1].room && OutputOf(ps[..i - 1], size, before)
    {
      var buf := new Byte[ps[i].room];
      ghost var c := s.Abs(unread, s.total);
      ReachedOut(c, ps[..i], size);
      AbsOut(s.r, s.k, s.Arr(), unread, s.total);
      before := |out|;
      var last, put, ret := unread, 0, 0;
      unread, put, ret := Inflate.Inflate(s, last + ps[i].input, buf, false, last);
      GoodFits(s.r, s.l, s.k, s.Arr());
      out, spare := out + buf[..put], ps[i].room - put;
      assert ps[..i + 1] == ps[..i] + [ps[i]];
      ReachMore(c, s.Abs(unread, s.total), ps[..i], Piece(ps[i].input, ps[i].room), size);
    }
    assert ps[..|ps|] == ps;
    ReachedOut(s.Abs(unread, s.total), ps, size);
    AbsOut(s.r, s.k, s.Arr(), unread, s.total);
    ReachedEnd(s.Abs(unread, s.total), ps, size, unread);
    if wbits == 15 && spare > 0 { Completes(ps, out, before); }
  }

  ghost predicate OutputOf(ps: seq<Piece>, size: nat, n: nat) {
    Valid(INIT) && n == |Play(INIT, ps, size).out|
  }

  /** If the stream has ended, what is left of it is the unread input. */
  ghost predicate AtEnd(c: Config, unread: seq<Byte>) {
    c.phase == Phase.Done ==> c.n == 8 * |unread| && c.v == Val(unread)
  }

  lemma StartAtEnd()
    ensures AtEnd(INIT, [])
  {
  }

  lemma ReachedEnd(c: Config, ps: seq<Piece>, size: nat, unread: seq<Byte>)
    requires Reached(c, ps, size) && AtEnd(c, unread)
    ensures Valid(INIT) && AtEnd(Play(INIT, ps, size), unread)
  {
    hide Valid, Play, AtEnd;
  }
}
