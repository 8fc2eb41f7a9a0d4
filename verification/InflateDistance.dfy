/**
  When the output of a stream does not depend on how it is cut into calls: if no match reaches back further
  than the window.
 */
module InflateDistance {
  import opened Bits
  import opened Bytes
  import opened DecodeTable
  import opened InflateSpec
  import opened InflateSchedule
  import opened InflateCopy
  import opened InflateSmallWindow
  import InflateRun
  import InflateTable

  /** Not about to copy from further back than size. */
  predicate NearStep(c: Config, size: nat) {
    c.phase.Coded? && c.phase.sub.Match? && c.phase.sub.offset <= |c.out| ==> c.phase.sub.offset <= size
  }

  /** In the one-shot run from c no match copies from further back than size. */
  ghost predicate Near(c: Config, size: nat)
    requires Valid(c)
    decreases c.n, Rank(c.phase)
  {
    InflateRun.StepIsGood(c, Window(0, size));
    NearStep(c, size) && (Next(c, Window(0, size)).Some? ==> Near(Next(c, Window(0, size)).value, size))
  }

  /** Near enough, the start of the call does not matter. */
  lemma NextNear(c: Config, w: Window)
    requires Valid(c) && NearStep(c, w.size) && w.base <= |c.out|
    ensures Next(c, w) == Next(c, Window(0, w.size))
  {
    hide Decode, Lo, Hi, HasBit, BuildCodes, OneLength, Pow2, InflateTable.BadLengths;
  }

  lemma FeedNear(c: Config, x: nat, m: nat, size: nat)
    ensures NearStep(Feed(c, x, m), size) == NearStep(c, size) && Feed(c, x, m).out == c.out
  {
  }

  // ----- near streams -----

  /** Stopping anywhere in a near run and going on later ends where not stopping ends, and what is left is near. */
  lemma {:induction false} RunToNear(c: Config, w: Window, limit: nat, x: nat, m: nat)
    requires Valid(c) && x < Pow2(m) && m % 8 == 0 && w.base <= |c.out|
    requires Valid(Feed(c, x, m)) && Near(Feed(c, x, m), w.size)
    ensures var r := RunTo(c, w, limit);
      Valid(Feed(r, x, m)) && Near(Feed(r, x, m), w.size)
      && RunAll(Feed(r, x, m), Window(0, w.size)) == RunAll(Feed(c, x, m), Window(0, w.size))
    decreases c.n, Rank(c.phase)
  {
    hide Next, Valid, Feed, HasSpace, NearStep;
    var w0 := Window(0, w.size);
    FeedNear(c, x, m, w.size);
    if HasSpace(c, limit) && Next(c, w).Some? {
      NextNear(c, w);
      InflateRun.StepIsGood(c, w0);
      NextFeed(c, w0, x, m);
      var c1 := Next(c, w).value;
      FeedValid(c1, x, m);
      RunToNear(c1, w, limit, x, m);
    }
  }

  lemma CallNear(c: Config, p: Piece, size: nat, rest: seq<Byte>)
    requires Valid(c) && Valid(FeedBytes(c, p.input + rest)) && Near(FeedBytes(c, p.input + rest), size)
    ensures var r := Call(c, p, size);
      Valid(r) && Valid(FeedBytes(r, rest)) && Near(FeedBytes(r, rest), size)
        && OneShot(r, rest, size) == OneShot(c, p.input + rest, size)
  {
    hide Next, Valid, Feed, RunTo, RunAll, Near;
    var w, c1 := Window(|c.out|, size), FeedBytes(c, p.input);
    FeedValid(c, Val(p.input), 8 * |p.input|);
    var r := Call(c, p, size);
    FeedAppend(c, p.input, rest);
    FeedOut(c, p.input);
    RunToNear(c1, w, |c.out| + p.room, Val(rest), 8 * |rest|);
  }

  lemma {:induction false} PlayNear(c: Config, ps: seq<Piece>, size: nat, rest: seq<Byte>)
    requires Valid(c) && Valid(FeedBytes(c, AllInput(ps) + rest)) && Near(FeedBytes(c, AllInput(ps) + rest), size)
    ensures var r := Play(c, ps, size);
      Valid(FeedBytes(r, rest)) && Near(FeedBytes(r, rest), size)
        && OneShot(r, rest, size) == OneShot(c, AllInput(ps) + rest, size)
    decreases |ps|
  {
    hide OneShot, Call, Valid, Near, FeedBytes;
    if ps == [] {
      assert AllInput(ps) + rest == rest;
    } else {
      var p, ps' := ps[|ps| - 1], ps[..|ps| - 1];
      assert AllInput(ps') + (p.input + rest) == AllInput(ps) + rest;
      PlayNear(c, ps', size, p.input + rest);
      CallNear(Play(c, ps', size), p, size, rest);
    }
  }

  /** Near streams come out whole, however they are cut. */
  lemma NearComplete(ps: seq<Piece>, size: nat)
    requires Valid(INIT) && SpaceLeft(ps, size) && Valid(FeedBytes(INIT, AllInput(ps)))
      && Near(FeedBytes(INIT, AllInput(ps)), size)
    ensures Play(INIT, ps, size) == OneShot(INIT, AllInput(ps), size)
  {
    hide Call, Valid, Next, AllInput, INIT, FeedBytes, Feed;
    var r, before, p := Play(INIT, ps, size), Play(INIT, ps[..|ps| - 1], size), ps[|ps| - 1];
    assert AllInput(ps) + [] == AllInput(ps);
    PlayNear(INIT, ps, size, []);
    FeedNothing(r);
    CallStops(before, p, size);
    BaseBound(before, p, size);
    StopsNear(r, Window(|before.out|, size));
  }

  lemma StopsNear(r: Config, w: Window)
    requires Valid(r) && Near(r, w.size) && w.base <= |r.out| && Next(r, w).None?
    ensures OneShotHere(r, w.size)
  {
    hide Next, Valid;
    NextNear(r, w);
    FeedNothing(r);
  }

  ghost predicate OneShotHere(r: Config, size: nat)
    requires Valid(r)
  {
    OneShot(r, [], size) == r
  }

  // ----- far streams -----

  /** A step that needs room writes a byte, unless it finds an error. */
  lemma WritesOne(c: Config, w: Window)
    requires Valid(c) && NeedsRoom(c.phase) && Next(c, w).Some?
    ensures Next(c, w).value.phase == Phase.Bad || |Next(c, w).value.out| == |c.out| + 1
  {
    hide Decode, Lo, Hi, HasBit, BuildCodes, OneLength, Pow2, InflateTable.BadLengths;
  }

  lemma BadIsNear(c: Config, size: nat)
    requires Valid(c) && c.phase == Phase.Bad
    ensures Near(c, size)
  {
    InflateRun.DoneStep(c, Window(0, size));
    hide Next;
  }

  lemma FarNeedsRoom(c: Config, size: nat)
    requires !NearStep(c, size)
    ensures NeedsRoom(c.phase)
  {
  }

  /** Where a run that is not near first copies from too far back, and the output space that stops it there. */
  lemma {:induction false} FindFar(c: Config, size: nat) returns (d: Config)
    requires Valid(c) && !Near(c, size)
    ensures Valid(d) && !NearStep(d, size) && |c.out| <= |d.out|
    ensures RunTo(c, Window(0, size), |d.out|) == d && RunAll(c, Window(0, size)) == RunAll(d, Window(0, size))
    decreases c.n, Rank(c.phase)
  {
    hide Next, Valid, NearStep;
    var w := Window(0, size);
    InflateRun.StepIsGood(c, w);
    if !NearStep(c, size) {
      d := c;
      FarNeedsRoom(c, size);
      RunStops(c, w, |c.out|);
    } else {
      var c1 := Next(c, w).value;
      if c1.phase == Phase.Bad { BadIsNear(c1, size); }
      d := FindFar(c1, size);
      if NeedsRoom(c.phase) { WritesOne(c, w); }
      RunStep(c, w, |d.out|);
    }
  }

  /** In a new call the match is too far back; in the same call it is copied. */
  lemma FarStep(d: Config, size: nat)
    requires Valid(d) && !NearStep(d, size)
    ensures Next(d, Window(|d.out|, size)) == Some(d.(phase := Phase.Bad))
    ensures Next(d, Window(0, size)).Some? && |Next(d, Window(0, size)).value.out| == |d.out| + 1
  {
    hide Decode, Pow2, InflateTable.BadLengths;
    MatchStep(d, Window(|d.out|, size));
    MatchStep(d, Window(0, size));
  }

  lemma FarCall(d: Config, size: nat)
    requires Valid(d) && !NearStep(d, size)
    ensures Call(d, Piece([], 1), size).out == d.out && |RunAll(d, Window(0, size)).out| > |d.out|
  {
    hide Next, Valid, NearStep, Feed;
    FarStep(d, size);
    FeedNothing(d);
    var w, bad := Window(|d.out|, size), d.(phase := Phase.Bad);
    InflateRun.StepIsGood(d, w);
    InflateRun.StepIsGood(d, Window(0, size));
    InflateRun.DoneStep(bad, w);
    RunStep(d, w, |d.out| + 1);
    RunStops(bad, w, |d.out| + 1);
  }

  /** A stream that is not near loses output when it is cut at the match that reaches back too far. */
  lemma FarFails(s: seq<Byte>, size: nat) returns (ps: seq<Piece>)
    requires Valid(INIT) && Valid(FeedBytes(INIT, s)) && !Near(FeedBytes(INIT, s), size)
    ensures AllInput(ps) == s && SpaceLeft(ps, size) && |Play(INIT, ps, size).out| < |OneShot(INIT, s, size).out|
  {
    hide Next, Valid, Feed, RunTo, RunAll, Near, Call, NearStep, AllInput, Play;
    var d := FindFar(FeedBytes(INIT, s), size);
    FarCall(d, size);
    var p, q := Piece(s, |d.out|), Piece([], 1);
    ps := [p, q];
    PlayTwo(INIT, p, q, size);
    FirstIs(s, d, size);
    assert s + [] == s;
    assert ps[..1] == [p];
    PlayOne(p, size);
  }

  lemma FirstIs(s: seq<Byte>, d: Config, size: nat)
    requires Valid(INIT) && Valid(FeedBytes(INIT, s)) && RunTo(FeedBytes(INIT, s), Window(0, size), |d.out|) == d
    ensures Call(INIT, Piece(s, |d.out|), size) == d
  {
    hide RunTo, Feed, Valid;
  }

  lemma PlayOne(p: Piece, size: nat)
    requires Valid(INIT)
    ensures Play(INIT, [p], size) == Call(INIT, p, size)
  {
    hide Call, Valid;
    assert [p][..0] == [];
    assert Play(INIT, [], size) == INIT;
  }

  // ----- exactly when -----

  /** However the stream is cut, the calls end with the one-shot output, if the last one had space left. */
  ghost predicate StreamFree(s: seq<Byte>, size: nat)
    requires Valid(INIT)
  {
    forall ps: seq<Piece> ::
      AllInput(ps) == s && SpaceLeft(ps, size) ==> Play(INIT, ps, size).out == OneShot(INIT, s, size).out
  }

  /**
    The output of a stream is independent of the cutting if and only if no match of the one-shot run reaches
    back further than the window.
   */
  lemma StreamFreeWhen(s: seq<Byte>, size: nat)
    ensures Valid(INIT) && Valid(FeedBytes(INIT, s))
    ensures StreamFree(s, size) <==> Near(FeedBytes(INIT, s), size)
  {
    hide Valid, Play, OneShot, Near, FeedBytes, AllInput, SpaceLeft;
    StreamValid(s);
    if Near(FeedBytes(INIT, s), size) {
      forall ps: seq<Piece> | AllInput(ps) == s && SpaceLeft(ps, size)
        ensures Play(INIT, ps, size).out == OneShot(INIT, s, size).out
      {
        NearComplete(ps, size);
      }
    } else {
      var ps := FarFails(s, size);
      assert AllInput(ps) == s && SpaceLeft(ps, size);
    }
  }

  lemma StreamValid(s: seq<Byte>)
    ensures Valid(INIT) && Valid(FeedBytes(INIT, s))
  {
    hide Valid, Feed, INIT;
    InitIsValid();
    FeedValid(INIT, Val(s), 8 * |s|);
  }

  /** No distance exceeds 32K: every stream is near with the full window. */
  lemma {:induction false} FullIsNear(c: Config, size: nat)
    requires Valid(c) && size >= 32768
    ensures Near(c, size)
    decreases c.n, Rank(c.phase)
  {
    hide Next;
    InflateRun.StepIsGood(c, Window(0, size));
    FullStep(c, size);
    hide Valid, NearStep;
    if Next(c, Window(0, size)).Some? { FullIsNear(Next(c, Window(0, size)).value, size); }
  }

  lemma FullStep(c: Config, size: nat)
    requires Valid(c) && size >= 32768
    ensures NearStep(c, size)
  {
    hide Pow2, InflateTable.BadLengths;
  }
}
