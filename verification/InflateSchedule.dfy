/**
  Whole runs of the inflate machine: what one call computes, and that the output does not
  depend on how the input and the output space are cut into calls.
 */
module InflateSchedule {
  import opened Bits
  import opened DecodeTable
  import opened Bytes
  import opened InflateSpec
  import opened InflateRun
  import InflateTable

  /** Append m more bits, with value x, to the bits not yet consumed. */
  function Feed(c: Config, x: nat, m: nat): Config {
    c.(v := c.v + Shl(x, c.n), n := c.n + m)
  }

  lemma FeedValid(c: Config, x: nat, m: nat)
    requires Valid(c) && x < Pow2(m)
    ensures Valid(Feed(c, x, m))
  {
    hide ValidPhase;
    ShlBound(x, m, c.n);
  }

  lemma TakeFeed(c: Config, k: nat, x: nat, m: nat)
    requires k <= c.n
    ensures Take(Feed(c, x, m), k) == Feed(Take(c, k), x, m)
  {
    AddAbove(c.v, x, c.n, k);
  }

  /** Fields of the bits already there are not affected by more input. */
  lemma FieldFeed(c: Config, j: nat, k: nat, x: nat, m: nat)
    requires j + k <= c.n
    ensures Lo(Hi(Feed(c, x, m).v, j), k) == Lo(Hi(c.v, j), k)
    ensures Lo(Feed(c, x, m).v, k) == Lo(c.v, k)
  {
    AddAbove(c.v, x, c.n, j);
    AddAbove(Hi(c.v, j), x, c.n - j, k);
    AddAbove(c.v, x, c.n, k);
  }

  lemma DecodeFeed(kind: Kind, lens: seq<nat>, c: Config, x: nat, m: nat)
    requires Accepted(kind, lens) && Decode(kind, lens, c.v).bits <= c.n
    ensures Decode(kind, lens, Feed(c, x, m).v) == Decode(kind, lens, c.v)
  {
    hide Decode, Accepted, Lo;
    AddAbove(c.v, x, c.n, c.n);
    DecodeStable(kind, lens, c.v, Feed(c, x, m).v, c.n);
  }

  lemma FeedFields(c: Config, x: nat, m: nat)
    ensures var d := Feed(c, x, m); d.n == c.n + m && d.last == c.last && d.phase == c.phase && d.out == c.out
    ensures forall p: Phase :: Feed(c.(phase := p), x, m) == Feed(c, x, m).(phase := p)
  {
  }

  lemma BlockFeed(c: Config, x: nat, m: nat)
    requires m % 8 == 0 && BlockHeader(c).Some?
    ensures BlockHeader(Feed(c, x, m)) == Some(Feed(BlockHeader(c).value, x, m))
  {
    hide Lo, Hi, Shl, Feed, Take;
    FeedFields(c, x, m);
    if c.last {
      TakeFeed(c, c.n % 8, x, m);
      FeedFields(Take(c, c.n % 8), x, m);
    } else {
      var d := Take(c, 3);
      FeedLast(d, Lo(c.v, 1) == 1, x, m);
      FeedFields(d.(last := Lo(c.v, 1) == 1), x, m);
      TakeFeed(c, 3, x, m);
      FieldFeed(c, 1, 2, x, m);
      FieldFeed(c, 0, 1, x, m);
    }
  }

  lemma FeedLast(c: Config, last: bool, x: nat, m: nat)
    ensures Feed(c.(last := last), x, m) == Feed(c, x, m).(last := last)
  {
  }

  lemma StoredFeed(c: Config, x: nat, m: nat)
    requires m % 8 == 0 && StoredHeader(c).Some?
    ensures StoredHeader(Feed(c, x, m)) == Some(Feed(StoredHeader(c).value, x, m))
  {
    hide Lo, Hi, Shl, Feed, Take;
    FeedFields(c, x, m);
    if c.n % 8 != 0 {
      TakeFeed(c, c.n % 8, x, m);
    } else {
      TakeFeed(c, 32, x, m);
      FeedFields(Take(c, 32), x, m);
      FieldFeed(c, 16, 16, x, m);
      FieldFeed(c, 0, 16, x, m);
    }
  }

  lemma CopyFeed(c: Config, x: nat, m: nat)
    requires c.phase.Copy? && CopyByte(c).Some?
    ensures CopyByte(Feed(c, x, m)) == Some(Feed(CopyByte(c).value, x, m))
  {
    hide Lo, Hi, Shl;
    if c.phase.left > 0 {
      TakeFeed(c, 8, x, m);
      FieldFeed(c, 0, 8, x, m);
    }
  }

  lemma TableFeed(c: Config, x: nat, m: nat)
    requires TableHeader(c).Some?
    ensures TableHeader(Feed(c, x, m)) == Some(Feed(TableHeader(c).value, x, m))
  {
    hide Lo, Hi, Shl;
    TakeFeed(c, 14, x, m);
    FieldFeed(c, 0, 5, x, m);
    FieldFeed(c, 5, 5, x, m);
    FieldFeed(c, 10, 4, x, m);
  }

  lemma LenLensFeed(c: Config, x: nat, m: nat)
    requires c.phase.LenLens? && CodeLengthLengths(c).Some?
    ensures CodeLengthLengths(Feed(c, x, m)) == Some(Feed(CodeLengthLengths(c).value, x, m))
  {
    hide Lo, Hi, Shl, Unpermute, InflateTable.Result;
    if |c.phase.cl| < c.phase.ncode {
      TakeFeed(c, 3, x, m);
      FieldFeed(c, 0, 3, x, m);
    }
  }

  lemma HeaderFeed(c: Config, w: Window, x: nat, m: nat)
    requires Valid(c) && m % 8 == 0 && Next(c, w).Some?
    requires c.phase.Block? || c.phase.Stored? || c.phase.Copy? || c.phase.Table? || c.phase.LenLens?
    requires Valid(Feed(c, x, m))
    ensures Next(Feed(c, x, m), w) == Some(Feed(Next(c, w).value, x, m))
  {
    hide Lo, Hi, Shl, Pow2, ValidPhase, BlockHeader, StoredHeader, CopyByte, TableHeader, CodeLengthLengths;
    match c.phase
    case Block => BlockFeed(c, x, m);
    case Stored => StoredFeed(c, x, m);
    case Copy(_) => CopyFeed(c, x, m);
    case Table => TableFeed(c, x, m);
    case LenLens(_, _, _, _) => LenLensFeed(c, x, m);
  }

  lemma OneLengthFeed(c: Config, x: nat, m: nat)
    requires Valid(c) && c.phase.CodeLens? && OneLength(c).Some? && Valid(Feed(c, x, m))
    ensures OneLength(Feed(c, x, m)) == Some(Feed(OneLength(c).value, x, m))
  {
    hide Lo, Hi, Shl, Pow2, Decode, InflateTable.BadLengths;
    var code := c.phase.code;
    DecodeFeed(Codes, code, c, x, m);
    var e := Decode(Codes, code, c.v);
    TakeFeed(c, e.bits, x, m);
    if e.bits + RepeatBits(e.val) <= c.n {
      TakeFeed(c, e.bits + RepeatBits(e.val), x, m);
      FieldFeed(c, e.bits, RepeatBits(e.val), x, m);
    }
  }

  lemma CodedFeed(c: Config, w: Window, x: nat, m: nat)
    requires Valid(c) && c.phase.Coded? && Next(c, w).Some? && Valid(Feed(c, x, m))
    ensures Next(Feed(c, x, m), w) == Some(Feed(Next(c, w).value, x, m))
  {
    hide Lo, Hi, Shl, Pow2, Decode, InflateTable.BadLengths, HasBit, ValidSub;
    match c.phase.sub
    case Len =>
      DecodeFeed(Lens, c.phase.lit, c, x, m);
      TakeFeed(c, Decode(Lens, c.phase.lit, c.v).bits, x, m);
    case LenExt(length, extra) =>
      TakeFeed(c, extra, x, m);
      FieldFeed(c, 0, extra, x, m);
    case Dist(length) =>
      DecodeFeed(Dists, c.phase.dist, c, x, m);
      TakeFeed(c, Decode(Dists, c.phase.dist, c.v).bits, x, m);
    case DistExt(length, offset, extra) =>
      TakeFeed(c, extra, x, m);
      FieldFeed(c, 0, extra, x, m);
    case Match(length, offset) =>
    case Lit(val) =>
  }

  /** A step that could be taken is the same step when more input has arrived. */
  lemma NextFeed(c: Config, w: Window, x: nat, m: nat)
    requires Valid(c) && x < Pow2(m) && m % 8 == 0 && Next(c, w).Some?
    ensures Valid(Feed(c, x, m)) && Next(Feed(c, x, m), w) == Some(Feed(Next(c, w).value, x, m))
  {
    FeedValid(c, x, m);
    CodeLensFeed(c, w, x, m);
    hide *;
    match c.phase
    case CodeLens(_, _, _, _) =>
    case Coded(_, _, _) => CodedFeed(c, w, x, m);
    case Done => DoneStep(c, w);
    case Bad => DoneStep(c, w);
    case _ => HeaderFeed(c, w, x, m);
  }

  lemma CodeLensFeed(c: Config, w: Window, x: nat, m: nat)
    requires Valid(c) && Next(c, w).Some? && Valid(Feed(c, x, m))
    ensures c.phase.CodeLens? ==> Next(Feed(c, x, m), w) == Some(Feed(Next(c, w).value, x, m))
  {
    hide OneLength, BuildCodes, Shl, Pow2;
    if c.phase.CodeLens? && |c.phase.ls| < c.phase.nlen + c.phase.ndist {
      OneLengthFeed(c, x, m);
    }
  }

  // ----- runs -----

  /** There is room for the byte the next step may write. */
  predicate HasSpace(c: Config, limit: nat) {
    NeedsRoom(c.phase) ==> |c.out| < limit
  }

  /** Run until a step needs missing input or space; limit bounds the length of the whole output. */
  ghost function RunTo(c: Config, w: Window, limit: nat): (r: Config)
    requires Valid(c)
    ensures Valid(r) && c.out <= r.out
    ensures !HasSpace(r, limit) || Next(r, w).None?
    decreases c.n, Rank(c.phase)
  {
    StepIsGood(c, w);
    if HasSpace(c, limit) && Next(c, w).Some? then RunTo(Next(c, w).value, w, limit) else c
  }

  /** Run with unlimited output space. */
  ghost function RunAll(c: Config, w: Window): (r: Config)
    requires Valid(c)
    ensures Valid(r) && c.out <= r.out
    ensures Next(r, w).None?
    decreases c.n, Rank(c.phase)
  {
    StepIsGood(c, w);
    if Next(c, w).Some? then RunAll(Next(c, w).value, w) else c
  }

  lemma RunStep(c: Config, w: Window, limit: nat)
    requires Valid(c) && HasSpace(c, limit) && Next(c, w).Some?
    ensures Valid(Next(c, w).value) && RunTo(c, w, limit) == RunTo(Next(c, w).value, w, limit)
  {
    hide Next, Valid;
    StepIsGood(c, w);
  }

  lemma RunStops(c: Config, w: Window, limit: nat)
    requires Valid(c) && (!HasSpace(c, limit) || Next(c, w).None?)
    ensures RunTo(c, w, limit) == c
  {
  }

  // ----- windows -----

  /** A later start of the call can only make a match too far, never change what it copies. */
  lemma NextWindow(c: Config, w: Window, w0: Window)
    requires Valid(c) && w0.size == w.size && w0.base <= w.base
    ensures Next(c, w) == Next(c, w0)
      || (Next(c, w0).Some? && Next(c, w).Some? && Next(c, w).value.phase == Bad && Next(c, w).value.out == c.out)
  {
    hide Decode, Lo, Hi, HasBit, BuildCodes, OneLength, Pow2, InflateTable.BadLengths;
  }

  /** With a window of the largest distance the start of the call does not matter. */
  lemma NextFullWindow(c: Config, w: Window, w0: Window)
    requires Valid(c) && w0.size == w.size && w.size >= 32768 && w0.base <= |c.out| && w.base <= |c.out|
    ensures Next(c, w) == Next(c, w0)
  {
    hide Decode, Lo, Hi, HasBit, BuildCodes, OneLength, Pow2, InflateTable.BadLengths;
  }

  // ----- calls -----

  /** The number whose bytes, least significant first, are given. */
  function Val(s: seq<Byte>): (x: nat)
    ensures x < Pow2(8 * |s|)
  {
    if s == [] then 0
    else
      assert Pow2(8 * |s|) == 256 * Pow2(8 * |s| - 8) by { Pow2Shl(8 * |s| - 8, 8); ShlEight(Pow2(8 * |s| - 8)); }
      assert 8 * |s[1..]| == 8 * |s| - 8;
      s[0] + 256 * Val(s[1..])
  }

  function FeedBytes(c: Config, s: seq<Byte>): Config {
    Feed(c, Val(s), 8 * |s|)
  }

  /** What one call of inflate gets: fresh input (after what the previous call left unread) and output space. */
  datatype Piece = Piece(input: seq<Byte>, room: nat)

  ghost function Call(c: Config, p: Piece, size: nat): Config
    requires Valid(c)
  {
    FeedValid(c, Val(p.input), 8 * |p.input|);
    RunTo(FeedBytes(c, p.input), Window(|c.out|, size), |c.out| + p.room)
  }

  ghost function Play(c: Config, ps: seq<Piece>, size: nat): (r: Config)
    requires Valid(c)
    ensures Valid(r)
  {
    if ps == [] then c else Call(Play(c, ps[..|ps| - 1], size), ps[|ps| - 1], size)
  }

  function AllInput(ps: seq<Piece>): seq<Byte> {
    if ps == [] then [] else AllInput(ps[..|ps| - 1]) + ps[|ps| - 1].input
  }

  const INIT := Config(false, Block, 0, 0, [])

  /** Everything in one call with enough output space. */
  ghost function OneShot(c: Config, s: seq<Byte>, size: nat): Config
    requires Valid(c)
  {
    FeedValid(c, Val(s), 8 * |s|);
    RunAll(FeedBytes(c, s), Window(0, size))
  }

  lemma {:induction false} ValAppend(a: seq<Byte>, b: seq<Byte>)
    ensures Val(a + b) == Val(a) + Shl(Val(b), 8 * |a|)
  {
    if a == [] {
      assert a + b == b;
    } else {
      assert (a + b)[1..] == a[1..] + b;
      ValAppend(a[1..], b);
      ShlShl(Val(b), 8 * |a| - 8, 8);
      ShlEight(Shl(Val(b), 8 * |a| - 8));
    }
  }

  lemma FeedAppend(c: Config, a: seq<Byte>, b: seq<Byte>)
    ensures FeedBytes(FeedBytes(c, a), b) == FeedBytes(c, a + b)
  {
    hide Val;
    ValAppend(a, b);
    ShlAdd(Val(a), Shl(Val(b), 8 * |a|), c.n);
    ShlShl(Val(b), 8 * |a|, c.n);
  }

  /** Stopping for space and going on later, with more input, ends where not stopping ends. */
  lemma {:induction false} RunToThenAll(c: Config, w: Window, limit: nat, x: nat, m: nat)
    requires Valid(c) && x < Pow2(m) && m % 8 == 0
    ensures Valid(Feed(c, x, m)) && Valid(Feed(RunTo(c, w, limit), x, m))
    ensures RunAll(Feed(RunTo(c, w, limit), x, m), w) == RunAll(Feed(c, x, m), w)
    decreases c.n, Rank(c.phase)
  {
    hide Next, Valid, Feed, HasSpace;
    FeedValid(c, x, m);
    if HasSpace(c, limit) && Next(c, w).Some? {
      StepIsGood(c, w);
      NextFeed(c, w, x, m);
      RunToThenAll(Next(c, w).value, w, limit, x, m);
    }
  }

  lemma {:induction false} RunAllWindow(c: Config, w: Window, w0: Window)
    requires Valid(c) && w0.size == w.size >= 32768 && w0.base <= |c.out| && w.base <= |c.out|
    ensures RunAll(c, w) == RunAll(c, w0)
    decreases c.n, Rank(c.phase)
  {
    hide Next, Valid;
    NextFullWindow(c, w, w0);
    StepIsGood(c, w);
    if Next(c, w).Some? {
      RunAllWindow(Next(c, w).value, w, w0);
    }
  }

  /** One call, then everything else in one go. */
  lemma CallThenAll(c: Config, p: Piece, size: nat, rest: seq<Byte>)
    requires Valid(c) && size >= 32768
    ensures OneShot(Call(c, p, size), rest, size) == OneShot(c, p.input + rest, size)
  {
    hide Next, Valid, Feed, RunTo, RunAll;
    var w, w0, c1 := Window(|c.out|, size), Window(0, size), FeedBytes(c, p.input);
    FeedValid(c, Val(p.input), 8 * |p.input|);
    var r := Call(c, p, size);
    FeedValid(r, Val(rest), 8 * |rest|);
    FeedValid(c1, Val(rest), 8 * |rest|);
    RunToThenAll(c1, w, |c.out| + p.room, Val(rest), 8 * |rest|);
    FeedOut(r, rest);
    FeedOut(c1, rest);
    FeedOut(c, p.input);
    RunAllWindow(FeedBytes(r, rest), w, w0);
    RunAllWindow(FeedBytes(c1, rest), w, w0);
    FeedAppend(c, p.input, rest);
  }

  lemma FeedOut(c: Config, s: seq<Byte>)
    ensures FeedBytes(c, s).out == c.out
  {
  }

  /** With the full window, any schedule of calls, continued in one go, ends as a single call does. */
  lemma {:induction false} AnySchedule(c: Config, ps: seq<Piece>, size: nat, rest: seq<Byte>)
    requires Valid(c) && size >= 32768
    ensures OneShot(Play(c, ps, size), rest, size) == OneShot(c, AllInput(ps) + rest, size)
    decreases |ps|
  {
    hide OneShot, Call, Valid;
    if ps == [] {
      assert AllInput(ps) + rest == rest;
    } else {
      var p, ps' := ps[|ps| - 1], ps[..|ps| - 1];
      CallThenAll(Play(c, ps', size), p, size, rest);
      AnySchedule(c, ps', size, p.input + rest);
      assert AllInput(ps') + (p.input + rest) == AllInput(ps) + rest;
    }
  }

  /** With the full window: a schedule whose last call had output space left ends in the one-shot configuration. */
  lemma ScheduleComplete(c: Config, ps: seq<Piece>, size: nat)
    requires Valid(c) && size >= 32768 && ps != []
    requires |Play(c, ps, size).out| < |Play(c, ps[..|ps| - 1], size).out| + ps[|ps| - 1].room
    ensures Play(c, ps, size) == OneShot(c, AllInput(ps), size)
  {
    hide Call, Valid, Next, AllInput;
    var r, before, p := Play(c, ps, size), Play(c, ps[..|ps| - 1], size), ps[|ps| - 1];
    AnySchedule(c, ps, size, []);
    assert AllInput(ps) + [] == AllInput(ps);
    CallStops(before, p, size);
    FeedNothing(r);
    BaseBound(before, p, size);
    NextFullWindow(r, Window(|before.out|, size), Window(0, size));
  }

  lemma FeedNothing(c: Config)
    ensures FeedBytes(c, []) == c
  {
    ShlOne(c.n);
  }

  lemma BaseBound(c: Config, p: Piece, size: nat)
    requires Valid(c)
    ensures c.out <= Call(c, p, size).out
  {
    FeedOut(c, p.input);
  }

  lemma CallStops(c: Config, p: Piece, size: nat)
    requires Valid(c) && |Call(c, p, size).out| < |c.out| + p.room
    ensures Valid(Call(c, p, size)) && Next(Call(c, p, size), Window(|c.out|, size)).None?
  {
    hide Next, Valid, RunTo;
  }

  // ----- any window -----

  /** c is on the way to all, or it gave up early with a prefix of its output. */
  ghost predicate Follows(c: Config, all: Config, x: nat, m: nat, w0: Window) {
    Valid(c) && Valid(Feed(c, x, m)) && (RunAll(Feed(c, x, m), w0) == all || (c.phase == Bad && c.out <= all.out))
  }

  lemma {:induction false} RunToFollows(c: Config, w: Window, w0: Window, limit: nat, x: nat, m: nat)
    requires Valid(c) && x < Pow2(m) && m % 8 == 0 && w0.size == w.size && w0.base <= w.base
    ensures Valid(Feed(c, x, m)) && Follows(RunTo(c, w, limit), RunAll(Feed(c, x, m), w0), x, m, w0)
    decreases c.n, Rank(c.phase)
  {
    hide Next, Valid, HasSpace;
    FeedValid(c, x, m);
    FeedValid(RunTo(c, w, limit), x, m);
    if HasSpace(c, limit) && Next(c, w).Some? {
      NextWindow(c, w, w0);
      StepIsGood(c, w);
      if Next(c, w) == Next(c, w0) {
        NextFeed(c, w0, x, m);
        RunToFollows(Next(c, w).value, w, w0, limit, x, m);
      } else {
        DoneStep(Next(c, w).value, w);
      }
    }
  }

  /** For any window size and any schedule of calls, the output is a prefix of the one-shot output. */
  lemma {:induction false} ScheduleFollows(c: Config, ps: seq<Piece>, size: nat, rest: seq<Byte>)
    requires Valid(c)
    ensures Follows(Play(c, ps, size), OneShot(c, AllInput(ps) + rest, size), Val(rest), 8 * |rest|, Window(0, size))
    decreases |ps|
  {
    hide Valid, RunTo, RunAll, Next;
    if ps == [] {
      assert AllInput(ps) + rest == rest;
      FeedValid(c, Val(rest), 8 * |rest|);
    } else {
      var p, ps' := ps[|ps| - 1], ps[..|ps| - 1];
      ScheduleFollows(c, ps', size, p.input + rest);
      assert AllInput(ps') + (p.input + rest) == AllInput(ps) + rest;
      CallFollows(Play(c, ps', size), p, size, rest, OneShot(c, AllInput(ps) + rest, size));
    }
  }

  lemma CallFollows(c: Config, p: Piece, size: nat, rest: seq<Byte>, all: Config)
    requires Follows(c, all, Val(p.input + rest), 8 * |p.input + rest|, Window(0, size))
    ensures Follows(Call(c, p, size), all, Val(rest), 8 * |rest|, Window(0, size))
  {
    hide Valid, RunTo, RunAll, Next, Feed;
    var c1 := FeedBytes(c, p.input);
    FeedValid(c, Val(p.input), 8 * |p.input|);
    FeedAppend(c, p.input, rest);
    if RunAll(FeedBytes(c, p.input + rest), Window(0, size)) == all {
      RunToFollows(c1, Window(|c.out|, size), Window(0, size), |c.out| + p.room, Val(rest), 8 * |rest|);
    } else {
      BadStays(c, p, size);
      FeedValid(Call(c, p, size), Val(rest), 8 * |rest|);
    }
  }

  lemma BadStays(c: Config, p: Piece, size: nat)
    requires Valid(c) && c.phase == Bad
    ensures Call(c, p, size).phase == Bad && Call(c, p, size).out == c.out
  {
    FeedValid(c, Val(p.input), 8 * |p.input|);
  }

  /** Whatever the pieces and the window, the concatenated output is a prefix of the one-shot output. */
  lemma OutputIsPrefix(c: Config, ps: seq<Piece>, size: nat)
    requires Valid(c)
    ensures Play(c, ps, size).out <= OneShot(c, AllInput(ps), size).out
  {
    hide Valid, Play, OneShot, AllInput;
    ScheduleFollows(c, ps, size, []);
    assert AllInput(ps) + [] == AllInput(ps);
    FeedNothing(Play(c, ps, size));
  }
}
