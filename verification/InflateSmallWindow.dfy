/**
  Why a full window is needed for the output not to depend on the schedule: with a window of
  2^k bytes, 8 <= k < 15, a match one byte further back works within a call but not across calls.
 */
module InflateSmallWindow {
  import opened Bits
  import opened Canonical
  import opened DecodeTable
  import opened Bytes
  import opened InflateSpec
  import opened InflateSchedule
  import opened InflateSteps
  import opened InflateCopy
  import opened InflateOutput
  import opened InflateFast
  import InflateRun
  import InflateTable

  /** Length of the stored block: one more than the window. */
  function StoredLength(k: nat): nat {
    Pow2(k) + 1
  }

  lemma Sizes(k: nat)
    requires 8 <= k < 15
    ensures Pow2(k) == 256 * Pow2(k - 8) && Pow2(k - 8) <= 64 && Pow2(k) <= 16384
  {
    hide Pow2;
    InflateRun.Pow2Values();
    Pow2Shl(k - 8, 8);
    ShlEight(Pow2(k - 8));
    Pow2Mono(k - 8, 6);
    Pow2Small();
  }

  lemma Pow2Small()
    ensures Pow2(6) == 64 && Pow2(7) == 128
  {
    assert Pow2(3) == 8;
  }

  /** Header of a stored block of zeros, its bytes, and a last block: length 3, distance 2^k + 1. */
  function Header(k: nat): seq<Byte>
    requires 8 <= k < 15
  {
    Sizes(k);
    [0, 1, Pow2(k - 8), 254, 255 - Pow2(k - 8)]
  }

  function Tail(k: nat): seq<Byte>
    requires 8 <= k < 15
  {
    assert Pow2(5) == 32;
    [3, 2 + 4 * Rev(2 * k, 5), 0, 0]
  }

  function Stream(k: nat): seq<Byte>
    requires 8 <= k < 15
  {
    Header(k) + Repeat<Byte>(0, StoredLength(k)) + Tail(k)
  }

  // ----- the codes of length 3 and distance 2^k + 1 -----

  lemma LengthThree()
    ensures CodeOf(FIXED_LIT, 257) == 1 && FIXED_LIT[257] == 7
  {
    hide Count, Used;
    var a, b := Repeat<nat>(8, 144) + Repeat<nat>(9, 112), Repeat<nat>(7, 1);
    assert FIXED_LIT[..257] == a + b;
    InflateRun.CountAppend(a, b, 7);
    InflateRun.CountAppend(Repeat<nat>(8, 144), Repeat<nat>(9, 112), 7);
    InflateRun.CountRepeat(8, 144, 7);
    InflateRun.CountRepeat(9, 112, 7);
    InflateRun.CountRepeat(7, 1, 7);
    InflateRun.FixedUsed(6);
  }

  lemma DistanceCode(sym: nat)
    requires sym < 32
    ensures CodeOf(FIXED_DIST, sym) == sym && FIXED_DIST[sym] == 5
  {
    hide Count, Used;
    assert FIXED_DIST[..sym] == Repeat<nat>(5, sym);
    InflateRun.CountRepeat(5, sym, 5);
    InflateRun.FixedUsed(4);
  }

  lemma DistanceBase(k: nat)
    requires 8 <= k < 15
    ensures DIST_BASE[2 * k] == StoredLength(k) && DIST_EXTRA[2 * k] == 16 + (k - 1)
  {
    Sizes(k);
    assert Pow2(3) == 8;
    assert Pow2(8) == 256;
    assert Pow2(11) == 2048;
    assert Pow2(14) == 16384;
  }

  lemma DecodesLength(v: nat)
    requires Lo(v, 7) == 64
    ensures Decode(Lens, FIXED_LIT, v) == Entry(16, 7, 3)
  {
    hide Lo, CodeOf, Decode, InflateTable.BadLengths;
    InflateRun.FixedAccepted();
    LengthThree();
    RevSeven();
    assert Matches(FIXED_LIT, 257, v);
    InflateRun.NotOver(Lens, FIXED_LIT);
    InflateRun.Unique(Lens, FIXED_LIT, 257, v);
  }

  lemma RevSeven()
    ensures Rev(1, 7) == 64
  {
    assert Pow2(6) == 64 by { Pow2Small(); }
    RevZero(6);
  }

  lemma DecodesDistance(k: nat, v: nat)
    requires 8 <= k < 15 && Lo(v, 5) == Rev(2 * k, 5)
    ensures Decode(Dists, FIXED_DIST, v) == Entry(16 + (k - 1), 5, StoredLength(k))
  {
    hide Lo, CodeOf, Decode, InflateTable.BadLengths, Rev, Pow2;
    InflateRun.FixedAccepted();
    DistanceCode(2 * k);
    DistanceBase(k);
    assert Matches(FIXED_DIST, 2 * k, v);
    InflateRun.NotOver(Dists, FIXED_DIST);
    InflateRun.Unique(Dists, FIXED_DIST, 2 * k, v);
  }

  // ----- the run -----

  lemma ShlSixteen(x: nat)
    ensures Shl(x, 16) == 65536 * x
  {
    hide Shl;
    ShlShl(x, 8, 8);
    ShlEight(x);
    ShlEight(Shl(x, 8));
  }

  lemma ZeroByte(s: seq<Byte>)
    requires s != [] && s[0] == 0
    ensures Lo(Val(s), 1) == 0 && Lo(Hi(Val(s), 1), 2) == 0 && Hi(Hi(Hi(Val(s), 1), 2), 5) == Val(s[1..])
  {
    hide Lo, Hi, Pow2;
    HiHi(Val(s), 1, 2);
    HiHi(Val(s), 3, 5);
    ValTail(s, 1);
    LowZero(Val(s[1..]));
  }

  lemma LowZero(x: nat)
    ensures Lo(256 * x, 1) == 0 && Lo(Hi(256 * x, 1), 2) == 0
  {
    assert 256 * x / 2 == 128 * x;
    assert Hi(256 * x, 1) == 128 * x;
    assert Lo(64 * x, 1) == 0;
  }

  /** Two bytes as a field. */
  lemma TwoByteField(s: seq<Byte>)
    requires |s| >= 2
    ensures Lo(Val(s), 16) == (s[0] as nat) + 256 * (s[1] as nat) && Hi(Val(s), 16) == Val(s[2..])
  {
    hide Lo, Hi, Shl, Pow2;
    assert s[1..][1..] == s[2..];
    ShlSixteen(Val(s[2..]));
    InflateRun.Pow2Values();
    Join(Val(s[2..]), (s[0] as nat) + 256 * (s[1] as nat), 16);
  }

  /** From the start to the stored bytes. */
  lemma HeaderRun(k: nat, s: seq<Byte>, w: Window, limit: nat)
    requires 8 <= k < 15 && Header(k) <= s
    ensures Valid(Config(false, Block, Val(s), 8 * |s|, []))
      && Valid(Config(false, Phase.Copy(StoredLength(k)), Val(s[5..]), 8 * |s[5..]|, []))
    ensures RunTo(Config(false, Block, Val(s), 8 * |s|, []), w, limit)
      == RunTo(Config(false, Phase.Copy(StoredLength(k)), Val(s[5..]), 8 * |s[5..]|, []), w, limit)
  {
    hide Next, RunTo, Val, Pow2, Lo, Hi;
    var c := Config(false, Block, Val(s), 8 * |s|, []);
    BlockNext(c, w);
    ZeroByte(s);
    RunStep(c, w, limit);
    InflateRun.StepIsGood(c, w);
    var c1 := Next(c, w).value;
    StoredNext(c1, w);
    RunStep(c1, w, limit);
    InflateRun.StepIsGood(c1, w);
    var c2 := Next(c1, w).value;
    assert c2 == Config(false, Stored, Val(s[1..]), 8 * |s[1..]|, []);
    Sizes(k);
    TwoByteField(s[1..]);
    assert s[1..][2..] == s[3..];
    TwoByteField(s[3..]);
    assert s[3..][2..] == s[5..];
    HiHi(Val(s[1..]), 16, 16);
    StoredNext(c2, w);
    RunStep(c2, w, limit);
    InflateRun.StepIsGood(c2, w);
  }

  /** The bits of the last block: header, length code, distance code, then zeros. */
  lemma TailBits(k: nat)
    requires 8 <= k < 15
    ensures var v := Val(Tail(k));
      && Lo(v, 1) == 1 && Lo(Hi(v, 1), 2) == 1 && Lo(Hi(v, 3), 7) == 64
      && Hi(v, 10) == Rev(2 * k, 5) && Lo(Hi(v, 10), 5) == Rev(2 * k, 5) && Hi(v, 15) == 0
  {
    hide Lo, Hi, Val, Pow2, Rev;
    TailIs(k);
    var r := Rev(2 * k, 5);
    ValFour(3, 2 + 4 * r);
    TailNumber(r);
  }

  lemma TailIs(k: nat)
    requires 8 <= k < 15
    ensures Rev(2 * k, 5) < 32 && Rev(2 * k, 5) < Pow2(5) && Tail(k) == [3, 2 + 4 * Rev(2 * k, 5), 0, 0]
  {
    hide Rev;
    assert Pow2(5) == 32;
  }

  lemma ValCons(b: Byte, s: seq<Byte>)
    ensures Val([b] + s) == b + 256 * Val(s) && Val([]) == 0
  {
    hide Pow2;
    assert ([b] + s)[1..] == s;
  }

  lemma ValFour(a: Byte, b: Byte)
    ensures Val([a, b, 0, 0]) == a + 256 * (b as nat)
  {
    hide Val, Pow2;
    ValCons(0, []);
    ValCons(0, [0]);
    ValCons(b, [0, 0]);
    ValCons(a, [b, 0, 0]);
    assert [0] + [] == [0] && [0] + [0] == [0, 0] && [b] + [0, 0] == [b, 0, 0] && [a] + [b, 0, 0] == [a, b, 0, 0];
  }

  lemma TailNumber(r: nat)
    requires r < Pow2(5)
    ensures var v := 3 + 256 * (2 + 4 * r);
      && Lo(v, 1) == 1 && Lo(Hi(v, 1), 2) == 1 && Lo(Hi(v, 3), 7) == 64 && Hi(v, 10) == r && Lo(r, 5) == r
      && Hi(v, 15) == 0
  {
    hide Lo, Hi, Shl, Pow2;
    var v := 3 + 256 * (2 + 4 * r);
    LowThree(64 + 128 * r);
    assert v == 3 + 8 * (64 + 128 * r);
    Pow2Small();
    ShlSeven(r);
    Join(r, 64, 7);
    LoSmall(r, 5);
    HiHi(v, 3, 7);
    HiHi(v, 10, 5);
  }

  lemma LowThree(x: nat)
    ensures var v := 3 + 8 * x; Lo(v, 1) == 1 && Lo(Hi(v, 1), 2) == 1 && Hi(v, 3) == x
  {
    var v := 3 + 8 * x;
    assert v / 2 == 1 + 4 * x && v / 2 / 2 == 2 * x && v / 2 / 2 / 2 == x;
    assert Lo(2 * x, 1) == 0;
    assert Hi(2 * x, 1) == x;
    assert Hi(1 + 4 * x, 2) == x;
  }

  lemma ShlSeven(x: nat)
    ensures Shl(x, 7) == 128 * x
  {
    assert Shl(x, 1) == 2 * x;
    assert Shl(x, 3) == 8 * x;
    assert Shl(x, 5) == 32 * x;
  }

  /** The configurations between the last block's header and its match, by the bits consumed. */
  function AtSub(k: nat, out: seq<Byte>, sub: Sub, used: nat): Config
    requires 8 <= k < 15 && used <= 32
  {
    Config(true, Coded(FIXED_LIT, FIXED_DIST, sub), Hi(Val(Tail(k)), used), 32 - used, out)
  }

  /** The header of the last block. */
  lemma TailStart(k: nat, out: seq<Byte>, w: Window, limit: nat)
    requires 8 <= k < 15
    ensures var c, c' := Config(false, Block, Val(Tail(k)), 32, out), AtSub(k, out, Sub.Len, 3);
      Valid(c) && Valid(c') && RunTo(c, w, limit) == RunTo(c', w, limit)
  {
    hide Next, RunTo, Val, Pow2, Lo, Hi, FIXED_LIT, FIXED_DIST, Tail, Valid;
    var c := Config(false, Block, Val(Tail(k)), 32, out);
    TailBits(k);
    TailValid(k, out);
    BlockNext(c, w);
    RunStep(c, w, limit);
    InflateRun.StepIsGood(c, w);
    HiHi(c.v, 1, 2);
  }

  /** The length code, which has no extra bits. */
  lemma TailLength(k: nat, out: seq<Byte>, w: Window, limit: nat)
    requires 8 <= k < 15 && Valid(AtSub(k, out, Sub.Len, 3))
    ensures var c, c' := AtSub(k, out, Sub.Len, 3), AtSub(k, out, Sub.Dist(3), 10);
      Valid(c') && RunTo(c, w, limit) == RunTo(c', w, limit)
  {
    hide Next, RunTo, Val, Pow2, Lo, Hi, FIXED_LIT, FIXED_DIST, Tail, Decode, Valid;
    TailBits(k);
    var c1 := AtSub(k, out, Sub.Len, 3);
    LenNext(c1, w);
    DecodesLength(c1.v);
    HasBits();
    RunStep(c1, w, limit);
    InflateRun.StepIsGood(c1, w);
    HiHi(Val(Tail(k)), 3, 7);
    var c2 := AtSub(k, out, LenExt(3, 0), 10);
    LenExtNext(c2, w);
    NoBits(c2.v);
    RunStep(c2, w, limit);
    InflateRun.StepIsGood(c2, w);
  }

  /** The distance code, whose extra bits are zero. */
  lemma TailDistance(k: nat, out: seq<Byte>, w: Window, limit: nat)
    requires 8 <= k < 15 && Valid(AtSub(k, out, Sub.Dist(3), 10))
    ensures var c := AtSub(k, out, Sub.Dist(3), 10);
      var c' := Config(true, Coded(FIXED_LIT, FIXED_DIST, Sub.Match(3, StoredLength(k))), 0, 18 - k, out);
      Valid(c') && RunTo(c, w, limit) == RunTo(c', w, limit)
  {
    hide Next, RunTo, Val, Pow2, Lo, Hi, FIXED_LIT, FIXED_DIST, Tail, Decode, Valid;
    TailBits(k);
    var c3 := AtSub(k, out, Sub.Dist(3), 10);
    DistNext(c3, w);
    DecodesDistance(k, c3.v);
    HasBits();
    RunStep(c3, w, limit);
    InflateRun.StepIsGood(c3, w);
    HiHi(Val(Tail(k)), 10, 5);
    var c4 := AtSub(k, out, DistExt(3, StoredLength(k), k - 1), 15);
    DistExtNext(c4, w);
    ZeroBits(k - 1);
    RunStep(c4, w, limit);
    InflateRun.StepIsGood(c4, w);
  }

  /** From the last block's header to its match. */
  lemma TailRun(k: nat, out: seq<Byte>, w: Window, limit: nat)
    requires 8 <= k < 15
    ensures var c := Config(false, Block, Val(Tail(k)), 32, out);
      var c' := Config(true, Coded(FIXED_LIT, FIXED_DIST, Sub.Match(3, StoredLength(k))), 0, 18 - k, out);
      Valid(c) && Valid(c') && RunTo(c, w, limit) == RunTo(c', w, limit)
  {
    hide RunTo, Val, Pow2, FIXED_LIT, FIXED_DIST, Tail, Valid, AtSub;
    TailStart(k, out, w, limit);
    TailLength(k, out, w, limit);
    TailDistance(k, out, w, limit);
  }

  lemma TailValid(k: nat, out: seq<Byte>)
    requires 8 <= k < 15
    ensures Valid(Config(false, Block, Val(Tail(k)), 32, out))
  {
    hide Val, Pow2, Rev;
    assert |Tail(k)| == 4;
  }

  lemma HasBits()
    ensures !HasBit(16, 32) && !HasBit(16, 64) && 16 % 16 == 0
    ensures forall x: nat {:trigger HasBit(16 + x, 64)} :: x < 16 ==> !HasBit(16 + x, 64) && (16 + x) % 16 == x
  {
  }

  lemma NoBits(v: nat)
    ensures Hi(v, 0) == v && Lo(v, 0) == 0
  {
  }

  lemma {:induction false} ZeroBits(n: nat)
    ensures Hi(0, n) == 0 && Lo(0, n) == 0
  {
    if n > 0 { ZeroBits(n - 1); }
  }

  // ----- the two schedules -----

  /** All the input with space for the stored bytes only. */
  function FirstPiece(k: nat): Piece
    requires 8 <= k < 15
  {
    Piece(Stream(k), StoredLength(k))
  }

  /** Where the first call stops: at the match, one byte of a match further back than the window. */
  function AtMatch(k: nat): Config {
    Config(true, Coded(FIXED_LIT, FIXED_DIST, Sub.Match(3, StoredLength(k))), 0, if k <= 18 then 18 - k else 0,
      Repeat<Byte>(0, StoredLength(k)))
  }

  lemma Reaches(k: nat, w: Window, limit: nat)
    requires 8 <= k < 15 && limit >= StoredLength(k)
    ensures Valid(FeedBytes(INIT, Stream(k))) && Valid(AtMatch(k))
    ensures RunTo(FeedBytes(INIT, Stream(k)), w, limit) == RunTo(AtMatch(k), w, limit)
  {
    hide Next, RunTo, Val, Pow2, Lo, Hi, FIXED_LIT, FIXED_DIST, Tail, Rev, Decode, Header, Repeat;
    var s, n := Stream(k), StoredLength(k);
    ShlZero(Val(s));
    HeaderSize(k);
    Sizes(k);
    HeaderRun(k, s, w, limit);
    assert s[5..] == Repeat<Byte>(0, n) + Tail(k);
    var next := s[5..];
    CopyRun(false, n, next, [], w, limit, n);
    assert next[n..] == Tail(k) && [] + next[..n] == Repeat<Byte>(0, n);
    var c := Config(false, Phase.Copy(0), Val(Tail(k)), 32, Repeat<Byte>(0, n));
    CopyNone(c, w);
    RunStep(c, w, limit);
    TailRun(k, Repeat<Byte>(0, n), w, limit);
  }

  lemma HeaderSize(k: nat)
    requires 8 <= k < 15
    ensures |Header(k)| == 5 && |Tail(k)| == 4
  {
    hide Pow2, Rev;
  }

  lemma CopyNone(c: Config, w: Window)
    requires Valid(c) && c.phase == Phase.Copy(0)
    ensures Next(c, w) == Some(c.(phase := Block))
  {
    hide Pow2;
  }

  /**
    With any window smaller than 32K a schedule exists that loses output: after the first call
    the match is too far back, while a single call copies it.
   */
  lemma SmallWindowFails(k: nat)
    requires 8 <= k < 15
    ensures Valid(INIT)
    ensures var ps := [FirstPiece(k), Piece([], 3)]; var all := OneShot(INIT, AllInput(ps), Pow2(k));
      |Play(INIT, ps, Pow2(k)).out| == StoredLength(k) < |all.out| && Play(INIT, ps, Pow2(k)).phase == Phase.Bad
  {
    hide Valid, Call, OneShot, Pow2, Play, AllInput, Stream, INIT;
    InitIsValid();
    PlayTwo(INIT, FirstPiece(k), Piece([], 3), Pow2(k));
    FirstCall(k);
    SecondCall(k);
    OneCall(k);
    assert Stream(k) + [] == Stream(k);
  }

  lemma PlayTwo(c: Config, p: Piece, q: Piece, size: nat)
    requires Valid(c)
    ensures Play(c, [p, q], size) == Call(Call(c, p, size), q, size) && AllInput([p, q]) == p.input + q.input
  {
    hide Valid, Call;
    assert [p, q][..1] == [p] && [p][..0] == [];
    assert Play(c, [p], size) == Call(c, p, size) by { assert Play(c, [], size) == c; }
    assert AllInput([p]) == p.input by { assert AllInput([]) == []; }
  }

  lemma FirstCall(k: nat)
    requires 8 <= k < 15
    ensures Valid(INIT) && Call(INIT, FirstPiece(k), Pow2(k)) == AtMatch(k)
  {
    hide Next, RunTo, Val, Pow2, FIXED_LIT, FIXED_DIST, Stream, Repeat;
    InitIsValid();
    Reaches(k, Window(0, Pow2(k)), StoredLength(k));
    RunStops(AtMatch(k), Window(0, Pow2(k)), StoredLength(k));
  }

  lemma InitIsValid()
    ensures Valid(INIT)
  {
  }

  /** The second call finds the match too far back. */
  lemma SecondCall(k: nat)
    requires 8 <= k < 15
    ensures Valid(AtMatch(k)) && Call(AtMatch(k), Piece([], 3), Pow2(k)) == AtMatch(k).(phase := Phase.Bad)
  {
    hide Next, Val, Pow2, FIXED_LIT, FIXED_DIST, Repeat, RunTo, Valid, TooFar;
    var m, n, size := AtMatch(k), StoredLength(k), Pow2(k);
    var w := Window(n, size);
    Reaches(k, w, n);
    FeedNothing(m);
    FarBack(k);
    MatchStep(m, w);
    RunStep(m, w, n + 3);
    InflateRun.StepIsGood(m, w);
    var bad := m.(phase := Phase.Bad);
    InflateRun.DoneStep(bad, w);
    RunStops(bad, w, n + 3);
  }

  lemma FarBack(k: nat)
    ensures |AtMatch(k).out| == StoredLength(k) && TooFar(AtMatch(k), Window(StoredLength(k), Pow2(k)), StoredLength(k))
  {
    hide Pow2, FIXED_LIT, FIXED_DIST;
  }

  /** A single call goes on to copy from it. */
  lemma OneCall(k: nat)
    requires 8 <= k < 15
    ensures Valid(INIT) && |OneShot(INIT, Stream(k), Pow2(k)).out| > StoredLength(k)
  {
    hide Next, Val, Pow2, FIXED_LIT, FIXED_DIST, Repeat, RunTo, Stream;
    InitIsValid();
    var m, n, w, c := AtMatch(k), StoredLength(k), Window(0, Pow2(k)), FeedBytes(INIT, Stream(k));
    Reaches(k, w, n);
    RunToThenAll(c, w, n, 0, 0);
    RunStops(m, w, n);
    FeedZero(c);
    FeedZero(m);
    MatchStep(m, w);
  }

  lemma FeedZero(c: Config)
    ensures Feed(c, 0, 0) == c
  {
    ShlOne(c.n);
  }

  /** The last call had output space left. */
  ghost predicate SpaceLeft(ps: seq<Piece>, size: nat)
    requires Valid(INIT)
  {
    ps != [] && |Play(INIT, ps, size).out| < |Play(INIT, ps[..|ps| - 1], size).out| + ps[|ps| - 1].room
  }

  /** Every schedule whose last call had output space left ends with the one-shot output. */
  ghost predicate ScheduleFree(size: nat)
    requires Valid(INIT)
  {
    forall ps: seq<Piece> :: SpaceLeft(ps, size) ==> Play(INIT, ps, size).out == OneShot(INIT, AllInput(ps), size).out
  }

  /** Of the window sizes a raw stream can ask for, only the largest makes the output independent of the schedule. */
  lemma FullWindowNeeded(k: nat)
    requires 8 <= k <= 15
    ensures Valid(INIT) && (ScheduleFree(Pow2(k)) <==> k == 15)
  {
    hide Valid, Call, OneShot, Pow2, Play, AllInput, Stream, INIT;
    InitIsValid();
    var size := Pow2(k);
    if k == 15 {
      FullSize();
      forall ps: seq<Piece> | SpaceLeft(ps, size)
        ensures Play(INIT, ps, size).out == OneShot(INIT, AllInput(ps), size).out
      {
        ScheduleComplete(INIT, ps, size);
      }
    } else {
      var ps := [FirstPiece(k), Piece([], 3)];
      SmallWindowFails(k);
      PlayTwo(INIT, FirstPiece(k), Piece([], 3), size);
      FirstCall(k);
      FirstPlayed(k, size);
      assert ps[..1] == [FirstPiece(k)];
      assert SpaceLeft(ps, size);
      assert !ScheduleFree(size);
    }
  }

  lemma FirstPlayed(k: nat, size: nat)
    requires 8 <= k < 15 && size == Pow2(k)
    ensures Valid(INIT) && Play(INIT, [FirstPiece(k)], size) == AtMatch(k)
  {
    hide Valid, Call, Pow2, Stream, INIT;
    FirstCall(k);
    assert [FirstPiece(k)][..0] == [];
    assert Play(INIT, [], size) == INIT;
  }

  lemma FullSize()
    ensures Pow2(15) == 32768
  {
    InflateRun.Pow2Values();
  }
}
