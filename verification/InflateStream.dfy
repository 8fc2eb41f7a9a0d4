/**
  A stream of blocks in the format of RFC 1951, read in one call, gives what its blocks stand for: the stored bytes,
  and the expansion of the tokens.
 */
module InflateStream {
  import opened Bits
  import opened Bytes
  import opened Canonical
  import opened DecodeTable
  import opened InflateSpec
  import opened InflateSchedule
  import opened InflateSteps
  import opened DeflateTokens
  import opened DeflateFormat
  import opened DeflateEncode
  import opened InflateFormat
  import opened InflateBlocks
  import InflateRun
  import InflateTable

  // ----- the fixed codes -----

  /** The words of the fixed codes (section 3.2.6), as numbers. */
  lemma FixedWords(s: nat)
    requires s < 288
    ensures s < 144 ==> FIXED_LIT[s] == 8 && CodeOf(FIXED_LIT, s) == 0x30 + s
    ensures 144 <= s < 256 ==> FIXED_LIT[s] == 9 && CodeOf(FIXED_LIT, s) == 0x190 + (s - 144)
    ensures 256 <= s < 280 ==> FIXED_LIT[s] == 7 && CodeOf(FIXED_LIT, s) == s - 256
    ensures 280 <= s ==> FIXED_LIT[s] == 8 && CodeOf(FIXED_LIT, s) == 0xc0 + (s - 280)
    ensures s < 32 ==> FIXED_DIST[s] == 5 && CodeOf(FIXED_DIST, s) == s
  {
    hide Count, Used;
    FixedCounted(s);
    InflateRun.FixedUsed(4);
    InflateRun.FixedUsed(6);
    InflateRun.FixedUsed(7);
    InflateRun.FixedUsed(8);
  }

  /** How many symbols before s have its length. */
  lemma FixedCounted(s: nat)
    requires s < 288
    ensures |FIXED_LIT| == 288
    ensures s < 144 ==> Count(FIXED_LIT[..s], 8) == s
    ensures 144 <= s < 256 ==> Count(FIXED_LIT[..s], 9) == s - 144
    ensures 256 <= s < 280 ==> Count(FIXED_LIT[..s], 7) == s - 256
    ensures 280 <= s ==> Count(FIXED_LIT[..s], 8) == 144 + (s - 280)
    ensures s < 32 ==> Count(FIXED_DIST[..s], 5) == s
  {
    hide Count;
    if s < 144 {
      assert FIXED_LIT[..s] == Repeat<nat>(8, s);
      InflateRun.CountRepeat(8, s, 8);
    } else if s < 256 {
      assert FIXED_LIT[..s] == Repeat<nat>(8, 144) + Repeat<nat>(9, s - 144);
      CountTwo(8, 144, 9, s - 144, 9);
    } else if s < 280 {
      assert FIXED_LIT[..s] == Repeat<nat>(8, 144) + Repeat<nat>(9, 112) + Repeat<nat>(7, s - 256);
      InflateRun.CountAppend(Repeat<nat>(8, 144) + Repeat<nat>(9, 112), Repeat<nat>(7, s - 256), 7);
      CountTwo(8, 144, 9, 112, 7);
      InflateRun.CountRepeat(7, s - 256, 7);
    } else {
      var a, b := Repeat<nat>(8, 144) + Repeat<nat>(9, 112), Repeat<nat>(7, 24);
      assert FIXED_LIT[..s] == a + b + Repeat<nat>(8, s - 280);
      InflateRun.CountAppend(a + b, Repeat<nat>(8, s - 280), 8);
      InflateRun.CountAppend(a, b, 8);
      CountTwo(8, 144, 9, 112, 8);
      InflateRun.CountRepeat(7, 24, 8);
      InflateRun.CountRepeat(8, s - 280, 8);
    }
    if s < 32 {
      assert FIXED_DIST[..s] == Repeat<nat>(5, s);
      InflateRun.CountRepeat(5, s, 5);
    }
  }

  lemma CountTwo(x: nat, j: nat, y: nat, k: nat, l: nat)
    ensures Count(Repeat<nat>(x, j) + Repeat<nat>(y, k), l) == (if x == l then j else 0) + if y == l then k else 0
  {
    hide Count;
    InflateRun.CountAppend(Repeat<nat>(x, j), Repeat<nat>(y, k), l);
    InflateRun.CountRepeat(x, j, l);
    InflateRun.CountRepeat(y, k, l);
  }

  /** With the fixed codes every byte, and every length and distance of the format, can be written. */
  lemma FixedWritable(t: Token)
    requires t.Copy? ==> 3 <= t.length <= 258 && 1 <= t.distance <= 32768
    ensures Writable(FIXED_LIT, FIXED_DIST, t)
  {
    hide LengthSymbol, DistSymbol;
    match t
    case Literal(b) =>
    case Copy(d, n) =>
      LengthDenoted(n);
      DistDenoted(d);
  }

  lemma EndWord()
    ensures IsSymbol(FIXED_LIT, 256) && |FIXED_LIT| == 288
  {
  }

  // ----- blocks -----

  lemma BlockValid(c: Config, s: Stream)
    requires IsStream(s)
    ensures Valid(On(c, s).(phase := Phase.Block))
  {
  }

  /** What follows the first three bits of each kind of block. */
  function PhaseAfter(kind: nat): Phase {
    if kind == 0 then Stored else if kind == 1 then Coded(FIXED_LIT, FIXED_DIST, Sub.Len) else if kind == 2 then Table
    else Phase.Bad
  }

  /** The first three bits: whether it is the last block, and its type; type 3 is none. */
  lemma TypeRead(c: Config, w: Window, last: bool, kind: nat, body: Stream)
    requires kind < 4 && IsStream(body) && !c.last
    ensures var s := Then(Stream(if last then 1 else 0, 1), Then(Stream(kind, 2), body));
      Leads(On(c, s).(phase := Phase.Block), On(c, body).(phase := PhaseAfter(kind), last := last), w)
  {
    hide Pow2, Next, RunAll, Lo, Hi, Shl, Valid, IsStream, Then, FIXED_LIT, FIXED_DIST;
    var x, y := Stream(if last then 1 else 0, 1), Stream(kind, 2);
    SmallField(x.v, 1);
    SmallField(kind, 2);
    ThenIsStream(y, body);
    ThenIsStream(x, Then(y, body));
    ThenLength(y, body);
    ThenLength(x, Then(y, body));
    var d := c.(phase := Phase.Block);
    var c0 := On(d, Then(x, Then(y, body)));
    TakeFirst(d, x, Then(y, body));
    TakeFirst(d, y, body);
    BlockValid(c, Then(x, Then(y, body)));
    BlockNext(c0, w);
    Step(c0, On(c, body).(phase := PhaseAfter(kind), last := last), w);
  }

  lemma FixedRead(c: Config, w: Window, ts: seq<Token>, rest: Stream)
    requires AllWritable(FIXED_LIT, FIXED_DIST, ts) && IsStream(rest) && w.base == 0 && Written(Some(c.out), ts).Some?
    ensures |FIXED_LIT| > 256
    ensures Leads(On(c, Then(TokensStream(FIXED_LIT, FIXED_DIST, ts), rest)).(phase := PhaseAfter(1)),
      On(c, rest).(phase := Phase.Block, out := Written(Some(c.out), ts).value), w)
  {
    hide Pow2, RunAll, Accepted, FIXED_LIT, FIXED_DIST, TokensStream, IsStream, Then, Valid, Written;
    EndWord();
    InflateRun.FixedAccepted();
    TokensRead(c.(phase := PhaseAfter(1)), w, FIXED_LIT, FIXED_DIST, ts, rest);
  }

  lemma ChunkUsable(h: Header, ts: seq<Token>, p: nat)
    requires IsChunk(Dynamic(h, ts), p)
    ensures Usable(h) && |LitLens(h)| > 256 && AllWritable(LitLens(h), DistLens(h), ts)
  {
    hide Runs, ExtendAll, InflateTable.Result, Writable;
  }

  lemma DynamicRead(c: Config, w: Window, h: Header, ts: seq<Token>, p: nat, rest: Stream)
    requires IsChunk(Dynamic(h, ts), p) && IsStream(rest) && w.base == 0 && Written(Some(c.out), ts).Some?
    ensures Usable(h) && |LitLens(h)| > 256 && AllWritable(LitLens(h), DistLens(h), ts)
    ensures Leads(On(c, Then(Then(HeaderStream(h), TokensStream(LitLens(h), DistLens(h), ts)), rest)).(phase := Table),
      On(c, rest).(phase := Phase.Block, out := Written(Some(c.out), ts).value), w)
  {
    hide Pow2, RunAll, Accepted, TokensStream, IsStream, Then, Valid, Written, IsChunk, Usable, IsHeader, HeaderStream;
    ChunkUsable(h, ts, p);
    UsableHeader(h);
    var body := TokensStream(LitLens(h), DistLens(h), ts);
    TokensAreStream(LitLens(h), DistLens(h), ts);
    ThenIsStream(body, rest);
    ThenThen(HeaderStream(h), body, rest);
    HeaderRead(c, w, h, Then(body, rest));
    UsableAccepted(h);
    TokensRead(c.(phase := Coded(LitLens(h), DistLens(h), Sub.Len)), w, LitLens(h), DistLens(h), ts, rest);
  }

  lemma UsableHeader(h: Header)
    requires Usable(h)
    ensures IsHeader(h)
  {
  }

  lemma BodyIsStream(b: Chunk, p: nat)
    requires IsChunk(b, p)
    ensures IsStream(BodyStream(b, p))
  {
    hide Pow2, TokensStream, HeaderStream, IsStream, Then, Bytewise, IsHeader, InflateTable.Result, Writable;
    match b
    case Plain(filler, data) =>
      FillerIsStream(filler, Gap(p + 3));
      BytewiseIs(data);
      SmallField(|data|, 16);
      SmallField(65535 - |data|, 16);
      ThenIsStream(Stream(65535 - |data|, 16), Bytewise(data));
      ThenIsStream(Stream(|data|, 16), Then(Stream(65535 - |data|, 16), Bytewise(data)));
      ThenIsStream(Stream(filler, Gap(p + 3)),
        Then(Stream(|data|, 16), Then(Stream(65535 - |data|, 16), Bytewise(data))));
    case Fixed(ts) =>
      EndWord();
      TokensAreStream(FIXED_LIT, FIXED_DIST, ts);
    case Dynamic(h, ts) =>
      ChunkUsable(h, ts, p);
      HeaderIsStream(h);
      TokensAreStream(LitLens(h), DistLens(h), ts);
      ThenIsStream(HeaderStream(h), TokensStream(LitLens(h), DistLens(h), ts));
  }

  lemma FillerIsStream(x: nat, n: nat)
    requires x < Pow2(n)
    ensures IsStream(Stream(x, n))
  {
  }

  /** The filler of a stored block ends at a byte boundary. */
  lemma AfterFiller(p: nat, rest: Stream, data: seq<Byte>, n: nat)
    requires n == Gap(p + 3) + 16 + 16 + 8 * |data| && (p + 3 + n + rest.n) % 8 == 0
    ensures rest.n % 8 == 0
  {
  }

  lemma PlainParts(filler: Stream, data: seq<Byte>, rest: Stream)
    requires |data| <= 65535
    ensures Then(Then(filler, Then(Stream(|data|, 16), Then(Stream(65535 - |data|, 16), Bytewise(data)))), rest) ==
      Then(filler, Then(Stream(|data|, 16), Then(Stream(65535 - |data|, 16), Then(Bytewise(data), rest))))
  {
    hide Then, Bytewise;
    var x, y, z := Stream(|data|, 16), Stream(65535 - |data|, 16), Bytewise(data);
    ThenThen(filler, Then(x, Then(y, z)), rest);
    ThenThen(x, Then(y, z), rest);
    ThenThen(y, z, rest);
  }

  lemma PlainLength(filler: Stream, data: seq<Byte>)
    requires |data| <= 65535
    ensures Then(filler, Then(Stream(|data|, 16), Then(Stream(65535 - |data|, 16), Bytewise(data)))).n ==
      filler.n + 16 + 16 + 8 * |data|
  {
    hide Val, Shl;
  }

  /** The rest of a block after its type. */
  lemma BodyRead(c: Config, w: Window, b: Chunk, p: nat, rest: Stream)
    requires IsChunk(b, p) && IsStream(rest) && w.base == 0 && (p + 3 + BodyStream(b, p).n + rest.n) % 8 == 0
    requires ChunkOut(Some(c.out), b).Some?
    ensures Leads(On(c, Then(BodyStream(b, p), rest)).(phase := PhaseAfter(TypeOf(b))),
      On(c, rest).(phase := Phase.Block, out := ChunkOut(Some(c.out), b).value), w)
  {
    hide Pow2, RunAll, TokensStream, HeaderStream, IsStream, Then, Bytewise, Valid, FIXED_LIT, FIXED_DIST, IsHeader,
      InflateTable.Result, AllWritable, Written, Leads;
    match b
    case Plain(filler, data) =>
      var f := Stream(filler, Gap(p + 3));
      FillerIsStream(filler, Gap(p + 3));
      PlainLength(f, data);
      AfterFiller(p, rest, data, BodyStream(b, p).n);
      PlainParts(f, data, rest);
      PlainRead(c, w, f, data, rest);
    case Fixed(ts) => FixedRead(c, w, ts, rest);
    case Dynamic(h, ts) => DynamicRead(c, w, h, ts, p, rest);
  }

  lemma ChunkIsStream(b: Chunk, last: bool, p: nat)
    requires IsChunk(b, p)
    ensures IsStream(ChunkStream(b, last, p)) && ChunkStream(b, last, p).n == 3 + BodyStream(b, p).n
  {
    hide Pow2, IsChunk, BodyStream, IsStream, Then;
    var x, y := Stream(if last then 1 else 0, 1), Stream(TypeOf(b), 2);
    SmallField(x.v, 1);
    SmallField(y.v, 2);
    BodyIsStream(b, p);
    ThenIsStream(y, BodyStream(b, p));
    ThenIsStream(x, Then(y, BodyStream(b, p)));
    ThenLength(y, BodyStream(b, p));
    ThenLength(x, Then(y, BodyStream(b, p)));
  }

  /** One block. */
  lemma ChunkRead(c: Config, w: Window, b: Chunk, last: bool, p: nat, rest: Stream)
    requires IsChunk(b, p) && IsStream(rest) && w.base == 0 && !c.last
    requires (p + ChunkStream(b, last, p).n + rest.n) % 8 == 0 && ChunkOut(Some(c.out), b).Some?
    ensures Leads(On(c, Then(ChunkStream(b, last, p), rest)).(phase := Phase.Block),
      On(c, rest).(phase := Phase.Block, last := last, out := ChunkOut(Some(c.out), b).value), w)
  {
    hide Pow2, RunAll, IsChunk, BodyStream, IsStream, Then, Valid, ChunkOut, PhaseAfter;
    ChunkIsStream(b, last, p);
    var x, y, body := Stream(if last then 1 else 0, 1), Stream(TypeOf(b), 2), BodyStream(b, p);
    BodyIsStream(b, p);
    ThenIsStream(body, rest);
    ThenThen(x, Then(y, body), rest);
    ThenThen(y, body, rest);
    TypeRead(c, w, last, TypeOf(b), Then(body, rest));
    BodyRead(c.(last := last), w, b, p, rest);
  }

  // ----- streams -----

  lemma ChunksNext(bs: seq<Chunk>, b: Chunk)
    requires AreChunks(bs) && IsChunk(b, ChunksStream(bs, false).n)
    ensures AreChunks(bs + [b])
    ensures forall final ::
      ChunksStream(bs + [b], final) == Then(ChunksStream(bs, false), ChunkStream(b, final, ChunksStream(bs, false).n))
  {
    hide IsChunk, BodyStream, Then, ChunkStream;
    assert (bs + [b])[..|bs|] == bs;
  }

  lemma ChunksSplit(bs: seq<Chunk>, final: bool)
    requires AreChunks(bs) && bs != []
    ensures AreChunks(bs[..|bs| - 1])
    ensures var before := ChunksStream(bs[..|bs| - 1], false);
      && IsChunk(bs[|bs| - 1], before.n)
      && ChunksStream(bs, final) == Then(before, ChunkStream(bs[|bs| - 1], final, before.n))
  {
    hide IsChunk, BodyStream, Then, ChunkStream;
  }

  lemma {:induction false} ChunksAreStream(bs: seq<Chunk>, final: bool)
    requires AreChunks(bs)
    ensures IsStream(ChunksStream(bs, final))
    decreases bs
  {
    hide IsChunk, ChunkStream, IsStream, Then, AreChunks, ChunksStream;
    if bs == [] {
      EmptyChunks(final);
      NothingIsStream();
    } else {
      ChunksSplit(bs, final);
      var before, b := ChunksStream(bs[..|bs| - 1], false), bs[|bs| - 1];
      ChunksAreStream(bs[..|bs| - 1], false);
      ChunkIsStream(b, final, before.n);
      ThenIsStream(before, ChunkStream(b, final, before.n));
    }
  }

  lemma EmptyChunks(final: bool)
    ensures AreChunks([]) && ChunksStream([], final) == NOTHING
  {
  }

  lemma NoChunkOut(b: Chunk)
    ensures ChunkOut(None, b) == None
  {
    match b
    case Plain(_, _) =>
    case Fixed(ts) => NeverBack(ts);
    case Dynamic(_, ts) => NeverBack(ts);
  }

  /** All blocks. */
  lemma {:induction false} ChunksRead(c: Config, w: Window, bs: seq<Chunk>, final: bool, rest: Stream)
    requires AreChunks(bs) && bs != [] && IsStream(rest) && w.base == 0 && !c.last
    requires (ChunksStream(bs, final).n + rest.n) % 8 == 0 && ChunksOut(Some(c.out), bs).Some?
    ensures Leads(On(c, Then(ChunksStream(bs, final), rest)).(phase := Phase.Block),
      On(c, rest).(phase := Phase.Block, last := final, out := ChunksOut(Some(c.out), bs).value), w)
    decreases bs
  {
    hide RunAll, IsChunk, ChunkStream, IsStream, Then, AreChunks, ChunksStream, Valid, ChunkOut;
    ChunksSplit(bs, final);
    var bs', b := bs[..|bs| - 1], bs[|bs| - 1];
    var before := ChunksStream(bs', false);
    var s := ChunkStream(b, final, before.n);
    ChunkIsStream(b, final, before.n);
    ThenIsStream(s, rest);
    ThenThen(before, s, rest);
    ThenLength(before, s);
    ThenLength(s, rest);
    if ChunksOut(Some(c.out), bs').None? { NoChunkOut(b); }
    var c1 := c.(out := ChunksOut(Some(c.out), bs').value);
    ChunkRead(c1, w, b, final, before.n, rest);
    if bs' == [] {
      EmptyChunks(false);
      ThenNothing(Then(s, rest));
    } else {
      ChunksRead(c, w, bs', false, Then(s, rest));
    }
  }

  /** After the last block: to the byte boundary, and done. */
  lemma EndOfStream(c: Config, w: Window, pad: Stream, tail: Stream)
    requires c.last && c.phase == Phase.Block && IsStream(pad) && IsStream(tail) && pad.n < 8 && tail.n % 8 == 0
    ensures Leads(On(c, Then(pad, tail)), On(c, tail).(phase := Phase.Done), w)
    ensures Next(On(c, tail).(phase := Phase.Done), w).None?
  {
    hide Pow2, RunAll, Lo, Hi, Shl, IsStream, Then;
    ThenIsStream(pad, tail);
    ThenLength(pad, tail);
    TakeFirst(c, pad, tail);
    BlockValid(c, Then(pad, tail));
    var c0 := On(c, Then(pad, tail));
    BlockNext(c0, w);
    Step(c0, On(c, tail).(phase := Phase.Done), w);
  }

  /** The bytes s are the blocks, bits up to the byte boundary, and what follows. */
  predicate IsEncoded(s: seq<Byte>, bs: seq<Chunk>, pad: Stream, tail: seq<Byte>) {
    && bs != [] && AreChunks(bs) && IsStream(pad) && pad.n < 8
    && Bytewise(s) == Then(ChunksStream(bs, true), Then(pad, Bytewise(tail)))
  }

  /**
    Whatever blocks of the format a stream consists of, inflate, given it in one call, stops right behind it with
    the output that the blocks stand for, for any window size.
   */
  lemma StreamRead(s: seq<Byte>, bs: seq<Chunk>, pad: Stream, tail: seq<Byte>, size: nat)
    requires IsEncoded(s, bs, pad, tail) && ChunksOut(Some([]), bs).Some?
    ensures Valid(INIT)
    ensures OneShot(INIT, s, size) == Config(true, Phase.Done, Val(tail), 8 * |tail|, ChunksOut(Some([]), bs).value)
  {
    hide Next, RunAll, Val, IsStream, Then, AreChunks, ChunksStream, Valid, ChunksOut;
    InitValid();
    var w, rest := Window(0, size), Then(pad, Bytewise(tail));
    BytewiseIs(tail);
    ThenIsStream(pad, Bytewise(tail));
    ThenLength(pad, Bytewise(tail));
    ThenLength(ChunksStream(bs, true), rest);
    FromStart(s);
    ChunksRead(INIT, w, bs, true, rest);
    var c := INIT.(last := true, out := ChunksOut(Some([]), bs).value);
    EndOfStream(c, w, pad, Bytewise(tail));
    Stays(On(c, Bytewise(tail)).(phase := Phase.Done), w);
  }

  lemma InitValid()
    ensures Valid(INIT)
  {
  }

  lemma FromStart(s: seq<Byte>)
    ensures FeedBytes(INIT, s) == On(INIT, Bytewise(s))
  {
    hide Val;
    ShlZero(Val(s));
  }

  lemma Stays(c: Config, w: Window)
    requires Valid(c) && Next(c, w).None?
    ensures RunAll(c, w) == c
  {
    hide Next, Valid;
  }
}
