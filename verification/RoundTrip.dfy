/**
  From deflate to inflate: whatever kind of block the bit output chooses for each block of tokens it is handed, the
  stream it writes inflates to the data that went into the matcher.
 */
module RoundTrip {
  import opened Bits
  import opened Bytes
  import opened InflateSpec
  import opened DeflateTokens
  import opened DeflateMatch
  import opened DeflateEncode
  import opened InflateFormat
  import opened InflateBlocks
  import opened InflateStream
  import opened DeflateState
  import opened DeflateFormat
  import opened TreesTables
  import opened BitOutput
  import InflateRun
  import InflateSchedule
  import InflateSession
  import DeflateSession
  import DeflateSlow
  import DeflateRule

  // ----- from blocks of tokens to blocks of the format -----

  /** One block of the format for a block of tokens: stored if its bytes are known, or with either kind of codes. */
  predicate Writes(b: Block, c: Chunk) {
    match c
    case Plain(_, data) => b.stored == Some(data)
    case Fixed(ts) => ts == b.tokens
    case Dynamic(_, ts) => ts == b.tokens
  }

  predicate AllWrite(blocks: seq<Block>, cs: seq<Chunk>) {
    |blocks| == |cs| && forall i {:trigger cs[i]} :: 0 <= i < |cs| ==> Writes(blocks[i], cs[i])
  }

  /** However each block is written, together they stand for the data. */
  lemma {:induction false} BlocksOut(blocks: seq<Block>, cs: seq<Chunk>, data: seq<Byte>, end: nat)
    requires Blocks(blocks, data, end) && AllWrite(blocks, cs)
    ensures end <= |data| && ChunksOut(Some([]), cs) == Some(data[..end])
    decreases |blocks|
  {
    hide Expand, Written;
    BlocksExpand(blocks, data, end);
    if blocks == [] {
      assert data[..end] == [];
    } else {
      var b, before, c, cs' := blocks[|blocks| - 1], blocks[..|blocks| - 1], cs[|cs| - 1], cs[..|cs| - 1];
      var mid := end - b.storedLen;
      BlocksOut(before, cs', data, mid);
      BlocksExpand(before, data, mid);
      assert Writes(b, c);
      WrittenExpand(AllTokens(before), b.tokens);
      assert data[..mid] + data[mid..end] == data[..end];
    }
  }

  /**
    However the blocks of a session that is done are written, inflate gives back the input, for any window size and
    whatever follows the stream.
   */
  lemma WrittenInflates(blocks: seq<Block>, cs: seq<Chunk>, data: seq<Byte>, s: seq<Byte>, pad: Stream, tail: seq<Byte>,
      size: nat)
    requires Blocks(blocks, data, |data|) && AllWrite(blocks, cs) && IsEncoded(s, cs, pad, tail)
    ensures Valid(InflateSchedule.INIT) && InflateSchedule.OneShot(InflateSchedule.INIT, s, size) ==
      Config(true, Phase.Done, InflateSchedule.Val(tail), 8 * |tail|, data)
  {
    hide Blocks, AllWrite, IsEncoded, Valid, InflateSchedule.OneShot, InflateSchedule.Val, ChunksOut;
    BlocksOut(blocks, cs, data, |data|);
    StreamRead(s, cs, pad, tail, size);
    assert data[..|data|] == data;
  }

  // ----- writing the blocks -----

  /** d_buf and l_buf for tokens. */
  function DBuf(ts: seq<Token>): (d: seq<nat>)
    ensures |d| == |ts|
  {
    seq(|ts|, i requires 0 <= i < |ts| => match ts[i] case Literal(_) => 0 case Copy(d, _) => d)
  }

  function LBuf(ts: seq<Token>): (l: seq<Byte>)
    ensures |l| == |ts|
  {
    seq(|ts|, i requires 0 <= i < |ts| =>
      match ts[i] case Literal(b) => b case Copy(_, n) => if 3 <= n <= 258 then n - 3 else 0)
  }

  lemma BuffersHold(ts: seq<Token>)
    requires forall t {:trigger t in ts} :: t in ts ==> t.Copy? ==> t.distance > 0 && 3 <= t.length <= 258
    ensures Tokens(DBuf(ts), LBuf(ts)) == ts
  {
    forall i | 0 <= i < |ts|
      ensures Tokens(DBuf(ts), LBuf(ts))[i] == ts[i]
    {
      assert ts[i] in ts;
    }
  }

  /** A block of tokens with what its kind is chosen by: the trees built have words for all its tokens. */
  predicate Sendable(b: Block, p: Choice) {
    && AllWritable(FIXED_LIT, FIXED_DIST, b.tokens)
    && (p.fixedOnly || (GoodTrees(p.tr) && AllWritable(p.tr.lit, p.tr.dst, b.tokens)))
    && b.storedLen >= 0 && (b.stored.Some? ==> |b.stored.value| == b.storedLen <= 65535)
  }

  lemma FixedBuffers(ts: seq<Token>)
    requires AllWritable(FIXED_LIT, FIXED_DIST, ts)
    ensures Tokens(DBuf(ts), LBuf(ts)) == ts
  {
    hide FIXED_LIT, FIXED_DIST, LengthSymbol, DistSymbol, Tokens;
    forall t {:trigger t in ts} | t in ts
      ensures t.Copy? ==> t.distance > 0 && 3 <= t.length <= 258
    {
      var i :| 0 <= i < |ts| && ts[i] == t;
      assert Writable(FIXED_LIT, FIXED_DIST, ts[i]);
    }
    BuffersHold(ts);
  }

  /**
    Hands the blocks to _tr_flush_block() one after the other; the last one is marked and filled up. cs are the
    blocks as they were written.
   */
  method WriteBlocks(blocks: seq<Block>, ps: seq<Choice>) returns (s: seq<Byte>, cs: seq<Chunk>)
    requires blocks != [] && |ps| == |blocks|
    requires forall i {:trigger blocks[i]} :: 0 <= i < |blocks| ==> Sendable(blocks[i], ps[i])
    ensures AllWrite(blocks, cs) && AreChunks(cs) && IsEncoded(s, cs, Stream(0, Gap(ChunksStream(cs, true).n)), [])
  {
    hide IsChunk, ChunkStream, Then, AreChunks, ChunksStream, Bytewise, Gap, Right, GoodStatic,
      GoodTrees, AllWritable, FIXED_LIT, FIXED_DIST, Tokens;
    var t := StaticInit();
    var lit, dst := StaticTrees();
    var st := StaticCodes(lit, dst);
    StaticIsGood(st);
    var w := new Pending();
    cs := [];
    EmptyChunks(false);
    for i := 0 to |blocks|
      invariant w.Valid() && fresh(w) && |cs| == i && AllWrite(blocks[..i], cs)
      invariant AreChunks(cs) && (i < |blocks| ==> w.Abs() == ChunksStream(cs, false))
      invariant i == |blocks| ==> w.Abs() == Bytewise(w.bytes)
      invariant i == |blocks| ==> w.Abs() == Then(ChunksStream(cs, true), Stream(0, Gap(ChunksStream(cs, true).n)))
    {
      var b, last := blocks[i], i == |blocks| - 1;
      FixedBuffers(b.tokens);
      var c := w.FlushBlock(b.stored, b.storedLen, ps[i], DBuf(b.tokens), LBuf(b.tokens), t, st, last);
      ChunksNext(cs, c);
      assert blocks[..i + 1] == blocks[..i] + [b];
      cs := cs + [c];
    }
    assert blocks[..|blocks|] == blocks;
    s := w.bytes;
    Filled(s, cs);
  }

  lemma StaticIsGood(st: StaticCodes)
    requires HasCodes(FIXED_LIT, st.lit) && HasCodes(STATIC_DIST, st.dst)
    ensures GoodStatic(st)
  {
    hide HasCodes;
  }

  lemma Filled(s: seq<Byte>, cs: seq<Chunk>)
    requires cs != [] && AreChunks(cs)
    requires Bytewise(s) == Then(ChunksStream(cs, true), Stream(0, Gap(ChunksStream(cs, true).n)))
    ensures IsEncoded(s, cs, Stream(0, Gap(ChunksStream(cs, true).n)), [])
  {
    hide AreChunks, ChunksStream, Gap;
    var pad := Stream(0, Gap(ChunksStream(cs, true).n));
    PadIsStream(pad.n);
    NothingFollows(pad);
  }

  lemma PadIsStream(n: nat)
    ensures IsStream(Stream(0, n))
  {
  }

  lemma NothingFollows(pad: Stream)
    ensures Then(pad, Bytewise([])) == pad
  {
    ThenNothing(pad);
  }

  // ----- there and back -----

  /** The output of a single call that has a byte of space to spare. */
  lemma OneCallOut(s: seq<Byte>, room: nat, data: seq<Byte>, out: seq<Byte>, spare: nat)
    requires Valid(InflateSchedule.INIT) && room > |data|
    requires InflateSchedule.OneShot(InflateSchedule.INIT, s, Pow2(15)).out == data
    requires var ps := [InflateSchedule.Piece(s, room)];
      && out <= InflateSchedule.OneShot(InflateSchedule.INIT, InflateSchedule.AllInput(ps), Pow2(15)).out
      && (spare > 0 ==>
          out == InflateSchedule.OneShot(InflateSchedule.INIT, InflateSchedule.AllInput(ps), Pow2(15)).out)
      && spare + |out| == |InflateSchedule.Play(InflateSchedule.INIT, ps[..0], Pow2(15)).out| + room
    ensures out == data
  {
    hide Valid, InflateSchedule.OneShot, Pow2;
    var ps := [InflateSchedule.Piece(s, room)];
    assert ps[..0] == [];
    assert InflateSchedule.AllInput(ps) == s by { assert InflateSchedule.AllInput([]) == []; }
    assert InflateSchedule.Play(InflateSchedule.INIT, [], Pow2(15)) == InflateSchedule.INIT;
  }

  /** Blocks through the bit output, whatever kind is chosen for each, and what it writes through inflate. */
  method WriteAndRead(blocks: seq<Block>, ps: seq<Choice>, ghost data: seq<Byte>, room: nat)
    returns (s: seq<Byte>, out: seq<Byte>)
    requires blocks != [] && |ps| == |blocks| && Blocks(blocks, data, |data|) && room > |data|
    requires forall i {:trigger blocks[i]} :: 0 <= i < |blocks| ==> Sendable(blocks[i], ps[i])
    ensures out == data
  {
    hide AreChunks, ChunksStream, Valid, InflateSchedule.OneShot, Pow2, InflateSchedule.Play, InflateSchedule.AllInput,
      Blocks, InflateSession.AtEnd, InflateSchedule.INIT, IsEncoded, AllWrite, Sendable, Gap, InflateSchedule.Val;
    var cs;
    s, cs := WriteBlocks(blocks, ps);
    WrittenInflates(blocks, cs, data, s, Stream(0, Gap(ChunksStream(cs, true).n)), [], Pow2(15));
    var unread, spare;
    out, unread, spare := InflateSession.Session(15, [InflateSchedule.Piece(s, room)]);
    OneCallOut(s, room, data, out, spare);
  }

  /** The last call is the first to finish or to flush after no finish, and its blocks fit. */
  predicate Flushes(fs: seq<DeflateSession.Feed>, blocks: nat)
    requires fs != []
  {
    var f := fs[|fs| - 1];
    f.flush != DeflateSlow.NoFlush && blocks < f.room && DeflateSession.NoFinish(fs[..|fs| - 1])
  }

  /** Bytes of a block are offered for storing if their number fits in 16 bits. */
  function Offer(b: Block): Block {
    b.(stored := if b.stored.Some? && |b.stored.value| <= 65535 then b.stored else None)
  }

  function Offers(blocks: seq<Block>): (bs: seq<Block>)
    ensures |bs| == |blocks|
  {
    seq(|blocks|, i requires 0 <= i < |blocks| => Offer(blocks[i]))
  }

  lemma {:induction false} OffersTokens(blocks: seq<Block>)
    ensures AllTokens(Offers(blocks)) == AllTokens(blocks)
  {
    if blocks != [] {
      assert Offers(blocks)[..|blocks| - 1] == Offers(blocks[..|blocks| - 1]);
      OffersTokens(blocks[..|blocks| - 1]);
    }
  }

  lemma {:induction false} OffersBlocks(blocks: seq<Block>, data: seq<Byte>, end: nat)
    requires Blocks(blocks, data, end)
    ensures Blocks(Offers(blocks), data, end)
  {
    hide Expand;
    OffersTokens(blocks);
    if blocks != [] {
      assert Offers(blocks)[..|blocks| - 1] == Offers(blocks[..|blocks| - 1]);
      OffersBlocks(blocks[..|blocks| - 1], data, end - blocks[|blocks| - 1].storedLen);
    }
  }

  lemma {:induction false} BlockFacts(blocks: seq<Block>, data: seq<Byte>, end: nat, i: nat)
    requires Blocks(blocks, data, end) && i < |blocks|
    ensures blocks[i].storedLen >= 0 && (blocks[i].stored.Some? ==> |blocks[i].stored.value| == blocks[i].storedLen)
    ensures forall t {:trigger t in blocks[i].tokens} :: t in blocks[i].tokens ==> t in AllTokens(blocks)
    decreases |blocks|
  {
    hide Expand;
    if i < |blocks| - 1 { BlockFacts(blocks[..|blocks| - 1], data, end - blocks[|blocks| - 1].storedLen, i); }
  }

  /** Nothing at all is written as an empty block. */
  function AtLeastOne(blocks: seq<Block>): seq<Block> {
    if blocks == [] then [DeflateTokens.Block.Block(None, 0, [], true)] else blocks
  }

  lemma StillBlocks(blocks: seq<Block>, data: seq<Byte>, end: nat)
    requires Blocks(blocks, data, end)
    ensures Blocks(AtLeastOne(blocks), data, end) && AllTokens(AtLeastOne(blocks)) == AllTokens(blocks)
  {
    hide Expand;
    if blocks == [] {
      var b := DeflateTokens.Block.Block(None, 0, [], true);
      assert [b][..0] == [] && AllTokens([]) + [] == [];
      assert AllTokens([b]) == [] && Expand([]) == Some([]) && data[..0] == [] by { NoTokens(b); }
    }
  }

  lemma NoTokens(b: Block)
    requires b.tokens == []
    ensures AllTokens([b]) == [] && Expand([]) == Some([])
  {
    assert [b][..0] == [];
  }

  const NO_TREES := Trees([], [], [], [], 0, [], [])

  /** Each block is stored if that is asked for and can be done, and written with the static trees otherwise. */
  function Choices(blocks: seq<Block>, store: seq<bool>): (ps: seq<Choice>)
    ensures |ps| == |blocks|
  {
    seq(|blocks|, i requires 0 <= i < |blocks| =>
      Choice(if i < |store| && store[i]
          && blocks[i].storedLen >= 0 then blocks[i].storedLen + 4 else 0, 0, true, NO_TREES))
  }

  lemma SessionSendable(p: Settings, blocks: seq<Block>, data: seq<Byte>, end: nat, store: seq<bool>)
    requires ValidSettings(p) && Blocks(blocks, data, end)
    requires forall t {:trigger t in AllTokens(blocks)} :: t in AllTokens(blocks) ==> IsToken(t, MaxDist(p))
    ensures var bs := AtLeastOne(Offers(blocks));
      && Blocks(bs, data, end)
      && forall i {:trigger bs[i]} :: 0 <= i < |bs| ==> Sendable(bs[i], Choices(bs, store)[i])
  {
    hide Blocks, AllTokens, FIXED_LIT, FIXED_DIST, GoodTrees, AllWritable, IsToken;
    var bs := AtLeastOne(Offers(blocks));
    OffersBlocks(blocks, data, end);
    OffersTokens(blocks);
    StillBlocks(Offers(blocks), data, end);
    forall i {:trigger bs[i]} | 0 <= i < |bs|
      ensures Sendable(bs[i], Choices(bs, store)[i])
    {
      BlockFacts(bs, data, end, i);
      TokensFit(p, bs[i].tokens);
      if blocks != [] { assert bs[i] == Offer(blocks[i]); }
    }
  }

  /** Tokens that a session hands over can be written with the fixed codes. */
  lemma TokensFit(p: Settings, ts: seq<Token>)
    requires ValidSettings(p) && forall t {:trigger t in ts} :: t in ts ==> IsToken(t, MaxDist(p))
    ensures AllWritable(FIXED_LIT, FIXED_DIST, ts)
  {
    hide Writable, FIXED_LIT, FIXED_DIST, WSize, Pow2;
    WSizeBounds(p);
    forall i {:trigger ts[i]} | 0 <= i < |ts|
      ensures Writable(FIXED_LIT, FIXED_DIST, ts[i])
    {
      assert ts[i] in ts;
      FixedWritable(ts[i]);
    }
  }

  /** Blocks that expand to all of the data reach its end. */
  lemma AllOfIt(blocks: seq<Block>, data: seq<Byte>, end: nat)
    requires Blocks(blocks, data, end) && Expand(AllTokens(blocks)) == Some(data)
    ensures end == |data|
  {
    hide Expand, Blocks;
    BlocksExpand(blocks, data, end);
  }

  /**
    Any input through either matcher in any calls, its blocks through the bit output, stored or with the static
    trees as asked, and the bytes written through inflate: once the matcher has handed everything over, the
    result is the input.
   */
  method ThereAndBack(p: Settings, slow: bool, fs: seq<DeflateSession.Feed>, store: seq<bool>)
    returns (blocks: seq<Block>, done: bool, s: seq<Byte>, out: seq<Byte>)
    requires ValidSettings(p)
    ensures done ==> out == DeflateSession.AllInput(fs)
    ensures fs != [] && Flushes(fs, |blocks|) ==> done
  {
    hide IsToken, DeflateRule.Explained, DeflateSession.AllInput, Blocks, Sendable, AtLeastOne, Offers, AllTokens,
      Expand,
      Choices;
    ghost var log;
    blocks, done, log := DeflateSession.Session(p, slow, fs);
    s, out := [], [];
    if done {
      ghost var data := DeflateSession.AllInput(fs);
      ghost var end: nat :| Blocks(blocks, data, end);
      AllOfIt(blocks, data, end);
      SessionSendable(p, blocks, data, end, store);
      var bs := AtLeastOne(Offers(blocks));
      NotNone(blocks);
      s, out := WriteAndRead(bs, Choices(bs, store), data, |DeflateSession.AllInput(fs)| + 1);
    }
  }

  lemma NotNone(blocks: seq<Block>)
    ensures AtLeastOne(Offers(blocks)) != []
  {
  }
}
