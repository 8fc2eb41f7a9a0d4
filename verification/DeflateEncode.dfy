/**
  Blocks of the compressed format (section 3.2 of RFC 1951) as streams of bits: how tokens, code lengths and whole
  blocks are written, given the codes.
 */
module DeflateEncode {
  import opened Bits
  import opened Bytes
  import opened Canonical
  import opened InflateSpec
  import opened InflateSchedule
  import opened DeflateTokens
  import opened DeflateFormat
  import opened DecodeTable
  import InflateTable

  // ----- streams -----

  /** n bits as a number; the first one is its lowest. */
  datatype Stream = Stream(v: nat, n: nat)

  predicate IsStream(s: Stream) {
    s.v < Pow2(s.n)
  }

  const NOTHING := Stream(0, 0)

  /** a, and then b. */
  function Then(a: Stream, b: Stream): Stream {
    Stream(a.v + Shl(b.v, a.n), a.n + b.n)
  }

  /** A Huffman code word, its most significant bit first (section 3.1.1). */
  function Word(lens: seq<nat>, sym: nat): Stream
    requires sym < |lens|
  {
    Stream(Rev(CodeOf(lens, sym), lens[sym]), lens[sym])
  }

  /** Bytes, the least significant bit of each first. */
  function Bytewise(s: seq<Byte>): Stream {
    Stream(Val(s), 8 * |s|)
  }

  lemma ThenNothing(a: Stream)
    ensures Then(a, NOTHING) == a && Then(NOTHING, a) == a
  {
    ShlOne(a.n);
  }

  lemma ThenThen(a: Stream, b: Stream, c: Stream)
    ensures Then(Then(a, b), c) == Then(a, Then(b, c))
  {
    ShlAdd(b.v, Shl(c.v, b.n), a.n);
    ShlShl(c.v, b.n, a.n);
  }

  /** The first bits can be read and dropped. */
  lemma ThenFirst(a: Stream, b: Stream)
    requires IsStream(a)
    ensures Lo(Then(a, b).v, a.n) == a.v && Hi(Then(a, b).v, a.n) == b.v
  {
    AddAbove(a.v, b.v, a.n, a.n);
    LoSmall(a.v, a.n);
    ShlZero(b.v);
  }

  lemma ThenIsStream(a: Stream, b: Stream)
    requires IsStream(a) && IsStream(b)
    ensures IsStream(Then(a, b))
  {
    hide Pow2, Shl;
    ShlBound(b.v, b.n, a.n);
  }

  // ----- tokens -----

  /** The lengths and distances of section 3.2.5, and code words for what is needed. */
  predicate Writable(lit: seq<nat>, dist: seq<nat>, t: Token) {
    match t
    case Literal(b) => IsSymbol(lit, b)
    case Copy(d, n) =>
      && 1 <= d <= 32768 && 3 <= n <= 258
      && IsSymbol(lit, LengthSymbol(n)) && IsSymbol(dist, DistSymbol(d))
  }

  predicate AllWritable(lit: seq<nat>, dist: seq<nat>, ts: seq<Token>) {
    forall i {:trigger ts[i]} :: 0 <= i < |ts| ==> Writable(lit, dist, ts[i])
  }

  /** A length: its symbol, and the extra bits. */
  function LengthStream(lit: seq<nat>, n: nat): Stream
    requires 3 <= n <= 258 && LengthSymbol(n) < |lit|
  {
    Then(Word(lit, LengthSymbol(n)), Stream(LengthRest(n), LengthBits(n)))
  }

  function DistStream(dist: seq<nat>, d: nat): Stream
    requires 1 <= d <= 32768 && DistSymbol(d) < |dist|
  {
    Then(Word(dist, DistSymbol(d)), Stream(DistRest(d), DistBits(d)))
  }

  function TokenStream(lit: seq<nat>, dist: seq<nat>, t: Token): Stream
    requires Writable(lit, dist, t)
  {
    match t
    case Literal(b) => Word(lit, b)
    case Copy(d, n) => Then(LengthStream(lit, n), DistStream(dist, d))
  }

  /** Tokens from the first on, and the end of the block. */
  function TokensStream(lit: seq<nat>, dist: seq<nat>, ts: seq<Token>): Stream
    requires AllWritable(lit, dist, ts) && |lit| > 256
  {
    if ts == [] then Word(lit, 256) else Then(TokenStream(lit, dist, ts[0]), TokensStream(lit, dist, ts[1..]))
  }

  // ----- the codes of a dynamic block -----

  /** Code lengths as they are written: one; or the one before, 3 to 6 times; or 3 to 10 or 11 to 138 zeros. */
  datatype Run = One(len: nat) | Again(count: nat) | FewZeros(count: nat) | ManyZeros(count: nat)

  predicate IsRun(r: Run) {
    match r
    case One(len) => len <= 15
    case Again(k) => 3 <= k <= 6
    case FewZeros(k) => 3 <= k <= 10
    case ManyZeros(k) => 11 <= k <= 138
  }

  /** Its symbol of the code length code. */
  function RunSymbol(r: Run): nat {
    match r
    case One(len) => len
    case Again(_) => 16
    case FewZeros(_) => 17
    case ManyZeros(_) => 18
  }

  /** Its extra bits: 2, 3 and 7 for the repeat counts. */
  function RunExtra(r: Run): Stream
    requires IsRun(r)
  {
    match r
    case One(_) => NOTHING
    case Again(k) => Stream(k - 3, 2)
    case FewZeros(k) => Stream(k - 3, 3)
    case ManyZeros(k) => Stream(k - 11, 7)
  }

  /** The code lengths so far, and the run. */
  function Extend(ls: seq<nat>, r: Run): seq<nat> {
    match r
    case One(len) => ls + [len]
    case Again(k) => ls + Repeat(if ls == [] then 0 else ls[|ls| - 1], k)
    case FewZeros(k) => ls + Repeat(0, k)
    case ManyZeros(k) => ls + Repeat(0, k)
  }

  function ExtendAll(ls: seq<nat>, rs: seq<Run>): seq<nat>
    decreases rs
  {
    if rs == [] then ls else ExtendAll(Extend(ls, rs[0]), rs[1..])
  }

  function RunStream(code: seq<nat>, r: Run): Stream
    requires IsRun(r) && RunSymbol(r) < |code|
  {
    Then(Word(code, RunSymbol(r)), RunExtra(r))
  }

  /** Runs that can be written with the code and are read back: there is something to repeat. */
  predicate Runs(code: seq<nat>, ls: seq<nat>, rs: seq<Run>)
    decreases rs
  {
    rs == [] ||
    (IsRun(rs[0]) && IsSymbol(code, RunSymbol(rs[0])) && (rs[0].Again? ==> ls != [])
     && Runs(code, Extend(ls, rs[0]), rs[1..]))
  }

  function RunsStream(code: seq<nat>, ls: seq<nat>, rs: seq<Run>): Stream
    requires Runs(code, ls, rs)
    decreases rs
  {
    if rs == [] then NOTHING else Then(RunStream(code, rs[0]), RunsStream(code, Extend(ls, rs[0]), rs[1..]))
  }

  /** Where the lengths of the code length code are written: 16, 17, 18, 0, and then from the middle outwards. */
  function OrderAt(k: nat): (s: nat)
    requires k < 19
    ensures s < 19
  {
    if k < 3 then 16 + k
    else if k == 3 then 0
    else if k % 2 == 0 then 8 + (k - 4) / 2
    else 7 - (k - 5) / 2
  }

  /** The lengths of the code length code from place i on, three bits each. */
  function OrderStream(code: seq<nat>, i: nat, ncode: nat): Stream
    requires |code| == 19 && i <= ncode <= 19
    decreases ncode - i
  {
    if i == ncode then NOTHING else Then(Stream(code[OrderAt(i)], 3), OrderStream(code, i + 1, ncode))
  }

  /** The codes of a dynamic block: how many lengths, the code length code, and the runs. */
  datatype Header = Header(nlen: nat, ndist: nat, ncode: nat, code: seq<nat>, runs: seq<Run>)

  function LengthsOf(h: Header): seq<nat> {
    ExtendAll([], h.runs)
  }

  function HeaderStream(h: Header): Stream
    requires IsHeader(h)
  {
    Then(Stream(h.nlen - 257, 5), Then(Stream(h.ndist - 1, 5), Then(Stream(h.ncode - 4, 4),
      Then(OrderStream(h.code, 0, h.ncode), RunsStream(h.code, [], h.runs)))))
  }

  /** What section 3.2.7 asks for: the ranges of the counts, and code lengths that fit. */
  predicate IsHeader(h: Header) {
    && 257 <= h.nlen <= 286 && 1 <= h.ndist <= 30 && 4 <= h.ncode <= 19
    && |h.code| == 19 && (forall s {:trigger h.code[s]} :: 0 <= s < 19 ==> h.code[s] <= 7)
    && (forall k: nat {:trigger OrderAt(k)} :: h.ncode <= k < 19 ==> h.code[OrderAt(k)] == 0)
    && Runs(h.code, [], h.runs) && |LengthsOf(h)| == h.nlen + h.ndist
  }

  function LitLens(h: Header): seq<nat>
    requires IsHeader(h)
  {
    LengthsOf(h)[..h.nlen]
  }

  function DistLens(h: Header): seq<nat>
    requires IsHeader(h)
  {
    LengthsOf(h)[h.nlen..]
  }

  // ----- blocks -----

  /** The three kinds of blocks; a stored one skips to a byte boundary, and what it skips is filler. */
  datatype Chunk =
    | Plain(filler: nat, data: seq<Byte>)
    | Fixed(tokens: seq<Token>)
    | Dynamic(h: Header, tokens: seq<Token>)

  /** Bits to the next byte boundary. */
  function Gap(p: nat): (k: nat)
    ensures k < 8 && (p + k) % 8 == 0
  {
    (8 - p % 8) % 8
  }

  /** What may be written after p bits; the codes of a dynamic block must be such that inflate_table() takes them. */
  predicate IsChunk(b: Chunk, p: nat) {
    match b
    case Plain(filler, data) => |data| <= 65535 && filler < Pow2(Gap(p + 3))
    case Fixed(ts) => AllWritable(FIXED_LIT, FIXED_DIST, ts)
    case Dynamic(h, ts) =>
      && IsHeader(h) && LengthsOf(h)[256] > 0 && AllWritable(LitLens(h), DistLens(h), ts)
      && InflateTable.Result(Codes, h.code, 7) == 0
      && InflateTable.Result(Lens, LitLens(h), 9) == 0 && InflateTable.Result(Dists, DistLens(h), 6) == 0
  }

  /** The block after its first three bits. */
  function BodyStream(b: Chunk, p: nat): Stream
    requires IsChunk(b, p)
  {
    match b
    case Plain(filler, data) =>
      Then(Stream(filler, Gap(p + 3)), Then(Stream(|data|, 16), Then(Stream(65535 - |data|, 16), Bytewise(data))))
    case Fixed(ts) => TokensStream(FIXED_LIT, FIXED_DIST, ts)
    case Dynamic(h, ts) => Then(HeaderStream(h), TokensStream(LitLens(h), DistLens(h), ts))
  }

  /** The block type: 00 stored, 01 fixed codes, 10 dynamic codes. */
  function TypeOf(b: Chunk): nat {
    match b
    case Plain(_, _) => 0
    case Fixed(_) => 1
    case Dynamic(_, _) => 2
  }

  function ChunkStream(b: Chunk, last: bool, p: nat): Stream
    requires IsChunk(b, p)
  {
    Then(Stream(if last then 1 else 0, 1), Then(Stream(TypeOf(b), 2), BodyStream(b, p)))
  }

  /** Blocks that can be written one after the other. */
  predicate AreChunks(bs: seq<Chunk>)
    decreases bs, 0
  {
    bs == [] ||
    (var before := bs[..|bs| - 1];
     AreChunks(before) && IsChunk(bs[|bs| - 1], ChunksStream(before, false).n))
  }

  /** Final says whether the last of them is the last of the stream. */
  function ChunksStream(bs: seq<Chunk>, final: bool): Stream
    requires AreChunks(bs)
    decreases bs, 1
  {
    hide IsChunk, BodyStream;
    if bs == [] then NOTHING
    else
      var before := ChunksStream(bs[..|bs| - 1], false);
      Then(before, ChunkStream(bs[|bs| - 1], final, before.n))
  }

  // ----- what blocks stand for -----

  /** Tokens from the first on, after what is there already. */
  function Written(out: Option<seq<Byte>>, ts: seq<Token>): Option<seq<Byte>>
    decreases ts
  {
    if ts == [] then out else Written(Apply(out, ts[0]), ts[1..])
  }

  function ChunkOut(out: Option<seq<Byte>>, b: Chunk): Option<seq<Byte>> {
    match b
    case Plain(_, data) => (match out case None => None case Some(s) => Some(s + data))
    case Fixed(ts) => Written(out, ts)
    case Dynamic(_, ts) => Written(out, ts)
  }

  function ChunksOut(out: Option<seq<Byte>>, bs: seq<Chunk>): Option<seq<Byte>> {
    if bs == [] then out else ChunkOut(ChunksOut(out, bs[..|bs| - 1]), bs[|bs| - 1])
  }

  lemma {:induction false} NeverBack(ts: seq<Token>)
    ensures Written(None, ts) == None
  {
    if ts != [] { NeverBack(ts[1..]); }
  }

  /** From the start it is the expansion of the tokens. */
  lemma {:induction false} WrittenExpand(a: seq<Token>, ts: seq<Token>)
    ensures Written(Expand(a), ts) == Expand(a + ts)
    decreases |ts|
  {
    if ts == [] {
      assert a + ts == a;
    } else {
      ExpandMore(a, ts[0]);
      WrittenExpand(a + [ts[0]], ts[1..]);
      assert a + [ts[0]] + ts[1..] == a + ts;
    }
  }
}
