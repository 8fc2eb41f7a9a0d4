/** What the matcher's window, hash chains and buffers mean, on the values of its fields. */
module DeflateState {
  import opened Bits
  import opened Bytes
  import opened DeflateTokens
  import opened DeflateHash
  import opened DeflateMatch

  type U32 = x: nat | x < 0x1_0000_0000

  /** The scalar fields; a position in the window is an unsigned 32-bit number. */
  datatype Cursor = Cursor(
    strstart: U32, lookahead: nat, blockStart: int, insH: nat,
    matchLength: nat, matchStart: U32, prevLength: nat, prevMatch: U32, available: bool, lastLit: nat)

  /** All input read so far, where the window starts in it, and the positions inserted in the hash chains. */
  datatype Past = Past(data: seq<Byte>, base: nat, ins: set<nat>)

  /** Subtraction of unsigned 32-bit numbers. */
  function U32Sub(a: U32, b: U32): U32 {
    if a >= b then a - b else a - b + 0x1_0000_0000
  }

  // ----- window -----

  /** The window holds the input from base up to the end of the lookahead. */
  ghost predicate Filled(p: Settings, c: Cursor, w: seq<Byte>, g: Past) {
    && |w| == 2 * WSize(p) && c.strstart + c.lookahead <= |w|
    && |g.data| == g.base + c.strstart + c.lookahead
    && w[..c.strstart + c.lookahead] == g.data[g.base..]
  }

  lemma WindowByte(p: Settings, c: Cursor, w: seq<Byte>, g: Past, i: nat)
    requires Filled(p, c, w, g) && i < c.strstart + c.lookahead
    ensures g.base + i < |g.data| && w[i] == g.data[g.base + i]
  {
    hide Pow2;
    assert w[..c.strstart + c.lookahead][i] == g.data[g.base..][i];
  }

  // ----- hash chains -----

  /** Window position i was inserted under key h. */
  ghost predicate Inserted(p: Settings, g: Past, i: nat, h: nat) {
    g.base + i in g.ins && g.base + i + 3 <= |g.data| && KeyAt(p.hash, g.data, g.base + i) == h
  }

  /** The link at a slot, for a position not yet overwritten. */
  ghost predicate GoodLink(p: Settings, prev: seq<nat>, g: Past, cur: nat, i: nat)
    requires |prev| == WSize(p) && i < 2 * WSize(p)
  {
    g.base + i in g.ins && g.base + i + WSize(p) >= cur && g.base + i + 3 <= |g.data| ==>
      var q := prev[Slot(WSize(p), i)];
      q != 0 ==> q < i && Inserted(p, g, q, KeyAt(p.hash, g.data, g.base + i))
  }

  ghost predicate GoodHead(p: Settings, head: seq<nat>, g: Past, h: nat)
    requires h < |head|
  {
    head[h] != 0 ==> Inserted(p, g, head[h], h)
  }

  /** Every head and every live link leads to an earlier string with the same key; cur bounds what was inserted. */
  ghost predicate Chains(p: Settings, head: seq<nat>, prev: seq<nat>, g: Past, cur: nat) {
    && |head| == Pow2(p.hash.bits) && |prev| == WSize(p)
    && (forall h: nat :: h < |head| ==> GoodHead(p, head, g, h))
    && (forall i: nat :: i < 2 * WSize(p) ==> GoodLink(p, prev, g, cur, i))
    && (forall a :: a in g.ins ==> a < cur && a + 3 <= |g.data|)
  }

  /** INSERT_STRING of the string at window position str. */
  lemma ChainsInsert(p: Settings, head: seq<nat>, prev: seq<nat>, g: Past, cur: nat, str: nat)
    requires ValidSettings(p) && Chains(p, head, prev, g, cur)
    requires cur <= g.base + str && str < 2 * WSize(p) && g.base + str + 3 <= |g.data|
    ensures var a := g.base + str; var h := KeyAt(p.hash, g.data, a);
      && h < |head| && 0 <= Slot(WSize(p), str) < |prev|
      && Chains(p, head[h := str], prev[Slot(WSize(p), str) := head[h]], g.(ins := g.ins + {a}), a + 1)
  {
    hide Key, Pow2;
    var a, h, cur' := g.base + str, KeyAt(p.hash, g.data, g.base + str), g.base + str + 1;
    var g' := g.(ins := g.ins + {a});
    var head', prev' := head[h := str], prev[Slot(WSize(p), str) := head[h]];
    assert GoodHead(p, head, g, h);
    forall k: nat | k < |head'|
      ensures GoodHead(p, head', g', k)
    {
      assert GoodHead(p, head, g, k);
    }
    forall i: nat | i < 2 * WSize(p)
      ensures GoodLink(p, prev', g', cur', i)
    {
      assert GoodLink(p, prev, g, cur, i);
    }
  }

  /** More input changes no link. */
  lemma ChainsGrow(p: Settings, head: seq<nat>, prev: seq<nat>, g: Past, cur: nat, more: seq<Byte>)
    requires Chains(p, head, prev, g, cur)
    ensures Chains(p, head, prev, g.(data := g.data + more), cur)
  {
    hide Key, Pow2;
    var g' := g.(data := g.data + more);
    forall k: nat | k < |head|
      ensures GoodHead(p, head, g', k)
    {
      assert GoodHead(p, head, g, k);
    }
    forall i: nat | i < 2 * WSize(p)
      ensures GoodLink(p, prev, g', cur, i)
    {
      assert GoodLink(p, prev, g, cur, i);
    }
  }

  /** Positions may be passed over without being inserted. */
  lemma ChainsSkip(p: Settings, head: seq<nat>, prev: seq<nat>, g: Past, cur: nat, cur': nat)
    requires Chains(p, head, prev, g, cur) && cur <= cur'
    ensures Chains(p, head, prev, g, cur')
  {
    hide Key, Pow2;
    forall i: nat | i < 2 * WSize(p)
      ensures GoodLink(p, prev, g, cur', i)
    {
      assert GoodLink(p, prev, g, cur, i);
    }
  }

  /** *p = (Pos)(m >= wsize ? m-wsize : NIL) */
  function Slid(m: nat, wsize: nat): nat {
    if m >= wsize then m - wsize else 0
  }

  function SlideAll(s: seq<nat>, wsize: nat): (r: seq<nat>)
    ensures |r| == |s|
  {
    seq(|s|, i requires 0 <= i < |s| => Slid(s[i], wsize))
  }

  /** Sliding the window by wsize. */
  lemma ChainsSlide(p: Settings, head: seq<nat>, prev: seq<nat>, g: Past, cur: nat)
    requires Chains(p, head, prev, g, cur) && cur <= g.base + 2 * WSize(p)
    ensures Chains(p, SlideAll(head, WSize(p)), SlideAll(prev, WSize(p)), g.(base := g.base + WSize(p)), cur)
  {
    hide Key, Pow2;
    var n, g' := WSize(p), g.(base := g.base + WSize(p));
    forall k: nat | k < |head|
      ensures GoodHead(p, SlideAll(head, n), g', k)
    {
      assert GoodHead(p, head, g, k);
    }
    forall i: nat | i < 2 * n
      ensures GoodLink(p, SlideAll(prev, n), g', cur, i)
    {
      if i < n { assert GoodLink(p, prev, g, cur, i + n); }
    }
  }

  /** A search from the previous head, once the string at strstart is inserted, stays on its chain. */
  lemma ChainsQuery(p: Settings, c: Cursor, w: seq<Byte>, head: seq<nat>, prev: seq<nat>, g: Past, first: nat)
    requires ValidSettings(p) && Filled(p, c, w, g) && c.strstart + MIN_LOOKAHEAD <= 2 * WSize(p) && c.lookahead >= 3
    requires Chains(p, head, prev, g, g.base + c.strstart + 1)
    requires Inserted(p, g, first, KeyAt(p.hash, g.data, g.base + c.strstart)) && first < c.strstart
      && c.strstart - first <= MaxDist(p)
    ensures exists on :: first in on && OnChain(QueryOf(p, w, prev, c.strstart, c.lookahead), p.hash, on)
  {
    hide Key, Pow2;
    var on := set i: nat | i < c.strstart && OnChainAt(p, c, g, i) :: i;
    assert OnChainAt(p, c, g, first);
    assert first in on;
    var q := QueryOf(p, w, prev, c.strstart, c.lookahead);
    forall i {:trigger i in on} | i in on
      ensures KeyAt(p.hash, w, i) == KeyAt(p.hash, w, c.strstart)
      ensures Link(q, i) > q.limit ==> Link(q, i) in on && Link(q, i) < i
    {
      NextOnChain(p, c, w, head, prev, g, i);
    }
    assert OnChain(q, p.hash, on);
  }

  /** Window position i has the key of the string at strstart and is within the match distance. */
  ghost predicate OnChainAt(p: Settings, c: Cursor, g: Past, i: nat) {
    g.base + c.strstart + 3 <= |g.data| && i >= c.strstart - MaxDist(p)
      && Inserted(p, g, i, KeyAt(p.hash, g.data, g.base + c.strstart))
  }

  lemma NextOnChain(p: Settings, c: Cursor, w: seq<Byte>, head: seq<nat>, prev: seq<nat>, g: Past, i: nat)
    requires Filled(p, c, w, g) && c.strstart + MIN_LOOKAHEAD <= 2 * WSize(p) && c.lookahead >= 3
    requires Chains(p, head, prev, g, g.base + c.strstart + 1) && i < c.strstart && OnChainAt(p, c, g, i)
    ensures var q := QueryOf(p, w, prev, c.strstart, c.lookahead);
      && KeyAt(p.hash, w, i) == KeyAt(p.hash, w, c.strstart)
      && (Link(q, i) > q.limit ==> OnChainAt(p, c, g, Link(q, i)) && Link(q, i) < i)
  {
    hide Key, Pow2;
    KeyInWindow(p, c, w, g, i);
    KeyInWindow(p, c, w, g, c.strstart);
    assert GoodLink(p, prev, g, g.base + c.strstart + 1, i);
  }

  lemma KeyInWindow(p: Settings, c: Cursor, w: seq<Byte>, g: Past, i: nat)
    requires Filled(p, c, w, g) && i + 3 <= c.strstart + c.lookahead
    ensures KeyAt(p.hash, w, i) == KeyAt(p.hash, g.data, g.base + i)
  {
    WindowByte(p, c, w, g, i);
    WindowByte(p, c, w, g, i + 1);
    WindowByte(p, c, w, g, i + 2);
  }

  // ----- tokens -----

  /** An entry of d_buf and l_buf. */
  function TokenAt(d: nat, l: Byte): Token {
    if d == 0 then Literal(l) else Token.Copy(d, l + MIN_MATCH)
  }

  function Tokens(d: seq<nat>, l: seq<Byte>): (ts: seq<Token>)
    requires |d| == |l|
    ensures |ts| == |d|
  {
    seq(|d|, i requires 0 <= i < |d| => TokenAt(d[i], l[i]))
  }

  lemma TokensMore(d: seq<nat>, l: seq<Byte>, d': seq<nat>, l': seq<Byte>, x: nat, y: Byte)
    requires |d| == |l| && d' == d + [x] && l' == l + [y]
    ensures Tokens(d', l') == Tokens(d, l) + [TokenAt(x, y)]
  {
  }

  /** Blocks and buffered tokens expand to the input up to `end`; block_start is where the last block ended. */
  ghost predicate Emitted(p: Settings, g: Past, blockStart: int, blocks: seq<Block>, ts: seq<Token>, end: int) {
    && 0 <= g.base + blockStart <= end <= |g.data|
    && Blocks(blocks, g.data, g.base + blockStart)
    && Expand(AllTokens(blocks) + ts) == Some(g.data[..end])
    && (forall t {:trigger t in ts} :: t in ts ==> IsToken(t, MaxDist(p)))
    && (forall t {:trigger t in AllTokens(blocks)} :: t in AllTokens(blocks) ==> IsToken(t, MaxDist(p)))
  }

  lemma EmitLiteral(p: Settings, g: Past, blockStart: int, blocks: seq<Block>, ts: seq<Token>, end: nat)
    requires Emitted(p, g, blockStart, blocks, ts, end) && end < |g.data|
    ensures Emitted(p, g, blockStart, blocks, ts + [Literal(g.data[end])], end + 1)
  {
    hide Blocks, Expand, Pow2;
    var t := Literal(g.data[end]);
    ExpandMore(AllTokens(blocks) + ts, t);
    assert AllTokens(blocks) + ts + [t] == AllTokens(blocks) + (ts + [t]);
    assert g.data[..end + 1] == g.data[..end] + [g.data[end]];
  }

  lemma EmitCopy(p: Settings, g: Past, blockStart: int, blocks: seq<Block>, ts: seq<Token>, end: nat, d: nat, n: nat)
    requires Emitted(p, g, blockStart, blocks, ts, end)
    requires Repeats(g.data, end, d, n) && d <= MaxDist(p) && MIN_MATCH <= n <= MAX_MATCH
    ensures Emitted(p, g, blockStart, blocks, ts + [Token.Copy(d, n)], end + n)
  {
    hide Blocks, Expand, Pow2;
    var t := Token.Copy(d, n);
    ExpandMore(AllTokens(blocks) + ts, t);
    assert AllTokens(blocks) + ts + [t] == AllTokens(blocks) + (ts + [t]);
    CopyRepeats(g.data, end, d, n);
  }

  lemma EmittedGrow(p: Settings, g: Past, blockStart: int, blocks: seq<Block>, ts: seq<Token>, end: nat,
      more: seq<Byte>)
    requires Emitted(p, g, blockStart, blocks, ts, end)
    ensures Emitted(p, g.(data := g.data + more), blockStart, blocks, ts, end)
  {
    hide Blocks, Expand, Pow2;
    BlocksGrow(blocks, g.data, g.base + blockStart, more);
    assert (g.data + more)[..end] == g.data[..end];
  }

  /** What _tr_flush_block is handed: the block's bytes if they are still in the window, and its tokens. */
  ghost predicate HandedOver(g: Past, blockStart: int, strstart: nat, b: Block, ts: seq<Token>) {
    && 0 <= g.base + blockStart <= g.base + strstart <= |g.data|
    && b.storedLen == strstart - blockStart && b.tokens == ts
    && (b.stored.Some? <==> blockStart >= 0)
    && (b.stored.Some? ==> b.stored.value == g.data[g.base + blockStart..g.base + strstart])
  }

  lemma EmitBlock(p: Settings, g: Past, blockStart: int, blocks: seq<Block>, ts: seq<Token>, strstart: nat, b: Block)
    requires Emitted(p, g, blockStart, blocks, ts, g.base + strstart) && HandedOver(g, blockStart, strstart, b, ts)
    ensures Emitted(p, g, strstart, blocks + [b], [], g.base + strstart)
  {
    hide Expand, Pow2;
    AllTokensMore(blocks, b);
    assert AllTokens(blocks + [b]) + [] == AllTokens(blocks) + ts;
    assert (blocks + [b])[..|blocks|] == blocks;
  }

  // ----- the pending match of deflate_slow -----

  /** The match found one step earlier, at strstart - 1; its distance survives a slide of the window. */
  ghost predicate Pending(p: Settings, c: Cursor, g: Past) {
    && c.matchLength <= MAX_MATCH
    && (c.available ==> c.strstart >= 1)
    && (c.matchLength >= MIN_MATCH ==>
          && c.available
          && var d := U32Sub(c.strstart - 1, c.matchStart);
             1 <= d <= MaxDist(p) && Repeats(g.data, g.base + c.strstart - 1, d, c.matchLength))
  }

  lemma PendingSlide(p: Settings, c: Cursor, g: Past, n: U32)
    requires Pending(p, c, g) && n == WSize(p) && n + 1 <= c.strstart
    ensures Pending(p, c.(strstart := c.strstart - n, matchStart := U32Sub(c.matchStart, n)), g.(base := g.base + n))
  {
    hide Pow2, WSize;
  }

  lemma PendingGrow(p: Settings, c: Cursor, c': Cursor, g: Past, more: seq<Byte>)
    requires Pending(p, c, g) && c'.strstart == c.strstart && c'.matchLength == c.matchLength
      && c'.matchStart == c.matchStart && c'.available == c.available
    ensures Pending(p, c', g.(data := g.data + more))
  {
    hide Pow2, WSize;
  }
}
