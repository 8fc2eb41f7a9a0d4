/** longest_match(): the search along a hash chain, and the plain search it refines. */
module DeflateMatch {
  import opened Bits
  import opened Bytes
  import opened DeflateTokens
  import opened DeflateHash

  /** The settings of a stream: window size, hash, and the limits of its compression level. */
  datatype Settings = Settings(wbits: nat, hash: Hash, good: nat, nice: nat, maxChain: nat, maxLazy: nat,
      filtered: bool, litBufsize: nat)

  function WSize(p: Settings): nat {
    Pow2(p.wbits)
  }

  predicate ValidSettings(p: Settings) {
    && 9 <= p.wbits <= 15 && IsHash(p.hash) && 3 * p.hash.shift < p.hash.bits + 3
    && 4 <= p.maxChain && 3 <= p.maxLazy <= 258 && 2 <= p.litBufsize
  }

  lemma WSizeBounds(p: Settings)
    requires ValidSettings(p)
    ensures 512 <= WSize(p) <= 32768
  {
    hide Pow2;
    Pow2Mono(9, p.wbits);
    Pow2Mono(p.wbits, 15);
    SmallPowers();
  }

  lemma SmallPowers()
    ensures Pow2(9) == 512 && Pow2(15) == 32768
  {
    assert Pow2(3) == 8;
    assert Pow2(6) == 64;
    assert Pow2(9) == 512;
    assert Pow2(12) == 4096;
  }

  /** MAX_DIST */
  function MaxDist(p: Settings): int {
    WSize(p) - MIN_LOOKAHEAD
  }

  /** i & w_mask, for an index into the window of 2 * wsize bytes. */
  function Slot(wsize: nat, i: nat): int {
    if i < wsize then i else i - wsize
  }

  // ----- the plain search -----

  /** How many of the first n bytes at a and b agree before the first difference. */
  function MatchLen(w: seq<Byte>, a: nat, b: nat, n: nat): (m: nat)
    requires a + n <= |w| && b + n <= |w|
    ensures m <= n
  {
    if n == 0 then 0
    else
      var m := MatchLen(w, a, b, n - 1);
      if m == n - 1 && w[a + n - 1] == w[b + n - 1] then n else m
  }

  /** The first m bytes at a and b agree. */
  predicate Agree(w: seq<Byte>, a: nat, b: nat, m: nat)
    requires a <= b && b + m <= |w|
  {
    forall x {:trigger w[x]} :: b <= x < b + m ==> w[x] == w[x - (b - a)]
  }

  lemma {:induction false} MatchLenIs(w: seq<Byte>, a: nat, b: nat, n: nat, m: nat)
    requires a <= b && b + n <= |w| && m <= n && Agree(w, a, b, m)
    requires m < n ==> w[a + m] != w[b + m]
    ensures MatchLen(w, a, b, n) == m
  {
    if n > 0 {
      if m == n {
        assert w[b + n - 1] == w[a + n - 1];
        MatchLenIs(w, a, b, n - 1, n - 1);
      } else {
        MatchLenIs(w, a, b, n - 1, m);
      }
    }
  }

  lemma {:induction false} MatchLenAgrees(w: seq<Byte>, a: nat, b: nat, n: nat)
    requires a <= b && b + n <= |w|
    ensures Agree(w, a, b, MatchLen(w, a, b, n))
  {
    if n > 0 { MatchLenAgrees(w, a, b, n - 1); }
  }

  datatype Found = Found(len: nat, start: int)

  /** What the search looks at: the window, the chain links, the string, where to stop. */
  datatype Query = Query(w: seq<Byte>, prev: seq<nat>, wsize: nat, scan: nat, limit: nat, nice: nat)

  predicate ValidQuery(q: Query) {
    |q.w| == 2 * q.wsize && |q.prev| == q.wsize && q.scan + MIN_LOOKAHEAD <= |q.w|
  }

  function Link(q: Query, cur: nat): nat
    requires ValidQuery(q) && cur < q.scan
  {
    q.prev[Slot(q.wsize, cur)]
  }

  function Better(q: Query, cur: nat, best: Found): Found
    requires ValidQuery(q) && cur < q.scan
  {
    var len := MatchLen(q.w, cur, q.scan, MAX_MATCH);
    if len > best.len then Found(len, cur) else best
  }

  /** Try up to `chain` strings of the chain from cur, keeping the longest match; stop at a nice one. */
  function Search(q: Query, cur: nat, chain: nat, best: Found): (r: Found)
    requires ValidQuery(q) && cur < q.scan && chain > 0
    ensures r.len >= best.len
    decreases chain
  {
    var b := Better(q, cur, best);
    var next := Link(q, cur);
    if (b.len > best.len && b.len >= q.nice) || !(q.limit < next < cur) || chain == 1 then b
    else Search(q, next, chain - 1, b)
  }

  /** The string of the chain after j links, if it is not cut off before. */
  function Nth(q: Query, cur: nat, j: nat): (r: Option<nat>)
    requires ValidQuery(q) && cur < q.scan
    ensures r.Some? ==> r.value < q.scan
    decreases j
  {
    if j == 0 then Some(cur)
    else if q.limit < Link(q, cur) < cur then Nth(q, Link(q, cur), j - 1) else None
  }

  /** The search finds a match as long as the longest among the strings it may look at, or a nice one. */
  lemma {:induction false} SearchFindsLongest(q: Query, cur: nat, chain: nat, best: Found, j: nat)
    requires ValidQuery(q) && cur < q.scan && j < chain && Nth(q, cur, j).Some?
    ensures var r := Search(q, cur, chain, best);
      r.len >= MatchLen(q.w, Nth(q, cur, j).value, q.scan, MAX_MATCH) || (r.len >= q.nice && r.len > best.len)
    decreases chain
  {
    hide MatchLen;
    var b := Better(q, cur, best);
    if j > 0 && !(b.len > best.len && b.len >= q.nice) {
      SearchFindsLongest(q, Link(q, cur), chain - 1, b, j - 1);
    }
  }

  /** A result longer than asked for is a string of the chain that really matches that long. */
  lemma {:induction false} SearchIsGenuine(q: Query, cur: nat, chain: nat, best: Found)
    requires ValidQuery(q) && cur < q.scan && chain > 0
    ensures var r := Search(q, cur, chain, best);
      r != best ==> (
        && 0 <= r.start <= cur && r.len == MatchLen(q.w, r.start, q.scan, MAX_MATCH) && r.len > best.len
        && (r.start == cur || r.start > q.limit))
    decreases chain
  {
    hide MatchLen;
    var b := Better(q, cur, best);
    var next := Link(q, cur);
    if !((b.len > best.len && b.len >= q.nice) || !(q.limit < next < cur) || chain == 1) {
      SearchIsGenuine(q, next, chain - 1, b);
    }
  }

  // ----- the hash chain -----

  /** The key of the three bytes at i. */
  function KeyAt(h: Hash, w: seq<Byte>, i: nat): nat
    requires i + 3 <= |w|
  {
    Key(h, w[i], w[i + 1], w[i + 2])
  }

  /** Positions a search may visit: earlier strings with the key of the scanned one, linked downwards. */
  ghost predicate OnChain(q: Query, h: Hash, on: set<nat>) {
    ValidQuery(q) && forall c {:trigger c in on} :: c in on ==>
      && c < q.scan && KeyAt(h, q.w, c) == KeyAt(h, q.w, q.scan)
      && (Link(q, c) > q.limit ==> Link(q, c) in on && Link(q, c) < c)
  }

  /** The four bytes compared first decide whether the match can be longer than best. */
  lemma FilterRejects(q: Query, cur: nat, best: nat)
    requires ValidQuery(q) && cur < q.scan && 1 <= best <= MAX_MATCH
    requires q.w[cur + best] != q.w[q.scan + best] || q.w[cur + best - 1] != q.w[q.scan + best - 1]
          || q.w[cur] != q.w[q.scan] || q.w[cur + 1] != q.w[q.scan + 1]
    ensures MatchLen(q.w, cur, q.scan, MAX_MATCH) <= best
  {
    hide MatchLen;
    MatchLenAgrees(q.w, cur, q.scan, MAX_MATCH);
  }

  /** The unrolled comparison from byte 3 on; byte 2 agrees because the keys and the first two bytes do. */
  method CompareOn(window: array<Byte>, cur: nat, strstart: nat, ghost h: Hash) returns (len: nat)
    requires cur < strstart && strstart + MIN_LOOKAHEAD <= window.Length && IsHash(h)
    requires KeyAt(h, window[..], cur) == KeyAt(h, window[..], strstart)
    requires window[cur] == window[strstart] && window[cur + 1] == window[strstart + 1]
    ensures len == MatchLen(window[..], cur, strstart, MAX_MATCH)
  {
    ghost var w := window[..];
    ThirdByte(h, w[cur], w[cur + 1], w[cur + 2], w[strstart + 2]);
    hide Key, MatchLen;
    var i := 2;
    var more := true;
    while more
      invariant 2 <= i <= MAX_MATCH
      invariant more ==> i < MAX_MATCH && (i - 2) % 8 == 0 && Agree(w, cur, strstart, i + 1)
      invariant !more ==> Agree(w, cur, strstart, i) && (i < MAX_MATCH ==> w[cur + i] != w[strstart + i])
      decreases if more then 1 else 0, MAX_MATCH - i
    {
      var k := 0;
      ghost var i0 := i;
      while k < 8 && window[strstart + i + 1] == window[cur + i + 1]
        invariant 0 <= k <= 8 && i == i0 + k && Agree(w, cur, strstart, i + 1)
      {
        i, k := i + 1, k + 1;
      }
      more := k == 8 && i < MAX_MATCH;
      if k < 8 { i := i + 1; }
    }
    len := i;
    MatchLenIs(w, cur, strstart, MAX_MATCH, len);
  }

  function Limit(p: Settings, strstart: nat): nat {
    if strstart > MaxDist(p) && MaxDist(p) >= 0 then strstart - MaxDist(p) else 0
  }

  function ChainLength(p: Settings, prevLength: nat): nat {
    if prevLength >= p.good then p.maxChain / 4 else p.maxChain
  }

  function Nice(p: Settings, lookahead: nat): nat {
    if p.nice > lookahead then lookahead else p.nice
  }

  function QueryOf(p: Settings, w: seq<Byte>, prev: seq<nat>, strstart: nat, lookahead: nat): Query {
    Query(w, prev, WSize(p), strstart, Limit(p, strstart), Nice(p, lookahead))
  }

  /** longest_match(): what the plain search finds, cut to the lookahead. */
  method LongestMatch(p: Settings, window: array<Byte>, prev: array<nat>, strstart: nat, lookahead: nat,
      prevLength: nat, matchStart: nat, curMatch: nat, ghost on: set<nat>)
    returns (len: nat, start: nat)
    requires ValidSettings(p) && 1 <= prevLength <= MAX_MATCH
    requires OnChain(QueryOf(p, window[..], prev[..], strstart, lookahead), p.hash, on) && curMatch in on
    ensures var r := Search(QueryOf(p, window[..], prev[..], strstart, lookahead), curMatch, ChainLength(p, prevLength),
      Found(prevLength, matchStart));
      start == r.start && len == if r.len <= lookahead then r.len else lookahead
  {
    hide MatchLen, Key, KeyAt, Pow2, Limit, Nice;
    WSizeBounds(p);
    ghost var q := QueryOf(p, window[..], prev[..], strstart, lookahead);
    var limit, nice, chain, wsize := Limit(p, strstart), Nice(p, lookahead), ChainLength(p, prevLength), WSize(p);
    var cur, best := curMatch, prevLength;
    start := matchStart;
    var scanEnd1, scanEnd := window[strstart + best - 1], window[strstart + best];
    ghost var goal := Search(q, cur, chain, Found(best, start));
    var more := true;
    while more
      invariant cur in on && 1 <= best <= MAX_MATCH && (more ==> chain > 0)
      invariant more ==> scanEnd1 == q.w[strstart + best - 1] && scanEnd == q.w[strstart + best]
      invariant if more then Search(q, cur, chain, Found(best, start)) == goal else Found(best, start) == goal
      decreases if more then 1 else 0, chain
    {
      var longer := false;
      if window[cur + best] == scanEnd && window[cur + best - 1] == scanEnd1
        && window[cur] == window[strstart] && window[cur + 1] == window[strstart + 1]
      {
        var l := CompareOn(window, cur, strstart, p.hash);
        if l > best {
          start, best, longer := cur, l, true;
          if l < nice { scanEnd1, scanEnd := window[strstart + best - 1], window[strstart + best]; }
        }
      } else {
        FilterRejects(q, cur, best);
      }
      if longer && best >= nice {
        more := false;
      } else {
        var next := prev[Slot(wsize, cur)];
        chain := chain - 1;
        more := next > limit && chain != 0;
        if more { cur := next; }
      }
    }
    len := if best <= lookahead then best else lookahead;
  }
}
