/** deflate_slow(): lazy matching. */
module DeflateSlow {
  import opened Bits
  import opened Bytes
  import opened DeflateTokens
  import opened DeflateHash
  import opened DeflateMatch
  import opened DeflateState
  import opened DeflateWindow
  import opened DeflateRule

  /** A match of n bytes for the string at window position at, starting at window position start. */
  ghost predicate Genuine(p: Settings, g: Past, at: U32, start: U32, n: nat) {
    var d := U32Sub(at, start);
    MIN_MATCH <= n <= MAX_MATCH && 1 <= d <= MaxDist(p) && Repeats(g.data, g.base + at, d, n)
  }

  /** After the search: the previous match, if any, and the new one, if better, are genuine. */
  ghost predicate Searched(p: Settings, c: Cursor, g: Past) {
    && 2 <= c.matchLength <= MAX_MATCH
    && (c.available ==> c.strstart >= 1)
    && (c.prevLength >= MIN_MATCH ==> c.available && Genuine(p, g, c.strstart - 1, c.prevMatch, c.prevLength))
    && (c.matchLength >= MIN_MATCH && c.matchLength > c.prevLength ==>
        Genuine(p, g, c.strstart, c.matchStart, c.matchLength))
  }

  /** The window positions of a search result agree, so the data repeats. */
  lemma FoundRepeats(p: Settings, c: Cursor, w: seq<Byte>, g: Past, start: nat, n: nat)
    requires Filled(p, c, w, g) && start < c.strstart && n <= c.lookahead && c.strstart + n <= |w|
      && Agree(w, start, c.strstart, n)
    ensures Repeats(g.data, g.base + c.strstart, c.strstart - start, n)
  {
    hide WSize;
    FilledData(p, c, w, g);
    forall i {:trigger g.data[i]} | g.base + c.strstart <= i < g.base + c.strstart + n
      ensures g.data[i] == g.data[i - (c.strstart - start)]
    {
      var x := i - g.base;
      WindowByte(p, c, w, g, x);
      WindowByte(p, c, w, g, x - (c.strstart - start));
      assert w[x] == w[x - (c.strstart - start)];
    }
  }

  /** What longest_match returns, if longer than asked for, is a genuine match within the lookahead. */
  lemma FoundGenuine(p: Settings, c: Cursor, w: seq<Byte>, prev: seq<nat>, g: Past, first: nat, chain: nat, best: Found)
    requires Filled(p, c, w, g) && c.strstart + MIN_LOOKAHEAD <= |w| && |prev| == WSize(p) && chain > 0
      && WSize(p) <= 32768
    requires first < c.strstart && c.strstart - first <= MaxDist(p) && 2 <= best.len
    ensures ValidQuery(QueryOf(p, w, prev, c.strstart, c.lookahead))
    ensures var r := Search(QueryOf(p, w, prev, c.strstart, c.lookahead), first, chain, best);
      var n := if r.len <= c.lookahead then r.len else c.lookahead;
      (r != best ==> 0 <= r.start < c.strstart) && (n > best.len ==> Genuine(p, g, c.strstart, r.start, n))
  {
    hide WSize, Search, MatchLen, Filled, Repeats;
    FilledCursor(p, c, w, g);
    var q := QueryOf(p, w, prev, c.strstart, c.lookahead);
    var r := Search(q, first, chain, best);
    SearchIsGenuine(q, first, chain, best);
    var n := if r.len <= c.lookahead then r.len else c.lookahead;
    if n > best.len {
      MatchLenAgrees(w, r.start, c.strstart, MAX_MATCH);
      FoundRepeats(p, c, w, g, r.start, n);
    }
  }

  lemma EnteredFacts(p: Settings, c: Cursor, w: seq<Byte>, head: seq<nat>, prev: seq<nat>, g: Past)
    requires Entered(p, c, w, head, prev, g)
    ensures ValidSettings(p) && 512 <= WSize(p) <= 32768 && Filled(p, c, w, g) && |prev| == WSize(p)
    ensures c.strstart + c.lookahead <= |w| == 2 * WSize(p) && |g.data| == g.base + c.strstart + c.lookahead
  {
    hide Key, Pow2;
    WSizeBounds(p);
  }

  lemma EnteredChain(p: Settings, c: Cursor, w: seq<Byte>, head: seq<nat>, prev: seq<nat>, g: Past, first: nat)
    requires Entered(p, c, w, head, prev, g) && c.lookahead >= MIN_MATCH && c.strstart + MIN_LOOKAHEAD <= 2 * WSize(p)
    requires Inserted(p, g, first, c.insH) && first < c.strstart && c.strstart - first <= MaxDist(p)
    ensures exists on :: first in on && OnChain(QueryOf(p, w, prev, c.strstart, c.lookahead), p.hash, on)
  {
    hide Key, WSize, Chains, Inserted;
    ChainsQuery(p, c, w, head, prev, g, first);
  }

  /** longest_match() on the matcher, with the result in match_length and match_start. */
  method RunLongestMatch(m: Matcher, hashHead: nat)
    requires m.HasEntered() && m.c.lookahead >= MIN_MATCH && m.c.strstart + MIN_LOOKAHEAD <= 2 * WSize(m.p)
    requires Inserted(m.p, m.g, hashHead, m.c.insH) && hashHead < m.c.strstart
      && m.c.strstart - hashHead <= MaxDist(m.p)
    requires 2 <= m.c.prevLength <= MAX_MATCH
    modifies m`c
    ensures m.c == old(m.c).(matchLength := m.c.matchLength, matchStart := m.c.matchStart)
    ensures 2 <= m.c.matchLength <= MAX_MATCH && m.c.matchLength <= m.c.lookahead
    ensures m.c.matchLength > m.c.prevLength ==> Genuine(m.p, m.g, m.c.strstart, m.c.matchStart, m.c.matchLength)
    ensures SearchedFor(m.p, old(m.c), m.window[..], m.prev[..], hashHead, m.c)
  {
    hide Entered, Filled, Genuine, Search, OnChain, Inserted, WSize, Pow2;
    var p, c := m.p, m.c;
    EnteredFacts(p, c, m.window[..], m.head[..], m.prev[..], m.g);
    EnteredChain(p, c, m.window[..], m.head[..], m.prev[..], m.g, hashHead);
    ghost var on: set<nat> :| hashHead in on
      && OnChain(QueryOf(p, m.window[..], m.prev[..], c.strstart, c.lookahead), p.hash, on);
    FoundGenuine(p, c, m.window[..], m.prev[..], m.g, hashHead, ChainLength(p, c.prevLength),
      Found(c.prevLength, c.matchStart));
    SearchBound(p, m.window[..], m.prev[..], c, hashHead);
    var len, start := LongestMatch(p, m.window, m.prev, c.strstart, c.lookahead, c.prevLength, c.matchStart, hashHead,
      on);
    m.c := c.(matchLength := len, matchStart := start);
  }

  lemma SearchBound(p: Settings, w: seq<Byte>, prev: seq<nat>, c: Cursor, first: nat)
    requires ValidQuery(QueryOf(p, w, prev, c.strstart, c.lookahead)) && first < c.strstart && c.prevLength <= MAX_MATCH
      && ValidSettings(p)
    ensures Search(QueryOf(p, w, prev, c.strstart, c.lookahead), first, ChainLength(p, c.prevLength),
      Found(c.prevLength, c.matchStart)).len <= MAX_MATCH
  {
    hide Search, WSize, MatchLen;
    SearchIsGenuine(QueryOf(p, w, prev, c.strstart, c.lookahead), first, ChainLength(p, c.prevLength),
      Found(c.prevLength, c.matchStart));
  }

  // ----- what was emitted, and why -----

  /** All tokens so far: those of the blocks and those still buffered. */
  ghost function Emission(m: Matcher): seq<Token>
    requires m.c.lastLit <= m.dBuf.Length && m.c.lastLit <= m.lBuf.Length
    reads m, m.dBuf, m.lBuf
  {
    AllTokens(m.blocks) + m.Buffered()
  }

  /** The pending byte was searched for, and the pending match is what was found. */
  ghost predicate PendingTry(c: Cursor, g: Past, log: map<nat, Try>) {
    c.available ==>
      var e := EmittedEnd(c, g);
      && c.strstart >= 1 && e in log && Length(log[e]) == c.matchLength
      && (c.matchLength >= MIN_MATCH ==> Distance(log[e]) == U32Sub(c.strstart - 1, c.matchStart))
  }

  /** The tokens so far and the pending match are explained by the searches made. */
  ghost predicate SlowLog(p: Settings, c: Cursor, g: Past, ts: seq<Token>, log: map<nat, Try>) {
    && Size(ts) == EmittedEnd(c, g) && ByRule(true, ts, log)
    && Log(p, g.data, true, log, g.base + c.strstart) && PendingTry(c, g, log)
  }

  ghost predicate SlowExplained(m: Matcher, log: map<nat, Try>)
    reads m, m.dBuf, m.lBuf
  {
    m.c.lastLit <= m.dBuf.Length && m.c.lastLit <= m.lBuf.Length && SlowLog(m.p, m.c, m.g, Emission(m), log)
  }

  /** The search that Find makes, as an entry of the log. */
  function TryOf(g: Past, before: Cursor, w: seq<Byte>, head: seq<nat>, prev: seq<nat>, after: Cursor): Try {
    Try(g.base, before, w, head, prev, after)
  }

  lemma FindTried(p: Settings, c: Cursor, w: seq<Byte>, head: seq<nat>, head': seq<nat>, prev: seq<nat>, g: Past,
      first: nat,
      before: Cursor)
    requires Entered(p, c, w, head', prev, g) && |head| == |head'|
    requires c.lookahead < MIN_MATCH ==> first == 0
    requires c.lookahead >= MIN_MATCH ==> c.insH < |head| && first == head[c.insH]
    requires before.strstart == c.strstart && before.lookahead == c.lookahead && before.insH == c.insH
    requires LazyRule(p, before, w, prev, first, c)
    ensures Tried(p, g.data, true, g.base + c.strstart, TryOf(g, before, w, head, prev, c))
  {
    hide LazyRule, Chains, Key, WSize;
    FilledData(p, c, w, g);
    assert g.data[g.base..] == g.data[g.base..g.base + c.strstart + c.lookahead];
  }

  /** The search just made joins the log; the pending match is still the one found before. */
  lemma SlowLogSearched(p: Settings, c0: Cursor, c: Cursor, g: Past, ts: seq<Token>, log: map<nat, Try>, t: Try)
    requires SlowLog(p, c0, g, ts, log) && Tried(p, g.data, true, g.base + c.strstart, t)
    requires c.strstart == c0.strstart && c.available == c0.available
    requires c.prevLength == c0.matchLength && c.prevMatch == c0.matchStart
    ensures var log' := log[g.base + c.strstart := t];
      && Size(ts) == EmittedEnd(c, g) && ByRule(true, ts, log') && Log(p, g.data, true, log', g.base + c.strstart + 1)
      && (c.available ==>
            && c.strstart >= 1 && Size(ts) in log' && Length(log'[Size(ts)]) == c.prevLength
            && (c.prevLength >= MIN_MATCH ==> Distance(log'[Size(ts)]) == U32Sub(c.strstart - 1, c.prevMatch)))
  {
    hide Tried, ByRule, LazyRule;
    LogMore(p, g.data, true, log, g.base + c.strstart, t);
    ByRuleLater(true, ts, log, g.base + c.strstart, t);
  }

  /** The log's entry at the position searched. */
  ghost predicate JustTried(c: Cursor, g: Past, ts: seq<Token>, log: map<nat, Try>, p: Settings) {
    var a := g.base + c.strstart;
    && Size(ts) == EmittedEnd(c, g) && ByRule(true, ts, log) && Log(p, g.data, true, log, a + 1)
    && a in log && Length(log[a]) == c.matchLength && Distance(log[a]) == U32Sub(c.strstart, c.matchStart)
    && (c.available ==>
          && c.strstart >= 1 && Size(ts) in log && Length(log[Size(ts)]) == c.prevLength
          && (c.prevLength >= MIN_MATCH ==> Distance(log[Size(ts)]) == U32Sub(c.strstart - 1, c.prevMatch)))
  }

  lemma CopyByRule(c: Cursor, g: Past, ts: seq<Token>, log: map<nat, Try>, p: Settings)
    requires JustTried(c, g, ts, log, p) && c.available && c.prevLength >= MIN_MATCH && c.matchLength <= c.prevLength
    ensures c.strstart >= 1
    ensures var ts' := ts + [Token.Copy(U32Sub(c.strstart - 1, c.prevMatch), c.prevLength)];
      ByRule(true, ts', log) && Size(ts') == Size(ts) + c.prevLength
  {
    hide Log, ByRule;
    var t := Token.Copy(U32Sub(c.strstart - 1, c.prevMatch), c.prevLength);
    SizeMore(ts, t);
    ByRuleMore(true, ts, log, t);
  }

  lemma LiteralByRule(c: Cursor, g: Past, ts: seq<Token>, log: map<nat, Try>, p: Settings, b: Byte)
    requires JustTried(c, g, ts, log, p) && c.available && (c.prevLength < MIN_MATCH || c.matchLength > c.prevLength)
    ensures ByRule(true, ts + [Literal(b)], log) && Size(ts + [Literal(b)]) == Size(ts) + 1
  {
    hide Log, ByRule;
    SizeMore(ts, Literal(b));
    ByRuleMore(true, ts, log, Literal(b));
  }

  // ----- one step -----

  /** Where the emitted tokens end: a byte before strstart when one is pending. */
  function EmittedEnd(c: Cursor, g: Past): int {
    g.base + c.strstart - (if c.available then 1 else 0)
  }

  /** The invariant at the head of the loop, and between calls. */
  ghost predicate SlowReady(m: Matcher)
    reads m, m.window, m.head, m.prev, m.dBuf, m.lBuf
  {
    && m.Tracks() && HashReady(m.p, m.c, m.g) && m.c.lastLit < m.p.litBufsize - 1
    && Pending(m.p, m.c, m.g) && 2 <= m.c.matchLength
    && Emitted(m.p, m.g, m.c.blockStart, m.blocks, m.Buffered(), EmittedEnd(m.c, m.g))
  }

  /** The same once the string at strstart is inserted and searched for. */
  ghost predicate SlowSearched(m: Matcher)
    reads m, m.window, m.head, m.prev, m.dBuf, m.lBuf
  {
    && m.HasEntered() && m.c.lastLit < m.p.litBufsize - 1 && m.c.lookahead > 0
    && Searched(m.p, m.c, m.g)
    && Emitted(m.p, m.g, m.c.blockStart, m.blocks, m.Buffered(), EmittedEnd(m.c, m.g))
  }

  lemma ShiftedSearched(p: Settings, c: Cursor, g: Past, c1: Cursor, g1: Past)
    requires Pending(p, c, g) && 2 <= c.matchLength
    requires c1 == Shifted(c).(insH := c1.insH) && g1 == g.(ins := g1.ins)
    ensures Searched(p, c1, g1) && 2 <= c1.prevLength <= MAX_MATCH
  {
    hide WSize;
  }

  /** Discarding or replacing the match just found. */
  lemma SearchedWith(p: Settings, c: Cursor, g: Past, c': Cursor)
    requires Searched(p, c, g) && c' == c.(matchLength := c'.matchLength, matchStart := c'.matchStart)
    requires 2 <= c'.matchLength <= MAX_MATCH
    requires c'.matchLength > c'.prevLength && c'.matchLength >= MIN_MATCH ==>
      Genuine(p, g, c'.strstart, c'.matchStart, c'.matchLength)
    ensures Searched(p, c', g)
  {
    hide Genuine;
  }

  lemma EmittedPast(p: Settings, g: Past, blockStart: int, blocks: seq<Block>, ts: seq<Token>, end: int, g': Past)
    requires Emitted(p, g, blockStart, blocks, ts, end) && g' == g.(ins := g'.ins)
    ensures Emitted(p, g', blockStart, blocks, ts, end)
  {
    hide Expand, Blocks, WSize;
  }

  lemma LazyNone(p: Settings, c: Cursor, w: seq<Byte>, prev: seq<nat>, first: nat)
    requires ValidSettings(p) && |w| == 2 * WSize(p) && |prev| == WSize(p) && c.strstart + MIN_LOOKAHEAD <= |w|
    requires first == 0 || (first < c.strstart && !(c.prevLength < p.maxLazy && c.strstart - first <= MaxDist(p)))
    ensures LazyRule(p, c, w, prev, first, c)
  {
    hide WSize, Search;
  }

  lemma LazyFound(p: Settings, c: Cursor, w: seq<Byte>, prev: seq<nat>, first: nat, c1: Cursor)
    requires SearchedFor(p, c, w, prev, first, c1)
      && c1 == c.(matchLength := c1.matchLength, matchStart := c1.matchStart)
    requires first != 0 && c.prevLength < p.maxLazy && c.strstart - first <= MaxDist(p)
    ensures LazyRule(p, c, w, prev, first, if Dropped(p, c1) then c1.(matchLength := MIN_MATCH - 1) else c1)
  {
    hide WSize, Search;
  }

  /** Insert the string at strstart, if there is one, and look for a match better than the previous one. */
  method Find(m: Matcher) returns (ghost first: nat)
    requires SlowReady(m) && m.c.lookahead > 0 && m.c.strstart + MIN_LOOKAHEAD <= 2 * WSize(m.p)
    modifies m`c, m`g, m.head, m.prev
    ensures SlowSearched(m)
    ensures m.c.strstart == old(m.c.strstart) && m.c.lookahead == old(m.c.lookahead) && m.g == old(m.g).(ins := m.g.ins)
    ensures m.c.available == old(m.c.available) && m.c.prevLength == old(m.c.matchLength)
    ensures m.c.lookahead < MIN_MATCH ==> first == 0
    ensures m.c.lookahead >= MIN_MATCH ==> m.c.insH < m.head.Length && first == old(m.head[..])[m.c.insH]
    ensures LazyRule(m.p, Shifted(old(m.c)).(insH := m.c.insH), m.window[..], m.prev[..], first, m.c)
    ensures m.c.prevMatch == old(m.c.matchStart) && Emission(m) == old(Emission(m))
  {
    hide Tracked, HashReady, Entered, Pending, Searched, Emitted, Genuine, Inserted, SearchedFor, WSize, Pow2, Tokens,
      LazyRule;
    ghost var c0, g0, ts := m.c, m.g, m.Buffered();
    var hashHead := 0;
    if m.c.lookahead >= MIN_MATCH {
      hashHead := m.InsertString();
    } else {
      m.SkipString();
    }
    first := hashHead;
    EnteredFacts(m.p, m.c, m.window[..], m.head[..], m.prev[..], m.g);
    EmittedPast(m.p, g0, c0.blockStart, m.blocks, ts, EmittedEnd(c0, g0), m.g);
    ShiftedSearched(m.p, c0, g0, Shifted(m.c), m.g);
    EnteredOnly(m.p, m.c, Shifted(m.c), m.window[..], m.head[..], m.prev[..], m.g);
    m.c := Shifted(m.c);
    ghost var c1 := m.c;
    if hashHead != 0 && m.c.prevLength < m.p.maxLazy && m.c.strstart - hashHead <= MaxDist(m.p) {
      RunLongestMatch(m, hashHead);
      LazyFound(m.p, c1, m.window[..], m.prev[..], first, m.c);
      if m.c.matchLength <= 5
        && (m.p.filtered || (m.c.matchLength == MIN_MATCH && U32Sub(m.c.strstart, m.c.matchStart) > TOO_FAR)) {
        m.c := m.c.(matchLength := MIN_MATCH - 1);
      }
      EnteredOnly(m.p, c1, m.c, m.window[..], m.head[..], m.prev[..], m.g);
      SearchedWith(m.p, c1, m.g, m.c);
    } else {
      LazyNone(m.p, c1, m.window[..], m.prev[..], first);
    }
  }

  lemma EnteredOnly(p: Settings, c: Cursor, c': Cursor, w: seq<Byte>, head: seq<nat>, prev: seq<nat>, g: Past)
    requires Entered(p, c, w, head, prev, g)
    requires c'.strstart == c.strstart && c'.lookahead == c.lookahead && c'.insH == c.insH
    ensures Entered(p, c', w, head, prev, g)
  {
    hide Chains, WSize, Key, Filled;
    FilledOnly(p, c, c', w, g);
  }

  /** The previous match as a token: where the emission ends after it. */
  lemma EmitPrevious(p: Settings, c: Cursor, w: seq<Byte>, head: seq<nat>, prev: seq<nat>, g: Past, blocks: seq<Block>,
      ts: seq<Token>)
    requires Searched(p, c, g) && c.prevLength >= MIN_MATCH && Entered(p, c, w, head, prev, g)
    requires Emitted(p, g, c.blockStart, blocks, ts, EmittedEnd(c, g))
    ensures c.available && c.strstart >= 1
    ensures var d := U32Sub(c.strstart - 1, c.prevMatch);
      && 1 <= d <= MaxDist(p) && c.prevLength - 1 <= c.lookahead && c.prevLength <= MAX_MATCH
      && Emitted(p, g, c.blockStart, blocks, ts + [Token.Copy(d, c.prevLength)], g.base + c.strstart - 1 + c.prevLength)
  {
    hide WSize, Expand, Blocks, Emitted, Searched, Entered, Repeats;
    EnteredFacts(p, c, w, head, prev, g);
    PreviousGenuine(p, c, g);
    var d := U32Sub(c.strstart - 1, c.prevMatch);
    RepeatsEnd(g.data, g.base + c.strstart - 1, d, c.prevLength);
    EmitCopy(p, g, c.blockStart, blocks, ts, g.base + c.strstart - 1, d, c.prevLength);
  }

  lemma PreviousGenuine(p: Settings, c: Cursor, g: Past)
    requires Searched(p, c, g) && c.prevLength >= MIN_MATCH
    ensures c.available && c.strstart >= 1 && Genuine(p, g, c.strstart - 1, c.prevMatch, c.prevLength)
  {
    hide Genuine;
  }

  lemma RepeatsEnd(data: seq<Byte>, p: nat, d: nat, n: nat)
    requires Repeats(data, p, d, n)
    ensures p + n <= |data|
  {
  }

  /** Move strstart to the last byte of the match, inserting the strings on the way that are long enough. */
  method InsertRest(m: Matcher, n: nat)
    requires m.HasEntered() && n <= m.c.lookahead && m.c.strstart + m.c.lookahead >= MIN_MATCH
    modifies m`c, m`g, m.head, m.prev
    ensures m.HasEntered() && m.g == old(m.g).(ins := m.g.ins)
    ensures m.c == old(m.c).(strstart := m.c.strstart, lookahead := m.c.lookahead, insH := m.c.insH)
    ensures m.c.strstart == old(m.c.strstart) + n && m.c.lookahead == old(m.c.lookahead) - n
  {
    hide Tracked, HashReady, Entered, Inserted, WSize, Pow2;
    var maxInsert := m.c.strstart + m.c.lookahead - MIN_MATCH;
    ghost var c0, g0 := m.c, m.g;
    for i := 0 to n
      invariant m.HasEntered() && m.g == g0.(ins := m.g.ins)
      invariant m.c == c0.(strstart := m.c.strstart, lookahead := m.c.lookahead, insH := m.c.insH)
      invariant m.c.strstart == c0.strstart + i && m.c.lookahead == c0.lookahead - i
    {
      m.Move();
      if m.c.strstart <= maxInsert {
        var _ := m.InsertString();
      } else {
        m.SkipString();
      }
    }
  }

  /** Output the previous match; returns whether the buffers are full. */
  method EmitMatch(m: Matcher) returns (full: bool)
    requires SlowSearched(m) && m.c.prevLength >= MIN_MATCH && m.c.matchLength <= m.c.prevLength
    modifies m`c, m`g, m.head, m.prev, m.dBuf, m.lBuf
    ensures m.Tracks() && HashReady(m.p, m.c, m.g) && Pending(m.p, m.c, m.g) && !m.c.available && m.c.matchLength == 2
    ensures Emitted(m.p, m.g, m.c.blockStart, m.blocks, m.Buffered(), EmittedEnd(m.c, m.g))
    ensures m.c.lastLit <= m.p.litBufsize - 1 && full == (m.c.lastLit == m.p.litBufsize - 1)
    ensures m.g == old(m.g).(ins := m.g.ins) && m.c.strstart + m.c.lookahead == old(m.c.strstart + m.c.lookahead)
    ensures m.c.lookahead < old(m.c.lookahead)
    ensures m.Buffered() ==
      old(m.Buffered()) + [Token.Copy(U32Sub(old(m.c.strstart) - 1, old(m.c.prevMatch)), old(m.c.prevLength))]
    ensures m.c.strstart == old(m.c.strstart - 1 + m.c.prevLength)
    ensures Emission(m) ==
      old(Emission(m)) + [Token.Copy(U32Sub(old(m.c.strstart) - 1, old(m.c.prevMatch)), old(m.c.prevLength))]
  {
    hide Tracked, HashReady, Entered, Searched, Emitted, Genuine, WSize, Pow2, Tokens;
    ghost var ts, c0, g0, all := m.Buffered(), m.c, m.g, Emission(m);
    EmitPrevious(m.p, m.c, m.window[..], m.head[..], m.prev[..], m.g, m.blocks, ts);
    full := m.Tally(U32Sub(m.c.strstart - 1, m.c.prevMatch), m.c.prevLength - MIN_MATCH);
    EnteredOnly(m.p, c0, m.c, m.window[..], m.head[..], m.prev[..], m.g);
    var n := m.c.prevLength - 2;
    InsertRest(m, n);
    m.Move();
    ghost var c1 := m.c;
    m.c := m.c.(prevLength := 0, available := false, matchLength := MIN_MATCH - 1);
    EmittedPast(m.p, g0, c0.blockStart, m.blocks, m.Buffered(), EmittedEnd(m.c, m.g), m.g);
    TrackedOnly(m.p, c1, m.c, m.window[..], m.head[..], m.prev[..], m.g);
    assert Emission(m) == all + [Token.Copy(U32Sub(c0.strstart - 1, c0.prevMatch), c0.prevLength)];
  }

  lemma TrackedOnly(p: Settings, c: Cursor, c': Cursor, w: seq<Byte>, head: seq<nat>, prev: seq<nat>, g: Past)
    requires Tracked(p, c, w, head, prev, g) && HashReady(p, c, g)
    requires c'.strstart == c.strstart && c'.lookahead == c.lookahead && c'.insH == c.insH
    ensures Tracked(p, c', w, head, prev, g) && HashReady(p, c', g)
  {
    hide Chains, WSize, Key, Filled, Primed;
    FilledOnly(p, c, c', w, g);
  }

  /** The new match becomes the pending one. */
  lemma BecomesPending(p: Settings, c: Cursor, g: Past, c': Cursor)
    requires Searched(p, c, g) && (c.prevLength < MIN_MATCH || c.matchLength > c.prevLength)
    requires c' == c.(strstart := c'.strstart, lookahead := c'.lookahead, available := true, insH := c'.insH)
      && c'.strstart == c.strstart + 1
    ensures Pending(p, c', g) && 2 <= c'.matchLength
  {
    hide WSize, Repeats;
  }

  /** Flushing a block whose tokens reach strstart. */
  method Flush(m: Matcher, last: bool)
    requires m.Arrays() && Filled(m.p, m.c, m.window[..], m.g)
    requires Emitted(m.p, m.g, m.c.blockStart, m.blocks, m.Buffered(), m.g.base + m.c.strstart)
    modifies m`c, m`blocks
    ensures m.Arrays() && m.c == old(m.c).(blockStart := old(m.c.strstart), lastLit := 0) && m.Buffered() == []
    ensures Emitted(m.p, m.g, m.c.blockStart, m.blocks, m.Buffered(), m.g.base + m.c.strstart)
    ensures |m.blocks| == |old(m.blocks)| + 1 && old(m.blocks) == m.blocks[..|old(m.blocks)|]
    ensures m.blocks[|old(m.blocks)|].last == last && m.blocks[|old(m.blocks)|].tokens == old(m.Buffered())
    ensures Emission(m) == old(Emission(m))
  {
    hide WSize, Pow2, Emitted;
    EmittedStart(m.p, m.g, m.c.blockStart, m.blocks, m.Buffered(), m.g.base + m.c.strstart);
    ghost var ts, blocks, start := m.Buffered(), m.blocks, m.c.blockStart;
    m.FlushBlock(last);
    EmitBlock(m.p, m.g, start, blocks, ts, m.c.strstart, m.blocks[|blocks|]);
    assert m.Buffered() == [];
    AllTokensMore(blocks, m.blocks[|blocks|]);
    assert m.blocks == blocks + [m.blocks[|blocks|]];
  }

  lemma EmittedStart(p: Settings, g: Past, blockStart: int, blocks: seq<Block>, ts: seq<Token>, end: int)
    requires Emitted(p, g, blockStart, blocks, ts, end)
    ensures 0 <= g.base + blockStart <= end
  {
    hide WSize, Expand, Blocks;
  }

  /** The byte before strstart as a literal; flush the block if that fills the buffers. */
  method EmitPending(m: Matcher) returns (full: bool)
    requires SlowSearched(m) && m.c.available
    modifies m`c, m`blocks, m.dBuf, m.lBuf
    ensures m.c == old(m.c).(blockStart := m.c.blockStart, lastLit := m.c.lastLit) && m.HasEntered()
    ensures m.c.lastLit < m.p.litBufsize - 1
    ensures Emitted(m.p, m.g, m.c.blockStart, m.blocks, m.Buffered(), m.g.base + m.c.strstart)
    ensures |old(m.blocks)| <= |m.blocks| && old(m.blocks) == m.blocks[..|old(m.blocks)|]
    ensures |m.blocks| == |old(m.blocks)| + if full then 1 else 0
    ensures 0 <= EmittedEnd(old(m.c), m.g) < |m.g.data|
      && Emission(m) == old(Emission(m)) + [Literal(m.g.data[EmittedEnd(old(m.c), m.g)])]
  {
    hide Entered, Searched, Emitted, WSize, Pow2, Tokens;
    ghost var c0, ts := m.c, m.Buffered();
    EnteredFacts(m.p, m.c, m.window[..], m.head[..], m.prev[..], m.g);
    AvailableFacts(m.p, m.c, m.g);
    WindowByte(m.p, m.c, m.window[..], m.g, m.c.strstart - 1);
    EmitLiteral(m.p, m.g, m.c.blockStart, m.blocks, ts, EmittedEnd(m.c, m.g));
    full := m.Tally(0, m.window[m.c.strstart - 1]);
    assert AllTokens(m.blocks) + (ts + [TokenAt(0, m.window[c0.strstart - 1])]) ==
      AllTokens(m.blocks) + ts + [TokenAt(0, m.window[c0.strstart - 1])];
    FilledOnly(m.p, c0, m.c, m.window[..], m.g);
    if full {
      Flush(m, false);
    }
    EnteredOnly(m.p, c0, m.c, m.window[..], m.head[..], m.prev[..], m.g);
  }

  lemma AvailableFacts(p: Settings, c: Cursor, g: Past)
    requires Searched(p, c, g) && c.available
    ensures c.strstart >= 1
  {
    hide Genuine;
  }

  // ----- the loop -----

  /** flush values that matter here: Z_NO_FLUSH, Z_FINISH, and the others. */
  datatype FlushMode = NoFlush | SomeFlush | FullFlush | Finish

  datatype BlockState = NeedMore | BlockDone | FinishStarted | FinishDone

  /** What is left of the output space, counted in blocks, once some more are written. */
  function Spare(room: nat, blocks: int): nat {
    if blocks < 0 || blocks >= room then 0 else room - blocks
  }

  /** The state after the search, with the search in the log. */
  ghost predicate SlowTried(m: Matcher, log: map<nat, Try>)
    reads m, m.dBuf, m.lBuf
  {
    m.c.lastLit <= m.dBuf.Length && m.c.lastLit <= m.lBuf.Length && JustTried(m.c, m.g, Emission(m), log, m.p)
  }

  /** The previous match is not beaten: it is the next token. */
  method TakePrevious(m: Matcher, room: nat, ghost log: map<nat, Try>) returns (room': nat, stop: bool)
    requires SlowSearched(m) && SlowTried(m, log) && m.c.prevLength >= MIN_MATCH && m.c.matchLength <= m.c.prevLength
    modifies m`c, m`g, m`blocks, m.head, m.prev, m.dBuf, m.lBuf
    ensures SlowReady(m) && m.g == old(m.g).(ins := m.g.ins) && m.c.lookahead < old(m.c.lookahead)
    ensures old(m.blocks) <= m.blocks && room' == Spare(room, |m.blocks| - |old(m.blocks)|) && (stop ==> room' == 0)
    ensures SlowExplained(m, log) && !m.c.available
    ensures Emission(m) ==
      old(Emission(m)) + [Token.Copy(U32Sub(old(m.c.strstart) - 1, old(m.c.prevMatch)), old(m.c.prevLength))]
  {
    hide Tracked, HashReady, Entered, Pending, Searched, Emitted, WSize, Pow2, Tokens, Tried, ByRule, Log, SlowLog,
      Emission;
    ghost var c0, ts := m.c, Emission(m);
    room', stop := room, false;
    PreviousGenuine(m.p, m.c, m.g);
    CopyByRule(m.c, m.g, ts, log, m.p);
    var full := EmitMatch(m);
    CopyLogged(m.p, c0, m.c, m.g, ts, Emission(m), log);
    if full {
      ghost var c1, ts1 := m.c, Emission(m);
      TrackedFilled(m.p, m.c, m.window[..], m.head[..], m.prev[..], m.g);
      Flush(m, false);
      StillReady(m, c1);
      SlowLogOnly(m.p, c1, m.c, m.g, ts1, log);
      room' := Spare(room, 1);
      stop := room' == 0;
    }
  }

  /** The previous byte, if one is pending, is the next token; the match just found becomes the pending one. */
  method Wait(m: Matcher, room: nat, ghost log: map<nat, Try>) returns (room': nat, stop: bool)
    requires SlowSearched(m) && SlowTried(m, log) && (m.c.prevLength < MIN_MATCH || m.c.matchLength > m.c.prevLength)
    modifies m`c, m`g, m`blocks, m.head, m.prev, m.dBuf, m.lBuf
    ensures SlowReady(m) && m.g == old(m.g).(ins := m.g.ins) && m.c.lookahead < old(m.c.lookahead)
    ensures old(m.blocks) <= m.blocks && room' == Spare(room, |m.blocks| - |old(m.blocks)|) && (stop ==> room' == 0)
    ensures SlowExplained(m, log)
    ensures m.c.available && m.c.strstart == old(m.c.strstart) + 1
    ensures m.c.matchLength == old(m.c.matchLength) && m.c.matchStart == old(m.c.matchStart)
    ensures if old(m.c.available) then exists b: Byte :: Emission(m) == old(Emission(m)) + [Literal(b)]
      else Emission(m) == old(Emission(m))
  {
    hide Tracked, HashReady, Entered, Pending, Searched, Emitted, WSize, Pow2, Tokens, Tried, ByRule, Log;
    room', stop := room, false;
    ghost var c1, ts := m.c, Emission(m);
    if m.c.available {
      var full := EmitPending(m);
      LiteralByRule(c1, m.g, ts, log, m.p, m.g.data[EmittedEnd(c1, m.g)]);
      if full { room' := Spare(room, 1); }
      stop := room' == 0;
    }
    ghost var ts1 := Emission(m);
    m.Move();
    ghost var c2 := m.c;
    m.c := m.c.(available := true);
    BecomesPending(m.p, c1, m.g, m.c.(blockStart := c1.blockStart, lastLit := c1.lastLit));
    PendingOnly(m.p, m.c.(blockStart := c1.blockStart, lastLit := c1.lastLit), m.c, m.g);
    TrackedOnly(m.p, c2, m.c, m.window[..], m.head[..], m.prev[..], m.g);
    assert Emission(m) == ts1;
    WaitLogged(m.p, c1, m.c, m.g, ts, ts1, log);
  }

  /**
    One round of the loop; room counts the blocks after which the output is full. The search t that it makes
    joins the log; the tokens after it, and the match pending then, are those the searches call for.
   */
  method Step(m: Matcher, room: nat, ghost log: map<nat, Try>) returns (room': nat, stop: bool, ghost t: Try)
    requires SlowReady(m) && m.c.lookahead > 0 && m.c.strstart + MIN_LOOKAHEAD <= 2 * WSize(m.p)
    requires SlowExplained(m, log)
    modifies m`c, m`g, m`blocks, m.head, m.prev, m.dBuf, m.lBuf
    ensures SlowReady(m) && m.g == old(m.g).(ins := m.g.ins) && m.c.lookahead < old(m.c.lookahead)
    ensures old(m.blocks) <= m.blocks && room' == Spare(room, |m.blocks| - |old(m.blocks)|)
    ensures stop ==> room' == 0
    ensures old(m.g.base + m.c.strstart) !in log && t.head == old(m.head[..]) && t.w == old(m.window[..])
    ensures SlowExplained(m, log[old(m.g.base + m.c.strstart) := t])
    ensures if old(m.c.matchLength) >= MIN_MATCH && Length(t) <= old(m.c.matchLength) then
        !m.c.available && Emission(m) ==
          old(Emission(m)) + [Token.Copy(U32Sub(old(m.c.strstart) - 1, old(m.c.matchStart)), old(m.c.matchLength))]
      else
        && m.c.available && m.c.matchLength == Length(t) && m.c.matchStart == t.after.matchStart
        && if old(m.c.available) then exists b: Byte :: Emission(m) == old(Emission(m)) + [Literal(b)]
           else Emission(m) == old(Emission(m))
  {
    hide SlowSearched, WSize, Pow2, LazyRule, Tried, ByRule, Log, Emission, SlowLog, JustTried, SlowReady, Entered;
    ghost var c0, g0, head0, ts := m.c, m.g, m.head[..], Emission(m);
    ghost var first := Find(m);
    ghost var before := Shifted(c0).(insH := m.c.insH);
    t := TryOf(m.g, before, m.window[..], head0, m.prev[..], m.c);
    SearchedEntered(m);
    LogFound(m.p, c0, g0, m.c, m.window[..], head0, m.head[..], m.prev[..], m.g, first, before, ts, log);
    if m.c.prevLength >= MIN_MATCH && m.c.matchLength <= m.c.prevLength {
      room', stop := TakePrevious(m, room, log[g0.base + c0.strstart := t]);
    } else {
      room', stop := Wait(m, room, log[g0.base + c0.strstart := t]);
    }
  }

  lemma SlowLogOnly(p: Settings, c: Cursor, c': Cursor, g: Past, ts: seq<Token>, log: map<nat, Try>)
    requires SlowLog(p, c, g, ts, log) && c' == c.(blockStart := c'.blockStart, lastLit := c'.lastLit)
    ensures SlowLog(p, c', g, ts, log)
  {
    hide Tried, ByRule, Log;
  }

  lemma SearchedEntered(m: Matcher)
    requires SlowSearched(m)
    ensures Entered(m.p, m.c, m.window[..], m.head[..], m.prev[..], m.g)
    ensures m.c.lastLit <= m.dBuf.Length && m.c.lastLit <= m.lBuf.Length
  {
    hide Entered, Searched, Emitted, WSize, Pow2;
  }

  /** Find's search is the log's entry at the position searched. */
  lemma LogFound(p: Settings, c0: Cursor, g0: Past, c: Cursor, w: seq<Byte>, head: seq<nat>, head': seq<nat>,
      prev: seq<nat>, g: Past, first: nat, before: Cursor, ts: seq<Token>, log: map<nat, Try>)
    requires SlowLog(p, c0, g0, ts, log) && g == g0.(ins := g.ins)
    requires Entered(p, c, w, head', prev, g) && |head| == |head'|
    requires c.lookahead < MIN_MATCH ==> first == 0
    requires c.lookahead >= MIN_MATCH ==> c.insH < |head| && first == head[c.insH]
    requires before == Shifted(c0).(insH := c.insH) && LazyRule(p, before, w, prev, first, c)
    requires c.strstart == c0.strstart && c.lookahead == c0.lookahead && c.available == c0.available
    requires c.prevLength == c0.matchLength && c.prevMatch == c0.matchStart
    ensures g.base + c.strstart !in log
    ensures JustTried(c, g, ts, log[g.base + c.strstart := TryOf(g, before, w, head, prev, c)], p)
  {
    hide Entered, Tried, ByRule, LazyRule;
    FindTried(p, c, w, head, head', prev, g, first, before);
    SlowLogSearched(p, c0, c, g, ts, log, TryOf(g, before, w, head, prev, c));
  }

  lemma LogEnd(p: Settings, data: seq<Byte>, slow: bool, log: map<nat, Try>, end: nat, end': nat)
    requires Log(p, data, slow, log, end) && end <= end'
    ensures Log(p, data, slow, log, end')
  {
    hide Tried;
  }

  /** After a copy nothing is pending. */
  lemma CopyLogged(p: Settings, c: Cursor, c': Cursor, g: Past, ts: seq<Token>, ts': seq<Token>, log: map<nat, Try>)
    requires JustTried(c, g.(ins := g.ins), ts, log, p) && c.available && c.prevLength >= MIN_MATCH && c.strstart >= 1
    requires ByRule(true, ts', log) && Size(ts') == Size(ts) + c.prevLength
    requires !c'.available && c'.strstart == c.strstart - 1 + c.prevLength
    ensures SlowLog(p, c', g, ts', log)
  {
    hide ByRule, Tried;
    LogEnd(p, g.data, true, log, g.base + c.strstart + 1, g.base + c'.strstart);
  }

  /** Otherwise the match just found is pending, after the previous byte if one was pending. */
  lemma WaitLogged(p: Settings, c: Cursor, c': Cursor, g: Past, ts: seq<Token>, ts': seq<Token>, log: map<nat, Try>)
    requires JustTried(c, g, ts, log, p) && ByRule(true, ts', log)
      && Size(ts') == Size(ts) + (if c.available then 1 else 0)
    requires c'.available && c'.strstart == c.strstart + 1
    requires c'.matchLength == c.matchLength && c'.matchStart == c.matchStart
    ensures SlowLog(p, c', g, ts', log)
  {
    hide ByRule, Tried;
  }

  lemma PendingOnly(p: Settings, c: Cursor, c': Cursor, g: Past)
    requires Pending(p, c, g) && c' == c.(blockStart := c'.blockStart, lastLit := c'.lastLit)
    ensures Pending(p, c', g)
  {
    hide WSize, Repeats;
  }

  lemma TrackedFilled(p: Settings, c: Cursor, w: seq<Byte>, head: seq<nat>, prev: seq<nat>, g: Past)
    requires Tracked(p, c, w, head, prev, g)
    ensures Filled(p, c, w, g)
  {
    hide Filled, Chains;
  }

  /** The invariant after a flush at the end of a match. */
  lemma StillReady(m: Matcher, c: Cursor)
    requires m.Arrays() && Tracked(m.p, c, m.window[..], m.head[..], m.prev[..], m.g) && HashReady(m.p, c, m.g)
      && Pending(m.p, c, m.g)
    requires m.c == c.(blockStart := m.c.blockStart, lastLit := m.c.lastLit)
    ensures m.Tracks() && HashReady(m.p, m.c, m.g) && Pending(m.p, m.c, m.g)
  {
    hide Tracked, HashReady, Pending, WSize;
    TrackedOnly(m.p, c, m.c, m.window[..], m.head[..], m.prev[..], m.g);
    PendingOnly(m.p, c, m.c, m.g);
  }

  /** Reading more input and sliding the window change nothing that was emitted. */
  lemma EmittedRefilled(p: Settings, c: Cursor, g: Past, c': Cursor, g': Past, read: seq<Byte>, blocks: seq<Block>,
      ts: seq<Token>)
    requires Emitted(p, g, c.blockStart, blocks, ts, EmittedEnd(c, g)) && Refilled(p, c, g, c', g', read)
    ensures Emitted(p, g', c'.blockStart, blocks, ts, EmittedEnd(c', g'))
  {
    hide WSize, Pending, HashReady, Blocks, Expand;
    EmittedGrow(p, g, c.blockStart, blocks, ts, EmittedEnd(c, g), read);
  }

  lemma SlowLogRefilled(p: Settings, c: Cursor, g: Past, c': Cursor, g': Past, read: seq<Byte>, ts: seq<Token>,
      log: map<nat, Try>)
    requires Refilled(p, c, g, c', g', read) && Pending(p, c, g) && SlowLog(p, c, g, ts, log)
    ensures SlowLog(p, c', g', ts, log)
  {
    hide ByRule, Tried, HashReady;
    LogGrow(p, g.data, true, log, g.base + c.strstart, read, g'.base + c'.strstart);
  }

  method Refill(m: Matcher, next: seq<Byte>, ghost log: map<nat, Try>) returns (rest: seq<Byte>)
    requires SlowReady(m) && m.c.lookahead < MIN_LOOKAHEAD && SlowExplained(m, log)
    modifies m`c, m`g, m.window, m.head, m.prev
    ensures SlowReady(m) && |rest| <= |next| && rest == next[|next| - |rest|..]
    ensures m.g.data == old(m.g.data) + next[..|next| - |rest|] && m.c.lookahead + |rest| == old(m.c.lookahead) + |next|
    ensures m.c.strstart + MIN_LOOKAHEAD <= 2 * WSize(m.p) && (m.c.lookahead >= MIN_LOOKAHEAD || rest == [])
    ensures SlowExplained(m, log)
  {
    hide Tracked, HashReady, Pending, Emitted, WSize, Pow2, Tokens, SlowLog;
    ghost var c0, g0, ts := m.c, m.g, m.Buffered();
    TrackedCursor(m.p, m.c, m.window[..], m.head[..], m.prev[..], m.g);
    rest := m.FillWindow(next);
    SlowLogRefilled(m.p, c0, g0, m.c, m.g, next[..|next| - |rest|], Emission(m), log);
    TrackedCursor(m.p, m.c, m.window[..], m.head[..], m.prev[..], m.g);
    EmittedRefilled(m.p, c0, g0, m.c, m.g, next[..|next| - |rest|], m.blocks, ts);
  }

  /** Everything read is in the blocks handed over. */
  ghost predicate AllHandedOver(m: Matcher)
    reads m, m.dBuf, m.lBuf
  {
    && m.Arrays() && m.Buffered() == [] && !m.c.available && m.c.lookahead == 0
    && Blocks(m.blocks, m.g.data, |m.g.data|)
  }

  /** At the end of the input no match is pending, only perhaps a byte. */
  lemma NoMatchAtEnd(p: Settings, c: Cursor, g: Past, c': Cursor)
    requires Pending(p, c, g) && 2 <= c.matchLength && |g.data| == g.base + c.strstart
    requires c' == c.(available := false, lastLit := c'.lastLit)
    ensures Pending(p, c', g) && (c.available ==> c.strstart >= 1) && c.matchLength < MIN_MATCH
  {
    hide WSize;
  }

  lemma LastByRule(p: Settings, c: Cursor, c': Cursor, g: Past, ts: seq<Token>, log: map<nat, Try>, b: Byte)
    requires SlowLog(p, c, g, ts, log) && c.available && c.matchLength < MIN_MATCH
    requires !c'.available && c'.strstart == c.strstart
    ensures SlowLog(p, c', g, ts + [Literal(b)], log)
  {
    hide ByRule, Tried;
    SizeMore(ts, Literal(b));
    ByRuleMore(true, ts, log, Literal(b));
  }

  /** The byte still pending at the end. */
  method FinishLiteral(m: Matcher, ghost log: map<nat, Try>)
    requires SlowReady(m) && m.c.available && m.c.lookahead == 0 && SlowExplained(m, log)
    modifies m`c, m.dBuf, m.lBuf
    ensures m.Tracks() && HashReady(m.p, m.c, m.g) && Pending(m.p, m.c, m.g)
    ensures m.c == old(m.c).(available := false, lastLit := m.c.lastLit)
    ensures Emitted(m.p, m.g, m.c.blockStart, m.blocks, m.Buffered(), EmittedEnd(m.c, m.g))
    ensures SlowExplained(m, log)
  {
    hide Tracked, HashReady, Pending, Emitted, WSize, Pow2, Tokens, ByRule, Tried;
    ghost var c0, ts, all := m.c, m.Buffered(), Emission(m);
    TrackedCursor(m.p, m.c, m.window[..], m.head[..], m.prev[..], m.g);
    TrackedFilled(m.p, m.c, m.window[..], m.head[..], m.prev[..], m.g);
    NoMatchAtEnd(m.p, m.c, m.g, m.c.(available := false));
    WindowByte(m.p, m.c, m.window[..], m.g, m.c.strstart - 1);
    EmitLiteral(m.p, m.g, m.c.blockStart, m.blocks, ts, EmittedEnd(m.c, m.g));
    var _ := m.Tally(0, m.window[m.c.strstart - 1]);
    assert Emission(m) == all + [TokenAt(0, m.window[c0.strstart - 1])];
    m.c := m.c.(available := false);
    LastByRule(m.p, c0, m.c, m.g, all, log, m.window[c0.strstart - 1]);
    NoMatchAtEnd(m.p, c0, m.g, m.c);
    TrackedOnly(m.p, c0, m.c, m.window[..], m.head[..], m.prev[..], m.g);
  }

  lemma EmittedBlocks(p: Settings, g: Past, blockStart: int, blocks: seq<Block>, ts: seq<Token>, end: int)
    requires Emitted(p, g, blockStart, blocks, ts, end)
    ensures 0 <= g.base + blockStart && Blocks(blocks, g.data, g.base + blockStart)
  {
    hide WSize, Expand, Blocks;
  }

  /** The rest of the data ends the last block. */
  method FinishBlock(m: Matcher, flush: FlushMode, room: nat, ghost log: map<nat, Try>)
    returns (room': nat, state: BlockState)
    requires SlowReady(m) && m.c.lookahead == 0 && SlowExplained(m, log)
    modifies m`c, m`g, m`blocks, m.dBuf, m.lBuf
    ensures SlowReady(m) && m.g == old(m.g) && AllHandedOver(m)
    ensures old(m.blocks) < m.blocks && m.blocks[|m.blocks| - 1].last == (flush == Finish)
      && room' == Spare(room, |m.blocks| - |old(m.blocks)|)
    ensures state ==
      if room' == 0 then (if flush == Finish then FinishStarted else NeedMore)
        else if flush == Finish then FinishDone else BlockDone
    ensures SlowExplained(m, log)
  {
    hide Tracked, HashReady, Pending, Emitted, WSize, Pow2, Tokens, ByRule, Tried, SlowLog, Emission;
    if m.c.available { FinishLiteral(m, log); }
    ghost var c1, ts1 := m.c, Emission(m);
    TrackedCursor(m.p, m.c, m.window[..], m.head[..], m.prev[..], m.g);
    TrackedFilled(m.p, m.c, m.window[..], m.head[..], m.prev[..], m.g);
    Flush(m, flush == Finish);
    StillReady(m, c1);
    SlowLogOnly(m.p, c1, m.c, m.g, ts1, log);
    EmittedBlocks(m.p, m.g, m.c.blockStart, m.blocks, [], m.g.base + m.c.strstart);
    room' := Spare(room, 1);
    state :=
      if room' == 0 then (if flush == Finish then FinishStarted else NeedMore)
        else if flush == Finish then FinishDone else BlockDone;
  }

  /**
    deflate_slow(): takes input, hands blocks over. Whenever it returns, what was emitted so far,
    the pending byte and the lookahead are the input read; at the end of a block, all of it.
   */
  method DeflateSlow(m: Matcher, next: seq<Byte>, flush: FlushMode, room: nat, ghost log: map<nat, Try>)
    returns (rest: seq<Byte>, state: BlockState, left: nat, ghost log': map<nat, Try>)
    requires SlowReady(m) && SlowExplained(m, log)
    modifies m`c, m`g, m`blocks, m.window, m.head, m.prev, m.dBuf, m.lBuf
    ensures SlowReady(m) && old(m.blocks) <= m.blocks && left == Spare(room, |m.blocks| - |old(m.blocks)|)
    ensures |rest| <= |next| && rest == next[|next| - |rest|..] && m.g.data == old(m.g.data) + next[..|next| - |rest|]
    ensures state != NeedMore ==> rest == [] && AllHandedOver(m) && flush != NoFlush
    ensures state in {FinishStarted, FinishDone} ==> flush == Finish && m.blocks != [] && m.blocks[|m.blocks| - 1].last
    ensures state == NeedMore ==> left == 0 || (flush == NoFlush && rest == [] && m.c.lookahead < MIN_LOOKAHEAD)
    ensures SlowExplained(m, log')
  {
    hide SlowReady, WSize, Pow2, AllHandedOver, Blocks, SlowExplained;
    var stop;
    rest, left, stop, log' := SlowLoop(m, next, flush, room, log);
    if stop { return rest, NeedMore, left, log'; }
    ghost var blocks := m.blocks;
    left, state := FinishBlock(m, flush, left, log');
    assert old(m.blocks) <= blocks <= m.blocks;
  }

  /** The loop; it stops for want of input or output space, or goes on to the end of the block. */
  method SlowLoop(m: Matcher, next: seq<Byte>, flush: FlushMode, room: nat, ghost log: map<nat, Try>)
    returns (rest: seq<Byte>, left: nat, stop: bool, ghost log': map<nat, Try>)
    requires SlowReady(m) && SlowExplained(m, log)
    modifies m`c, m`g, m`blocks, m.window, m.head, m.prev, m.dBuf, m.lBuf
    ensures SlowReady(m) && old(m.blocks) <= m.blocks && left == Spare(room, |m.blocks| - |old(m.blocks)|)
    ensures |rest| <= |next| && rest == next[|next| - |rest|..] && m.g.data == old(m.g.data) + next[..|next| - |rest|]
    ensures stop ==> left == 0 || (flush == NoFlush && rest == [] && m.c.lookahead < MIN_LOOKAHEAD)
    ensures !stop ==> m.c.lookahead == 0 && rest == [] && flush != NoFlush
    ensures SlowExplained(m, log')
  {
    hide SlowReady, WSize, Pow2, SlowExplained;
    rest, left, log' := next, room, log;
    assert next[..0] == [] && m.g.data + [] == m.g.data;
    while true
      invariant SlowReady(m) && old(m.blocks) <= m.blocks && left == Spare(room, |m.blocks| - |old(m.blocks)|)
      invariant |rest| <= |next| && rest == next[|next| - |rest|..]
        && m.g.data == old(m.g.data) + next[..|next| - |rest|]
      invariant SlowExplained(m, log')
      decreases |rest| + m.c.lookahead
    {
      if m.c.lookahead < MIN_LOOKAHEAD {
        ghost var rest1 := rest;
        rest := Refill(m, rest, log');
        assert next[..|next| - |rest1|] + rest1[..|rest1| - |rest|] == next[..|next| - |rest|];
        if m.c.lookahead < MIN_LOOKAHEAD && flush == NoFlush { return rest, left, true, log'; }
        if m.c.lookahead == 0 { return rest, left, false, log'; }
      }
      ReadyBounds(m);
      ghost var a := m.g.base + m.c.strstart;
      ghost var t;
      left, stop, t := Step(m, left, log');
      log' := log'[a := t];
      if stop { return; }
    }
  }

  lemma ReadyBounds(m: Matcher)
    requires SlowReady(m)
    ensures m.c.strstart + m.c.lookahead <= 2 * WSize(m.p)
  {
    hide WSize, Pow2, Tracked, HashReady, Pending, Emitted;
    TrackedCursor(m.p, m.c, m.window[..], m.head[..], m.prev[..], m.g);
  }
}
