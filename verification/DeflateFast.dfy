/** deflate_fast(): matching without lazy evaluation, with fewer insertions. */
module DeflateFast {
  import opened Bits
  import opened Bytes
  import opened DeflateTokens
  import opened DeflateHash
  import opened DeflateMatch
  import opened DeflateState
  import opened DeflateWindow
  import opened DeflateSlow
  import opened DeflateRule

  /** The invariant at the head of the loop, and between calls: nothing is ever pending. */
  ghost predicate FastReady(m: Matcher)
    reads m, m.window, m.head, m.prev, m.dBuf, m.lBuf
  {
    && m.Tracks() && HashReady(m.p, m.c, m.g) && m.c.lastLit < m.p.litBufsize - 1
    && !m.c.available && m.c.matchLength < MIN_MATCH && m.c.prevLength == MIN_MATCH - 1
    && Emitted(m.p, m.g, m.c.blockStart, m.blocks, m.Buffered(), m.g.base + m.c.strstart)
  }

  /** The tokens so far are explained by the searches made. */
  ghost predicate FastLog(p: Settings, c: Cursor, g: Past, ts: seq<Token>, log: map<nat, Try>) {
    Size(ts) == g.base + c.strstart && ByRule(false, ts, log) && Log(p, g.data, false, log, g.base + c.strstart)
  }

  ghost predicate FastExplained(m: Matcher, log: map<nat, Try>)
    reads m, m.dBuf, m.lBuf
  {
    m.c.lastLit <= m.dBuf.Length && m.c.lastLit <= m.lBuf.Length && FastLog(m.p, m.c, m.g, Emission(m), log)
  }

  lemma FindFastTried(p: Settings, c: Cursor, w: seq<Byte>, head: seq<nat>, head': seq<nat>, prev: seq<nat>, g: Past,
      first: nat, before: Cursor)
    requires Entered(p, c, w, head', prev, g) && |head| == |head'|
    requires c.lookahead < MIN_MATCH ==> first == 0
    requires c.lookahead >= MIN_MATCH ==> c.insH < |head| && first == head[c.insH]
    requires before.strstart == c.strstart && before.lookahead == c.lookahead && before.insH == c.insH
    requires FastRule(p, before, w, prev, first, c)
    ensures Tried(p, g.data, false, g.base + c.strstart, TryOf(g, before, w, head, prev, c))
  {
    hide FastRule, Chains, Key, WSize;
    FilledData(p, c, w, g);
    assert g.data[g.base..] == g.data[g.base..g.base + c.strstart + c.lookahead];
  }

  /** One more token, of n bytes, by the search just made. */
  lemma FastLogged(p: Settings, c: Cursor, c': Cursor, g: Past, g': Past, ts: seq<Token>, log: map<nat, Try>, t: Try,
      token: Token, n: nat)
    requires FastLog(p, c, g, ts, log) && Tried(p, g.data, false, g.base + c.strstart, t) && g' == g.(ins := g'.ins)
    requires c'.strstart == c.strstart + n && n > 0
    requires n == (match token case Literal(_) => 1 case Copy(_, m) => m)
    requires match token
      case Literal(_) => Length(t) < MIN_MATCH
      case Copy(d, m) => m >= MIN_MATCH && m == Length(t) && d == Distance(t)
    ensures g.base + c.strstart !in log
    ensures FastLog(p, c', g', ts + [token], log[g.base + c.strstart := t])
  {
    hide Tried, ByRule;
    var a := g.base + c.strstart;
    LogMore(p, g.data, false, log, a, t);
    LogEnd(p, g.data, false, log[a := t], a + 1, a + n);
    ByRuleLater(false, ts, log, a, t);
    SizeMore(ts, token);
    ByRuleMore(false, ts, log[a := t], token);
  }

  lemma FastLogRefilled(p: Settings, c: Cursor, g: Past, c': Cursor, g': Past, read: seq<Byte>, ts: seq<Token>,
      log: map<nat, Try>)
    requires Refilled(p, c, g, c', g', read) && FastLog(p, c, g, ts, log)
    ensures FastLog(p, c', g', ts, log)
  {
    hide ByRule, Tried, HashReady, Pending;
    LogGrow(p, g.data, false, log, g.base + c.strstart, read, g'.base + c'.strstart);
  }

  /** strstart += n and the hash started afresh. */
  function Skipped(p: Settings, c: Cursor, w: seq<Byte>, n: nat): Cursor
    requires n <= c.lookahead && c.strstart + n < 0x1_0000_0000 && c.strstart + n + 1 < |w|
  {
    var c1 := Advance(c, n);
    c1.(insH := StartHash(p, w, c1))
  }

  /** Positions inside a long match are passed over. */
  lemma SkipsTracked(p: Settings, c: Cursor, w: seq<Byte>, head: seq<nat>, prev: seq<nat>, g: Past, n: nat)
    requires Entered(p, c, w, head, prev, g) && 0 < n <= c.lookahead && c.strstart + n + 1 < |w|
      && c.strstart + n < 0x1_0000_0000
    ensures Tracked(p, Skipped(p, c, w, n), w, head, prev, g) && HashReady(p, Skipped(p, c, w, n), g)
  {
    hide Chains, WSize, Key, Filled, Update, Primed;
    EnteredFacts(p, c, w, head, prev, g);
    var c1, c' := Advance(c, n), Skipped(p, c, w, n);
    FilledAdvance(p, c, w, g, n);
    FilledOnly(p, c1, c', w, g);
    ChainsSkip(p, head, prev, g, g.base + c.strstart + 1, g.base + c'.strstart);
    if c'.lookahead >= MIN_MATCH {
      WindowByte(p, c', w, g, c'.strstart);
      WindowByte(p, c', w, g, c'.strstart + 1);
      StartPrimes(p.hash, w[c'.strstart], w[c'.strstart + 1]);
    }
  }

  /** Insert the next n strings, all of which are long enough. */
  method InsertAll(m: Matcher, n: nat)
    requires m.HasEntered() && n + MIN_MATCH <= m.c.lookahead
    modifies m`c, m`g, m.head, m.prev
    ensures m.HasEntered() && m.g == old(m.g).(ins := m.g.ins)
    ensures m.c == old(m.c).(strstart := m.c.strstart, lookahead := m.c.lookahead, insH := m.c.insH)
    ensures m.c.strstart == old(m.c.strstart) + n && m.c.lookahead == old(m.c.lookahead) - n
  {
    hide Tracked, HashReady, Entered, Inserted, WSize, Pow2;
    ghost var c0, g0 := m.c, m.g;
    for i := 0 to n
      invariant m.HasEntered() && m.g == g0.(ins := m.g.ins)
      invariant m.c == c0.(strstart := m.c.strstart, lookahead := m.c.lookahead, insH := m.c.insH)
      invariant m.c.strstart == c0.strstart + i && m.c.lookahead == c0.lookahead - i
    {
      m.Move();
      var _ := m.InsertString();
    }
  }

  /** Move over a long match without inserting, and start the hash afresh. */
  method SkipOver(m: Matcher, n: nat)
    requires m.HasEntered() && 0 < n <= m.c.lookahead && m.c.strstart + n + 1 < m.window.Length
    modifies m`c
    ensures m.Tracks() && HashReady(m.p, m.c, m.g)
    ensures m.c == old(m.c).(strstart := m.c.strstart, lookahead := m.c.lookahead, insH := m.c.insH)
    ensures m.c.strstart == old(m.c.strstart) + n && m.c.lookahead == old(m.c.lookahead) - n
  {
    hide Tracked, HashReady, Entered, WSize, Pow2;
    EnteredFacts(m.p, m.c, m.window[..], m.head[..], m.prev[..], m.g);
    SkipsTracked(m.p, m.c, m.window[..], m.head[..], m.prev[..], m.g, n);
    m.c := m.c.(strstart := m.c.strstart + n, lookahead := m.c.lookahead - n);
    m.c := m.c.(insH := Update(m.p.hash, m.window[m.c.strstart], m.window[m.c.strstart + 1]));
  }

  /** Output the match at strstart and move past it; returns whether the buffers are full. */
  method EmitFound(m: Matcher) returns (full: bool)
    requires m.HasEntered() && m.c.lastLit < m.p.litBufsize - 1 && m.c.strstart + MIN_LOOKAHEAD <= 2 * WSize(m.p)
    requires Genuine(m.p, m.g, m.c.strstart, m.c.matchStart, m.c.matchLength) && m.c.matchLength <= m.c.lookahead
    requires Emitted(m.p, m.g, m.c.blockStart, m.blocks, m.Buffered(), m.g.base + m.c.strstart)
    modifies m`c, m`g, m.head, m.prev, m.dBuf, m.lBuf
    ensures m.Tracks() && HashReady(m.p, m.c, m.g) && m.g == old(m.g).(ins := m.g.ins)
    ensures m.c ==
      old(m.c).(strstart := m.c.strstart, lookahead := m.c.lookahead, insH := m.c.insH, lastLit := m.c.lastLit,
        matchLength := 0)
    ensures m.c.strstart == old(m.c.strstart + m.c.matchLength) && m.c.lookahead == old(m.c.lookahead - m.c.matchLength)
    ensures Emitted(m.p, m.g, m.c.blockStart, m.blocks, m.Buffered(), m.g.base + m.c.strstart)
    ensures m.c.lastLit <= m.p.litBufsize - 1 && full == (m.c.lastLit == m.p.litBufsize - 1)
    ensures Emission(m) ==
      old(Emission(m)) + [Token.Copy(U32Sub(old(m.c.strstart), old(m.c.matchStart)), old(m.c.matchLength))]
  {
    hide Tracked, HashReady, Entered, Emitted, Repeats, WSize, Pow2, Tokens;
    ghost var c0, g0, ts, all := m.c, m.g, m.Buffered(), Emission(m);
    var length := m.c.matchLength;
    EnteredFacts(m.p, m.c, m.window[..], m.head[..], m.prev[..], m.g);
    var d := U32Sub(m.c.strstart, m.c.matchStart);
    EmitCopy(m.p, m.g, m.c.blockStart, m.blocks, ts, m.g.base + m.c.strstart, d, length);
    full := m.Tally(d, length - MIN_MATCH);
    assert Emission(m) == all + [TokenAt(d, length - MIN_MATCH)];
    assert TokenAt(d, length - MIN_MATCH) == Token.Copy(d, length);
    EnteredOnly(m.p, c0, m.c, m.window[..], m.head[..], m.prev[..], m.g);
    if length <= m.p.maxLazy && m.c.lookahead - length >= MIN_MATCH {
      InsertAll(m, length - 1);
      m.Move();
    } else {
      SkipOver(m, length);
    }
    ghost var c1 := m.c;
    m.c := m.c.(matchLength := 0);
    TrackedOnly(m.p, c1, m.c, m.window[..], m.head[..], m.prev[..], m.g);
    EmittedPast(m.p, g0, c0.blockStart, m.blocks, m.Buffered(), m.g.base + m.c.strstart, m.g);
  }

  /** Output the byte at strstart; returns whether the buffers are full. */
  method EmitByte(m: Matcher) returns (full: bool)
    requires m.HasEntered() && m.c.lastLit < m.p.litBufsize - 1 && m.c.lookahead > 0
    requires Emitted(m.p, m.g, m.c.blockStart, m.blocks, m.Buffered(), m.g.base + m.c.strstart)
    modifies m`c, m.dBuf, m.lBuf
    ensures m.Tracks() && HashReady(m.p, m.c, m.g)
    ensures m.c == old(m.c).(strstart := m.c.strstart, lookahead := m.c.lookahead, lastLit := m.c.lastLit)
    ensures m.c.strstart == old(m.c.strstart) + 1 && m.c.lookahead == old(m.c.lookahead) - 1
    ensures Emitted(m.p, m.g, m.c.blockStart, m.blocks, m.Buffered(), m.g.base + m.c.strstart)
    ensures m.c.lastLit <= m.p.litBufsize - 1 && full == (m.c.lastLit == m.p.litBufsize - 1)
    ensures exists b: Byte :: Emission(m) == old(Emission(m)) + [Literal(b)]
  {
    hide Tracked, HashReady, Entered, Emitted, WSize, Pow2, Tokens;
    ghost var c0, ts, all := m.c, m.Buffered(), Emission(m);
    EnteredFacts(m.p, m.c, m.window[..], m.head[..], m.prev[..], m.g);
    WindowByte(m.p, m.c, m.window[..], m.g, m.c.strstart);
    EmitLiteral(m.p, m.g, m.c.blockStart, m.blocks, ts, m.g.base + m.c.strstart);
    full := m.Tally(0, m.window[m.c.strstart]);
    assert Emission(m) == all + [Literal(m.window[c0.strstart])];
    EnteredOnly(m.p, c0, m.c, m.window[..], m.head[..], m.prev[..], m.g);
    m.Move();
  }

  /** Insert the string at strstart, if there is one, and search for a match. */
  method FindFast(m: Matcher) returns (ghost first: nat)
    requires FastReady(m) && m.c.lookahead > 0 && m.c.strstart + MIN_LOOKAHEAD <= 2 * WSize(m.p)
    modifies m`c, m`g, m.head, m.prev
    ensures m.HasEntered() && m.g == old(m.g).(ins := m.g.ins)
    ensures m.c == old(m.c).(insH := m.c.insH, matchLength := m.c.matchLength, matchStart := m.c.matchStart)
    ensures m.c.matchLength >= MIN_MATCH ==>
      m.c.matchLength <= m.c.lookahead && Genuine(m.p, m.g, m.c.strstart, m.c.matchStart, m.c.matchLength)
    ensures Emitted(m.p, m.g, m.c.blockStart, m.blocks, m.Buffered(), m.g.base + m.c.strstart)
    ensures m.c.lookahead < MIN_MATCH ==> first == 0
    ensures m.c.lookahead >= MIN_MATCH ==> m.c.insH < m.head.Length && first == old(m.head[..])[m.c.insH]
    ensures FastRule(m.p, old(m.c).(insH := m.c.insH), m.window[..], m.prev[..], first, m.c)
    ensures Emission(m) == old(Emission(m))
  {
    hide Tracked, HashReady, Entered, Emitted, Genuine, Inserted, SearchedFor, WSize, Pow2, Tokens;
    ghost var c0, g0, ts := m.c, m.g, m.Buffered();
    var hashHead := 0;
    if m.c.lookahead >= MIN_MATCH {
      hashHead := m.InsertString();
    } else {
      m.SkipString();
    }
    first := hashHead;
    EmittedPast(m.p, g0, c0.blockStart, m.blocks, ts, m.g.base + m.c.strstart, m.g);
    if hashHead != 0 && m.c.strstart - hashHead <= MaxDist(m.p) {
      ghost var c1 := m.c;
      RunLongestMatch(m, hashHead);
      EnteredOnly(m.p, c1, m.c, m.window[..], m.head[..], m.prev[..], m.g);
    }
  }

  /** The token that the search calls for; returns whether the buffers are full. */
  method EmitToken(m: Matcher, ghost c0: Cursor, ghost g0: Past, ghost t: Try, ghost log: map<nat, Try>)
    returns (full: bool)
    requires m.HasEntered() && m.c.lastLit < m.p.litBufsize - 1 && m.c.lookahead > 0
    requires m.c.strstart + MIN_LOOKAHEAD <= 2 * WSize(m.p) && !m.c.available && m.c.prevLength == MIN_MATCH - 1
    requires Emitted(m.p, m.g, m.c.blockStart, m.blocks, m.Buffered(), m.g.base + m.c.strstart)
    requires m.c.matchLength >= MIN_MATCH ==>
      m.c.matchLength <= m.c.lookahead && Genuine(m.p, m.g, m.c.strstart, m.c.matchStart, m.c.matchLength)
    requires m.g == g0.(ins := m.g.ins) && m.c.strstart == c0.strstart && t.after == m.c
      && t.before.strstart == m.c.strstart
    requires FastLog(m.p, c0, g0, Emission(m), log) && Tried(m.p, g0.data, false, g0.base + c0.strstart, t)
    modifies m`c, m`g, m.head, m.prev, m.dBuf, m.lBuf
    ensures m.Tracks() && HashReady(m.p, m.c, m.g) && m.g == old(m.g).(ins := m.g.ins)
    ensures !m.c.available && m.c.matchLength < MIN_MATCH && m.c.prevLength == MIN_MATCH - 1
    ensures m.c.lookahead < old(m.c.lookahead) && m.c.lastLit <= m.p.litBufsize - 1
    ensures full == (m.c.lastLit == m.p.litBufsize - 1)
    ensures Emitted(m.p, m.g, m.c.blockStart, m.blocks, m.Buffered(), m.g.base + m.c.strstart)
    ensures FastExplained(m, log[g0.base + c0.strstart := t])
  {
    hide Tracked, HashReady, Entered, Emitted, WSize, Pow2, Tokens, FastRule, Tried, ByRule, Log, FastLog, Repeats;
    ghost var c1, ts := m.c, Emission(m);
    if m.c.matchLength >= MIN_MATCH {
      full := EmitFound(m);
      FastLogged(m.p, c0, m.c, g0, m.g, ts, log, t, Token.Copy(U32Sub(c1.strstart, c1.matchStart), c1.matchLength),
        c1.matchLength);
    } else {
      full := EmitByte(m);
      ghost var b: Byte :| Emission(m) == ts + [Literal(b)];
      FastLogged(m.p, c0, m.c, g0, m.g, ts, log, t, Literal(b), 1);
    }
  }

  /** One round of the loop: the search it makes, t, joins the log, and its result is the token. */
  method FastStep(m: Matcher, room: nat, ghost log: map<nat, Try>) returns (room': nat, stop: bool, ghost t: Try)
    requires FastReady(m) && m.c.lookahead > 0 && m.c.strstart + MIN_LOOKAHEAD <= 2 * WSize(m.p)
    requires FastExplained(m, log)
    modifies m`c, m`g, m`blocks, m.head, m.prev, m.dBuf, m.lBuf
    ensures FastReady(m) && m.g == old(m.g).(ins := m.g.ins) && m.c.lookahead < old(m.c.lookahead)
    ensures old(m.blocks) <= m.blocks && room' == Spare(room, |m.blocks| - |old(m.blocks)|) && (stop ==> room' == 0)
    ensures old(m.g.base + m.c.strstart) !in log && t.head == old(m.head[..]) && t.w == old(m.window[..])
    ensures FastExplained(m, log[old(m.g.base + m.c.strstart) := t])
  {
    hide Tracked, HashReady, Entered, Emitted, WSize, Pow2, Tokens, FastRule, Tried, ByRule, Log, FastLog, Genuine;
    room', stop := room, false;
    ghost var c0, g0, head0, ts := m.c, m.g, m.head[..], Emission(m);
    ghost var first := FindFast(m);
    ghost var before := c0.(insH := m.c.insH);
    t := TryOf(m.g, before, m.window[..], head0, m.prev[..], m.c);
    FindFastTried(m.p, m.c, m.window[..], head0, m.head[..], m.prev[..], m.g, first, before);
    NotYetTried(m.p, c0, g0, ts, log);
    var full := EmitToken(m, c0, g0, t, log);
    if full {
      ghost var c2, ts2 := m.c, Emission(m);
      TrackedFilled(m.p, m.c, m.window[..], m.head[..], m.prev[..], m.g);
      Flush(m, false);
      TrackedOnly(m.p, c2, m.c, m.window[..], m.head[..], m.prev[..], m.g);
      FastLogOnly(m.p, c2, m.c, m.g, ts2, log[g0.base + c0.strstart := t]);
      room' := Spare(room, 1);
      stop := room' == 0;
    }
  }

  lemma NotYetTried(p: Settings, c: Cursor, g: Past, ts: seq<Token>, log: map<nat, Try>)
    requires FastLog(p, c, g, ts, log)
    ensures g.base + c.strstart !in log
  {
    hide Tried, ByRule;
  }

  lemma FastLogOnly(p: Settings, c: Cursor, c': Cursor, g: Past, ts: seq<Token>, log: map<nat, Try>)
    requires FastLog(p, c, g, ts, log) && c'.strstart == c.strstart
    ensures FastLog(p, c', g, ts, log)
  {
    hide Tried, ByRule, Log;
  }

  lemma EmittedRefilledFast(p: Settings, c: Cursor, g: Past, c': Cursor, g': Past, read: seq<Byte>, blocks: seq<Block>,
      ts: seq<Token>)
    requires Emitted(p, g, c.blockStart, blocks, ts, g.base + c.strstart) && Refilled(p, c, g, c', g', read)
    ensures Emitted(p, g', c'.blockStart, blocks, ts, g'.base + c'.strstart)
  {
    hide WSize, Pending, HashReady, Blocks, Expand;
    EmittedGrow(p, g, c.blockStart, blocks, ts, g.base + c.strstart, read);
  }

  method RefillFast(m: Matcher, next: seq<Byte>, ghost log: map<nat, Try>) returns (rest: seq<Byte>)
    requires FastReady(m) && m.c.lookahead < MIN_LOOKAHEAD && FastExplained(m, log)
    modifies m`c, m`g, m.window, m.head, m.prev
    ensures FastReady(m) && |rest| <= |next| && rest == next[|next| - |rest|..]
    ensures m.g.data == old(m.g.data) + next[..|next| - |rest|] && m.c.lookahead + |rest| == old(m.c.lookahead) + |next|
    ensures m.c.strstart + MIN_LOOKAHEAD <= 2 * WSize(m.p) && (m.c.lookahead >= MIN_LOOKAHEAD || rest == [])
    ensures FastExplained(m, log)
  {
    hide Tracked, HashReady, Pending, Emitted, WSize, Pow2, Tokens, FastLog;
    ghost var c0, g0, ts := m.c, m.g, m.Buffered();
    TrackedCursor(m.p, m.c, m.window[..], m.head[..], m.prev[..], m.g);
    rest := m.FillWindow(next);
    FastLogRefilled(m.p, c0, g0, m.c, m.g, next[..|next| - |rest|], Emission(m), log);
    TrackedCursor(m.p, m.c, m.window[..], m.head[..], m.prev[..], m.g);
    EmittedRefilledFast(m.p, c0, g0, m.c, m.g, next[..|next| - |rest|], m.blocks, ts);
  }

  lemma FastBounds(m: Matcher)
    requires FastReady(m)
    ensures m.c.strstart + m.c.lookahead <= 2 * WSize(m.p)
  {
    hide WSize, Pow2, Tracked, HashReady, Emitted;
    TrackedCursor(m.p, m.c, m.window[..], m.head[..], m.prev[..], m.g);
  }

  /** The loop; it stops for want of input or output space, or goes on to the end of the block. */
  method FastLoop(m: Matcher, next: seq<Byte>, flush: FlushMode, room: nat, ghost log: map<nat, Try>)
    returns (rest: seq<Byte>, left: nat, stop: bool, ghost log': map<nat, Try>)
    requires FastReady(m) && FastExplained(m, log)
    modifies m`c, m`g, m`blocks, m.window, m.head, m.prev, m.dBuf, m.lBuf
    ensures FastReady(m) && old(m.blocks) <= m.blocks && left == Spare(room, |m.blocks| - |old(m.blocks)|)
    ensures |rest| <= |next| && rest == next[|next| - |rest|..] && m.g.data == old(m.g.data) + next[..|next| - |rest|]
    ensures stop ==> left == 0 || (flush == NoFlush && rest == [] && m.c.lookahead < MIN_LOOKAHEAD)
    ensures !stop ==> m.c.lookahead == 0 && rest == [] && flush != NoFlush
    ensures FastExplained(m, log')
  {
    hide FastReady, WSize, Pow2, FastExplained;
    rest, left, log' := next, room, log;
    assert next[..0] == [] && m.g.data + [] == m.g.data;
    while true
      invariant FastReady(m) && old(m.blocks) <= m.blocks && left == Spare(room, |m.blocks| - |old(m.blocks)|)
      invariant |rest| <= |next| && rest == next[|next| - |rest|..]
        && m.g.data == old(m.g.data) + next[..|next| - |rest|]
      invariant FastExplained(m, log')
      decreases |rest| + m.c.lookahead
    {
      if m.c.lookahead < MIN_LOOKAHEAD {
        ghost var rest1 := rest;
        rest := RefillFast(m, rest, log');
        assert next[..|next| - |rest1|] + rest1[..|rest1| - |rest|] == next[..|next| - |rest|];
        if m.c.lookahead < MIN_LOOKAHEAD && flush == NoFlush { return rest, left, true, log'; }
        if m.c.lookahead == 0 { return rest, left, false, log'; }
      }
      FastBounds(m);
      ghost var a := m.g.base + m.c.strstart;
      ghost var t;
      left, stop, t := FastStep(m, left, log');
      log' := log'[a := t];
      if stop { return; }
    }
  }

  /** The rest of the data ends the last block. */
  method FinishFast(m: Matcher, flush: FlushMode, room: nat, ghost log: map<nat, Try>)
    returns (room': nat, state: BlockState)
    requires FastReady(m) && m.c.lookahead == 0 && FastExplained(m, log)
    modifies m`c, m`blocks
    ensures FastReady(m) && AllHandedOver(m) && room' == Spare(room, |m.blocks| - |old(m.blocks)|)
    ensures old(m.blocks) < m.blocks && m.blocks[|m.blocks| - 1].last == (flush == Finish)
    ensures state ==
      if room' == 0 then (if flush == Finish then FinishStarted else NeedMore)
        else if flush == Finish then FinishDone else BlockDone
    ensures FastExplained(m, log)
  {
    hide Tracked, HashReady, Emitted, WSize, Pow2, Tokens, ByRule, Log;
    ghost var c1 := m.c;
    TrackedCursor(m.p, m.c, m.window[..], m.head[..], m.prev[..], m.g);
    TrackedFilled(m.p, m.c, m.window[..], m.head[..], m.prev[..], m.g);
    Flush(m, flush == Finish);
    TrackedOnly(m.p, c1, m.c, m.window[..], m.head[..], m.prev[..], m.g);
    EmittedBlocks(m.p, m.g, m.c.blockStart, m.blocks, [], m.g.base + m.c.strstart);
    room' := Spare(room, 1);
    state :=
      if room' == 0 then (if flush == Finish then FinishStarted else NeedMore)
        else if flush == Finish then FinishDone else BlockDone;
  }

  /** deflate_fast(): as deflate_slow, but every match is taken at once. */
  method DeflateFast(m: Matcher, next: seq<Byte>, flush: FlushMode, room: nat, ghost log: map<nat, Try>)
    returns (rest: seq<Byte>, state: BlockState, left: nat, ghost log': map<nat, Try>)
    requires FastReady(m) && FastExplained(m, log)
    modifies m`c, m`g, m`blocks, m.window, m.head, m.prev, m.dBuf, m.lBuf
    ensures FastReady(m) && old(m.blocks) <= m.blocks && left == Spare(room, |m.blocks| - |old(m.blocks)|)
    ensures |rest| <= |next| && rest == next[|next| - |rest|..] && m.g.data == old(m.g.data) + next[..|next| - |rest|]
    ensures state != NeedMore ==> rest == [] && AllHandedOver(m) && flush != NoFlush
    ensures state in {FinishStarted, FinishDone} ==> flush == Finish && m.blocks != [] && m.blocks[|m.blocks| - 1].last
    ensures state == NeedMore ==> left == 0 || (flush == NoFlush && rest == [] && m.c.lookahead < MIN_LOOKAHEAD)
    ensures FastExplained(m, log')
  {
    hide FastReady, WSize, Pow2, AllHandedOver, Blocks, FastExplained;
    var stop;
    rest, left, stop, log' := FastLoop(m, next, flush, room, log);
    if stop { return rest, NeedMore, left, log'; }
    ghost var blocks := m.blocks;
    left, state := FinishFast(m, flush, left, log');
    assert old(m.blocks) <= blocks <= m.blocks;
  }
}
