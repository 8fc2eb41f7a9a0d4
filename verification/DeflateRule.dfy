/**
  What the matcher's rules say of a token stream: which searches were made, and which of their
  results were taken.
 */
module DeflateRule {
  import opened Bits
  import opened Bytes
  import opened DeflateTokens
  import opened DeflateHash
  import opened DeflateMatch
  import opened DeflateState

  const TOO_FAR: nat := 4096

  /** match_length and match_start are what the plain search along the chain yields. */
  ghost predicate SearchedFor(p: Settings, c: Cursor, w: seq<Byte>, prev: seq<nat>, first: nat, c': Cursor) {
    var q := QueryOf(p, w, prev, c.strstart, c.lookahead);
    && ValidQuery(q) && first < c.strstart && ChainLength(p, c.prevLength) > 0
    && var r := Search(q, first, ChainLength(p, c.prevLength), Found(c.prevLength, c.matchStart));
       c'.matchStart == r.start && c'.matchLength == if r.len <= c.lookahead then r.len else c.lookahead
  }

  /** prev_length = match_length, prev_match = match_start, match_length = MIN_MATCH-1 */
  function Shifted(c: Cursor): Cursor {
    c.(prevLength := c.matchLength, prevMatch := c.matchStart, matchLength := MIN_MATCH - 1)
  }

  /** The lazy rule: search unless the previous match is good enough, and drop short matches far away. */
  ghost function Lazily(p: Settings, c: Cursor, w: seq<Byte>, prev: seq<nat>, first: nat): Cursor
    requires first != 0 ==> ValidQuery(QueryOf(p, w, prev, c.strstart, c.lookahead)) && first < c.strstart
    requires ChainLength(p, c.prevLength) > 0
  {
    if first != 0 && c.prevLength < p.maxLazy && c.strstart - first <= MaxDist(p) then
      var r := Search(QueryOf(p, w, prev, c.strstart, c.lookahead), first, ChainLength(p, c.prevLength),
        Found(c.prevLength, c.matchStart));
      var n := if r.len <= c.lookahead then r.len else c.lookahead;
      if r.start < 0 || r.start >= 0x1_0000_0000 then c
      else if n <= 5 && (p.filtered || (n == MIN_MATCH && U32Sub(c.strstart, r.start) > TOO_FAR)) then
        c.(matchLength := MIN_MATCH - 1, matchStart := r.start)
      else c.(matchLength := n, matchStart := r.start)
    else c
  }

  /** A short match far away, or any short match when filtering, is dropped. */
  predicate Dropped(p: Settings, c: Cursor) {
    c.matchLength <= 5 && (p.filtered || (c.matchLength == MIN_MATCH && U32Sub(c.strstart, c.matchStart) > TOO_FAR))
  }

  /** c' is c after the lazy rule for the chain that starts at first. */
  ghost predicate LazyRule(p: Settings, c: Cursor, w: seq<Byte>, prev: seq<nat>, first: nat, c': Cursor) {
    && (first != 0 ==> ValidQuery(QueryOf(p, w, prev, c.strstart, c.lookahead)) && first < c.strstart)
    && ChainLength(p, c.prevLength) > 0
    && c' == Lazily(p, c, w, prev, first)
  }

  /** deflate_fast searches at every token, for more than two bytes. */
  ghost predicate FastRule(p: Settings, c: Cursor, w: seq<Byte>, prev: seq<nat>, first: nat, c': Cursor) {
    if first != 0 && c.strstart - first <= MaxDist(p) then
      SearchedFor(p, c, w, prev, first, c')
    else c'.matchLength == c.matchLength && c.matchLength < MIN_MATCH
  }

  /** How long the match with an earlier string is: at most 258 bytes, and no more than there are. */
  function MatchWith(w: seq<Byte>, cand: nat, c: Cursor): nat
    requires cand + 258 <= |w| && c.strstart + 258 <= |w|
  {
    var n := MatchLen(w, cand, c.strstart, 258);
    if n <= c.lookahead then n else c.lookahead
  }

  /**
    The lazy rule overlooks nothing: of the strings that the search may visit none matches longer than what is
    found, unless that is nice already, or no longer than what the search was asked to beat; or it was dropped,
    being no longer than 5 while the strategy filters, or 3 bytes more than 4096 back.
   */
  lemma LazyFinds(p: Settings, c: Cursor, w: seq<Byte>, prev: seq<nat>, first: nat, c': Cursor, j: nat)
    requires ValidSettings(p) && LazyRule(p, c, w, prev, first, c')
    requires first != 0 && c.prevLength < p.maxLazy && c.strstart - first <= MaxDist(p)
      && j < ChainLength(p, c.prevLength)
    requires Nth(QueryOf(p, w, prev, c.strstart, c.lookahead), first, j).Some?
    ensures var cand := Nth(QueryOf(p, w, prev, c.strstart, c.lookahead), first, j).value;
      var n := MatchWith(w, cand, c);
      || n <= c'.matchLength || n <= c.prevLength
      || (c'.matchLength >= p.nice || c'.matchLength == c.lookahead)
      || (c'.matchLength == 2 && (n <= 5 || p.nice <= 5) && (p.filtered || U32Sub(c.strstart, c'.matchStart) > 4096))
  {
    hide MatchLen, Search, Nth, Pow2;
    var q := QueryOf(p, w, prev, c.strstart, c.lookahead);
    var best := Found(c.prevLength, c.matchStart);
    WSizeBounds(p);
    SearchFindsLongest(q, first, ChainLength(p, c.prevLength), best, j);
    SearchIsGenuine(q, first, ChainLength(p, c.prevLength), best);
  }

  /** deflate_fast overlooks nothing either. */
  lemma FastFinds(p: Settings, c: Cursor, w: seq<Byte>, prev: seq<nat>, first: nat, c': Cursor, j: nat)
    requires ValidSettings(p) && FastRule(p, c, w, prev, first, c')
    requires first != 0 && c.strstart - first <= MaxDist(p) && j < ChainLength(p, c.prevLength)
    requires Nth(QueryOf(p, w, prev, c.strstart, c.lookahead), first, j).Some?
    ensures var cand := Nth(QueryOf(p, w, prev, c.strstart, c.lookahead), first, j).value;
      MatchWith(w, cand, c) <= c'.matchLength || c'.matchLength >= p.nice || c'.matchLength == c.lookahead
  {
    hide MatchLen, Search, Nth, Pow2;
    var q := QueryOf(p, w, prev, c.strstart, c.lookahead);
    WSizeBounds(p);
    SearchFindsLongest(q, first, ChainLength(p, c.prevLength), Found(c.prevLength, c.matchStart), j);
  }

  // ----- searches -----

  /** A search: the state before it, with the hash chains, and the state after. */
  datatype Try = Try(base: nat, before: Cursor, w: seq<Byte>, head: seq<nat>, prev: seq<nat>, after: Cursor)

  /** What it found; nothing if shorter than three bytes. */
  function Length(t: Try): nat {
    t.after.matchLength
  }

  function Distance(t: Try): nat {
    U32Sub(t.before.strstart, t.after.matchStart)
  }

  /** Where the chain started. */
  function First(t: Try): nat {
    if t.before.lookahead >= MIN_MATCH && t.before.insH < |t.head| then t.head[t.before.insH] else 0
  }

  /** The search at position a of the data, by the rule of deflate_slow or deflate_fast. */
  ghost predicate Tried(p: Settings, data: seq<Byte>, slow: bool, a: nat, t: Try) {
    var e := t.before.strstart + t.before.lookahead;
    && a == t.base + t.before.strstart && t.base + e <= |data| && e <= |t.w| && t.w[..e] == data[t.base..t.base + e]
    && (t.before.lookahead >= MIN_MATCH ==> t.before.insH < |t.head| && t.before.insH == KeyAt(p.hash, data, a))
    && (if slow then LazyRule(p, t.before, t.w, t.prev, First(t), t.after)
        else FastRule(p, t.before, t.w, t.prev, First(t), t.after))
  }

  /** All searches were made by the rule, at positions before end. */
  ghost predicate Log(p: Settings, data: seq<Byte>, slow: bool, log: map<nat, Try>, end: nat) {
    forall a {:trigger a in log} :: a in log ==> a < end && Tried(p, data, slow, a, log[a])
  }

  lemma TriedGrow(p: Settings, data: seq<Byte>, slow: bool, a: nat, t: Try, more: seq<Byte>)
    requires Tried(p, data, slow, a, t)
    ensures Tried(p, data + more, slow, a, t)
  {
    hide LazyRule, FastRule, Key;
    var e := t.before.strstart + t.before.lookahead;
    assert (data + more)[t.base..t.base + e] == data[t.base..t.base + e];
  }

  lemma LogGrow(p: Settings, data: seq<Byte>, slow: bool, log: map<nat, Try>, end: nat, more: seq<Byte>, end': nat)
    requires Log(p, data, slow, log, end) && end <= end'
    ensures Log(p, data + more, slow, log, end')
  {
    hide Tried;
    forall a {:trigger a in log} | a in log
      ensures a < end' && Tried(p, data + more, slow, a, log[a])
    {
      TriedGrow(p, data, slow, a, log[a], more);
    }
  }

  lemma LogMore(p: Settings, data: seq<Byte>, slow: bool, log: map<nat, Try>, end: nat, t: Try)
    requires Log(p, data, slow, log, end) && Tried(p, data, slow, end, t)
    ensures Log(p, data, slow, log[end := t], end + 1)
  {
    hide Tried;
  }

  // ----- tokens -----

  /** How many bytes the tokens stand for. */
  function Size(ts: seq<Token>): nat {
    if ts == [] then 0
    else Size(ts[..|ts| - 1]) + (match ts[|ts| - 1] case Literal(_) => 1 case Copy(_, n) => n)
  }

  lemma SizeMore(ts: seq<Token>, t: Token)
    ensures Size(ts + [t]) == Size(ts) + (match t case Literal(_) => 1 case Copy(_, n) => n)
  {
    assert (ts + [t])[..|ts|] == ts;
  }

  lemma {:induction false} ExpandSize(ts: seq<Token>)
    requires Expand(ts).Some?
    ensures |Expand(ts).value| == Size(ts)
  {
    if ts != [] { ExpandSize(ts[..|ts| - 1]); }
  }

  /**
    deflate_slow at p: a copy is what the search at p found, and the search at p + 1 found nothing longer; a
    literal stands only where the search found nothing, or the search at p + 1 found something longer.
   */
  predicate LazyToken(t: Token, p: nat, log: map<nat, Try>) {
    && p in log
    && match t
       case Literal(_) => Length(log[p]) < MIN_MATCH || (p + 1 in log && Length(log[p + 1]) > Length(log[p]))
       case Copy(d, n) =>
         && n >= MIN_MATCH && n == Length(log[p]) && d == Distance(log[p])
         && p + 1 in log && Length(log[p + 1]) <= n
  }

  /** deflate_fast at p: a copy is what the search at p found, a literal stands where it found nothing. */
  predicate GreedyToken(t: Token, p: nat, log: map<nat, Try>) {
    && p in log
    && match t
       case Literal(_) => Length(log[p]) < MIN_MATCH
       case Copy(d, n) => n >= MIN_MATCH && n == Length(log[p]) && d == Distance(log[p])
  }

  predicate ByRule(slow: bool, ts: seq<Token>, log: map<nat, Try>) {
    ts == [] ||
    (var before, t := ts[..|ts| - 1], ts[|ts| - 1];
     && ByRule(slow, before, log)
     && if slow then LazyToken(t, Size(before), log) else GreedyToken(t, Size(before), log))
  }

  lemma ByRuleMore(slow: bool, ts: seq<Token>, log: map<nat, Try>, t: Token)
    requires ByRule(slow, ts, log)
    requires if slow then LazyToken(t, Size(ts), log) else GreedyToken(t, Size(ts), log)
    ensures ByRule(slow, ts + [t], log)
  {
    assert (ts + [t])[..|ts|] == ts;
  }

  /** Further searches change nothing. */
  lemma {:induction false} ByRuleLater(slow: bool, ts: seq<Token>, log: map<nat, Try>, a: nat, t: Try)
    requires ByRule(slow, ts, log) && a !in log
    ensures ByRule(slow, ts, log[a := t])
  {
    if ts != [] { ByRuleLater(slow, ts[..|ts| - 1], log, a, t); }
  }

  /** The tokens are explained by searches made in the data by the rule. */
  ghost predicate Explained(p: Settings, data: seq<Byte>, slow: bool, ts: seq<Token>, log: map<nat, Try>) {
    ByRule(slow, ts, log) && Log(p, data, slow, log, |data|)
  }
}
