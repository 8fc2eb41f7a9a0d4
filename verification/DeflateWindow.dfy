/** The matcher object: reading input into the window, hash insertion, tallying and block output. */
module DeflateWindow {
  import opened Bits
  import opened Bytes
  import opened DeflateTokens
  import opened DeflateHash
  import opened DeflateMatch
  import opened DeflateState

  /** The hash is ready for the string at strstart. */
  ghost predicate HashReady(p: Settings, c: Cursor, g: Past) {
    var s := g.base + c.strstart;
    c.lookahead >= MIN_MATCH && s + 2 <= |g.data| ==> Primed(p.hash, c.insH, g.data[s], g.data[s + 1])
  }

  /** Window and hash chains agree with the input. */
  ghost predicate Tracked(p: Settings, c: Cursor, w: seq<Byte>, head: seq<nat>, prev: seq<nat>, g: Past) {
    ValidSettings(p) && Filled(p, c, w, g) && Chains(p, head, prev, g, g.base + c.strstart)
  }

  /** zmemcpy of the upper half onto the lower half */
  method MoveDown(window: array<Byte>, wsize: nat)
    requires window.Length == 2 * wsize
    modifies window
    ensures window[..wsize] == old(window[wsize..]) && window[wsize..] == old(window[wsize..])
  {
    ghost var w := window[..];
    for i := 0 to wsize
      invariant window[..i] == w[wsize..wsize + i] && window[i..] == w[i..]
    {
      assert window[wsize + i] == window[i..][wsize] == w[wsize + i];
      window[i] := window[wsize + i];
      assert window[..i + 1] == w[wsize..wsize + i] + [w[wsize + i]];
    }
    assert w[wsize..wsize + wsize] == w[wsize..];
  }

  /** Slide one of the hash tables, from the end. */
  method SlideTable(a: array<nat>, wsize: nat)
    modifies a
    ensures a[..] == SlideAll(old(a[..]), wsize)
  {
    ghost var s := a[..];
    var n := a.Length;
    while n > 0
      invariant 0 <= n <= a.Length
      invariant a[..n] == s[..n]
      invariant a[n..] == SlideAll(s, wsize)[n..]
    {
      n := n - 1;
      assert a[n] == a[..n + 1][n] == s[n];
      var m := a[n];
      a[n] := if m >= wsize then m - wsize else 0;
      assert a[n..] == [SlideAll(s, wsize)[n]] + SlideAll(s, wsize)[n + 1..];
    }
  }

  /** CLEAR_HASH */
  method ClearHash(head: array<nat>)
    requires head.Length > 0
    modifies head
    ensures forall h :: 0 <= h < head.Length ==> head[h] == 0
  {
    head[head.Length - 1] := 0;
    for i := 0 to head.Length - 1
      invariant head[head.Length - 1] == 0 && forall h :: 0 <= h < i ==> head[h] == 0
    {
      head[i] := 0;
    }
  }

  /** With every chain empty, no link is live; an empty lookahead lets the window start again. */
  lemma Forgotten(p: Settings, c: Cursor, w: seq<Byte>, head: seq<nat>, head': seq<nat>, prev: seq<nat>, g: Past)
    requires Tracked(p, c, w, head, prev, g) && |head'| == |head| && forall h :: 0 <= h < |head'| ==> head'[h] == 0
    ensures Tracked(p, c, w, head', prev, g.(ins := {}))
    ensures c.lookahead == 0 ==>
      Tracked(p, c.(strstart := 0, blockStart := 0), w, head', prev, Past(g.data, |g.data|, {}))
  {
    hide Key, Pow2;
    assert w[..0] == g.data[|g.data|..];
  }

  /** read_buf: append the next n input bytes after the lookahead. */
  method ReadBuf(window: array<Byte>, at: nat, next: seq<Byte>, n: nat)
    requires at + n <= window.Length && n <= |next|
    modifies window
    ensures window[..at + n] == old(window[..at]) + next[..n]
  {
    for i := 0 to n
      invariant window[..at + i] == old(window[..at]) + next[..i]
    {
      window[at + i] := next[i];
      assert window[..at + i + 1] == window[..at + i] + [next[i]];
    }
  }

  /** The cursor after a slide. */
  function Slide(c: Cursor, wsize: U32): Cursor
    requires c.strstart >= wsize
  {
    c.(strstart := c.strstart - wsize, blockStart := c.blockStart - wsize, matchStart := U32Sub(c.matchStart, wsize))
  }

  lemma FilledSlide(p: Settings, c: Cursor, w: seq<Byte>, g: Past, w': seq<Byte>)
    requires Filled(p, c, w, g) && c.strstart >= WSize(p) && |w'| == |w| && w'[..WSize(p)] == w[WSize(p)..]
    ensures Filled(p, c.(strstart := c.strstart - WSize(p)), w', g.(base := g.base + WSize(p)))
  {
    hide Pow2, WSize;
    var n, e := WSize(p), c.strstart - WSize(p) + c.lookahead;
    assert w'[..e] == w'[..n][..e];
    assert w[n..][..e] == w[..n + e][n..];
    assert g.data[g.base..][n..] == g.data[g.base + n..];
  }

  /** What filling the window keeps: absolute positions, what was inserted, and the pending match. */
  ghost predicate Refilled(p: Settings, c: Cursor, g: Past, c': Cursor, g': Past, read: seq<Byte>) {
    && g'.data == g.data + read && g'.ins == g.ins
    && g'.base + c'.strstart == g.base + c.strstart && g'.base + c'.blockStart == g.base + c.blockStart
    && c'.strstart <= c.strstart
    && c' ==
      c.(strstart := c'.strstart, lookahead := c'.lookahead, blockStart := c'.blockStart, insH := c'.insH,
        matchStart := c'.matchStart)
    && U32Sub(c'.strstart, c'.matchStart) == U32Sub(c.strstart, c.matchStart)
    && (Pending(p, c, g) ==> Pending(p, c', g'))
    && (HashReady(p, c, g) ==> HashReady(p, c', g'))
  }

  lemma RefilledTwice(p: Settings, c: Cursor, g: Past, c1: Cursor, g1: Past, c2: Cursor, g2: Past, a: seq<Byte>,
      b: seq<Byte>)
    requires Refilled(p, c, g, c1, g1, a) && Refilled(p, c1, g1, c2, g2, b)
    ensures Refilled(p, c, g, c2, g2, a + b)
  {
    hide Pending, HashReady;
    assert g.data + a + b == g.data + (a + b);
  }

  lemma RefilledNone(p: Settings, c: Cursor, g: Past)
    ensures Refilled(p, c, g, c, g, [])
  {
    hide Pending, HashReady;
  }

  /** One slide. */
  lemma Slides(p: Settings, c: Cursor, w: seq<Byte>, head: seq<nat>, prev: seq<nat>, g: Past, w': seq<Byte>)
    requires Tracked(p, c, w, head, prev, g) && c.strstart >= WSize(p) + MaxDist(p)
    requires |w'| == |w| && w'[..WSize(p)] == w[WSize(p)..]
    ensures 512 <= WSize(p) <= 32768
    ensures var c', g' := Slide(c, WSize(p)), g.(base := g.base + WSize(p));
      && Tracked(p, c', w', SlideAll(head, WSize(p)), SlideAll(prev, WSize(p)), g')
      && Refilled(p, c, g, c', g', [])
  {
    hide Chains, Filled, HashReady, Pending, WSize;
    WSizeBounds(p);
    FilledCursor(p, c, w, g);
    FilledSlide(p, c, w, g, w');
    ChainsSlide(p, head, prev, g, g.base + c.strstart);
    var c', g' := Slide(c, WSize(p)), g.(base := g.base + WSize(p));
    FilledOnly(p, c.(strstart := c.strstart - WSize(p)), c', w', g');
    HashReadySame(p, c, g, c', g');
    PendingSlides(p, c, g, WSize(p));
  }

  lemma FilledCursor(p: Settings, c: Cursor, w: seq<Byte>, g: Past)
    requires Filled(p, c, w, g)
    ensures c.strstart + c.lookahead <= |w| == 2 * WSize(p)
  {
    hide WSize;
  }

  /** Filled depends on two fields of the cursor only. */
  lemma FilledOnly(p: Settings, c: Cursor, c': Cursor, w: seq<Byte>, g: Past)
    requires Filled(p, c, w, g) && c'.strstart == c.strstart && c'.lookahead == c.lookahead
    ensures Filled(p, c', w, g)
  {
    hide WSize;
  }

  /** HashReady depends on the absolute position only. */
  lemma HashReadySame(p: Settings, c: Cursor, g: Past, c': Cursor, g': Past)
    requires g'.base + c'.strstart == g.base + c.strstart && g'.data == g.data && c'.lookahead == c.lookahead
      && c'.insH == c.insH
    ensures HashReady(p, c, g) ==> HashReady(p, c', g')
  {
    hide Primed;
  }

  lemma PendingSlides(p: Settings, c: Cursor, g: Past, n: U32)
    requires n == WSize(p) && n + 1 <= c.strstart
    ensures Pending(p, c, g) ==> Pending(p, Slide(c, n), g.(base := g.base + n))
  {
    hide WSize, Repeats;
    if Pending(p, c, g) { PendingSlide(p, c, g, n); }
  }

  /** UPDATE_HASH on the first two bytes at strstart. */
  function StartHash(p: Settings, w: seq<Byte>, c: Cursor): nat
    requires c.strstart + 2 <= |w|
  {
    Update(p.hash, w[c.strstart], w[c.strstart + 1])
  }

  /** The cursor after n more bytes. */
  function Appended(p: Settings, c: Cursor, w': seq<Byte>, n: nat): Cursor
    requires c.strstart + c.lookahead + n <= |w'|
  {
    var c1 := c.(lookahead := c.lookahead + n);
    if c1.lookahead >= MIN_MATCH then c1.(insH := StartHash(p, w', c1)) else c1
  }

  /** Reading more input; the hash is started afresh at strstart. */
  lemma Appends(p: Settings, c: Cursor, w: seq<Byte>, head: seq<nat>, prev: seq<nat>, g: Past, w': seq<Byte>,
      read: seq<Byte>)
    requires Tracked(p, c, w, head, prev, g) && |w'| == |w|
    requires c.strstart + c.lookahead + |read| <= |w'|
      && w'[..c.strstart + c.lookahead + |read|] == w[..c.strstart + c.lookahead] + read
    ensures var c', g' := Appended(p, c, w', |read|), g.(data := g.data + read);
      Tracked(p, c', w', head, prev, g') && Refilled(p, c, g, c', g', read) && HashReady(p, c', g')
  {
    hide Chains, Filled, HashReady, Pending, WSize, Appended;
    ChainsGrow(p, head, prev, g, g.base + c.strstart, read);
    FilledAppend(p, c, w, g, w', read);
    AppendReady(p, c, w', g.(data := g.data + read), |read|);
    AppendPending(p, c, w', g, read);
    AppendCursor(p, c, w', |read|);
  }

  lemma AppendCursor(p: Settings, c: Cursor, w': seq<Byte>, n: nat)
    requires c.strstart + c.lookahead + n <= |w'|
    ensures var c' := Appended(p, c, w', n); c' == c.(lookahead := c.lookahead + n, insH := c'.insH)
  {
    hide StartHash;
  }

  lemma AppendPending(p: Settings, c: Cursor, w': seq<Byte>, g: Past, read: seq<Byte>)
    requires c.strstart + c.lookahead + |read| <= |w'|
    ensures Pending(p, c, g) ==> Pending(p, Appended(p, c, w', |read|), g.(data := g.data + read))
  {
    hide Pending, StartHash;
    if Pending(p, c, g) { PendingGrow(p, c, Appended(p, c, w', |read|), g, read); }
  }

  lemma FilledAppend(p: Settings, c: Cursor, w: seq<Byte>, g: Past, w': seq<Byte>, read: seq<Byte>)
    requires Filled(p, c, w, g) && |w'| == |w|
    requires c.strstart + c.lookahead + |read| <= |w'|
      && w'[..c.strstart + c.lookahead + |read|] == w[..c.strstart + c.lookahead] + read
    ensures Filled(p, Appended(p, c, w', |read|), w', g.(data := g.data + read))
  {
    hide WSize, StartHash;
    assert (g.data + read)[g.base..] == g.data[g.base..] + read;
  }

  lemma AppendReady(p: Settings, c: Cursor, w': seq<Byte>, g': Past, n: nat)
    requires c.strstart + c.lookahead + n <= |w'| && Filled(p, Appended(p, c, w', n), w', g')
    ensures HashReady(p, Appended(p, c, w', n), g')
  {
    hide WSize, Update, Key, Filled, Primed;
    var c' := Appended(p, c, w', n);
    if c'.lookahead >= MIN_MATCH {
      WindowByte(p, c', w', g', c.strstart);
      WindowByte(p, c', w', g', c.strstart + 1);
      StartPrimes(p.hash, w'[c.strstart], w'[c.strstart + 1]);
    }
  }

  // ----- inserting and advancing -----

  /** The string at strstart has been dealt with: inserted, or too short to be. */
  ghost predicate Entered(p: Settings, c: Cursor, w: seq<Byte>, head: seq<nat>, prev: seq<nat>, g: Past) {
    && ValidSettings(p) && Filled(p, c, w, g) && Chains(p, head, prev, g, g.base + c.strstart + 1)
    && (c.lookahead >= MIN_MATCH ==> c.insH == KeyAt(p.hash, g.data, g.base + c.strstart))
  }

  lemma EnterShort(p: Settings, c: Cursor, w: seq<Byte>, head: seq<nat>, prev: seq<nat>, g: Past)
    requires Tracked(p, c, w, head, prev, g) && c.lookahead < MIN_MATCH
    ensures Entered(p, c, w, head, prev, g)
  {
    ChainsSkip(p, head, prev, g, g.base + c.strstart, g.base + c.strstart + 1);
    hide Chains, WSize;
  }

  /** The key that INSERT_STRING computes. */
  lemma InsertKey(p: Settings, c: Cursor, w: seq<Byte>, head: seq<nat>, prev: seq<nat>, g: Past)
    requires Tracked(p, c, w, head, prev, g) && HashReady(p, c, g) && c.lookahead >= MIN_MATCH
    ensures c.strstart + 2 < |w| && g.base + c.strstart + 3 <= |g.data|
    ensures Update(p.hash, c.insH, w[c.strstart + 2]) == KeyAt(p.hash, g.data, g.base + c.strstart) < |head|
  {
    WindowByte(p, c, w, g, c.strstart + 2);
    hide WSize, Update;
  }

  lemma InsertEnters(p: Settings, c: Cursor, w: seq<Byte>, head: seq<nat>, prev: seq<nat>, g: Past)
    requires Tracked(p, c, w, head, prev, g) && c.lookahead >= MIN_MATCH
    ensures g.base + c.strstart + 3 <= |g.data| && 0 <= Slot(WSize(p), c.strstart) < |prev|
    ensures var a := g.base + c.strstart; var h := KeyAt(p.hash, g.data, a);
      && h < |head|
      && var g' := g.(ins := g.ins + {a});
      && Entered(p, c.(insH := h), w, head[h := c.strstart], prev[Slot(WSize(p), c.strstart) := head[h]], g')
      && (head[h] != 0 ==> head[h] < c.strstart && Inserted(p, g', head[h], h))
  {
    hide Chains, WSize, KeyAt, Filled, Inserted;
    FilledCursor(p, c, w, g);
    FilledData(p, c, w, g);
    var a := g.base + c.strstart;
    var h := KeyAt(p.hash, g.data, a);
    var g' := g.(ins := g.ins + {a});
    ChainsInsert(p, head, prev, g, a, c.strstart);
    HeadBelow(p, head, prev, g, a, h, g');
    FilledOnly(p, c, c.(insH := h), w, g);
    FilledPast(p, c.(insH := h), w, g, g');
  }

  lemma FilledData(p: Settings, c: Cursor, w: seq<Byte>, g: Past)
    requires Filled(p, c, w, g)
    ensures |g.data| == g.base + c.strstart + c.lookahead
  {
    hide WSize;
  }

  lemma FilledPast(p: Settings, c: Cursor, w: seq<Byte>, g: Past, g': Past)
    requires Filled(p, c, w, g) && g'.data == g.data && g'.base == g.base
    ensures Filled(p, c, w, g')
  {
    hide WSize;
  }

  lemma HeadBelow(p: Settings, head: seq<nat>, prev: seq<nat>, g: Past, cur: nat, h: nat, g': Past)
    requires Chains(p, head, prev, g, cur) && h < |head| && g' == g.(ins := g'.ins) && g.ins <= g'.ins
    ensures head[h] != 0 ==> g.base + head[h] < cur && Inserted(p, g', head[h], h)
  {
    hide WSize, Key;
    assert GoodHead(p, head, g, h);
  }

  /** strstart++, lookahead-- */
  function Advance(c: Cursor, n: nat): Cursor
    requires n <= c.lookahead && c.strstart + n < 0x1_0000_0000
  {
    c.(strstart := c.strstart + n, lookahead := c.lookahead - n)
  }

  lemma EnteredAdvance(p: Settings, c: Cursor, w: seq<Byte>, head: seq<nat>, prev: seq<nat>, g: Past)
    requires Entered(p, c, w, head, prev, g) && c.lookahead >= 1
    ensures c.strstart + 1 < 0x1_0000_0000
    ensures Tracked(p, Advance(c, 1), w, head, prev, g) && HashReady(p, Advance(c, 1), g)
  {
    WSizeBounds(p);
    FilledCursor(p, c, w, g);
    FilledData(p, c, w, g);
    hide Chains, WSize, Key, Filled, Primed;
    FilledAdvance(p, c, w, g, 1);
    if c.lookahead > MIN_MATCH {
      var s := g.base + c.strstart;
      KeyPrimes(p.hash, g.data[s], g.data[s + 1], g.data[s + 2]);
    }
  }

  lemma FilledAdvance(p: Settings, c: Cursor, w: seq<Byte>, g: Past, n: nat)
    requires Filled(p, c, w, g) && n <= c.lookahead && c.strstart + n < 0x1_0000_0000
    ensures Filled(p, Advance(c, n), w, g)
  {
    hide WSize;
  }

  class Matcher {
    const p: Settings
    var c: Cursor
    const window: array<Byte>
    const head: array<nat>
    const prev: array<nat>
    const dBuf: array<nat>
    const lBuf: array<Byte>
    /** The blocks handed to the bit output so far. */
    var blocks: seq<Block>
    ghost var g: Past

    /** The arrays are as large as the settings say, and different. */
    ghost predicate Arrays()
      reads this
    {
      && ValidSettings(p) && window.Length == 2 * WSize(p) && head.Length == Pow2(p.hash.bits)
      && prev.Length == WSize(p)
      && dBuf.Length == p.litBufsize == lBuf.Length && c.lastLit <= p.litBufsize
      && head != prev && head != dBuf && prev != dBuf && window != lBuf
    }

    /** The tokens of the current block. */
    ghost function Buffered(): seq<Token>
      requires c.lastLit <= dBuf.Length && c.lastLit <= lBuf.Length
      reads this, dBuf, lBuf
    {
      Tokens(dBuf[..c.lastLit], lBuf[..c.lastLit])
    }

    ghost predicate Tracks()
      reads this, window, head, prev
    {
      Arrays() && Tracked(p, c, window[..], head[..], prev[..], g)
    }

    /** deflateInit2 and lm_init */
    constructor (p: Settings)
      requires ValidSettings(p)
      ensures this.p == p && Tracks() && HashReady(p, c, g)
      ensures c.strstart == c.lookahead == c.blockStart == c.lastLit == 0 && !c.available && c.matchLength == 2
        && c.prevLength == 2
      ensures blocks == [] && g.data == [] && g.base == 0
      ensures fresh(window) && fresh(head) && fresh(prev) && fresh(dBuf) && fresh(lBuf)
    {
      this.p := p;
      c := Cursor(0, 0, 0, 0, 2, 0, 2, 0, false, 0);
      window := new Byte[2 * WSize(p)];
      head := new nat[Pow2(p.hash.bits)](_ => 0);
      prev := new nat[WSize(p)](_ => 0);
      dBuf := new nat[p.litBufsize];
      lBuf := new Byte[p.litBufsize];
      blocks := [];
      g := Past([], 0, {});
      new;
      hide Pow2;
      assert Filled(p, c, window[..], g);
    }

    /** What deflate() does after the block of a full flush: no later match reaches back before it. */
    method ForgetHistory()
      requires Tracks()
      modifies this`c, this`g, head
      ensures Tracks() && g.data == old(g.data) && g.ins == {} && (forall h :: 0 <= h < head.Length ==> head[h] == 0)
      ensures c == if old(c).lookahead == 0 then old(c).(strstart := 0, blockStart := 0) else old(c)
      ensures g.base == if old(c).lookahead == 0 then |g.data| else old(g.base)
      ensures HashReady(p, old(c), old(g)) ==> HashReady(p, c, g)
    {
      hide Pow2, WSize, Chains, Filled;
      ClearHash(head);
      Forgotten(p, c, window[..], old(head[..]), head[..], prev[..], g);
      g := g.(ins := {});
      if c.lookahead == 0 {
        g := g.(base := |g.data|);
        c := c.(strstart := 0, blockStart := 0);
      }
    }

    /** The slide at the start of fill_window's loop. */
    method SlideWindow()
      requires Tracks() && c.strstart >= WSize(p) + MaxDist(p)
      modifies this`c, this`g, window, head, prev
      ensures Tracks() && Refilled(p, old(c), old(g), c, g, []) && c.strstart == old(c.strstart) - WSize(p)
        && c.lookahead == old(c.lookahead)
    {
      hide Tracked, Refilled, WSize, Pow2;
      TrackedCursor(p, c, window[..], head[..], prev[..], g);
      Slides(p, c, window[..], head[..], prev[..], g, window[WSize(p)..] + window[WSize(p)..]);
      ghost var w := window[..];
      MoveDown(window, WSize(p));
      assert window[..] == w[WSize(p)..] + w[WSize(p)..];
      SlideTable(head, WSize(p));
      SlideTable(prev, WSize(p));
      c := Slide(c, WSize(p));
      g := g.(base := g.base + WSize(p));
    }

    /** fill_window(): returns what is left of the input. */
    method FillWindow(next: seq<Byte>) returns (rest: seq<Byte>)
      requires Tracks() && c.lookahead < MIN_LOOKAHEAD
      modifies this`c, this`g, window, head, prev
      ensures Tracks() && |rest| <= |next| && rest == next[|next| - |rest|..]
      ensures Refilled(p, old(c), old(g), c, g, next[..|next| - |rest|])
      ensures c.strstart + MIN_LOOKAHEAD <= 2 * WSize(p) && (c.lookahead >= MIN_LOOKAHEAD || rest == [])
    {
      hide Tracked, Refilled, WSize, Pow2;
      rest := next;
      ghost var c0, g0, read := c, g, next[..0];
      RefilledNone(p, c, g);
      var more := true;
      while more
        invariant Tracks() && (more ==> c.lookahead < MIN_LOOKAHEAD)
        invariant |rest| <= |next| && rest == next[|next| - |rest|..] && read == next[..|next| - |rest|]
        invariant Refilled(p, c0, g0, c, g, read)
        invariant !more ==> c.strstart + MIN_LOOKAHEAD <= 2 * WSize(p) && (c.lookahead >= MIN_LOOKAHEAD || rest == [])
        decreases if more then 1 else 0, |rest|
      {
        TrackedCursor(p, c, window[..], head[..], prev[..], g);
        var wsize := WSize(p);
        var space := 2 * wsize - c.lookahead - c.strstart;
        if c.strstart >= wsize + MaxDist(p) {
          ghost var c1, g1 := c, g;
          SlideWindow();
          RefilledTwice(p, c0, g0, c1, g1, c, g, read, []);
          assert read + [] == read;
          space := space + wsize;
        }
        if rest == [] { return; }
        var n := if |rest| <= space then |rest| else space;
        assert next[..|next| - |rest| + n] == read + rest[..n];
        read := next[..|next| - |rest| + n];
        rest, more := Read(rest, n, c0, g0, next[..|next| - |rest|]);
      }
    }

    /** One read of fill_window's loop. */
    method Read(next: seq<Byte>, n: nat, ghost c0: Cursor, ghost g0: Past, ghost read: seq<Byte>)
      returns (rest: seq<Byte>, more: bool)
      requires Tracks() && n <= |next| && c.strstart + c.lookahead + n <= 2 * WSize(p)
        && Refilled(p, c0, g0, c, g, read)
      modifies this`c, this`g, window
      ensures Tracks() && rest == next[n..] && Refilled(p, c0, g0, c, g, read + next[..n])
        && c.strstart == old(c.strstart)
      ensures more == (c.lookahead < MIN_LOOKAHEAD && rest != [])
    {
      hide Tracked, Refilled, WSize, Pow2, Appended;
      TrackedCursor(p, c, window[..], head[..], prev[..], g);
      ghost var w, c1, g1 := window[..], c, g;
      ReadBuf(window, c.strstart + c.lookahead, next, n);
      rest := next[n..];
      Appends(p, c, w, head[..], prev[..], g, window[..], next[..n]);
      AppendCursor(p, c, window[..], n);
      var c' := c.(lookahead := c.lookahead + n);
      if c'.lookahead >= MIN_MATCH {
        c' := c'.(insH := Update(p.hash, window[c'.strstart], window[c'.strstart + 1]));
      }
      assert c' == Appended(p, c, window[..], n) by { AppendedIs(p, c, window[..], n); }
      c := c';
      g := g.(data := g.data + next[..n]);
      RefilledTwice(p, c0, g0, c1, g1, c, g, read, next[..n]);
      more := c.lookahead < MIN_LOOKAHEAD && rest != [];
    }

    ghost predicate HasEntered()
      reads this, window, head, prev
    {
      Arrays() && Entered(p, c, window[..], head[..], prev[..], g)
    }

    /** INSERT_STRING of the string at strstart; returns the previous head of its chain. */
    method InsertString() returns (hashHead: nat)
      requires Tracks() && HashReady(p, c, g) && c.lookahead >= MIN_MATCH
      modifies this`c, this`g, head, prev
      ensures HasEntered() && c == old(c).(insH := c.insH) && g == old(g).(ins := g.ins)
      ensures c.insH < head.Length && c.strstart < 2 * WSize(p) && g.ins == old(g.ins) + {g.base + c.strstart}
      ensures hashHead == old(head[..])[c.insH] && head[..] == old(head[..])[c.insH := c.strstart]
      ensures prev[..] == old(prev[..])[Slot(WSize(p), c.strstart) := hashHead]
      ensures hashHead != 0 ==> hashHead < c.strstart && Inserted(p, g, hashHead, c.insH)
    {
      hide Tracked, WSize, Pow2, Update, Key, HashReady, Entered, Inserted;
      TrackedCursor(p, c, window[..], head[..], prev[..], g);
      InsertKey(p, c, window[..], head[..], prev[..], g);
      InsertEnters(p, c, window[..], head[..], prev[..], g);
      ghost var head0, prev0 := head[..], prev[..];
      c := c.(insH := Update(p.hash, c.insH, window[c.strstart + 2]));
      hashHead := head[c.insH];
      prev[Slot(WSize(p), c.strstart)] := hashHead;
      head[c.insH] := c.strstart;
      g := g.(ins := g.ins + {g.base + c.strstart});
      assert head[..] == head0[c.insH := c.strstart];
      assert prev[..] == prev0[Slot(WSize(p), c.strstart) := hashHead];
    }

    /** The string at strstart was too short to insert. */
    ghost method SkipString()
      requires Tracks() && c.lookahead < MIN_MATCH
      ensures HasEntered()
    {
      EnterShort(p, c, window[..], head[..], prev[..], g);
    }

    /** strstart++, lookahead-- */
    method Move()
      requires HasEntered() && c.lookahead >= 1
      modifies this`c
      ensures Tracks() && HashReady(p, c, g)
      ensures c == old(c).(strstart := c.strstart, lookahead := c.lookahead)
      ensures c.strstart == old(c.strstart) + 1 && c.lookahead == old(c.lookahead) - 1
    {
      hide Entered, Tracked, HashReady;
      EnteredAdvance(p, c, window[..], head[..], prev[..], g);
      c := Advance(c, 1);
    }

    /** _tr_tally_lit and _tr_tally_dist: d is 0 for a literal; returns whether the buffers are full. */
    method Tally(d: nat, l: Byte) returns (full: bool)
      requires Arrays() && c.lastLit < p.litBufsize
      modifies this`c, dBuf, lBuf
      ensures Arrays() && Buffered() == old(Buffered()) + [TokenAt(d, l)]
      ensures c == old(c).(lastLit := old(c.lastLit) + 1) && full == (c.lastLit == p.litBufsize - 1)
    {
      hide WSize, Pow2;
      ghost var n, d0, l0 := c.lastLit, dBuf[..c.lastLit], lBuf[..c.lastLit];
      dBuf[c.lastLit] := d;
      lBuf[c.lastLit] := l;
      c := c.(lastLit := c.lastLit + 1);
      assert dBuf[..n + 1] == d0 + [d] && lBuf[..n + 1] == l0 + [l];
      TokensMore(d0, l0, dBuf[..n + 1], lBuf[..n + 1], d, l);
      full := c.lastLit == p.litBufsize - 1;
    }

    /** FLUSH_BLOCK_ONLY: hand the block over and start the next one at strstart. */
    method FlushBlock(last: bool)
      requires Arrays() && Filled(p, c, window[..], g) && g.base + c.blockStart >= 0 && c.blockStart <= c.strstart
      modifies this`c, this`blocks
      ensures c == old(c).(blockStart := c.strstart, lastLit := 0) && Arrays()
      ensures |blocks| == |old(blocks)| + 1 && blocks == old(blocks) + [blocks[|blocks| - 1]]
      ensures var b := blocks[|blocks| - 1];
        b.last == last && HandedOver(g, old(c.blockStart), c.strstart, b, old(Buffered()))
    {
      hide WSize, Pow2, Tokens;
      FilledCursor(p, c, window[..], g);
      var stored: Option<seq<Byte>> := None;
      if c.blockStart >= 0 {
        stored := Some(window[c.blockStart..c.strstart]);
        FilledSlice(p, c, window[..], g);
      }
      var b := Block.Block(stored, c.strstart - c.blockStart, Tokens(dBuf[..c.lastLit], lBuf[..c.lastLit]), last);
      blocks := blocks + [b];
      c := c.(blockStart := c.strstart, lastLit := 0);
    }
  }

  lemma FilledSlice(p: Settings, c: Cursor, w: seq<Byte>, g: Past)
    requires Filled(p, c, w, g) && 0 <= c.blockStart <= c.strstart
    ensures c.strstart <= |w| && g.base + c.strstart <= |g.data|
    ensures w[c.blockStart..c.strstart] == g.data[g.base + c.blockStart..g.base + c.strstart]
  {
    hide WSize;
    SliceOfSlice(w, 0, c.strstart + c.lookahead, c.blockStart, c.strstart);
    SliceOfSlice(g.data, g.base, |g.data|, c.blockStart, c.strstart);
    assert g.data[g.base..] == g.data[g.base..|g.data|]
      && w[..c.strstart + c.lookahead] == w[0..c.strstart + c.lookahead];
  }

  lemma SliceOfSlice(s: seq<Byte>, lo: nat, hi: nat, a: nat, b: nat)
    requires lo <= hi <= |s| && a <= b <= hi - lo
    ensures s[lo..hi][a..b] == s[lo + a..lo + b]
  {
    var t := s[lo..hi][a..b];
    assert |t| == b - a;
    forall i | 0 <= i < b - a
      ensures t[i] == s[lo + a..lo + b][i]
    {
      var j := a + i;
      assert s[lo..hi][j] == s[lo + j];
    }
    assert t == s[lo + a..lo + b];
  }

  lemma AppendedIs(p: Settings, c: Cursor, w: seq<Byte>, n: nat)
    requires c.strstart + c.lookahead + n <= |w|
    ensures var c1 := c.(lookahead := c.lookahead + n);
      Appended(p, c, w, n) ==
        if c1.lookahead >= MIN_MATCH then c1.(insH := Update(p.hash, w[c1.strstart], w[c1.strstart + 1])) else c1
  {
  }

  lemma TrackedCursor(p: Settings, c: Cursor, w: seq<Byte>, head: seq<nat>, prev: seq<nat>, g: Past)
    requires Tracked(p, c, w, head, prev, g)
    ensures 512 <= WSize(p) <= 32768 && c.strstart + c.lookahead <= |w| == 2 * WSize(p)
      && |g.data| == g.base + c.strstart + c.lookahead
  {
    hide Chains, Pow2;
    WSizeBounds(p);
  }
}
