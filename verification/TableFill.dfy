/**
  How each write of inflate_table's main loop extends the set of streams decoded correctly.
  `syms` gives operation and value of each symbol.
 */
module TableFill {
  import opened Bits
  import opened Canonical
  import opened DecodeTable

  /** The table at b already decodes stream h to sym; links are the root entries that lead to sub-tables. */
  ghost predicate Done(t: seq<Entry>, b: nat, root: nat, links: set<nat>, syms: seq<Entry>, lens: seq<nat>, sym: nat,
      h: nat)
    requires |lens| <= |syms| && IsSymbol(lens, sym)
  {
    var i := Lo(h, root);
    && b + i < |t|
    && if lens[sym] <= root then i !in links && t[b + i] == syms[sym].(bits := lens[sym])
       else
         && i in links && IsLink(t[b + i]) && t[b + i].bits == root
         && var j := b + t[b + i].val + Lo(Hi(h, root), t[b + i].op);
            j < |t| && t[j] == syms[sym].(bits := lens[sym] - root)
  }

  /** The first k symbols in code order are decoded. */
  ghost predicate Filled(t: seq<Entry>, b: nat, root: nat, links: set<nat>, syms: seq<Entry>, lens: seq<nat>, k: nat)
    requires |lens| <= |syms|
  {
    forall sym: nat, h: nat {:trigger Matches(lens, sym, h)} ::
      Matches(lens, sym, h) && Slot(lens, sym) < k ==> Done(t, b, root, links, syms, lens, sym, h)
  }

  /** Root entry i leads to a whole sub-table between the root table and next. */
  ghost predicate GoodLink(t: seq<Entry>, b: nat, root: nat, i: nat, next: nat) {
    && i < Pow2(root) && b + i < |t| && IsLink(t[b + i]) && t[b + i].bits == root
    && Pow2(root) <= t[b + i].val && b + t[b + i].val + Pow2(t[b + i].op) <= next
  }

  ghost predicate Linked(t: seq<Entry>, b: nat, root: nat, links: set<nat>, next: nat) {
    forall i: nat {:trigger i in links} :: i in links ==> GoodLink(t, b, root, i, next)
  }

  /** The current symbol: index k in code order, code word huff. */
  ghost predicate Current(lens: seq<nat>, sym: nat, k: nat, huff: nat) {
    && EndOf(lens, MAXBITS) <= Pow2(MAXBITS)
    && IsSymbol(lens, sym) && Slot(lens, sym) == k
    && huff == Rev(CodeOf(lens, sym), lens[sym])
  }

  /** Only streams of the current symbol start with its code word. */
  lemma NotCurrent(lens: seq<nat>, sym: nat, k: nat, huff: nat, sym': nat, h: nat)
    requires Current(lens, sym, k, huff) && Matches(lens, sym', h)
    ensures Slot(lens, sym') != k <==> Lo(h, lens[sym]) != huff
    ensures Slot(lens, sym') == k ==> sym' == sym
  {
    SlotInjective(lens, sym, sym');
    if Lo(h, lens[sym]) == huff {
      MatchUnique(lens, sym, sym', h);
    }
  }

  /** From t to t', e was written at the indices of a table of curr bits whose low bits are idx, from index fill on. */
  ghost predicate CopiedFrom(t: seq<Entry>, t': seq<Entry>, at: nat, idx: nat, curr: nat, e: Entry, fill: nat) {
    && |t'| == |t| && at + Pow2(curr) <= |t|
    && forall j {:trigger t'[j]} :: 0 <= j < |t| ==>
         t'[j] == if at + fill <= j < at + Pow2(curr) && Lo(j - at, e.bits) == idx then e else t[j]
  }

  ghost predicate Copied(t: seq<Entry>, t': seq<Entry>, at: nat, idx: nat, curr: nat, e: Entry) {
    CopiedFrom(t, t', at, idx, curr, e, 0)
  }

  lemma CopyAt(t: seq<Entry>, t': seq<Entry>, next: nat, curr: nat, huff: nat, e: Entry, s: nat)
    requires Copied(t, t', next, huff, curr, e) && s < Pow2(curr)
    ensures t'[next + s] == if Lo(s, e.bits) == huff then e else t[next + s]
  {
    assert next + s - next == s;
  }

  lemma CopyBelow(t: seq<Entry>, t': seq<Entry>, next: nat, curr: nat, huff: nat, e: Entry, j: nat)
    requires Copied(t, t', next, huff, curr, e) && j < next
    ensures t'[j] == t[j]
  {
  }

  /** One more write, at the m-th group of Pow2(e.bits) indices. */
  lemma CopyGroup(t: seq<Entry>, t': seq<Entry>, at: nat, idx: nat, curr: nat, e: Entry, m: nat)
    requires idx < Pow2(e.bits) && Shl(m + 1, e.bits) <= Pow2(curr)
    requires CopiedFrom(t, t', at, idx, curr, e, Shl(m + 1, e.bits))
    ensures Shl(m + 1, e.bits) == Shl(m, e.bits) + Pow2(e.bits)
    ensures CopiedFrom(t, t'[at + idx + Shl(m, e.bits) := e], at, idx, curr, e, Shl(m, e.bits))
  {
    ShlAdd(m, 1, e.bits);
    ShlOne(e.bits);
    var fill, p := Shl(m, e.bits), Pow2(e.bits);
    var t'' := t'[at + idx + fill := e];
    forall j {:trigger t''[j]} | 0 <= j < |t|
      ensures t''[j] == if at + fill <= j < at + Pow2(curr) && Lo(j - at, e.bits) == idx then e else t[j]
    {
      if at + fill <= j < at + fill + p {
        Join(m, j - at - fill, e.bits);
        assert j - at == fill + (j - at - fill);
      }
    }
  }

  /** A code no longer than root is replicated over the root table. */
  lemma FillShort(t: seq<Entry>, t': seq<Entry>, b: nat, root: nat, syms: seq<Entry>, lens: seq<nat>, sym: nat, k: nat,
      huff: nat)
    requires |lens| <= |syms| && Current(lens, sym, k, huff) && lens[sym] <= root
    requires Copied(t, t', b, huff, root, syms[sym].(bits := lens[sym]))
    requires Filled(t, b, root, {}, syms, lens, k)
    ensures Filled(t', b, root, {}, syms, lens, k + 1)
  {
    forall sym': nat, h: nat | Matches(lens, sym', h) && Slot(lens, sym') < k + 1
      ensures Done(t', b, root, {}, syms, lens, sym', h)
    {
      NotCurrent(lens, sym, k, huff, sym', h);
      LoLo(h, lens[sym], root);
      CopyAt(t, t', b, root, huff, syms[sym].(bits := lens[sym]), Lo(h, root));
    }
  }

  lemma LoParts(h: nat, huff: nat, a: nat, c: nat)
    requires huff < Pow2(a + c)
    ensures Lo(h, a + c) == huff <==> Lo(h, a) == Lo(huff, a) && Lo(Hi(h, a), c) == Hi(huff, a)
  {
    var x := Lo(h, a + c);
    LoLo(h, a, a + c);
    LoHi(h, a, c);
    SameParts(x, huff, a);
  }

  lemma SameParts(x: nat, y: nat, n: nat)
    ensures x == y <==> Lo(x, n) == Lo(y, n) && Hi(x, n) == Hi(y, n)
  {
    Split(x, n);
    Split(y, n);
  }

  lemma CurrentParts(lens: seq<nat>, sym: nat, k: nat, huff: nat, sym': nat, h: nat, root: nat, d: nat)
    requires Current(lens, sym, k, huff) && Matches(lens, sym', h) && lens[sym] == root + d
    ensures Slot(lens, sym') == k <==> Lo(h, root) == Lo(huff, root) && Lo(Hi(h, root), d) == Hi(huff, root)
    ensures Slot(lens, sym') == k ==> sym' == sym
  {
    NotCurrent(lens, sym, k, huff, sym', h);
    LoParts(h, huff, root, d);
  }

  /** Root entry low links to the sub-table at next. */
  ghost predicate LinksTo(t: seq<Entry>, b: nat, root: nat, low: nat, next: nat, curr: nat) {
    && low < Pow2(root) && 0 < curr < 16
    && b + Pow2(root) <= next <= |t| && t[b + low] == Entry(curr, root, next - b)
  }

  /** A code longer than root is replicated over the current sub-table, at next with curr index bits. */
  lemma FillLongOne(t: seq<Entry>, t': seq<Entry>, b: nat, root: nat, links: set<nat>, low: nat, next: nat, curr: nat,
                    syms: seq<Entry>, lens: seq<nat>, sym: nat, k: nat, huff: nat, sym': nat, h: nat)
    requires |lens| <= |syms| && Current(lens, sym, k, huff) && root < lens[sym] <= root + curr
    requires low == Lo(huff, root) && low in links && LinksTo(t, b, root, low, next, curr)
    requires Copied(t, t', next, Hi(huff, root), curr, syms[sym].(bits := lens[sym] - root))
    requires Linked(t, b, root, links - {low}, next)
    requires Matches(lens, sym', h)
    requires Slot(lens, sym') == k || Done(t, b, root, links, syms, lens, sym', h)
    ensures Done(t', b, root, links, syms, lens, sym', h)
  {
    var d := lens[sym] - root;
    CurrentParts(lens, sym, k, huff, sym', h, root, d);
    if Slot(lens, sym') == k {
      HitLong(t, t', b, root, links, low, next, curr, Hi(huff, root), syms, lens, sym, h);
    } else {
      KeepLong(t, t', b, root, links, low, next, curr, Hi(huff, root), syms[sym].(bits := d), syms, lens, sym', h);
    }
  }

  lemma HitLong(t: seq<Entry>, t': seq<Entry>, b: nat, root: nat, links: set<nat>, low: nat, next: nat, curr: nat,
                huff: nat, syms: seq<Entry>, lens: seq<nat>, sym: nat, h: nat)
    requires |lens| <= |syms| && IsSymbol(lens, sym) && root < lens[sym] <= root + curr
    requires low in links && LinksTo(t, b, root, low, next, curr)
    requires Copied(t, t', next, huff, curr, syms[sym].(bits := lens[sym] - root))
    requires Lo(h, root) == low && Lo(Hi(h, root), lens[sym] - root) == huff
    ensures Done(t', b, root, links, syms, lens, sym, h)
  {
    var e := syms[sym].(bits := lens[sym] - root);
    LoLo(Hi(h, root), e.bits, curr);
    CopyBelow(t, t', next, curr, huff, e, b + low);
    CopyAt(t, t', next, curr, huff, e, Lo(Hi(h, root), curr));
  }

  /** Writing one code into the current sub-table does not disturb the others. */
  lemma KeepLong(t: seq<Entry>, t': seq<Entry>, b: nat, root: nat, links: set<nat>, low: nat, next: nat, curr: nat,
                 huff: nat, e: Entry, syms: seq<Entry>, lens: seq<nat>, sym: nat, h: nat)
    requires |lens| <= |syms| && IsSymbol(lens, sym) && e.bits <= curr
    requires low in links && LinksTo(t, b, root, low, next, curr) && Linked(t, b, root, links - {low}, next)
    requires Copied(t, t', next, huff, curr, e)
    requires Done(t, b, root, links, syms, lens, sym, h)
    requires Lo(h, root) != low || Lo(Hi(h, root), e.bits) != huff
    ensures Done(t', b, root, links, syms, lens, sym, h)
  {
    var i, s := Lo(h, root), Lo(Hi(h, root), curr);
    CopyBelow(t, t', next, curr, huff, e, b + i);
    if lens[sym] > root {
      if i == low {
        LoLo(Hi(h, root), e.bits, curr);
        CopyAt(t, t', next, curr, huff, e, s);
      } else {
        assert i in links - {low};
        assert GoodLink(t, b, root, i, next);
        var j := b + t[b + i].val + Lo(Hi(h, root), t[b + i].op);
        CopyBelow(t, t', next, curr, huff, e, j);
      }
    }
  }

  lemma FillLong(t: seq<Entry>, t': seq<Entry>, b: nat, root: nat, links: set<nat>, low: nat, next: nat, curr: nat,
                 syms: seq<Entry>, lens: seq<nat>, sym: nat, k: nat, huff: nat)
    requires |lens| <= |syms| && Current(lens, sym, k, huff) && root < lens[sym] <= root + curr
    requires low == Lo(huff, root) && low in links && LinksTo(t, b, root, low, next, curr)
    requires Copied(t, t', next, Hi(huff, root), curr, syms[sym].(bits := lens[sym] - root))
    requires Linked(t, b, root, links - {low}, next)
    requires Filled(t, b, root, links, syms, lens, k)
    ensures Filled(t', b, root, links, syms, lens, k + 1)
  {
    forall sym': nat, h: nat | Matches(lens, sym', h) && Slot(lens, sym') < k + 1
      ensures Done(t', b, root, links, syms, lens, sym', h)
    {
      FillLongOne(t, t', b, root, links, low, next, curr, syms, lens, sym, k, huff, sym', h);
    }
  }

  lemma SlotOrder(lens: seq<nat>, a: nat, b: nat)
    requires IsSymbol(lens, a) && IsSymbol(lens, b) && Slot(lens, a) < Slot(lens, b)
    ensures End(lens, a) <= Start(lens, b)
  {
    if lens[a] < lens[b] || (lens[a] == lens[b] && a < b) {
      Ordered(lens, a, b);
    } else {
      SlotInjective(lens, b, a);
    }
  }

  /** Streams below the start of slot r are not in slot r. */
  lemma OtherSlot(h: nat, root: nat, r: nat)
    requires root <= MAXBITS && r < Pow2(root) && Rev(h, MAXBITS) < Shl(r, MAXBITS - root)
    ensures Lo(h, root) != Rev(r, root)
  {
    RevLow(h, root, MAXBITS - root);
    Split(Rev(h, MAXBITS), MAXBITS - root);
    if Rev(h, root) >= r {
      ShlMono(r, Rev(h, root), MAXBITS - root);
    }
    LoIsRev(h, r, root);
  }

  /** A new sub-table at next is linked from the root entry of slot r, where the current code starts. */
  lemma LinkSlot(t: seq<Entry>, b: nat, root: nat, links: set<nat>, r: nat, next: nat, e: Entry,
                 syms: seq<Entry>, lens: seq<nat>, sym: nat, k: nat)
    requires |lens| <= |syms| && EndOf(lens, MAXBITS) <= Pow2(MAXBITS)
    requires IsSymbol(lens, sym) && Slot(lens, sym) == k && root <= MAXBITS
    requires r < Pow2(root) && Start(lens, sym) == Shl(r, MAXBITS - root)
    requires b + Pow2(root) <= next <= |t|
    requires Linked(t, b, root, links, next) && Filled(t, b, root, links, syms, lens, k)
    ensures Filled(t[b + Rev(r, root) := e], b, root, links + {Rev(r, root)}, syms, lens, k)
  {
    var low := Rev(r, root);
    forall sym': nat, h: nat | Matches(lens, sym', h) && Slot(lens, sym') < k
      ensures Done(t[b + low := e], b, root, links + {low}, syms, lens, sym', h)
    {
      SlotOrder(lens, sym', sym);
      MatchIsInterval(lens, sym', h);
      OtherSlot(h, root, r);
      LinkOne(t, b, root, links, low, next, e, syms, lens, sym', h);
    }
  }

  lemma LinkOne(t: seq<Entry>, b: nat, root: nat, links: set<nat>, low: nat, next: nat, e: Entry,
                syms: seq<Entry>, lens: seq<nat>, sym: nat, h: nat)
    requires |lens| <= |syms| && IsSymbol(lens, sym) && low < Pow2(root)
    requires b + Pow2(root) <= next <= |t| && Linked(t, b, root, links, next)
    requires Done(t, b, root, links, syms, lens, sym, h) && Lo(h, root) != low
    ensures Done(t[b + low := e], b, root, links + {low}, syms, lens, sym, h)
  {
  }
}
